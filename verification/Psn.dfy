/**
  Packet sequence numbers.

  A PSN on the wire and in `struct uet_pdc` is a 32-bit unsigned integer, and every
  comparison is serial arithmetic: subtract, then reinterpret as signed (the style of
  section 3.2 of RFC 1982).  The protocol modules reason about unbounded PSNs; this
  module says exactly when the 32-bit comparisons and the 16-bit wire offsets agree
  with them.
 */
module Psn {

  const PSN_SPACE: int := 0x1_0000_0000
  const HALF_SPACE: int := 0x8000_0000
  const MPR: int := 128

  type u32 = x: int | 0 <= x < PSN_SPACE
  type i16 = x: int | -0x8000 <= x < 0x8000

  /** Truncation of an unbounded PSN to its 32-bit representation. */
  function Wrap(x: int): (r: u32) {
    x % PSN_SPACE
  }

  /** `(int32_t)(a - b)`: UET_PDS_PSN_OFFSET. */
  function Offset(a: u32, b: u32): (r: int)
    ensures -HALF_SPACE <= r < HALF_SPACE
    ensures Wrap(b + r) == a
  {
    var d := Wrap(a - b);
    if d < HALF_SPACE then d else d - PSN_SPACE
  }

  /** UET_PDS_PSN_AFTER. */
  predicate After(a: u32, b: u32) {
    Offset(a, b) > 0
  }

  /** UET_PDS_PSN_AFTER_EQ. */
  predicate AfterEq(a: u32, b: u32) {
    Offset(a, b) >= 0
  }

  /** UET_PDS_UPDATE_PSN: the later of the two, ties keep the old one. */
  function Later(was: u32, seen: u32): (r: u32) {
    if After(seen, was) then seen else was
  }

  /** PSN_IN_MPR. */
  predicate InMpr(psn: u32, base: u32) {
    Wrap(psn - base) < MPR
  }

  /** PSN_IN_PRIOR_MPR. */
  predicate InPriorMpr(psn: u32, base: u32) {
    InMpr(psn, Wrap(base - MPR))
  }

  /** The implicit `int16_t` conversion at the return of `psn_2c_offset`. */
  function Trunc16(x: int): (r: i16) {
    var d := x % 0x1_0000;
    if d < 0x8000 then d else d - 0x1_0000
  }

  /** `psn_2c_offset(base, psn)`: the signed distance as carried in a 16-bit field. */
  function WireOffset(base: u32, psn: u32): (r: i16) {
    Trunc16(Offset(psn, base))
  }

  /** How the receiver rebuilds a PSN from a base and a 16-bit offset. */
  function FromWire(base: u32, off: i16): (r: u32) {
    Wrap(base + off)
  }

  /** Wrapping is a ring homomorphism for differences. */
  lemma WrapDiff(a: int, b: int)
    ensures Wrap(Wrap(a) - Wrap(b)) == Wrap(a - b)
    ensures Wrap(Wrap(a) + b) == Wrap(a + b)
  {
    var qa, qb := a / PSN_SPACE, b / PSN_SPACE;
    assert a == qa * PSN_SPACE + Wrap(a);
    assert b == qb * PSN_SPACE + Wrap(b);
    WrapShift(Wrap(a) - Wrap(b), qa - qb);
    assert Wrap(a) - Wrap(b) + (qa - qb) * PSN_SPACE == a - b;
    WrapShift(Wrap(a) + b, qa);
  }

  lemma WrapShift(x: int, k: int)
    ensures Wrap(x + k * PSN_SPACE) == Wrap(x)
  {
  }

  /** Serial comparison is exact just when the PSNs are less than half the space apart. */
  lemma OffsetExact(a: int, b: int)
    ensures Offset(Wrap(a), Wrap(b)) == a - b <==> -HALF_SPACE <= a - b < HALF_SPACE
  {
  }

  /** The representative of a distance that is less than the whole space. */
  lemma WrapNear(d: int)
    requires -PSN_SPACE <= d < PSN_SPACE
    ensures Wrap(d) == if d >= 0 then d else d + PSN_SPACE
  {
  }

  /** Window membership on 32-bit values is window membership on the PSNs behind them. */
  lemma WindowExact(p: int, base: int)
    requires -HALF_SPACE <= p - base < HALF_SPACE
    ensures InMpr(Wrap(p), Wrap(base)) <==> 0 <= p - base < MPR
    ensures InPriorMpr(Wrap(p), Wrap(base)) <==> -MPR <= p - base < 0
    ensures 0 <= p - base < MPR ==> Wrap(Wrap(p) - Wrap(base)) == p - base
  {
    InMprDistance(p, base);
    assert Wrap(Wrap(base) - MPR) == Wrap(base - MPR) by { WrapDiff(base, -MPR); }
    InMprDistance(p, base - MPR);
    WrapNear(p - base);
    WrapNear(p - (base - MPR));
  }

  lemma InMprDistance(p: int, base: int)
    ensures InMpr(Wrap(p), Wrap(base)) <==> Wrap(p - base) < MPR
    ensures Wrap(Wrap(p) - Wrap(base)) == Wrap(p - base)
  {
  }

  lemma LaterExact(was: int, seen: int)
    requires -HALF_SPACE <= seen - was < HALF_SPACE
    ensures Later(Wrap(was), Wrap(seen)) == Wrap(if seen > was then seen else was)
  {
  }

  /** A PSN survives its trip through a 16-bit offset exactly when it is within 2^15 of the base. */
  lemma WireExact(base: int, psn: int)
    requires -HALF_SPACE <= psn - base < HALF_SPACE
    ensures FromWire(Wrap(base), WireOffset(Wrap(base), Wrap(psn))) == Wrap(psn)
       <==> -0x8000 <= psn - base < 0x8000
  {
    OffsetExact(psn, base);
    var t := Trunc16(psn - base);
    assert FromWire(Wrap(base), t) == Wrap(base + t) by { WrapDiff(base, t); }
    WrapEqual(base + t, psn);
  }

  /** Distinct PSNs less than the whole space apart have distinct representations. */
  lemma WrapEqual(a: int, b: int)
    requires -PSN_SPACE < a - b < PSN_SPACE
    ensures Wrap(a) == Wrap(b) <==> a == b
  {
  }
}
