/**
  Messages cut into packets and put together again.  The initiator may be told to try again later
  at any packet; the target takes the packets of a message in any order.
 */
module Reassembly {
  import opened FlatMem
  import MrCopy

  datatype Piece = Piece(off: nat, len: nat)

  /** How the rest of a message is cut from `off` on. */
  function Cut(len: nat, mpl: nat, off: nat): seq<Piece>
    requires mpl > 0
    decreases len - off
  {
    if off >= len then []
    else
      var n := if len - off > mpl then mpl else len - off;
      [Piece(off, n)] + Cut(len, mpl, off + n)
  }

  /** The packets of a message of `len` bytes; an empty message is one empty packet. */
  function Pieces(len: nat, mpl: nat): seq<Piece>
    requires mpl > 0
  {
    if len == 0 then [Piece(0, 0)] else Cut(len, mpl, 0)
  }

  /** The SES header fields and payload of one packet. */
  datatype Pkt = Pkt(som: bool, msgOff: nat, reqLen: nat, data: seq<Byte>)

  function PktOf(msg: seq<Byte>, p: Piece): Pkt
    requires p.off + p.len <= |msg|
  {
    Pkt(p.off == 0, p.off, |msg|, msg[p.off..p.off + p.len])
  }

  const MSG_OFF_SPACE: nat := 0x1_0000_0000
  const PAYLOAD_LEN_SPACE: nat := 0x4000

  /** The header word that carries the message offset and the payload length. */
  function PackHdr(msgOff: nat, payloadLen: nat): nat {
    msgOff % MSG_OFF_SPACE + (payloadLen % PAYLOAD_LEN_SPACE) * MSG_OFF_SPACE
  }

  function HdrMsgOff(w: nat): nat {
    w % MSG_OFF_SPACE
  }

  function HdrPayloadLen(w: nat): nat {
    (w / MSG_OFF_SPACE) % PAYLOAD_LEN_SPACE
  }

  /** The fields come back from the wire exactly when they fit it: 32 bits of offset and 14 of length. */
  lemma HeaderExact(msgOff: nat, payloadLen: nat)
    ensures HdrMsgOff(PackHdr(msgOff, payloadLen)) == msgOff && HdrPayloadLen(PackHdr(msgOff, payloadLen)) == payloadLen
            <==> msgOff < MSG_OFF_SPACE && payloadLen < PAYLOAD_LEN_SPACE
  {
  }

  /**
    A packet as the target parses it.  The first one carries no offset and its length is what arrived, cut at the
    message length; any other has both in the packed word.
   */
  function OnWire(p: Pkt): Pkt {
    var reqLen := p.reqLen % MSG_OFF_SPACE;
    if p.som then Pkt(true, 0, reqLen, if |p.data| > reqLen then p.data[..reqLen] else p.data)
    else
      var w := PackHdr(p.msgOff, |p.data|);
      HdrLenShort(p.msgOff, |p.data|);
      Pkt(false, HdrMsgOff(w), reqLen, p.data[..HdrPayloadLen(w)])
  }

  lemma HdrLenShort(msgOff: nat, payloadLen: nat)
    ensures HdrPayloadLen(PackHdr(msgOff, payloadLen)) == payloadLen % PAYLOAD_LEN_SPACE <= payloadLen
  {
  }

  /** A packet survives the wire if and only if its fields fit the header. */
  lemma OnWireExact(p: Pkt)
    ensures OnWire(p) == p <==>
      && p.reqLen < MSG_OFF_SPACE
      && (if p.som then p.msgOff == 0 && |p.data| <= p.reqLen
          else p.msgOff < MSG_OFF_SPACE && |p.data| < PAYLOAD_LEN_SPACE)
  {
    if !p.som {
      HeaderExact(p.msgOff, |p.data|);
      var n := HdrPayloadLen(PackHdr(p.msgOff, |p.data|));
      HdrLenShort(p.msgOff, |p.data|);
      assert n == |p.data| ==> p.data[..n] == p.data;
    }
  }

  ghost predicate Fits(p: Piece, len: nat) {
    p.off + p.len <= len
  }

  /** The pieces are consecutive, cover the message, and only an empty message has an empty piece. */
  ghost predicate Tiles(ps: seq<Piece>, from: nat, len: nat) {
    && (forall i :: 0 <= i < |ps| ==> Fits(ps[i], len) && from <= ps[i].off)
    && (forall i :: 0 <= i < |ps| - 1 ==> ps[i].off + ps[i].len == ps[i + 1].off)
    && (ps != [] ==> ps[0].off == from && ps[|ps| - 1].off + ps[|ps| - 1].len == len)
  }

  lemma {:induction false} CutTiles(len: nat, mpl: nat, off: nat)
    requires mpl > 0 && off <= len
    ensures var ps := Cut(len, mpl, off); Tiles(ps, off, len) && (ps == [] <==> off == len)
    decreases len - off
  {
    if off < len {
      var n := if len - off > mpl then mpl else len - off;
      var rest := Cut(len, mpl, off + n);
      assert Cut(len, mpl, off) == [Piece(off, n)] + rest;
      assert Tiles([Piece(off, n)] + rest, off, len) by {
        CutTiles(len, mpl, off + n);
        TilesCons(Piece(off, n), rest, len);
      }
    }
  }

  lemma TilesCons(p: Piece, rest: seq<Piece>, len: nat)
    requires Fits(p, len) && Tiles(rest, p.off + p.len, len) && (rest == [] ==> p.off + p.len == len)
    ensures Tiles([p] + rest, p.off, len)
  {
    var ps := [p] + rest;
    assert forall i :: 0 < i < |ps| ==> ps[i] == rest[i - 1];
  }

  /** Every piece is as long as the payload limit and the message allow. */
  lemma {:induction false} CutLens(len: nat, mpl: nat, off: nat, i: nat)
    requires mpl > 0 && off <= len && i < |Cut(len, mpl, off)|
    ensures var p := Cut(len, mpl, off)[i]; p.off < len && p.len == if len - p.off > mpl then mpl else len - p.off
    decreases i
  {
    if i > 0 {
      CutLens(len, mpl, off + if len - off > mpl then mpl else len - off, i - 1);
    }
  }

  ghost predicate FullLength(p: Piece, len: nat, mpl: nat) {
    p.off <= len && p.len == (if len - p.off > mpl then mpl else len - p.off) && (len > 0 ==> p.len > 0)
  }

  lemma PiecesTile(len: nat, mpl: nat)
    requires mpl > 0
    ensures var ps := Pieces(len, mpl);
      && Tiles(ps, 0, len) && ps != []
      && (forall i :: 0 <= i < |ps| ==> FullLength(ps[i], len, mpl))
      && (forall i :: 0 < i < |ps| ==> ps[i].off > 0)
  {
    if len > 0 {
      var ps := Pieces(len, mpl);
      CutTiles(len, mpl, 0);
      forall i | 0 <= i < |ps| ensures FullLength(ps[i], len, mpl) {
        CutLens(len, mpl, 0, i);
      }
      Rising(ps, len);
    }
  }

  lemma {:induction false} Rising(ps: seq<Piece>, len: nat)
    requires Tiles(ps, 0, len) && forall i :: 0 <= i < |ps| ==> ps[i].len > 0
    ensures forall i :: 0 < i < |ps| ==> ps[i].off > 0
  {
    forall i | 0 < i < |ps| ensures ps[i].off > 0 {
      assert ps[i - 1].off + ps[i - 1].len == ps[i].off;
    }
  }

  /** Every byte of the message is in some piece. */
  lemma {:induction false} Covered(ps: seq<Piece>, from: nat, len: nat, b: nat) returns (i: nat)
    requires Tiles(ps, from, len) && ps != [] && from <= b < len
    ensures i < |ps| && ps[i].off <= b < ps[i].off + ps[i].len
    decreases |ps|
  {
    if b < ps[0].off + ps[0].len {
      i := 0;
    } else {
      var rest := ps[1..];
      assert Tiles(rest, ps[0].off + ps[0].len, len) by {
        assert forall k :: 0 <= k < |rest| ==> rest[k] == ps[k + 1];
        Ascends(ps, from, len);
      }
      var j := Covered(rest, ps[0].off + ps[0].len, len, b);
      i := j + 1;
    }
  }

  lemma {:induction false} Ascends(ps: seq<Piece>, from: nat, len: nat)
    requires Tiles(ps, from, len)
    ensures forall i, j :: 0 <= i < j < |ps| ==> ps[i].off + ps[i].len <= ps[j].off
  {
    forall i, j | 0 <= i < j < |ps| ensures ps[i].off + ps[i].len <= ps[j].off {
      AscendsTo(ps, from, len, i, j);
    }
  }

  lemma {:induction false} AscendsTo(ps: seq<Piece>, from: nat, len: nat, i: nat, j: nat)
    requires Tiles(ps, from, len) && i < j < |ps|
    ensures ps[i].off + ps[i].len <= ps[j].off
    decreases j - i
  {
    assert ps[i].off + ps[i].len == ps[i + 1].off;
    if i + 1 < j { AscendsTo(ps, from, len, i + 1, j); }
  }

  // ---------------------------------------------------------------- the target

  /** A receive descriptor and its buffer, while one message uses them. */
  datatype Rx = Rx(
    buf: seq<Byte>,
    started: bool,              // the descriptor is in the message table
    remaining: nat,             // remaining_bytes
    posted: nat)                // completions posted

  const SIZE_SPACE: nat := 0x1_0000_0000_0000_0000

  /** Addition on `size_t`. */
  function Sum64(a: nat, b: nat): nat {
    (a + b) % SIZE_SPACE
  }

  lemma NoWrap(a: nat, b: nat)
    ensures Sum64(a, b) == a + b <==> a + b < SIZE_SPACE
  {
  }

  /** An error response, the payload in the buffer, or tests that pass for a place outside the buffer. */
  datatype Placing = Refused | Placed | Outside

  /** Where the payload of a packet goes. */
  function PlaceOf(start: nat, som: bool, msgOff: nat): nat {
    if som then start else Sum64(start, msgOff)
  }

  /** `uet_rx_req_pkt` for a message placed at `start` of its buffer. */
  function RxPkt(s: Rx, p: Pkt, start: nat, mpl: nat): (Rx, Placing) {
    if p.som && |p.data| != p.reqLen && |p.data| != mpl then (s, Refused)
    else if !s.started && Sum64(start, p.reqLen) > |s.buf| then (s, Refused)
    else
      var s1 := if s.started then s else s.(started := true, remaining := p.reqLen);
      var at := PlaceOf(start, p.som, p.msgOff);
      if Sum64(at, |p.data|) > |s.buf| || |p.data| > s1.remaining then (s1, Refused)
      else if at + |p.data| > |s.buf| then (s1, Outside)
      else
        var left := s1.remaining - |p.data|;
        (s1.(buf := s.buf[..at] + p.data + s.buf[at + |p.data|..], remaining := left,
             posted := if left == 0 then s.posted + 1 else s.posted), Placed)
  }

  /** A packet that is not refused goes into the buffer if and only if the end of its place does not wrap. */
  lemma PlacedIff(s: Rx, p: Pkt, start: nat, mpl: nat)
    requires |s.buf| < SIZE_SPACE && RxPkt(s, p, start, mpl).1 != Refused
    ensures RxPkt(s, p, start, mpl).1 == Placed <==> PlaceOf(start, p.som, p.msgOff) + |p.data| < SIZE_SPACE
  {
    NoWrap(PlaceOf(start, p.som, p.msgOff), |p.data|);
  }

  /** Packet `p` of a message at `start` goes to its own place in a buffer of `size` bytes. */
  ghost predicate InOwnPlace(p: Piece, start: nat, size: nat) {
    var at := PlaceOf(start, p.off == 0, p.off);
    at == start + p.off && at + p.len <= size
  }

  /**
    Over a whole message whose packets pass the tests: each goes to its own place inside the buffer if and only if
    the end of the message does not wrap.
   */
  lemma InPlaceIff(len: nat, start: nat, mpl: nat, size: nat)
    requires mpl > 0 && start < SIZE_SPACE && size < SIZE_SPACE
    requires forall i :: 0 <= i < |Pieces(len, mpl)| ==>
      var p := Pieces(len, mpl)[i]; Sum64(PlaceOf(start, p.off == 0, p.off), p.len) <= size
    ensures (forall i :: 0 <= i < |Pieces(len, mpl)| ==> InOwnPlace(Pieces(len, mpl)[i], start, size))
            <==> start + len < SIZE_SPACE
  {
    var ps := Pieces(len, mpl);
    PiecesTile(len, mpl);
    if start + len < SIZE_SPACE {
      forall i | 0 <= i < |ps| ensures InOwnPlace(ps[i], start, size) {
        assert Fits(ps[i], len);
        NoWrap(start, ps[i].off);
        NoWrap(start + ps[i].off, ps[i].len);
      }
    } else {
      var last := ps[|ps| - 1];
      assert last.off + last.len == len;
      assert !InOwnPlace(last, start, size);
    }
  }

  /** Eight bytes that start four below the top of `size_t` pass both tests of any buffer of four bytes or more. */
  lemma WrapPassesTests(buf: seq<Byte>, data: seq<Byte>, mpl: nat)
    requires 4 <= |buf| < SIZE_SPACE && |data| == 8
    ensures RxPkt(Rx(buf, false, 0, 0), Pkt(true, 0, 8, data), SIZE_SPACE - 4, mpl).1 == Outside
  {
    assert Sum64(SIZE_SPACE - 4, 8) == 4;
  }

  /** Which packets have arrived, and the target's state. */
  datatype Arrival = Arrival(got: seq<bool>, rx: Rx)

  /** The bytes of the pieces still to come. */
  function Due(ps: seq<Piece>, got: seq<bool>): nat
    requires |ps| == |got|
  {
    if ps == [] then 0 else (if got[0] then 0 else ps[0].len) + Due(ps[1..], got[1..])
  }

  ghost predicate AllGot(got: seq<bool>) {
    forall i :: 0 <= i < |got| ==> got[i]
  }

  ghost predicate NoneGot(got: seq<bool>) {
    forall i :: 0 <= i < |got| ==> !got[i]
  }

  lemma {:induction false} DueAfter(ps: seq<Piece>, got: seq<bool>, i: nat)
    requires |ps| == |got| && i < |ps| && !got[i]
    ensures Due(ps, got) == Due(ps, got[i := true]) + ps[i].len
  {
    if i == 0 {
      assert got[0 := true][1..] == got[1..];
    } else {
      DueAfter(ps[1..], got[1..], i - 1);
      assert got[i := true][1..] == got[1..][i - 1 := true];
    }
  }

  lemma {:induction false} DueNone(ps: seq<Piece>, got: seq<bool>)
    requires |ps| == |got| && forall i :: 0 <= i < |ps| ==> ps[i].len > 0
    ensures Due(ps, got) == 0 <==> AllGot(got)
  {
    if ps != [] {
      DueNone(ps[1..], got[1..]);
      assert got == [got[0]] + got[1..];
    }
  }

  lemma {:induction false} DueAll(ps: seq<Piece>, got: seq<bool>, from: nat, len: nat)
    requires |ps| == |got| && NoneGot(got) && Tiles(ps, from, len) && ps != []
    ensures Due(ps, got) == len - from
  {
    if |ps| > 1 {
      var rest := ps[1..];
      assert forall k :: 0 <= k < |rest| ==> rest[k] == ps[k + 1];
      Ascends(ps, from, len);
      DueAll(rest, got[1..], ps[0].off + ps[0].len, len);
    }
  }

  /** The bytes of piece `p` stand in the buffer. */
  ghost predicate InPlace(buf: seq<Byte>, msg: seq<Byte>, start: nat, p: Piece) {
    && p.off + p.len <= |msg| && start + |msg| <= |buf|
    && forall x :: start + p.off <= x < start + p.off + p.len ==> buf[x] == msg[x - start]
  }

  ghost predicate Inv(a: Arrival, msg: seq<Byte>, buf0: seq<Byte>, start: nat, mpl: nat)
    requires mpl > 0
  {
    var ps := Pieces(|msg|, mpl);
    && |a.got| == |ps| && |a.rx.buf| == |buf0| < SIZE_SPACE && start + |msg| <= |buf0|
    && (a.rx.started <==> !NoneGot(a.got))
    && (a.rx.started ==> a.rx.remaining == Due(ps, a.got))
    && a.rx.posted == (if AllGot(a.got) then 1 else 0)
    && (forall i :: 0 <= i < |ps| && a.got[i] ==> InPlace(a.rx.buf, msg, start, ps[i]))
    && (forall x :: 0 <= x < |buf0| && !(start <= x < start + |msg|) ==> a.rx.buf[x] == buf0[x])
  }

  /** Packet `i` of the message arrives. */
  ghost function Take(a: Arrival, msg: seq<Byte>, start: nat, mpl: nat, i: nat): Arrival
    requires mpl > 0 && i < |a.got| == |Pieces(|msg|, mpl)|
  {
    PiecesTile(|msg|, mpl);
    assert Fits(Pieces(|msg|, mpl)[i], |msg|);
    Arrival(a.got[i := true], RxPkt(a.rx, PktOf(msg, Pieces(|msg|, mpl)[i]), start, mpl).0)
  }

  lemma DueLeft(len: nat, mpl: nat, got: seq<bool>, i: nat)
    requires mpl > 0 && |got| == |Pieces(len, mpl)| && i < |got| && !got[i]
    ensures var ps := Pieces(len, mpl);
      && Due(ps, got) == Due(ps, got[i := true]) + ps[i].len
      && (NoneGot(got) ==> Due(ps, got) == len)
      && (Due(ps, got[i := true]) == 0 <==> AllGot(got[i := true]))
  {
    var ps := Pieces(len, mpl);
    PiecesTile(len, mpl);
    DueAfter(ps, got, i);
    if NoneGot(got) { DueAll(ps, got, 0, len); }
    if len > 0 { DueNone(ps, got[i := true]); }
  }

  lemma Overlay(buf: seq<Byte>, msg: seq<Byte>, start: nat, p: Piece, q: Piece)
    requires start + |msg| <= |buf| && p.off + p.len <= |msg|
    ensures var buf' := Laid(buf, msg, start, p);
      && |buf'| == |buf| && InPlace(buf', msg, start, p)
      && (InPlace(buf, msg, start, q) ==> InPlace(buf', msg, start, q))
      && (forall x :: 0 <= x < |buf| && !(start <= x < start + |msg|) ==> buf'[x] == buf[x])
  {
  }

  ghost function Laid(buf: seq<Byte>, msg: seq<Byte>, start: nat, p: Piece): seq<Byte>
    requires start + |msg| <= |buf| && p.off + p.len <= |msg|
  {
    buf[..start + p.off] + msg[p.off..p.off + p.len] + buf[start + p.off + p.len..]
  }

  /** A packet of the message is never refused; it lays its bytes and takes them off the account. */
  lemma TakeRx(a: Arrival, msg: seq<Byte>, buf0: seq<Byte>, start: nat, mpl: nat, i: nat, ps: seq<Piece>)
    requires mpl > 0 && Inv(a, msg, buf0, start, mpl) && i < |a.got| && !a.got[i] && ps == Pieces(|msg|, mpl)
    ensures Fits(ps[i], |msg|)
    ensures RxPkt(a.rx, PktOf(msg, ps[i]), start, mpl) ==
      (Rx(Laid(a.rx.buf, msg, start, ps[i]), true, Due(ps, a.got[i := true]), if AllGot(a.got[i := true]) then 1 else 0), Placed)
  {
    assert PieceOk(ps[i], |msg|, mpl) by { PiecesTile(|msg|, mpl); assert Fits(ps[i], |msg|); }
    DueLeft(|msg|, mpl, a.got, i);
    assert !AllGot(a.got);
    assert PieceFits(ps[i], start, |msg|) by { SumsExact(ps[i], start, |msg|); }
  }

  /** None of the sums for a packet wraps. */
  ghost predicate PieceFits(p: Piece, start: nat, len: nat) {
    && Sum64(start, len) == start + len && PlaceOf(start, p.off == 0, p.off) == start + p.off
    && Sum64(start + p.off, p.len) == start + p.off + p.len
  }

  lemma SumsExact(p: Piece, start: nat, len: nat)
    requires p.off + p.len <= len && start + len < SIZE_SPACE
    ensures PieceFits(p, start, len)
  {
    NoWrap(start, len);
    NoWrap(start, p.off);
    NoWrap(start + p.off, p.len);
  }

  /** What the target's length checks rely on. */
  ghost predicate PieceOk(p: Piece, len: nat, mpl: nat) {
    p.off + p.len <= len && (p.off == 0 ==> p.len == len || p.len == mpl)
  }

  lemma TakeKeeps(a: Arrival, msg: seq<Byte>, buf0: seq<Byte>, start: nat, mpl: nat, i: nat)
    requires mpl > 0 && Inv(a, msg, buf0, start, mpl) && i < |a.got| && !a.got[i]
    ensures Fits(Pieces(|msg|, mpl)[i], |msg|)
    ensures RxPkt(a.rx, PktOf(msg, Pieces(|msg|, mpl)[i]), start, mpl).1 == Placed
    ensures Inv(Take(a, msg, start, mpl, i), msg, buf0, start, mpl)
  {
    var ps := Pieces(|msg|, mpl);
    TakeRx(a, msg, buf0, start, mpl, i, ps);
    var got' := a.got[i := true];
    var buf' := Laid(a.rx.buf, msg, start, ps[i]);
    forall j | 0 <= j < |ps| && got'[j] ensures InPlace(buf', msg, start, ps[j]) {
      Overlay(a.rx.buf, msg, start, ps[i], ps[j]);
    }
    Overlay(a.rx.buf, msg, start, ps[i], ps[i]);
    assert got'[i];
  }

  /** The packets named by `order` are all different, and none of them has arrived yet. */
  ghost predicate Fresh(got: seq<bool>, order: seq<nat>)
    decreases |order|
  {
    order == [] || (order[0] < |got| && !got[order[0]] && Fresh(got[order[0] := true], order[1..]))
  }

  lemma {:induction false} FreshIff(got: seq<bool>, order: seq<nat>)
    ensures Fresh(got, order) <==>
      && (forall i :: 0 <= i < |order| ==> order[i] < |got| && !got[order[i]])
      && (forall i, j :: 0 <= i < j < |order| ==> order[i] != order[j])
    decreases |order|
  {
    if order != [] && order[0] < |got| && !got[order[0]] {
      var got', rest := got[order[0] := true], order[1..];
      FreshIff(got', rest);
      assert forall i :: 0 <= i < |rest| ==> rest[i] == order[i + 1];
      if Fresh(got, order) {
        forall i | 0 <= i < |order| ensures order[i] < |got| && !got[order[i]] {
          if i > 0 { assert order[i] == rest[i - 1]; }
        }
        forall i, j | 0 <= i < j < |order| ensures order[i] != order[j] {
          assert order[j] == rest[j - 1] && (i > 0 ==> order[i] == rest[i - 1]);
        }
      }
    }
  }

  ghost function Run(a: Arrival, msg: seq<Byte>, start: nat, mpl: nat, order: seq<nat>): Arrival
    requires mpl > 0 && |a.got| == |Pieces(|msg|, mpl)| && Fresh(a.got, order)
    decreases |order|
  {
    if order == [] then a else Run(Take(a, msg, start, mpl, order[0]), msg, start, mpl, order[1..])
  }

  lemma {:induction false} RunKeeps(a: Arrival, msg: seq<Byte>, buf0: seq<Byte>, start: nat, mpl: nat, order: seq<nat>)
    requires mpl > 0 && Inv(a, msg, buf0, start, mpl) && Fresh(a.got, order)
    ensures Inv(Run(a, msg, start, mpl, order), msg, buf0, start, mpl)
    decreases |order|
  {
    if order != [] {
      TakeKeeps(a, msg, buf0, start, mpl, order[0]);
      RunKeeps(Take(a, msg, start, mpl, order[0]), msg, buf0, start, mpl, order[1..]);
    }
  }

  ghost function Empty(buf0: seq<Byte>, n: nat): Arrival {
    Arrival(seq(n, _ => false), Rx(buf0, false, 0, 0))
  }

  lemma EmptyInv(msg: seq<Byte>, buf0: seq<Byte>, start: nat, mpl: nat)
    requires mpl > 0 && start + |msg| <= |buf0| < SIZE_SPACE
    ensures Inv(Empty(buf0, |Pieces(|msg|, mpl)|), msg, buf0, start, mpl)
  {
    PiecesTile(|msg|, mpl);
    var got := Empty(buf0, |Pieces(|msg|, mpl)|).got;
    assert !got[0];
  }

  lemma ByteInPlace(a: Arrival, msg: seq<Byte>, buf0: seq<Byte>, start: nat, mpl: nat, b: nat)
    requires mpl > 0 && Inv(a, msg, buf0, start, mpl) && AllGot(a.got) && b < |msg|
    ensures a.rx.buf[start + b] == msg[b]
  {
    var ps := Pieces(|msg|, mpl);
    assert Tiles(ps, 0, |msg|) && ps != [] by { PiecesTile(|msg|, mpl); }
    var i := Covered(ps, 0, |msg|, b);
    assert a.got[i] && InPlace(a.rx.buf, msg, start, ps[i]);
  }

  lemma WholeBuffer(a: Arrival, msg: seq<Byte>, buf0: seq<Byte>, start: nat, mpl: nat)
    requires mpl > 0 && Inv(a, msg, buf0, start, mpl) && AllGot(a.got)
    ensures a.rx.buf == Splice(buf0, start, msg)
  {
    var buf, flat := a.rx.buf, Splice(buf0, start, msg);
    forall x | 0 <= x < |buf0| ensures buf[x] == flat[x] {
      if start <= x < start + |msg| { ByteInPlace(a, msg, buf0, start, mpl, x - start); }
    }
  }

  /**
    Packets of one message arriving once each, in any order: the completion is posted with the
    last of them and not before, and the buffer then holds exactly the message.
   */
  lemma Reassembled(msg: seq<Byte>, buf0: seq<Byte>, start: nat, mpl: nat, order: seq<nat>)
    requires mpl > 0 && start + |msg| <= |buf0| < SIZE_SPACE
    requires Fresh(Empty(buf0, |Pieces(|msg|, mpl)|).got, order)
    ensures var a := Run(Empty(buf0, |Pieces(|msg|, mpl)|), msg, start, mpl, order);
      && a.rx.posted == (if AllGot(a.got) then 1 else 0)
      && (AllGot(a.got) ==> a.rx.remaining == 0 && a.rx.buf == Splice(buf0, start, msg))
      && (a.rx.started && !AllGot(a.got) ==> a.rx.remaining > 0)
  {
    var a0 := Empty(buf0, |Pieces(|msg|, mpl)|);
    EmptyInv(msg, buf0, start, mpl);
    RunKeeps(a0, msg, buf0, start, mpl, order);
    var a := Run(a0, msg, start, mpl, order);
    DueWhole(|msg|, mpl, a.got);
    if AllGot(a.got) {
      WholeBuffer(a, msg, buf0, start, mpl);
    }
  }

  lemma DueWhole(len: nat, mpl: nat, got: seq<bool>)
    requires mpl > 0 && |got| == |Pieces(len, mpl)|
    ensures AllGot(got) ==> Due(Pieces(len, mpl), got) == 0 && !NoneGot(got)
    ensures !NoneGot(got) && Due(Pieces(len, mpl), got) == 0 ==> AllGot(got)
  {
    PiecesTile(len, mpl);
    assert got[0] || !got[0];
    if len > 0 { DueNone(Pieces(len, mpl), got); }
  }

  // ---------------------------------------------------------------- the two ends as they run

  /** Packet `k` of a message. */
  ghost function PktAt(msg: seq<Byte>, mpl: nat, k: nat): Pkt
    requires mpl > 0 && k < |Pieces(|msg|, mpl)|
  {
    PiecesTile(|msg|, mpl);
    assert Fits(Pieces(|msg|, mpl)[k], |msg|);
    PktOf(msg, Pieces(|msg|, mpl)[k])
  }

  /** Packets `i` up to `j` of a message. */
  ghost function PktsFrom(msg: seq<Byte>, mpl: nat, i: nat, j: nat): seq<Pkt>
    requires mpl > 0 && j <= |Pieces(|msg|, mpl)|
  {
    if j <= i then [] else PktsFrom(msg, mpl, i, j - 1) + [PktAt(msg, mpl, j - 1)]
  }

  /** Where packet `k` of a message starts; the end of the message after the last. */
  ghost function OffAt(len: nat, mpl: nat, k: nat): nat
    requires mpl > 0 && k <= |Pieces(len, mpl)|
  {
    if k < |Pieces(len, mpl)| then Pieces(len, mpl)[k].off else len
  }

  lemma NextPiece(len: nat, mpl: nat, k: nat)
    requires mpl > 0 && k <= |Pieces(len, mpl)|
    ensures k == |Pieces(len, mpl)| <==> k > 0 && OffAt(len, mpl, k) == len
    ensures OffAt(len, mpl, 0) == 0 && OffAt(len, mpl, k) <= len && |Pieces(len, mpl)| > 0
    ensures k < |Pieces(len, mpl)| ==>
      var off := OffAt(len, mpl, k); var n := if len - off > mpl then mpl else len - off;
      && Pieces(len, mpl)[k] == Piece(off, n)
      && OffAt(len, mpl, k + 1) == off + n
      && (off == 0 <==> k == 0)
  {
    PiecesTile(len, mpl);
    var ps := Pieces(len, mpl);
    if k < |ps| { assert Fits(ps[k], len); }
  }

  /** The fields of `struct uet_tx_desc` that segmentation uses. */
  class TxDesc {
    const msg: seq<Byte>
    const mpl: nat              // the endpoint's payload limit
    var remaining: nat          // remaining_bytes
    var bufOff: nat             // buf_desc.buf_off
    var transmitted: bool
    ghost var sent: nat         // packets handed to PDS since the message was last started

    ghost predicate Valid()
      reads this
    {
      && mpl > 0 && bufOff + remaining == |msg| && (transmitted <==> sent > 0)
      && sent <= |Pieces(|msg|, mpl)| && bufOff == OffAt(|msg|, mpl, sent)
    }

    constructor (m: seq<Byte>, limit: nat)
      requires limit > 0
      ensures Valid() && msg == m && mpl == limit && sent == 0
    {
      msg, mpl, remaining, bufOff, transmitted, sent := m, limit, |m|, 0, false, 0;
      new;
      NextPiece(|m|, limit, 0);
    }

    /** `uet_retx_msg`: start the message again. */
    method Retx()
      requires Valid()
      modifies this
      ensures Valid() && sent == 0
    {
      NextPiece(|msg|, mpl, 0);
      remaining, bufOff, transmitted, sent := |msg|, 0, false, 0;
    }

    /** One packet of `uet_tx_msg`, which PDS takes. */
    method TxNext() returns (pkt: Pkt)
      requires Valid() && sent < |Pieces(|msg|, mpl)|
      modifies this
      ensures Valid() && sent == old(sent) + 1 && pkt == PktAt(msg, mpl, old(sent))
    {
      NextPiece(|msg|, mpl, sent);
      var n := if remaining > mpl then mpl else remaining;
      pkt := Pkt(remaining == |msg|, bufOff, |msg|, msg[bufOff..bufOff + n]);
      bufOff := bufOff + n;
      remaining := remaining - n;
      transmitted := true;
      sent := sent + 1;
    }

    /**
      `uet_tx_msg`, with PDS taking `budget` packets before it asks to be tried again: the packets
      handed over are the next ones of the message, whatever pauses came before.
     */
    method TxMsg(budget: nat) returns (out: seq<Pkt>, again: bool)
      requires Valid()
      modifies this
      ensures Valid() && old(sent) <= sent && out == PktsFrom(msg, mpl, old(sent), sent)
      ensures sent == MrCopy.Min(old(sent) + budget, |Pieces(|msg|, mpl)|)
      ensures again <==> sent < |Pieces(|msg|, mpl)|
    {
      out, again := [], false;
      var left := budget;
      while remaining > 0 || !transmitted
        invariant Valid() && old(sent) <= sent && sent - old(sent) + left == budget && left >= 0
        invariant out == PktsFrom(msg, mpl, old(sent), sent)
        decreases |Pieces(|msg|, mpl)| - sent
      {
        NextPiece(|msg|, mpl, sent);
        if left == 0 {
          again := true;
          return;
        }
        var pkt := TxNext();
        out := out + [pkt];
        left := left - 1;
      }
      NextPiece(|msg|, mpl, sent);
    }
  }

  method Place(buf: array<Byte>, at: nat, data: seq<Byte>)
    requires at + |data| <= buf.Length
    modifies buf
    ensures buf[..] == old(buf[..])[..at] + data + old(buf[..])[at + |data|..]
  {
    StoreRange(buf[..], at, data);
    MrCopy.CopyIn(buf, at, data);
  }

  /** A receive descriptor over a contiguous buffer. */
  class RxDesc {
    const buf: array<Byte>
    var started: bool
    var remaining: nat
    var posted: nat

    ghost function Model(): Rx
      reads this, buf
    {
      Rx(buf[..], started, remaining, posted)
    }

    constructor (b: array<Byte>)
      ensures buf == b && Model() == Rx(b[..], false, 0, 0)
    {
      buf, started, remaining, posted := b, false, 0, 0;
    }

    /** `uet_rx_req_pkt`. */
    method RxReqPkt(p: Pkt, start: nat, mpl: nat) returns (rc: Placing)
      modifies this, buf
      ensures (Model(), rc) == RxPkt(old(Model()), p, start, mpl)
    {
      var len := |p.data|;
      if p.som && len != p.reqLen && len != mpl {
        return Refused;
      }
      if !started {
        if Sum64(start, p.reqLen) > buf.Length {
          return Refused;
        }
        remaining := p.reqLen;
        started := true;
      }
      var at := if p.som then start else Sum64(start, p.msgOff);
      if Sum64(at, len) > buf.Length || len > remaining {
        return Refused;
      }
      if at + len > buf.Length {
        return Outside;
      }
      Place(buf, at, p.data);
      remaining := remaining - len;
      if remaining == 0 {
        posted := posted + 1;
      }
      rc := Placed;
    }
  }
}
