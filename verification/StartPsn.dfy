/**
  Start_PSN negotiation.  A NACK may give the initiator another Start_PSN while its PDC is still in
  the SYN state; everything queued then moves by the same distance.
 */
module StartPsn {
  import opened PdcTypes
  import opened Psn

  const SYN_OFFSET_MASK: int := 0x0fff

  /** A queued request: its PSN, and the header fields that are offsets. */
  datatype SynPkt = SynPkt(psn: u32, synOff: nat, clearOff: i16, handle: nat)

  /** An initiator PDC in the SYN state. */
  datatype Syn = Syn(
    start: u32,                 // start_psn
    next: u32,                  // next_psn
    txBase: u32,                // tx_bm_base_psn
    rxBase: u32,                // rx_bm_base_psn
    maxCack: u32,               // max_cack_psn
    synOffset: nat,             // syn_offset
    queue: seq<SynPkt>)         // tx_pkt_list

  function InitSyn(start: u32): Syn {
    Syn(start, start, start, start, Wrap(start - 1), 0, [])
  }

  /** `uet_pds_tx_pkt` in the SYN state: the packet carries its distance from Start_PSN. */
  function SendSyn(s: Syn, handle: nat): Syn {
    if !InMpr(s.next, s.txBase) then s
    else
      s.(next := Wrap(s.next + 1), synOffset := s.synOffset + 1, queue := s.queue + [Stamped(s, handle)])
  }

  /** The packet built for the next PSN. */
  function Stamped(s: Syn, handle: nat): SynPkt {
    SynPkt(s.next, s.synOffset % (SYN_OFFSET_MASK + 1), WireOffset(s.next, Wrap(s.txBase - 1)), handle)
  }

  function Kept(queue: seq<SynPkt>, handle: nat): (r: seq<SynPkt>)
    ensures forall i :: 0 <= i < |r| ==> r[i] in queue
  {
    if queue == [] then []
    else
      var rest := Kept(queue[1..], handle);
      if queue[0].handle == handle then rest else [queue[0]] + rest
  }

  /** `uet_pds_drop_tx_pkts`. */
  function DropSyn(s: Syn, handle: nat): Syn {
    s.(queue := Kept(s.queue, handle))
  }

  function Moved(p: SynPkt, delta: int): SynPkt {
    p.(psn := Wrap(p.psn + delta))
  }

  function MoveAll(queue: seq<SynPkt>, delta: int): (r: seq<SynPkt>)
    ensures |r| == |queue| && forall i :: 0 <= i < |r| ==> r[i] == Moved(queue[i], delta)
  {
    seq(|queue|, i requires 0 <= i < |queue| => Moved(queue[i], delta))
  }

  /** `uet_pds_reestablish_start_psn`. */
  function Redrive(s: Syn, start: u32): Syn {
    var delta := Wrap(start - s.start);
    if delta == 0 then s else Shifted(s, delta)
  }

  /** Every PSN of the PDC and of its queue moved by `delta`. */
  function Shifted(s: Syn, delta: int): Syn {
    Syn(Wrap(s.start + delta), Wrap(s.next + delta), Wrap(s.txBase + delta), Wrap(s.rxBase + delta),
        Wrap(s.maxCack + delta), s.synOffset, MoveAll(s.queue, delta))
  }

  /**
    In the SYN state nothing is acknowledged: the window still starts at Start_PSN, the counter is
    syn_offset past it, and every queued packet says how far past it is.
   */
  ghost predicate SynInv(s: Syn) {
    && s.next == Wrap(s.start + s.synOffset) && s.synOffset <= MPR
    && s.txBase == s.start && s.rxBase == s.start && s.maxCack == Wrap(s.start - 1)
    && forall i :: 0 <= i < |s.queue| ==> PktOk(s.queue[i], s.start, s.synOffset)
  }

  ghost predicate PktOk(p: SynPkt, start: u32, sent: nat) {
    p.synOff < sent && p.psn == Wrap(start + p.synOff) && FromWire(p.psn, p.clearOff) == Wrap(start - 1)
  }

  lemma WrapAgain(x: int, y: int)
    ensures Wrap(Wrap(x) + y) == Wrap(x + y)
  {
  }

  lemma StampedOk(s: Syn, handle: nat)
    requires SynInv(s) && s.synOffset < MPR
    ensures PktOk(Stamped(s, handle), s.start, s.synOffset + 1)
  {
    var p := Stamped(s, handle);
    assert p.synOff == s.synOffset;
    assert FromWire(p.psn, p.clearOff) == Wrap(s.start - 1) by { ClearBack(s.start, s.synOffset); }
  }

  lemma ClearBack(start: int, n: nat)
    requires n < MPR
    ensures FromWire(Wrap(start + n), WireOffset(Wrap(start + n), Wrap(start - 1))) == Wrap(start - 1)
  {
    WireExact(start + n, start - 1);
  }

  lemma NextIs(s: Syn)
    requires SynInv(s)
    ensures Wrap(s.next + 1) == Wrap(s.start + (s.synOffset + 1))
  {
    WrapAgain(s.start + s.synOffset, 1);
  }

  lemma QueuedKeeps(s: Syn, p: SynPkt, s': Syn)
    requires SynInv(s) && s.synOffset < MPR && PktOk(p, s.start, s.synOffset + 1)
    requires s' == s.(next := s'.next, synOffset := s.synOffset + 1, queue := s.queue + [p])
    requires s'.next == Wrap(s.start + (s.synOffset + 1))
    ensures SynInv(s')
  {
    QueueGrows(s.queue, p, s.start, s.synOffset);
  }

  /** Moving by `delta` and being `n` past the start commute. */
  lemma Commute(start: int, n: int, delta: int)
    ensures Wrap(Wrap(start + n) + delta) == Wrap(Wrap(start + delta) + n)
  {
  }

  lemma RoomMeans(s: Syn)
    requires SynInv(s)
    ensures InMpr(s.next, s.txBase) <==> s.synOffset < MPR
  {
  }

  lemma SendKeeps(s: Syn, handle: nat)
    requires SynInv(s)
    ensures SynInv(SendSyn(s, handle))
  {
    RoomMeans(s);
    if s.synOffset < MPR {
      assert Wrap(s.next + 1) == Wrap(s.start + (s.synOffset + 1)) by { NextIs(s); }
      assert PktOk(Stamped(s, handle), s.start, s.synOffset + 1) by { StampedOk(s, handle); }
      QueuedKeeps(s, Stamped(s, handle), SendSyn(s, handle));
    }
  }

  lemma QueueGrows(queue: seq<SynPkt>, p: SynPkt, start: u32, sent: nat)
    requires PktOk(p, start, sent + 1) && forall i :: 0 <= i < |queue| ==> PktOk(queue[i], start, sent)
    ensures forall i :: 0 <= i < |queue + [p]| ==> PktOk((queue + [p])[i], start, sent + 1)
  {
    forall i | 0 <= i < |queue| ensures PktOk(queue[i], start, sent + 1) {
      assert PktOk(queue[i], start, sent);
    }
  }

  lemma MovedOk(p: SynPkt, start: u32, sent: nat, delta: int)
    requires PktOk(p, start, sent)
    ensures PktOk(Moved(p, delta), Wrap(start + delta), sent)
  {
    assert Moved(p, delta).psn == Wrap(Wrap(start + delta) + p.synOff) by { Commute(start, p.synOff, delta); }
    assert FromWire(Moved(p, delta).psn, p.clearOff) == Wrap(Wrap(start + delta) - 1) by {
      Commute(p.psn, p.clearOff, delta);
      Commute(start, -1, delta);
    }
  }

  lemma MovedAllOk(s: Syn, delta: int)
    requires SynInv(s)
    ensures forall i :: 0 <= i < |s.queue| ==> PktOk(MoveAll(s.queue, delta)[i], Wrap(s.start + delta), s.synOffset)
  {
    forall i | 0 <= i < |s.queue| ensures PktOk(MoveAll(s.queue, delta)[i], Wrap(s.start + delta), s.synOffset) {
      MovedOk(s.queue[i], s.start, s.synOffset, delta);
    }
  }

  lemma DeltaReaches(s: u32, start: u32)
    ensures Wrap(s + Wrap(start - s)) == start
  {
  }

  /** Adopting a Start_PSN makes it the PDC's own and keeps everything that holds in the SYN state. */
  lemma RedriveKeeps(s: Syn, start: u32)
    requires SynInv(s)
    ensures SynInv(Redrive(s, start)) && Redrive(s, start).start == start
  {
    RedriveStart(s, start);
    var delta := Wrap(start - s.start);
    if delta != 0 { ShiftKeeps(s, delta); }
  }

  lemma RedriveStart(s: Syn, start: u32)
    ensures Redrive(s, start).start == start
  {
    DeltaReaches(s.start, start);
  }

  lemma ShiftKeeps(s: Syn, delta: int)
    requires SynInv(s)
    ensures SynInv(Shifted(s, delta))
  {
    MovedAllOk(s, delta);
    ShiftedInv(s, delta, Shifted(s, delta));
  }

  lemma ShiftedInv(s: Syn, delta: int, t: Syn)
    requires SynInv(s)
    requires t == Syn(Wrap(s.start + delta), Wrap(s.next + delta), Wrap(s.txBase + delta), Wrap(s.rxBase + delta),
                      Wrap(s.maxCack + delta), s.synOffset, t.queue)
    requires forall i :: 0 <= i < |t.queue| ==> PktOk(t.queue[i], t.start, t.synOffset)
    ensures SynInv(t)
  {
    assert t.next == Wrap(t.start + t.synOffset) by { Commute(s.start, s.synOffset, delta); }
    assert t.maxCack == Wrap(t.start - 1) by { Commute(s.start, -1, delta); }
  }

  /** The bitmap index of a queued packet. */
  function Index(s: Syn, i: nat): nat
    requires i < |s.queue|
  {
    Wrap(s.queue[i].psn - s.txBase)
  }

  /**
    Adopting a Start_PSN is a uniform translation: each packet keeps its bitmap index, its offsets
    and its descriptor, and its PSN less its SYN offset is the new Start_PSN, which is what a
    PENDING target with that Start_PSN tests, inside that target's window.
   */
  lemma RedriveTranslates(s: Syn, start: u32, i: nat)
    requires SynInv(s) && i < |s.queue|
    ensures var s' := Redrive(s, start); var p, p' := s.queue[i], s'.queue[i];
      && |s'.queue| == |s.queue|
      && Index(s', i) == Index(s, i) == p.synOff
      && p' == p.(psn := p'.psn)
      && Wrap(p'.psn - p'.synOff) == start
      && InMpr(p'.psn, start)
      && FromWire(p'.psn, p'.clearOff) == Wrap(start - 1)
  {
    RedriveKeeps(s, start);
    assert Index(s, i) == s.queue[i].synOff by { IndexIs(s, i); }
    RedriveQueue(s, start, i);
    QueuedAt(Redrive(s, start), i);
  }

  lemma RedriveQueue(s: Syn, start: u32, i: nat)
    requires i < |s.queue|
    ensures var s' := Redrive(s, start);
      |s'.queue| == |s.queue| && s'.queue[i] == s.queue[i].(psn := s'.queue[i].psn)
  {
  }

  /** What every packet queued in the SYN state says of its PSN. */
  lemma QueuedAt(s: Syn, i: nat)
    requires SynInv(s) && i < |s.queue|
    ensures var p := s.queue[i];
      && Index(s, i) == p.synOff && Wrap(p.psn - p.synOff) == s.start && InMpr(p.psn, s.start)
      && FromWire(p.psn, p.clearOff) == Wrap(s.start - 1)
  {
    IndexIs(s, i);
    assert PktOk(s.queue[i], s.start, s.synOffset);
  }

  lemma IndexIs(s: Syn, i: nat)
    requires SynInv(s) && i < |s.queue|
    ensures Index(s, i) == s.queue[i].synOff && Wrap(s.queue[i].psn - s.queue[i].synOff) == s.start
  {
    var p := s.queue[i];
    assert PktOk(p, s.start, s.synOffset);
    Distance(s.start, p.synOff);
  }

  lemma Distance(start: u32, n: nat)
    requires n < PSN_SPACE
    ensures Wrap(Wrap(start + n) - start) == n
    ensures Wrap(Wrap(start + n) - n) == start
  {
  }

  /** `t` is `s` up to the PSNs. */
  ghost predicate SameButPsns(s: Syn, t: Syn) {
    && SynInv(s) && SynInv(t) && s.synOffset == t.synOffset && |s.queue| == |t.queue|
    && forall i :: 0 <= i < |s.queue| ==> s.queue[i] == t.queue[i].(psn := s.queue[i].psn)
  }

  lemma RedriveSame(s: Syn, start: u32)
    requires SynInv(s)
    ensures SameButPsns(Redrive(s, start), s) && Redrive(s, start).start == start
  {
    RedriveKeeps(s, start);
  }

  /** A PDC in the SYN state is determined by its Start_PSN and the offsets of what it has queued. */
  lemma SameStart(s: Syn, t: Syn)
    requires SameButPsns(s, t) && s.start == t.start
    ensures s == t
  {
  }

  /** Adopting another Start_PSN first makes no difference; in particular adopting one twice is adopting it once. */
  lemma RedriveComposes(s: Syn, a: u32, b: u32)
    requires SynInv(s)
    ensures Redrive(Redrive(s, a), b) == Redrive(s, b)
  {
    var t := Redrive(s, a);
    RedriveSame(s, a);
    RedriveSame(s, b);
    RedriveSame(t, b);
    ChainSame(Redrive(t, b), t, s, Redrive(s, b));
    SameStart(Redrive(t, b), Redrive(s, b));
  }

  lemma ChainSame(u: Syn, t: Syn, s: Syn, v: Syn)
    requires SameButPsns(u, t) && SameButPsns(t, s) && SameButPsns(v, s)
    ensures SameButPsns(u, v)
  {
  }

  // ---------------------------------------------------------------- runs in the SYN state

  datatype Event = EvSend(handle: nat) | EvDrop(handle: nat) | EvNewStart(start: u32)

  function Apply(s: Syn, e: Event): Syn {
    match e
    case EvSend(h) => SendSyn(s, h)
    case EvDrop(h) => DropSyn(s, h)
    case EvNewStart(start) => Redrive(s, start)
  }

  function Run(s: Syn, es: seq<Event>): Syn
    decreases |es|
  {
    if es == [] then s else Run(Apply(s, es[0]), es[1..])
  }

  /** Until the first acknowledgement, next_psn - start_psn is syn_offset, whatever was sent, dropped or re-driven. */
  lemma {:induction false} SynKept(s: Syn, es: seq<Event>)
    requires SynInv(s)
    ensures SynInv(Run(s, es))
    decreases |es|
  {
    if es != [] {
      match es[0] {
        case EvSend(h) => SendKeeps(s, h);
        case EvDrop(h) =>
          forall i | 0 <= i < |DropSyn(s, h).queue| ensures PktOk(DropSyn(s, h).queue[i], s.start, s.synOffset) {
            assert DropSyn(s, h).queue[i] in s.queue;
          }
        case EvNewStart(start) => RedriveKeeps(s, start);
      }
      SynKept(Apply(s, es[0]), es[1..]);
    }
  }

  /** The initiator PDC as it runs. */
  class SynPdc {
    var startPsn: u32
    var nextPsn: u32
    var txBmBasePsn: u32
    var rxBmBasePsn: u32
    var maxCackPsn: u32
    var synOffset: nat
    var queue: seq<SynPkt>

    ghost function Model(): Syn
      reads this
    {
      Syn(startPsn, nextPsn, txBmBasePsn, rxBmBasePsn, maxCackPsn, synOffset, queue)
    }

    constructor (start: u32)
      ensures Model() == InitSyn(start) && SynInv(Model())
    {
      startPsn, nextPsn, txBmBasePsn, rxBmBasePsn := start, start, start, start;
      maxCackPsn, synOffset, queue := Wrap(start - 1), 0, [];
    }

    /** `uet_pds_tx_pkt` in the SYN state. */
    method TxPkt(handle: nat) returns (sent: bool)
      requires SynInv(Model())
      modifies this
      ensures Model() == SendSyn(old(Model()), handle) && SynInv(Model())
      ensures sent <==> old(synOffset) < MPR
    {
      SendKeeps(Model(), handle);
      RoomMeans(Model());
      sent := InMpr(nextPsn, txBmBasePsn);
      if sent {
        var clearOff := WireOffset(nextPsn, Wrap(txBmBasePsn - 1));
        queue := queue + [SynPkt(nextPsn, synOffset % (SYN_OFFSET_MASK + 1), clearOff, handle)];
        nextPsn := Wrap(nextPsn + 1);
        synOffset := synOffset + 1;
      }
    }

    /** `uet_pds_reestablish_start_psn`: the packets sent again, in list order. */
    method ReestablishStartPsn(newStart: u32) returns (resent: seq<SynPkt>)
      modifies this
      ensures Model() == Redrive(old(Model()), newStart)
      ensures resent == if newStart == old(startPsn) then [] else queue
    {
      var delta := Wrap(newStart - startPsn);
      assert delta == 0 <==> newStart == startPsn by { DeltaReaches(startPsn, newStart); }
      resent := [];
      if delta == 0 {
        return;
      }
      resent := ShiftPsns(delta);
    }

    /** Every PSN of the PDC moves by `delta`, and what is queued is sent again. */
    method ShiftPsns(delta: int) returns (resent: seq<SynPkt>)
      modifies this
      ensures Model() == Shifted(old(Model()), delta) && resent == queue
    {
      startPsn := Wrap(startPsn + delta);
      nextPsn := Wrap(nextPsn + delta);
      txBmBasePsn := Wrap(txBmBasePsn + delta);
      rxBmBasePsn := Wrap(rxBmBasePsn + delta);
      maxCackPsn := Wrap(maxCackPsn + delta);
      queue, resent := RestampQueue(queue, delta);
    }
  }

  /** The loop of `uet_pds_reestablish_start_psn`. */
  method RestampQueue(queue: seq<SynPkt>, delta: int) returns (out: seq<SynPkt>, resent: seq<SynPkt>)
    ensures out == MoveAll(queue, delta) && resent == out
  {
    out, resent := queue, [];
    var i := 0;
    while i < |queue|
      invariant 0 <= i <= |queue| == |out|
      invariant forall k :: i <= k < |queue| ==> out[k] == queue[k]
      invariant forall k :: 0 <= k < i ==> out[k] == Moved(queue[k], delta)
      invariant resent == out[..i]
    {
      out := out[i := out[i].(psn := Wrap(out[i].psn + delta))];
      resent := resent + [out[i]];
      i := i + 1;
    }
  }
}
