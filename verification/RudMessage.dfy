/**
  One message over one RUD PDC: the windows of both ends, the network that loses, repeats and reorders, and the
  target's buffer, as one state machine.  Packet `k` of the message has PSN `first + k`.
 */
module RudMessage {
  import opened FlatMem
  import opened PdcTypes
  import Reassembly
  import RudInvariant
  import RudProtocol
  import RxWindow

  /** The message, where its buffer takes it, the payload limit, and the PSN of its first packet. */
  datatype Job = Job(msg: seq<Byte>, at: nat, mpl: nat, first: int)

  datatype World = World(sys: RudProtocol.Sys, arr: Reassembly.Arrival)

  /** The job fits its buffer and the fields of the SES header. */
  ghost predicate Fits(j: Job, buf0: seq<Byte>) {
    && 0 < j.mpl < Reassembly.PAYLOAD_LEN_SPACE && |j.msg| < Reassembly.MSG_OFF_SPACE
    && j.at + |j.msg| <= |buf0| < Reassembly.SIZE_SPACE
  }

  ghost function Count(j: Job): (n: nat)
    requires j.mpl > 0
    ensures n > 0
  {
    Reassembly.PiecesTile(|j.msg|, j.mpl);
    |Reassembly.Pieces(|j.msg|, j.mpl)|
  }

  ghost function InitWorld(start: int, j: Job, buf0: seq<Byte>): World
    requires j.mpl > 0
  {
    World(RudProtocol.Init(start), Reassembly.Empty(buf0, Count(j)))
  }

  /** The event hands packet `e.m.psn - j.first` of the message to SES, which takes it. */
  ghost predicate HandsUp(s: RudProtocol.Sys, e: RudProtocol.Event, j: Job)
    requires j.mpl > 0
  {
    && e.EvReq? && e.m.Req? && RxWindow.Classify(s.rx, e.m.psn) == RxWindow.New && e.ses.Accept?
    && j.first <= e.m.psn < j.first + Count(j)
  }

  /** The target's SES on packet `k`, as parsed from the wire. */
  ghost function Receive(a: Reassembly.Arrival, j: Job, k: nat): Reassembly.Arrival
    requires j.mpl > 0 && k < |a.got| == Count(j)
  {
    var ps := Reassembly.Pieces(|j.msg|, j.mpl);
    Reassembly.PiecesTile(|j.msg|, j.mpl);
    assert Reassembly.Fits(ps[k], |j.msg|);
    var pkt := Reassembly.OnWire(Reassembly.PktOf(j.msg, ps[k]));
    Reassembly.Arrival(a.got[k := true], Reassembly.RxPkt(a.rx, pkt, j.at, j.mpl).0)
  }

  ghost function Step(w: World, e: RudProtocol.Event, j: Job): World
    requires j.mpl > 0 && RudProtocol.Enabled(w.sys, e) && |w.arr.got| == Count(j)
  {
    World(RudProtocol.Apply(w.sys, e), if HandsUp(w.sys, e, j) then Receive(w.arr, j, e.m.psn - j.first) else w.arr)
  }

  ghost predicate ValidRun(w: World, es: seq<RudProtocol.Event>, j: Job)
    requires j.mpl > 0 && |w.arr.got| == Count(j)
    decreases |es|
  {
    es == [] || (RudProtocol.Enabled(w.sys, es[0]) && ValidRun(Step(w, es[0], j), es[1..], j))
  }

  ghost function Run(w: World, es: seq<RudProtocol.Event>, j: Job): World
    requires j.mpl > 0 && |w.arr.got| == Count(j) && ValidRun(w, es, j)
    decreases |es|
  {
    if es == [] then w else Run(Step(w, es[0], j), es[1..], j)
  }

  // ---------------------------------------------------------------- the invariant

  /** SES has taken exactly the packets whose PSNs the target has accepted. */
  ghost predicate Matches(got: seq<bool>, accepted: map<int, bool>, first: int) {
    forall p :: first <= p < first + |got| ==> (p in accepted <==> got[p - first])
  }

  lemma MatchesMore(got: seq<bool>, accepted: map<int, bool>, first: int, p: int, gtdDel: bool)
    requires Matches(got, accepted, first) && first <= p < first + |got|
    ensures Matches(got[p - first := true], accepted[p := gtdDel], first)
  {
  }

  ghost predicate Inv(w: World, j: Job, buf0: seq<Byte>) {
    && Fits(j, buf0)
    && RudProtocol.Inv(w.sys) && Reassembly.Inv(w.arr, j.msg, buf0, j.at, j.mpl)
    && |w.arr.got| == Count(j)
    && Matches(w.arr.got, w.sys.accepted, j.first)
  }

  /** On the wire nothing of a packet is lost, so the target's SES sees the packet that was cut. */
  lemma ReceiveIsTake(a: Reassembly.Arrival, j: Job, buf0: seq<Byte>, k: nat)
    requires Fits(j, buf0) && k < |a.got| == Count(j)
    ensures Receive(a, j, k) == Reassembly.Take(a, j.msg, j.at, j.mpl, k)
  {
    var ps := Reassembly.Pieces(|j.msg|, j.mpl);
    Reassembly.PiecesTile(|j.msg|, j.mpl);
    assert Reassembly.Fits(ps[k], |j.msg|) && Reassembly.FullLength(ps[k], |j.msg|, j.mpl);
    Reassembly.OnWireExact(Reassembly.PktOf(j.msg, ps[k]));
  }

  lemma ReceiveKeeps(a: Reassembly.Arrival, j: Job, buf0: seq<Byte>, k: nat)
    requires Fits(j, buf0) && k < |a.got| == Count(j) && !a.got[k] && Reassembly.Inv(a, j.msg, buf0, j.at, j.mpl)
    ensures Reassembly.Inv(Receive(a, j, k), j.msg, buf0, j.at, j.mpl)
  {
    ReceiveIsTake(a, j, buf0, k);
    Reassembly.TakeKeeps(a, j.msg, buf0, j.at, j.mpl, k);
  }

  /** An accepted PSN is new to the target, so its packet is new to SES. */
  lemma NewToSes(w: World, e: RudProtocol.Event, j: Job, buf0: seq<Byte>)
    requires Inv(w, j, buf0) && RudProtocol.Enabled(w.sys, e) && HandsUp(w.sys, e, j)
    ensures !w.arr.got[e.m.psn - j.first]
    ensures RudProtocol.Apply(w.sys, e).accepted == w.sys.accepted[e.m.psn := e.ses.gtdDel]
  {
    RudInvariant.AcceptCovers(w.sys, e);
  }

  lemma HandUpKeeps(w: World, e: RudProtocol.Event, j: Job, buf0: seq<Byte>)
    requires Inv(w, j, buf0) && RudProtocol.Enabled(w.sys, e) && HandsUp(w.sys, e, j)
    ensures Reassembly.Inv(Receive(w.arr, j, e.m.psn - j.first), j.msg, buf0, j.at, j.mpl)
  {
    NewToSes(w, e, j, buf0);
    ReceiveKeeps(w.arr, j, buf0, e.m.psn - j.first);
  }

  lemma HandUpMatches(w: World, e: RudProtocol.Event, j: Job, buf0: seq<Byte>)
    requires Inv(w, j, buf0) && RudProtocol.Enabled(w.sys, e) && HandsUp(w.sys, e, j)
    ensures var w' := Step(w, e, j); Matches(w'.arr.got, w'.sys.accepted, j.first)
  {
    NewToSes(w, e, j, buf0);
    MatchesMore(w.arr.got, w.sys.accepted, j.first, e.m.psn, e.ses.gtdDel);
  }

  lemma OthersMatch(w: World, e: RudProtocol.Event, j: Job, buf0: seq<Byte>)
    requires Inv(w, j, buf0) && RudProtocol.Enabled(w.sys, e) && !HandsUp(w.sys, e, j)
    ensures var w' := Step(w, e, j); w'.arr == w.arr && Matches(w'.arr.got, w'.sys.accepted, j.first)
  {
  }

  lemma StepKeeps(w: World, e: RudProtocol.Event, j: Job, buf0: seq<Byte>)
    requires Inv(w, j, buf0) && RudProtocol.Enabled(w.sys, e)
    ensures Inv(Step(w, e, j), j, buf0)
  {
    var w' := Step(w, e, j);
    assert RudProtocol.Inv(w'.sys) by { RudInvariant.StepKeeps(w.sys, e); }
    assert Reassembly.Inv(w'.arr, j.msg, buf0, j.at, j.mpl) by {
      if HandsUp(w.sys, e, j) { HandUpKeeps(w, e, j, buf0); }
    }
    assert Matches(w'.arr.got, w'.sys.accepted, j.first) by {
      if HandsUp(w.sys, e, j) { HandUpMatches(w, e, j, buf0); } else { OthersMatch(w, e, j, buf0); }
    }
  }

  lemma {:induction false} RunKeeps(w: World, es: seq<RudProtocol.Event>, j: Job, buf0: seq<Byte>)
    requires Inv(w, j, buf0) && ValidRun(w, es, j)
    ensures Inv(Run(w, es, j), j, buf0)
    decreases |es|
  {
    if es != [] {
      StepKeeps(w, es[0], j, buf0);
      RunKeeps(Step(w, es[0], j), es[1..], j, buf0);
    }
  }

  lemma Reached(start: int, es: seq<RudProtocol.Event>, j: Job, buf0: seq<Byte>)
    requires Fits(j, buf0) && ValidRun(InitWorld(start, j, buf0), es, j)
    ensures Inv(Run(InitWorld(start, j, buf0), es, j), j, buf0)
  {
    RudInvariant.InitInv(start);
    Reassembly.EmptyInv(j.msg, buf0, j.at, j.mpl);
    RunKeeps(InitWorld(start, j, buf0), es, j, buf0);
  }

  // ---------------------------------------------------------------- the theorems

  ghost predicate AllAccepted(w: World, j: Job)
    requires j.mpl > 0
  {
    forall p :: j.first <= p < j.first + Count(j) ==> p in w.sys.accepted
  }

  /**
    Whatever the network does, a completion is posted at the target if and only if every PSN of the message has
    been accepted, and then once, with the buffer holding exactly the message.
   */
  lemma DeliveredOnce(start: int, es: seq<RudProtocol.Event>, j: Job, buf0: seq<Byte>)
    requires Fits(j, buf0) && ValidRun(InitWorld(start, j, buf0), es, j)
    ensures var w := Run(InitWorld(start, j, buf0), es, j);
      && w.arr.rx.posted == (if AllAccepted(w, j) then 1 else 0)
      && (AllAccepted(w, j) ==> w.arr.rx.buf == Splice(buf0, j.at, j.msg))
      && |w.arr.rx.buf| == |buf0|
      && (forall x :: 0 <= x < |buf0| && !(j.at <= x < j.at + |j.msg|) ==> w.arr.rx.buf[x] == buf0[x])
  {
    Reached(start, es, j, buf0);
    var w := Run(InitWorld(start, j, buf0), es, j);
    if AllAccepted(w, j) {
      forall k | 0 <= k < Count(j) ensures w.arr.got[k] {
        assert j.first + k in w.sys.accepted;
      }
      Reassembly.WholeBuffer(w.arr, j.msg, buf0, j.at, j.mpl);
    }
  }

  /**
    End to end: once the initiator has an acknowledgement, of either kind, for every packet of the message, or its
    window has moved past the message, the message stands in the target's buffer with one completion posted.
   */
  lemma AcknowledgedIsDelivered(start: int, es: seq<RudProtocol.Event>, j: Job, buf0: seq<Byte>)
    requires Fits(j, buf0) && ValidRun(InitWorld(start, j, buf0), es, j)
    requires var w := Run(InitWorld(start, j, buf0), es, j);
      || (forall p :: j.first <= p < j.first + Count(j) ==> p in w.sys.done)
      || (w.sys.start <= j.first && j.first + Count(j) <= w.sys.tx.base)
    ensures var w := Run(InitWorld(start, j, buf0), es, j);
      w.arr.rx.posted == 1 && w.arr.rx.buf == Splice(buf0, j.at, j.msg)
  {
    Reached(start, es, j, buf0);
    DeliveredOnce(start, es, j, buf0);
    var w := Run(InitWorld(start, j, buf0), es, j);
    forall p | j.first <= p < j.first + Count(j) ensures p in w.sys.accepted {
      assert p in w.sys.done;
    }
  }
}
