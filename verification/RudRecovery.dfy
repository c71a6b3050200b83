/**
  What a packet's own retransmissions achieve when everything on the network is lost.  The timer and the NACK handler
  send again only while retries are left, so a packet known to have arrived is always asked after and never resent.
 */
module RudRecovery {
  import opened PdcTypes
  import opened Psn
  import opened TxWindow
  import opened RxWindow
  import opened RudProtocol
  import opened RudInvariant
  import opened RudProgress

  ghost predicate Outstanding(s: Sys, p: int) {
    p in s.tx.bm && !s.tx.bm[p].acked
  }

  /** SACK bits told the initiator that `p` has arrived, and the target's window has since moved past it. */
  ghost predicate InVain(s: Sys, p: int) {
    p in s.tx.bm && s.tx.bm[p].dstRecvd && p < s.rx.base
  }

  /** The timer takes up `p`, or a packet arrives: nothing else is sent, dropped or drained. */
  predicate Own(p: int, e: Event) {
    match e
    case EvRetransmit(q, probe) => q == p && probe
    case EvSend(_) => false
    case EvDrop(_) => false
    case EvDrain => false
    case _ => true
  }

  ghost predicate OwnRun(s: Sys, p: int, es: seq<Event>) {
    ValidRun(s, es) && forall i :: 0 <= i < |es| ==> Own(p, es[i])
  }

  // ---------------------------------------------------------------- runs step by step

  lemma RunCons(s: Sys, e: Event, s1: Sys, rest: seq<Event>)
    requires Enabled(s, e) && s1 == Apply(s, e) && ValidRun(s1, rest)
    ensures ValidRun(s, [e] + rest) && Run(s, [e] + rest) == Run(s1, rest)
  {
    assert ([e] + rest)[1..] == rest;
  }

  lemma RunTwo(s: Sys, e0: Event, s1: Sys, e1: Event, s2: Sys)
    requires Enabled(s, e0) && s1 == Apply(s, e0) && Enabled(s1, e1) && s2 == Apply(s1, e1)
    ensures ValidRun(s, [e0, e1]) && Run(s, [e0, e1]) == s2
  {
    assert ValidRun(s1, [e1]) && Run(s1, [e1]) == s2 by {
      RunCons(s1, e1, s2, []);
      assert [e1] + [] == [e1];
    }
    RunCons(s, e0, s1, [e1]);
    assert [e0] + [e1] == [e0, e1];
  }

  lemma RunThree(s: Sys, e0: Event, s1: Sys, e1: Event, s2: Sys, e2: Event, s3: Sys)
    requires Enabled(s, e0) && s1 == Apply(s, e0) && Enabled(s1, e1) && s2 == Apply(s1, e1)
    requires Enabled(s2, e2) && s3 == Apply(s2, e2)
    ensures ValidRun(s, [e0, e1, e2]) && Run(s, [e0, e1, e2]) == s3
  {
    RunTwo(s1, e1, s2, e2, s3);
    RunCons(s, e0, s1, [e1, e2]);
    assert [e0] + [e1, e2] == [e0, e1, e2];
  }

  lemma NoNet(s: Sys)
    requires Inv(s)
    ensures Inv(s.(net := {}))
  {
    forall p | p in s.rx.bm ensures RxPktInv(s.(net := {}), p) { assert RxPktInv(s, p); }
    forall p | p in s.tx.bm ensures TxPktInv(s.(net := {}), p) { assert TxPktInv(s, p); }
  }

  // ---------------------------------------------------------------- recovery

  /** What becomes of packet `p`: SES has been told of it, and if its response is guaranteed, by that response. */
  ghost predicate Recovered(s: Sys, p: int) {
    p in s.done && p in s.accepted && (s.accepted[p] ==> s.done[p] == Explicit(true))
  }

  lemma DoneIsRecovered(s: Sys, p: int)
    requires Inv(s) && p in s.done
    ensures Recovered(s, p)
  {
  }

  /** An ACK request for an outstanding packet in the target's window brings the ACK that completes it. */
  lemma ProbeTrip(s: Sys, e: Event) returns (a: Msg)
    requires Inv(s) && e.EvAckReq? && Enabled(s, e) && Outstanding(s, e.m.psn) && e.m.psn in s.rx.bm
    ensures a in Apply(Only(s, e.m), e).net && Enabled(Apply(s, e), EvAck(a))
    ensures Recovered(Apply(Apply(s, e), EvAck(a)), e.m.psn)
  {
    AckReqAnswered(s, e);
    a :| a in Apply(Only(s, e.m), e).net && a.Ack? && a.psn == e.m.psn;
    var s1 := Apply(s, e);
    assert a in s1.net && s1.tx == s.tx;
    StepKeeps(s, e);
    ExplicitDone(s1, a);
    StepKeeps(s1, EvAck(a));
    DoneIsRecovered(Apply(s1, EvAck(a)), e.m.psn);
  }

  /** How the arrival of what the timer sends for `p` is taken; SES accepts a request that is new to it. */
  ghost function Arrival(s: Sys, p: int, gtdDel: bool): Event
    requires p in s.tx.bm
  {
    if s.tx.bm[p].dstRecvd then EvAckReq(AckReq(p), None)
    else EvReq(Req(p, s.tx.bm[p].clear), false, Accept(gtdDel), true, None)
  }

  lemma ArrivalTrip(s: Sys, s1: Sys, p: int, gtdDel: bool) returns (a: Msg)
    requires Inv(s1) && s1 == s.(net := s1.net) && Outstanding(s, p) && !InVain(s, p)
    requires Enabled(s1, Arrival(s, p, gtdDel))
    ensures var e := Arrival(s, p, gtdDel);
      Enabled(Apply(s1, e), EvAck(a)) && Recovered(Apply(Apply(s1, e), EvAck(a)), p)
  {
    var e := Arrival(s, p, gtdDel);
    assert TxPktInv(s1, p);
    if s.tx.bm[p].dstRecvd {
      a := ProbeTrip(s1, e);
    } else {
      a := RoundTrip(s1, e);
      StepKeeps(s1, e);
      StepKeeps(Apply(s1, e), EvAck(a));
      DoneIsRecovered(Apply(Apply(s1, e), EvAck(a)), p);
    }
  }

  lemma RecoverFrom(s: Sys, p: int, gtdDel: bool) returns (a: Msg)
    requires Inv(s) && PeerInv(s) && Outstanding(s, p) && !InVain(s, p)
    ensures var s0 := s.(net := {}); var es := [EvRetransmit(p, true), Arrival(s, p, gtdDel), EvAck(a)];
      ValidRun(s0, es) && Recovered(Run(s0, es), p)
  {
    var s0, e0, e1 := s.(net := {}), EvRetransmit(p, true), Arrival(s, p, gtdDel);
    NoNet(s);
    ResendSends(s0, p, true);
    var s1 := Apply(s0, e0);
    StepKeeps(s0, e0);
    a := ArrivalTrip(s, s1, p, gtdDel);
    var s2 := Apply(s1, e1);
    RunThree(s0, e0, s1, e1, s2, EvAck(a), Apply(s2, EvAck(a)));
  }

  /**
    In every reachable state, with everything on the network lost, what the timer sends for an outstanding packet,
    its arrival and the arrival of the ACK it brings complete the packet, unless it is asked after in vain.
   */
  lemma Recoverable(start: int, es: seq<Event>, p: int, gtdDel: bool) returns (a: Msg)
    requires ValidRun(Init(start), es)
    requires var s := Run(Init(start), es); Outstanding(s, p) && !InVain(s, p)
    ensures var s := Run(Init(start), es); var s0 := s.(net := {});
      var rec := [EvRetransmit(p, true), Arrival(s, p, gtdDel), EvAck(a)];
      ValidRun(s0, rec) && Recovered(Run(s0, rec), p)
  {
    Reached(start, es);
    a := RecoverFrom(Run(Init(start), es), p, gtdDel);
  }

  // ---------------------------------------------------------------- asking in vain

  ghost predicate OnlyProbes(s: Sys, p: int) {
    forall m :: m in s.net ==> m == AckReq(p)
  }

  lemma {:induction false} ProbesInVain(s: Sys, p: int, es: seq<Event>)
    requires OnlyProbes(s, p) && InVain(s, p) && OwnRun(s, p, es)
    ensures Run(s, es) == s.(net := Run(s, es).net)
    decreases |es|
  {
    if es != [] {
      var s1 := Apply(s, es[0]);
      assert Own(p, es[0]);
      assert s1 == s.(net := s1.net) && OnlyProbes(s1, p);
      assert OwnRun(s1, p, es[1..]) by {
        forall i | 0 <= i < |es[1..]| ensures Own(p, es[1..][i]) { assert es[1..][i] == es[i + 1]; }
      }
      ProbesInVain(s1, p, es[1..]);
    }
  }

  /**
    In every reachable state, with everything on the network lost: the packet's own retransmissions and the packets
    they bring can complete it if and only if it is not asked after in vain.
   */
  lemma CompletesItselfIff(start: int, es: seq<Event>, p: int)
    requires ValidRun(Init(start), es) && Outstanding(Run(Init(start), es), p)
    ensures var s := Run(Init(start), es); var s0 := s.(net := {});
      (exists rec :: OwnRun(s0, p, rec) && p in Run(s0, rec).done) <==> !InVain(s, p)
  {
    Reached(start, es);
    var s := Run(Init(start), es);
    var s0 := s.(net := {});
    assert p !in s.done by { assert TxPktInv(s, p); }
    if InVain(s, p) {
      forall rec | OwnRun(s0, p, rec) ensures p !in Run(s0, rec).done { ProbesInVain(s0, p, rec); }
    } else {
      var a := RecoverFrom(s, p, false);
      assert OwnRun(s0, p, [EvRetransmit(p, true), Arrival(s, p, false), EvAck(a)]);
    }
  }

  /** A packet asked after in vain is completed by the ACK of the next packet that is sent and accepted. */
  lemma NextPacketRescues(start: int, es: seq<Event>, p: int, h: nat, gtdDel: bool) returns (a: Msg)
    requires ValidRun(Init(start), es)
    requires var s := Run(Init(start), es);
      Outstanding(s, p) && InVain(s, p) && s.tx.next < s.tx.base + MPR && s.tx.next <= s.tx.maxCack + MPR
    ensures var s := Run(Init(start), es); var s0 := s.(net := {});
      var rec := [EvSend(h), EvReq(Req(s.tx.next, s.tx.base - 1), false, Accept(gtdDel), true, None), EvAck(a)];
      ValidRun(s0, rec) && p in Run(s0, rec).done
  {
    Reached(start, es);
    a := RescueFrom(Run(Init(start), es), p, h, gtdDel);
  }

  lemma RescueFrom(s: Sys, p: int, h: nat, gtdDel: bool) returns (a: Msg)
    requires Inv(s) && Outstanding(s, p) && InVain(s, p)
    requires s.tx.next < s.tx.base + MPR && s.tx.next <= s.tx.maxCack + MPR
    ensures var s0 := s.(net := {});
      var rec := [EvSend(h), EvReq(Req(s.tx.next, s.tx.base - 1), false, Accept(gtdDel), true, None), EvAck(a)];
      ValidRun(s0, rec) && p in Run(s0, rec).done
  {
    var s0, e0 := s.(net := {}), EvSend(h);
    var e1 := EvReq(Req(s.tx.next, s.tx.base - 1), false, Accept(gtdDel), true, None);
    NoNet(s);
    SendIff(s, h);
    var s1 := Apply(s0, e0);
    assert s1.rx == s.rx && s1.accepted == s.accepted;
    StepKeeps(s0, e0);
    a := RescueAck(s1, e1, p);
    var s2 := Apply(s1, e1);
    RunThree(s0, e0, s1, e1, s2, EvAck(a), Apply(s2, EvAck(a)));
  }

  lemma RescueAck(s: Sys, e: Event, p: int) returns (a: Msg)
    requires Inv(s) && e.EvReq? && Enabled(s, e) && e.ses.Accept? && e.due
    requires e.m.psn !in s.accepted && Outstanding(s, e.m.psn) && p in s.tx.bm && p < s.rx.base
    ensures Enabled(Apply(s, e), EvAck(a)) && p in Apply(Apply(s, e), EvAck(a)).done
  {
    var b := NewTaken(s, e);
    a := b.value;
    var s1 := Apply(s, e);
    StepKeeps(s, e);
    assert a.cack >= s.rx.cack by {
      OutstandingInReach(s, e.m.psn);
      AcceptRxSpec(s.rx, e.m.psn, e.m.clear, e.ses.gtdDel, e.due, e.sackBase);
    }
    assert s1.tx == s.tx;
    CackTaken(s1, a);
  }

  // ---------------------------------------------------------------- how it comes about

  /** Both packets are sent, and packet 1 is taken without an ACK. */
  function VainStart(): seq<Event> {
    [EvSend(0), EvSend(0), EvReq(Req(1, -1), false, Accept(false), false, None)]
  }

  /** Packet 0 is taken with a guaranteed response, its ACK reports both, and the CLEAR arrives. */
  function VainEnd(a: Msg): seq<Event> {
    [EvReq(Req(0, -1), false, Accept(true), true, Some(0)), EvAck(a), EvClear(Clear(0))]
  }

  ghost predicate BothSent(s: Sys) {
    && s.start == 0 && s.tx.base == 0 && s.tx.next == 2 && s.tx.maxCack == -1 && s.tx.bm.Keys == {0, 1}
    && !s.tx.bm[0].acked && !s.tx.bm[1].acked && Req(0, -1) in s.net && Req(1, -1) in s.net
    && s.rx == InitRx(0) && s.accepted == map[]
  }

  lemma VainSent(s: Sys)
    requires s == Apply(Apply(Init(0), EvSend(0)), EvSend(0))
    ensures BothSent(s)
  {
    var s1 := Apply(Init(0), EvSend(0));
    assert s1.tx.bm.Keys == {0};
  }

  /** Packet 1 is with SES, and packet 0 has not come. */
  ghost predicate OneTaken(s: Sys) {
    && s.start == 0 && s.tx.base == 0 && s.tx.next == 2 && s.tx.maxCack == -1 && s.tx.bm.Keys == {0, 1}
    && !s.tx.bm[0].acked && !s.tx.bm[1].acked && Req(0, -1) in s.net
    && s.rx.base == 0 && s.rx.cack == -1 && s.rx.maxClear == -1 && s.rx.bm.Keys == {1} && s.accepted == map[1 := false]
  }

  /** Both packets are with SES, and the window waits for the CLEAR of packet 0. */
  ghost predicate BothTaken(s: Sys, a: Msg) {
    && s.start == 0 && s.tx.base == 0 && s.tx.next == 2 && s.tx.maxCack == -1 && s.tx.bm.Keys == {0, 1}
    && !s.tx.bm[0].acked && !s.tx.bm[1].acked
    && s.accepted == map[1 := false, 0 := true] && s.rx.base == 0 && s.rx.maxClear == -1
    && a in s.net && a.Ack? && a.psn == 0 && a.cack == -1 && a.reqClear && a.cc.Some? && 1 in a.cc.value.sack
  }

  lemma VainFirst(s: Sys, e: Event, s': Sys)
    requires Inv(s) && BothSent(s) && e == EvReq(Req(1, -1), false, Accept(false), false, None) && s' == Apply(s, e)
    ensures OneTaken(s')
  {
    AcceptRxSpec(s.rx, 1, -1, false, false, None);
  }

  lemma VainSecond(s: Sys, e: Event, s': Sys) returns (a: Msg)
    requires Inv(s) && OneTaken(s)
    requires e == EvReq(Req(0, -1), false, Accept(true), true, Some(0)) && s' == Apply(s, e)
    ensures BothTaken(s', a)
  {
    AcceptRxSpec(s.rx, 0, -1, true, true, Some(0));
    var b := NewTaken(s, e);
    a := b.value;
    SackExactOnAccept(s, e, a, 1);
  }

  lemma VainWindow(t: Tx, a: Msg, t': Tx)
    requires t.base == 0 && t.next == 2 && t.maxCack == -1 && t.bm.Keys == {0, 1} && !t.bm[0].acked && !t.bm[1].acked
    requires a.Ack? && a.psn == 0 && a.cack == -1 && AckEffect(t, a, t')
    ensures t'.base == 1 && t'.bm.Keys == {1} && !t'.bm[1].acked
  {
    assert !AckedAfter(t, a, 1) && AckedAfter(t, a, 0);
    assert forall p :: p in t.bm <==> p in {0, 1};
    forall p ensures p in t'.bm.Keys <==> p in {1} {
      assert p in t'.bm <==> p in t.bm && p >= 1;
    }
  }

  lemma VainAcked(s: Sys, a: Msg, s': Sys)
    requires Inv(s) && BothTaken(s, a) && s' == OnAck(s, a)
    ensures s'.tx.base == 1 && s'.tx.bm.Keys == {1} && s'.tx.bm[1].dstRecvd && !s'.tx.bm[1].acked
    ensures Clear(0) in s'.net && s'.rx == s.rx && s'.accepted == s.accepted && s'.start == s.start
  {
    var tx, news := AckTx(s.tx, a), Completions(s.tx, a);
    assert Judge(s.tx, 0, -1) == Fresh;
    assert tx.base == 1 && tx.bm.Keys == {1} && !tx.bm[1].acked by {
      AckTxSpec(s.tx, a);
      VainWindow(s.tx, a, tx);
    }
    assert tx.bm[1].dstRecvd by { SackRecorded(s.tx, a, 1); }
    AckLeads(s, a, tx, news);
  }

  lemma VainCleared(s: Sys, s': Sys)
    requires Inv(s) && s.rx.base == 0 && s.rx.maxClear == -1 && s.accepted == map[1 := false, 0 := true] && s.start == 0
    requires Clear(0) in s.net && s' == Apply(s, EvClear(Clear(0)))
    ensures s'.rx.base == 2 && s'.tx == s.tx
  {
    StepKeeps(s, EvClear(Clear(0)));
    ClearFrontier(s.rx, 0);
    assert 0 in s.rx.bm && 1 in s.rx.bm && RxPktInv(s, 0) && RxPktInv(s, 1);
  }

  lemma VainBegins(s: Sys)
    requires s == Init(0)
    ensures ValidRun(s, VainStart()) && OneTaken(Run(s, VainStart())) && Inv(Run(s, VainStart()))
  {
    var e2 := EvReq(Req(1, -1), false, Accept(false), false, None);
    InitInv(0);
    var s1 := Apply(s, EvSend(0));
    StepKeeps(s, EvSend(0));
    var s2 := Apply(s1, EvSend(0));
    StepKeeps(s1, EvSend(0));
    VainSent(s2);
    var s3 := Apply(s2, e2);
    StepKeeps(s2, e2);
    VainFirst(s2, e2, s3);
    RunThree(s, EvSend(0), s1, EvSend(0), s2, e2, s3);
  }

  /** The one packet outstanding is asked after in vain. */
  ghost predicate LastInVain(s: Sys) {
    Outstanding(s, 1) && InVain(s, 1) && s.tx.bm.Keys == {1}
  }

  lemma VainEnds(s: Sys) returns (a: Msg)
    requires Inv(s) && OneTaken(s)
    ensures ValidRun(s, VainEnd(a)) && LastInVain(Run(s, VainEnd(a)))
  {
    var e0, e2 := EvReq(Req(0, -1), false, Accept(true), true, Some(0)), EvClear(Clear(0));
    var s1 := Apply(s, e0);
    StepKeeps(s, e0);
    a := VainSecond(s, e0, s1);
    var s2 := Apply(s1, EvAck(a));
    StepKeeps(s1, EvAck(a));
    VainAcked(s1, a, s2);
    var s3 := Apply(s2, e2);
    VainCleared(s2, s3);
    RunThree(s, e0, s1, EvAck(a), s2, e2, s3);
  }

  lemma {:induction false} RunJoin(s: Sys, xs: seq<Event>, ys: seq<Event>)
    requires ValidRun(s, xs) && ValidRun(Run(s, xs), ys)
    ensures ValidRun(s, xs + ys) && Run(s, xs + ys) == Run(Run(s, xs), ys)
    decreases |xs|
  {
    if xs == [] {
      assert xs + ys == ys;
    } else {
      RunJoin(Apply(s, xs[0]), xs[1..], ys);
      RunCons(s, xs[0], Apply(s, xs[0]), xs[1..] + ys);
      assert [xs[0]] + (xs[1..] + ys) == xs + ys;
    }
  }

  /**
    A run after which the one packet outstanding is asked after in vain: it was taken, SACK bits said so, its ACK was
    lost, and a CLEAR moved the target's window past it without an ACK.
   */
  lemma VainExample() returns (a: Msg)
    ensures ValidRun(Init(0), VainStart() + VainEnd(a)) && LastInVain(Run(Init(0), VainStart() + VainEnd(a)))
  {
    VainBegins(Init(0));
    a := VainEnds(Run(Init(0), VainStart()));
    RunJoin(Init(0), VainStart(), VainEnd(a));
  }
}
