/**
  What RUD does in answer to each event, in every reachable state.  Where a packet must be sent by the step
  itself, the step is taken with the rest of the network lost, so that nothing sent earlier can stand in for it.
 */
module RudProgress {
  import opened PdcTypes
  import opened Psn
  import opened TxWindow
  import opened RxWindow
  import opened RudProtocol
  import opened RudInvariant

  /** The state with everything on the network lost but `m`. */
  ghost function Only(s: Sys, m: Msg): Sys {
    s.(net := {m})
  }

  lemma OnlyInv(s: Sys, m: Msg)
    requires Inv(s) && m in s.net
    ensures Inv(Only(s, m))
  {
    forall p | p in s.rx.bm ensures RxPktInv(Only(s, m), p) { assert RxPktInv(s, p); }
    forall p | p in s.tx.bm ensures TxPktInv(Only(s, m), p) { assert TxPktInv(s, p); }
  }

  // ---------------------------------------------------------------- requests are answered

  /** A packet that the initiator still waits for is never out of the target's reach. */
  lemma OutstandingInReach(s: Sys, p: int)
    requires Inv(s) && s.start <= p < s.tx.next && p !in s.done
    ensures s.tx.base <= p && s.rx.base - MPR <= p < s.rx.base + MPR
    ensures p !in s.accepted ==> Classify(s.rx, p) == New
  {
    if p in s.rx.bm { assert RxPktInv(s, p); }
  }

  /**
    A request that SES has accepted is answered with an ACK that names it whenever it arrives again, unless it is
    more than a window back.  While its guaranteed response is not processed, that ACK is the response.
   */
  lemma RepeatAnswered(s: Sys, e: Event) returns (a: Msg)
    requires Inv(s) && e.EvReq? && Enabled(s, e)
    requires e.m.psn in s.accepted && s.rx.base - MPR <= e.m.psn
    ensures a in Apply(Only(s, e.m), e).net && a in Apply(s, e).net
    ensures a.Ack? && a.psn == e.m.psn
    ensures s.accepted[a.psn] && a.psn !in s.done ==> a.response && a.reqClear
  {
    var p := e.m.psn;
    if p in s.rx.bm {
      assert RxPktInv(s, p);
      a := if s.rx.bm[p].ack.Some? then s.rx.bm[p].ack.value else DefaultResponse(s.rx, p, e.sackBase);
    } else {
      a := DefaultResponse(s.rx, p, e.sackBase);
    }
  }

  /** A new request that SES takes is recorded, with its gtd_del, and acknowledged when an ACK is due. */
  lemma NewTaken(s: Sys, e: Event) returns (a: Option<Msg>)
    requires Inv(s) && e.EvReq? && Enabled(s, e) && e.ses.Accept?
    requires e.m.psn !in s.accepted
    ensures var s' := Apply(s, e);
      && e.m.psn in s'.accepted && s'.accepted[e.m.psn] == e.ses.gtdDel && s'.sesLog[e.m.psn] == s.sesLog[e.m.psn] + 1
      && (a.Some? <==> e.due || e.ses.gtdDel)
      && (a.Some? ==> a.value in Apply(Only(s, e.m), e).net && a.value in s'.net)
    ensures a.Some? ==>
      a.value.Ack? && a.value.psn == e.m.psn && a.value.response && a.value.reqClear == e.ses.gtdDel
  {
    assert MsgInv(s, e.m);
    OutstandingInReach(s, e.m.psn);
    AcceptRxSpec(s.rx, e.m.psn, e.m.clear, e.ses.gtdDel, e.due, e.sackBase);
    a := AcceptRx(s.rx, e.m.psn, e.m.clear, e.ses.gtdDel, e.due, e.sackBase).1;
  }

  /** A new request that SES turns away is not recorded, and the initiator is told which way it was turned away. */
  lemma NewRefused(s: Sys, e: Event)
    requires Inv(s) && e.EvReq? && Enabled(s, e) && !e.ses.Accept?
    requires e.m.psn !in s.accepted
    ensures Apply(s, e).accepted == s.accepted && Apply(s, e).rx == s.rx
    ensures Nack(e.m.psn, if e.ses.Refuse? then NoSesMsgAvail else UnexpectedEvent) in Apply(Only(s, e.m), e).net
  {
    assert MsgInv(s, e.m);
    OutstandingInReach(s, e.m.psn);
  }

  /**
    A request more than a window back is for a packet that is done; it is NACKed as out of window and changes
    nothing.
   */
  lemma FarBackNacked(s: Sys, e: Event)
    requires Inv(s) && e.EvReq? && Enabled(s, e) && e.m.psn < s.rx.base - MPR
    ensures e.m.psn in s.done
    ensures Apply(Only(s, e.m), e) ==
      Only(s, e.m).(net := {e.m, Nack(e.m.psn, if e.syn then InvalidSyn else PsnOutOfWindow)})
  {
    assert MsgInv(s, e.m);
  }

  /**
    An ACK request is answered with an ACK if and only if the packet is in the target's window, and with a NACK
    if it is missing there.
   */
  lemma AckReqAnswered(s: Sys, e: Event)
    requires Inv(s) && e.EvAckReq? && Enabled(s, e)
    ensures Apply(s, e).rx == s.rx && Apply(s, e).accepted == s.accepted
    ensures e.m.psn in s.rx.bm ==> exists a :: a in Apply(Only(s, e.m), e).net && a.Ack? && a.psn == e.m.psn
    ensures s.rx.base <= e.m.psn && e.m.psn !in s.accepted ==> Nack(e.m.psn, PktNotReceived) in Apply(Only(s, e.m), e).net
    ensures e.m.psn < s.rx.base ==> Apply(Only(s, e.m), e).net == {e.m}
  {
    var p := e.m.psn;
    assert MsgInv(s, e.m);
    if p in s.rx.bm {
      assert RxPktInv(s, p);
      var a := if s.rx.bm[p].ack.Some? then s.rx.bm[p].ack.value else DefaultResponse(s.rx, p, e.sackBase);
      assert a in Apply(Only(s, e.m), e).net && a.Ack? && a.psn == p;
    }
  }

  // ---------------------------------------------------------------- acknowledgements take effect

  /** The SACK bits that stay in the window are recorded. */
  lemma SackRecorded(t: Tx, m: Msg, p: int)
    requires TxValid(t) && m.Ack? && Judge(t, m.psn, m.cack) != Rejected && m.cc.Some?
    requires p in m.cc.value.sack && p > Max(t.maxCack, m.cack) && p in AckTx(t, m).bm
    ensures AckTx(t, m).bm[p].dstRecvd
  {
    ShiftTxSpec(MergeAck(t, m));
  }

  /** An ACK for a packet that is tracked, or below the base, is never refused. */
  lemma NotRefused(s: Sys, m: Msg)
    requires Inv(s) && m in s.net && m.Ack? && (m.psn < s.tx.base || m.psn in s.tx.bm)
    ensures Judge(s.tx, m.psn, m.cack) != Rejected
  {
    assert MsgInv(s, m);
  }

  lemma SackTaken(s: Sys, m: Msg, p: int)
    requires Inv(s) && m in s.net && m.Ack? && (m.psn < s.tx.base || m.psn in s.tx.bm)
    requires var s' := Apply(s, EvAck(m));
      m.cc.Some? && p in m.cc.value.sack && p > Max(s.tx.maxCack, m.cack) && p in s'.tx.bm
    ensures Apply(s, EvAck(m)).tx.bm[p].dstRecvd
  {
    NotRefused(s, m);
    SackRecorded(s.tx, m, p);
  }

  lemma ExplicitNews(t: Tx, m: Msg)
    requires m.Ack? && Judge(t, m.psn, m.cack) != Rejected && m.psn in t.bm && !t.bm[m.psn].acked && t.base <= m.psn
    ensures m.psn in Completions(t, m) && Completions(t, m)[m.psn] == Explicit(m.response)
  {
  }

  /** What an ACK that is not refused leads to; `tx` and `news` are its effects on the window and on SES. */
  ghost predicate Led(s: Sys, m: Msg, tx: Tx, news: map<int, Completion>, s': Sys)
    requires m.Ack?
  {
    && s'.tx == tx && s'.done == s.done + news && s'.accepted == s.accepted
    && (Judge(s.tx, m.psn, m.cack) == Fresh && m.reqClear ==> Clear(tx.base - 1) in s'.net)
  }

  lemma AckLeads(s: Sys, m: Msg, tx: Tx, news: map<int, Completion>)
    requires m.Ack? && Judge(s.tx, m.psn, m.cack) != Rejected && tx == AckTx(s.tx, m) && news == Completions(s.tx, m)
    ensures Led(s, m, tx, news, OnAck(s, m))
  {
  }

  lemma CackTaken(s: Sys, m: Msg)
    requires Inv(s) && m in s.net && m.Ack? && (m.psn < s.tx.base || m.psn in s.tx.bm)
    ensures var s' := Apply(s, EvAck(m));
      s'.tx.maxCack == Max(s.tx.maxCack, m.cack) && forall p :: p in s.tx.bm && p <= m.cack ==> p in s'.done
  {
    NotRefused(s, m);
    var tx, news := AckTx(s.tx, m), Completions(s.tx, m);
    assert Led(s, m, tx, news, OnAck(s, m)) by { AckLeads(s, m, tx, news); }
    assert tx.maxCack == Max(s.tx.maxCack, m.cack) by { AckTxSpec(s.tx, m); }
    forall p | p in s.tx.bm && p <= m.cack ensures p in s.done + news {
      CoveredDone(s, m, p);
    }
  }

  lemma CoveredDone(s: Sys, m: Msg, p: int)
    requires Inv(s) && m in s.net && m.Ack? && Judge(s.tx, m.psn, m.cack) != Rejected && p in s.tx.bm && p <= m.cack
    ensures p in s.done || p in Completions(s.tx, m)
  {
    assert TxPktInv(s, p) && AckedAfter(s.tx, m, p);
    if !s.tx.bm[p].acked { AckCovers(s, m, p); }
  }

  lemma ExplicitDone(s: Sys, m: Msg)
    requires Inv(s) && m in s.net && m.Ack? && m.psn in s.tx.bm && !s.tx.bm[m.psn].acked
    ensures var s' := OnAck(s, m);
      m.psn in s'.done && s'.done[m.psn] == Explicit(m.response) && s'.rspLog[m.psn] == s.rspLog[m.psn] + 1
  {
    NotRefused(s, m);
    assert s.tx.base <= m.psn && m.psn !in s.done by { assert TxPktInv(s, m.psn); }
    var tx, news := AckTx(s.tx, m), Completions(s.tx, m);
    assert m.psn in news && news[m.psn] == Explicit(m.response) by { ExplicitNews(s.tx, m); }
    assert OnAck(s, m).done == s.done + news by { AckLeads(s, m, tx, news); }
    assert DoneInv(OnAck(s, m)) by { AckKeeps(s, m); }
  }

  lemma FreshWhenTracked(s: Sys, m: Msg)
    requires Inv(s) && m in s.net && m.Ack? && m.psn in s.tx.bm && !s.tx.bm[m.psn].acked
    ensures Judge(s.tx, m.psn, m.cack) == Fresh
  {
    NotRefused(s, m);
    assert TxPktInv(s, m.psn);
  }

  lemma ClearLed(o: Sys, m: Msg, tx: Tx, news: map<int, Completion>, o': Sys)
    requires m.Ack? && Judge(o.tx, m.psn, m.cack) == Fresh && m.reqClear && Led(o, m, tx, news, o')
    ensures Clear(o'.tx.base - 1) in o'.net
  {
  }

  /** A response that asks for a CLEAR gets one, for everything the window has moved past. */
  lemma ClearSent(s: Sys, m: Msg, o: Sys)
    requires Inv(s) && m in s.net && m.Ack? && m.psn in s.tx.bm && !s.tx.bm[m.psn].acked && m.reqClear
    requires o == Apply(Only(s, m), EvAck(m))
    ensures Clear(o.tx.base - 1) in o.net
  {
    var tx, news := AckTx(s.tx, m), Completions(s.tx, m);
    assert Judge(s.tx, m.psn, m.cack) == Fresh by { FreshWhenTracked(s, m); }
    assert Led(Only(s, m), m, tx, news, o) by { AckLeads(Only(s, m), m, tx, news); }
    ClearLed(Only(s, m), m, tx, news, o);
  }

  /**
    An ACK of the run takes effect unless it names a dropped packet: the packet it names is done, so is everything
    up to its cumulative ACK, and what its SACK bits report is known to have arrived.
   */
  lemma AckTaken(s: Sys, m: Msg)
    requires Inv(s) && m in s.net && m.Ack?
    ensures var s' := Apply(s, EvAck(m));
      && (m.psn >= s.tx.base && m.psn !in s.tx.bm ==> s' == s)
      && (m.psn < s.tx.base || m.psn in s.tx.bm ==>
            && s'.tx.maxCack == Max(s.tx.maxCack, m.cack)
            && (forall p :: p in s.tx.bm && p <= m.cack ==> p in s'.done)
            && (forall p :: m.cc.Some? && p in m.cc.value.sack && p > s'.tx.maxCack && p in s'.tx.bm ==> s'.tx.bm[p].dstRecvd))
      && (m.psn in s.tx.bm && !s.tx.bm[m.psn].acked ==>
            m.psn in s'.done && s'.done[m.psn] == Explicit(m.response) && s'.rspLog[m.psn] == s.rspLog[m.psn] + 1)
  {
    var s' := Apply(s, EvAck(m));
    if m.psn < s.tx.base || m.psn in s.tx.bm {
      CackTaken(s, m);
      forall p | m.cc.Some? && p in m.cc.value.sack && p > s'.tx.maxCack && p in s'.tx.bm ensures s'.tx.bm[p].dstRecvd {
        SackTaken(s, m, p);
      }
      if m.psn in s.tx.bm && !s.tx.bm[m.psn].acked { ExplicitDone(s, m); }
    }
  }

  // ---------------------------------------------------------------- sending and sending again

  /** The peer's limit: a PSN in use is at most a window past the highest cumulative ACK. */
  ghost predicate PeerInv(s: Sys) {
    s.tx.next <= s.tx.maxCack + 1 + MPR
  }

  lemma StepPeer(s: Sys, e: Event)
    requires Inv(s) && PeerInv(s) && Enabled(s, e)
    ensures PeerInv(Apply(s, e))
  {
    if e.EvAck? && Judge(s.tx, e.m.psn, e.m.cack) != Rejected { AckTxSpec(s.tx, e.m); }
  }

  /**
    A send takes the next PSN, tracks the packet under its descriptor and puts the request on the network if and
    only if fewer than 128 PSNs are in use from the base and from the highest cumulative ACK on.
   */
  lemma SendIff(s: Sys, h: nat)
    requires Inv(s)
    ensures var s' := Apply(s.(net := {}), EvSend(h)); var p := s.tx.next;
      if p < s.tx.base + MPR && p <= s.tx.maxCack + MPR then
        && s'.tx.next == p + 1 && p in s'.tx.bm && s'.tx.bm[p].handle == h && !s'.tx.bm[p].acked
        && s'.tx.bm == s.tx.bm[p := s'.tx.bm[p]]
        && s'.net == {Req(p, s.tx.base - 1)}
      else s' == s.(net := {})
  {
  }

  /** An outstanding packet that the timer takes up is sent again, or asked after if the target is known to have it. */
  lemma ResendSends(s: Sys, p: int, probe: bool)
    requires Inv(s) && PeerInv(s) && p in s.tx.bm && !s.tx.bm[p].acked
    ensures Apply(s.(net := {}), EvRetransmit(p, probe)).net ==
      {if s.tx.bm[p].dstRecvd && probe then AckReq(p) else Req(p, s.tx.bm[p].clear)}
    ensures Apply(s, EvRetransmit(p, probe)).tx == s.tx
  {
  }

  /**
    A NACK for an outstanding packet sends it again if the code allows another try, and fails everything
    outstanding if not.
   */
  lemma NackAnswered(s: Sys, m: Msg, probe: bool)
    requires Inv(s) && PeerInv(s) && m in s.net && m.Nack? && m.psn in s.tx.bm && !s.tx.bm[m.psn].acked
    ensures var s' := Apply(Only(s, m), EvNack(m, probe));
      if m.code == UnexpectedEvent || m.code == InvalidSyn then
        s'.net == {m} && forall p :: p in s'.tx.bm <==> p in s.tx.bm && s.tx.bm[p].acked
      else
        && s'.tx == s.tx
        && s'.net == {m, if s.tx.bm[m.psn].dstRecvd && probe then AckReq(m.psn) else Req(m.psn, s.tx.bm[m.psn].clear)}
  {
  }

  // ---------------------------------------------------------------- both windows go as far as they can

  /** The target's window stops only at a packet it does not have or whose guaranteed response is not cleared. */
  ghost predicate AtFrontier(r: Rx) {
    r.base in r.bm ==> r.bm[r.base].needsClear && r.base > r.maxClear
  }

  /** The initiator's window stops only at a packet that is not acknowledged. */
  ghost predicate AtEdge(t: Tx) {
    t.base in t.bm ==> !t.bm[t.base].acked
  }

  lemma ClearFrontier(r: Rx, clear: int)
    requires RxValid(r)
    ensures AtFrontier(ClearRx(r, clear)) && ClearRx(r, clear).maxClear == Max(r.maxClear, clear)
  {
    var r1 := UpdateCack(r, clear);
    assert r1.cack + 1 < r.base + MPR ==> !Passable(r.bm, r1.maxClear, r1.cack + 1);
  }

  lemma AcceptFrontier(r: Rx, psn: int, clear: int, gtdDel: bool, due: bool, sackBase: Option<int>)
    requires RxValid(r) && Classify(r, psn) == New
    ensures AtFrontier(AcceptRx(r, psn, clear, gtdDel, due, sackBase).0)
  {
    var bm1 := r.bm[psn := RxPkt(clear, gtdDel, false, None)];
    var r1 := UpdateCack(r.(bm := bm1), clear);
    assert r1.cack + 1 < r.base + MPR ==> !Passable(bm1, r1.maxClear, r1.cack + 1);
  }

  lemma StepGoesOn(s: Sys, e: Event)
    requires Inv(s) && Enabled(s, e) && AtFrontier(s.rx) && AtEdge(s.tx)
    ensures AtFrontier(Apply(s, e).rx) && AtEdge(Apply(s, e).tx)
  {
    match e
    case EvReq(m, syn, ses, due, sb) =>
      if Classify(s.rx, m.psn) == New && ses.Accept? { AcceptFrontier(s.rx, m.psn, m.clear, ses.gtdDel, due, sb); }
    case EvClear(m) => ClearFrontier(s.rx, m.clear);
    case EvAck(m) => if Judge(s.tx, m.psn, m.cack) != Rejected { AckEdge(s.tx, m); }
    case _ =>
  }

  lemma AckEdge(t: Tx, m: Msg)
    requires TxValid(t) && m.Ack? && Judge(t, m.psn, m.cack) != Rejected
    ensures AtEdge(AckTx(t, m))
  {
    AckTxSpec(t, m);
  }

  lemma {:induction false} RunGoesOn(s: Sys, es: seq<Event>)
    requires Inv(s) && ValidRun(s, es) && AtFrontier(s.rx) && AtEdge(s.tx) && PeerInv(s)
    ensures var s' := Run(s, es); Inv(s') && AtFrontier(s'.rx) && AtEdge(s'.tx) && PeerInv(s')
    decreases |es|
  {
    if es != [] {
      StepKeeps(s, es[0]);
      StepGoesOn(s, es[0]);
      StepPeer(s, es[0]);
      RunGoesOn(Apply(s, es[0]), es[1..]);
    }
  }

  lemma Reached(start: int, es: seq<Event>)
    requires ValidRun(Init(start), es)
    ensures var s := Run(Init(start), es); Inv(s) && AtFrontier(s.rx) && AtEdge(s.tx) && PeerInv(s)
  {
    InitInv(start);
    RunGoesOn(Init(start), es);
  }

  /**
    In every reachable state both windows stand as far on as the packets and acknowledgements so far allow: the
    cumulative ACK ends at a packet that is missing or whose guaranteed response is not cleared, and the transmit
    base at a packet that is not acknowledged.
   */
  lemma WindowsGoOn(start: int, es: seq<Event>)
    requires ValidRun(Init(start), es)
    ensures var s := Run(Init(start), es);
      && s.rx.cack == s.rx.base - 1
      && (s.rx.base in s.accepted ==> s.accepted[s.rx.base] && s.rx.base > s.rx.maxClear)
      && s.tx.base !in s.done
  {
    Reached(start, es);
    var s := Run(Init(start), es);
    if s.rx.base in s.rx.bm { assert RxPktInv(s, s.rx.base); }
    if s.tx.base in s.tx.bm { assert TxPktInv(s, s.tx.base); }
  }

  // ---------------------------------------------------------------- over every run

  /**
    In every run a request that arrives again after SES accepted it brings an ACK that names it, sent by that very
    step, whenever the initiator still waits for it or it is at most a window back; and while its guaranteed
    response is not processed, the ACK is that response and asks to be cleared.
   */
  lemma AnsweredInEveryRun(start: int, es: seq<Event>, e: Event) returns (a: Msg)
    requires ValidRun(Init(start), es) && e.EvReq? && Enabled(Run(Init(start), es), e)
    requires var s := Run(Init(start), es);
      e.m.psn in s.accepted && (e.m.psn !in s.done || s.rx.base - MPR <= e.m.psn)
    ensures var s := Run(Init(start), es);
      && a in Apply(Only(s, e.m), e).net && a.Ack? && a.psn == e.m.psn
      && (s.accepted[e.m.psn] && e.m.psn !in s.done ==> a.response && a.reqClear)
  {
    Reached(start, es);
    var s := Run(Init(start), es);
    if e.m.psn !in s.done { assert MsgInv(s, e.m); OutstandingInReach(s, e.m.psn); }
    a := RepeatAnswered(s, e);
  }

  /** In every run an ACK on the network is passed over if and only if it names a packet that was dropped. */
  lemma TakenInEveryRun(start: int, es: seq<Event>, m: Msg)
    requires ValidRun(Init(start), es) && m in Run(Init(start), es).net && m.Ack?
    ensures var s := Run(Init(start), es); var s' := Apply(s, EvAck(m));
      && (m.psn >= s.tx.base && m.psn !in s.tx.bm ==> s' == s)
      && (m.psn < s.tx.base || m.psn in s.tx.bm ==>
            s'.tx.maxCack == Max(s.tx.maxCack, m.cack) && forall p :: p in s.tx.bm && p <= m.cack ==> p in s'.done)
      && (m.psn in s.tx.bm && !s.tx.bm[m.psn].acked ==> m.psn in s'.done && s'.done[m.psn] == Explicit(m.response))
  {
    Reached(start, es);
    AckTaken(Run(Init(start), es), m);
  }

  // ---------------------------------------------------------------- recovery

  /**
    Delivering a request for an outstanding packet, which SES takes if it has not yet, and then the ACK it
    brings, completes it.
   */
  lemma RoundTrip(s: Sys, e: Event) returns (a: Msg)
    requires Inv(s) && e.EvReq? && Enabled(s, e) && e.m.psn in s.tx.bm && !s.tx.bm[e.m.psn].acked
    requires e.m.psn in s.accepted || (e.ses.Accept? && e.due)
    ensures a in Apply(Only(s, e.m), e).net && a.Ack? && a.psn == e.m.psn
    ensures Enabled(Apply(s, e), EvAck(a))
    ensures var s1 := Apply(s, e); var s2 := Apply(s1, EvAck(a));
      e.m.psn in s2.done && e.m.psn in s1.accepted && (s1.accepted[e.m.psn] ==> s2.done[e.m.psn] == Explicit(true))
  {
    var p := e.m.psn;
    assert TxPktInv(s, p);
    OutstandingInReach(s, p);
    if p in s.accepted {
      a := RepeatAnswered(s, e);
    } else {
      var b := NewTaken(s, e);
      a := b.value;
    }
    var s1 := Apply(s, e);
    StepKeeps(s, e);
    ExplicitDone(s1, a);
    StepKeeps(s1, EvAck(a));
  }

  // ---------------------------------------------------------------- what SACK bits report

  /** The SACK bits of an ACK that reports on the state report exactly the accepted PSNs in their range. */
  lemma SackExact(s: Sys, sb: int, q: int)
    requires Inv(s) && sb <= q < sb + 64 && s.start <= q
    ensures q in BuildCc(s.rx, Some(sb)).value.sack <==> q in s.accepted
  {
    if q in s.rx.bm { assert RxPktInv(s, q); }
  }

  /** So do those of the ACK of a request that has just been accepted, with that request among them. */
  lemma SackExactOnAccept(s: Sys, e: Event, a: Msg, q: int)
    requires Inv(s) && e.EvReq? && Enabled(s, e) && e.ses.Accept? && e.m.psn !in s.accepted && e.sackBase.Some?
    requires a in Apply(Only(s, e.m), e).net && a != e.m
    requires e.sackBase.value <= q < e.sackBase.value + 64 && s.start <= q
    ensures a.Ack? && a.cc.Some? && (q in a.cc.value.sack <==> q in Apply(s, e).accepted)
  {
    assert MsgInv(s, e.m);
    OutstandingInReach(s, e.m.psn);
    if q in s.rx.bm { assert RxPktInv(s, q); }
  }
}
