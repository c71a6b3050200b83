/** Every event of the RUD protocol keeps its invariant. */
module RudInvariant {
  import opened PdcTypes
  import opened Psn
  import opened TxWindow
  import opened RxWindow
  import opened RudProtocol

  lemma InitInv(start: int)
    ensures Inv(Init(start))
  {
  }

  lemma ResendOk(s: Sys, psn: int, probe: bool)
    requires Inv(s)
    ensures var r := Resend(s.tx, psn, probe); r.Some? ==> MsgInv(s, r.value)
  {
  }

  /** Sending a packet, new or again, changes nothing else. */
  lemma EmitKeeps(s: Sys, reply: Option<Msg>)
    requires Inv(s)
    requires reply.Some? ==> MsgInv(s, reply.value)
    ensures Inv(s.(net := Emit(s.net, reply)))
  {
    var s' := s.(net := Emit(s.net, reply));
    NetInvGrows(s, s', reply);
    RxPktsGrow(s, s');
    assert forall p :: p in s.tx.bm ==> TxPktInv(s, p) ==> TxPktInv(s', p);
  }

  lemma SendKeeps(s: Sys, h: nat)
    requires Inv(s) && Allowed(s.tx, s.tx.next)
    ensures Inv(OnSend(s, h))
  {
    var s' := OnSend(s, h);
    NetInvGrows(s, s', Some(Req(s.tx.next, s.tx.base - 1)));
    RxPktsGrow(s, s');
    forall p | p in s'.tx.bm ensures TxPktInv(s', p) {
      if p != s.tx.next { assert TxPktInv(s, p); }
    }
  }

  /** Forgetting unacknowledged packets leaves holes but breaks nothing. */
  lemma ForgetKeeps(s: Sys, tx: Tx)
    requires Inv(s)
    requires tx == s.tx.(bm := tx.bm)
    requires forall p :: p in tx.bm ==> p in s.tx.bm && tx.bm[p] == s.tx.bm[p]
    requires forall p :: p in s.tx.bm && s.tx.bm[p].acked ==> p in tx.bm
    ensures Inv(s.(tx := tx))
  {
    var s' := s.(tx := tx);
    NetInvGrows(s, s', None);
    RxPktsGrow(s, s');
    forall p | p in tx.bm ensures TxPktInv(s', p) {
      assert TxPktInv(s, p);
    }
    forall p | p in s.done && p >= tx.base ensures p in tx.bm {
      assert TxPktInv(s, p);
    }
  }

  // ---------------------------------------------------------------- the target

  lemma TxPktsGrow(s: Sys, s': Sys)
    requires TxInv(s) && Grows(s, s') && s'.tx == s.tx && s'.done == s.done
    ensures TxInv(s')
  {
    forall p | p in s'.tx.bm ensures TxPktInv(s', p) {
      assert TxPktInv(s, p);
    }
  }

  /** A step of the target that keeps its own window and record in order keeps everything. */
  lemma TargetKeeps(s: Sys, s': Sys, reply: Option<Msg>)
    requires Inv(s) && Grows(s, s') && RxInv(s') && AcceptedInv(s')
    requires s'.tx == s.tx && s'.done == s.done && s'.rspLog == s.rspLog
    requires s'.net == Emit(s.net, reply) && (reply.Some? ==> MsgInv(s', reply.value))
    ensures Inv(s')
  {
    NetInvGrows(s, s', reply);
    TxPktsGrow(s, s');
  }

  /** Raising the cleared PSN lets the cumulative ACK cover only what was accepted. */
  lemma AdvanceCovers(s: Sys, clear: int)
    requires Inv(s)
    ensures var r1 := UpdateCack(s.rx, clear);
      && r1.cack < s.tx.next
      && forall p :: s.rx.base <= p <= r1.cack ==> p in s.accepted && (s.accepted[p] ==> p <= r1.maxClear)
  {
    var r1 := UpdateCack(s.rx, clear);
    forall p | s.rx.base <= p <= r1.cack
      ensures p in s.accepted && p < s.tx.next && (s.accepted[p] ==> p <= r1.maxClear)
    {
      assert Passable(s.rx.bm, r1.maxClear, p);
      assert RxPktInv(s, p);
    }
    if r1.cack >= s.rx.base { assert r1.cack in s.accepted; }
  }

  /** Raising the cumulative ACK and shifting the window, after the bitmap is up to date. */
  lemma AdvanceKeeps(s: Sys, clear: int)
    requires Inv(s)
    requires s.start - 1 <= clear < s.tx.base
    ensures Inv(s.(rx := ClearRx(s.rx, clear)))
  {
    var s' := s.(rx := ClearRx(s.rx, clear));
    AdvanceCovers(s, clear);
    RxPktsGrow(s, s');
    TargetKeeps(s, s', None);
  }

  /** SES accepts a new request: it is recorded once, and the acknowledgement built for it is sound. */
  lemma AcceptKeeps(s: Sys, e: Event)
    requires Inv(s) && e.EvReq? && Enabled(s, e)
    requires Classify(s.rx, e.m.psn) == New && e.ses.Accept?
    ensures Inv(OnReq(s, e))
  {
    AcceptCovers(s, e);
    AcceptRxInv(s, e);
    AcceptReply(s, e);
    TargetKeeps(s, OnReq(s, e), AcceptRx(s.rx, e.m.psn, e.m.clear, e.ses.gtdDel, e.due, e.sackBase).1);
  }

  lemma AcceptReply(s: Sys, e: Event)
    requires Inv(s) && e.EvReq? && Enabled(s, e)
    requires Classify(s.rx, e.m.psn) == New && e.ses.Accept?
    ensures var reply := AcceptRx(s.rx, e.m.psn, e.m.clear, e.ses.gtdDel, e.due, e.sackBase).1;
      reply.Some? ==> MsgInv(OnReq(s, e), reply.value)
  {
    var p0, g := e.m.psn, e.ses.gtdDel;
    assert MsgInv(s, e.m);
    AcceptRxSpec(s.rx, p0, e.m.clear, g, e.due, e.sackBase);
    AcceptCovers(s, e);
    var reply := AcceptRx(s.rx, p0, e.m.clear, g, e.due, e.sackBase).1;
    if reply.Some? {
      var bm1 := s.rx.bm[p0 := RxPkt(e.m.clear, g, false, None)];
      AckSound(OnReq(s, e), UpdateCack(s.rx.(bm := bm1), e.m.clear), reply.value, e.sackBase);
    }
  }

  lemma AcceptRxInv(s: Sys, e: Event)
    requires Inv(s) && e.EvReq? && Enabled(s, e)
    requires Classify(s.rx, e.m.psn) == New && e.ses.Accept?
    ensures RxInv(OnReq(s, e))
  {
    var p0 := e.m.psn;
    AcceptRxSpec(s.rx, p0, e.m.clear, e.ses.gtdDel, e.due, e.sackBase);
    AcceptCovers(s, e);
    AcceptReply(s, e);
    var s' := OnReq(s, e);
    forall p | p in s'.rx.bm ensures RxPktInv(s', p) {
      if p != p0 { RxPktGrows(s, s', p); }
    }
  }

  lemma RxPktGrows(s: Sys, s': Sys, p: int)
    requires RxInv(s) && Grows(s, s') && p in s.rx.bm && p in s'.rx.bm && s'.rx.bm[p] == s.rx.bm[p]
    ensures RxPktInv(s', p)
  {
    assert RxPktInv(s, p);
    if s.rx.bm[p].ack.Some? { MsgInvGrows(s, s', s.rx.bm[p].ack.value); }
  }

  /** What the new cumulative ACK covers was accepted, and cleared if its response is guaranteed. */
  lemma CoveredAccepted(s: Sys, e: Event, p: int)
    requires Inv(s) && e.EvReq? && Enabled(s, e)
    requires Classify(s.rx, e.m.psn) == New && e.ses.Accept?
    requires s.rx.base <= p <= OnReq(s, e).rx.cack
    ensures var s' := OnReq(s, e);
      p in s'.accepted && p < s.tx.next && (s'.accepted[p] ==> p <= s'.rx.maxClear)
  {
    assert MsgInv(s, e.m);
    AcceptRxSpec(s.rx, e.m.psn, e.m.clear, e.ses.gtdDel, e.due, e.sackBase);
    if p != e.m.psn { assert RxPktInv(s, p); }
  }

  /** The record of acceptances stays in step with the target's window. */
  lemma AcceptRecords(s: Sys, e: Event)
    requires Inv(s) && e.EvReq? && Enabled(s, e)
    requires Classify(s.rx, e.m.psn) == New && e.ses.Accept?
    ensures e.m.psn !in s.accepted && AcceptedInv(OnReq(s, e))
  {
    var s' := OnReq(s, e);
    assert MsgInv(s, e.m);
    AcceptRxSpec(s.rx, e.m.psn, e.m.clear, e.ses.gtdDel, e.due, e.sackBase);
    forall p | s.rx.base <= p <= s'.rx.cack
      ensures p in s'.accepted && (s'.accepted[p] ==> p <= s'.rx.maxClear)
    {
      CoveredAccepted(s, e, p);
    }
  }

  lemma AcceptCovers(s: Sys, e: Event)
    requires Inv(s) && e.EvReq? && Enabled(s, e)
    requires Classify(s.rx, e.m.psn) == New && e.ses.Accept?
    ensures var s' := OnReq(s, e);
      && e.m.psn !in s.accepted
      && Grows(s, s')
      && s'.rx.base <= s.tx.next
      && s.start - 1 <= s'.rx.maxClear < s.tx.base
      && AcceptedInv(s')
  {
    var s' := OnReq(s, e);
    assert MsgInv(s, e.m);
    AcceptRxSpec(s.rx, e.m.psn, e.m.clear, e.ses.gtdDel, e.due, e.sackBase);
    AcceptRecords(s, e);
    if s'.rx.cack >= s.rx.base { CoveredAccepted(s, e, s'.rx.cack); }
  }

  /** An acknowledgement built from a consistent bitmap reports only accepted PSNs. */
  lemma AckSound(s: Sys, r: Rx, ack: Msg, sackBase: Option<int>)
    requires ack.Ack? && ack.cc == BuildCc(r, sackBase)
    requires ack.psn in s.accepted && s.start - 1 <= ack.cack <= s.rx.cack && -MPR <= ack.psn - ack.cack <= MPR
    requires s.accepted[ack.psn] && !ack.response ==> ack.psn < s.tx.base
    requires ack.response ==> ack.reqClear == s.accepted[ack.psn]
    requires sackBase.Some? ==> s.start - 1 <= sackBase.value < s.tx.next && -3 * MPR <= sackBase.value - ack.cack <= 3 * MPR
    requires forall p :: s.start <= p < r.base ==> p in s.accepted
    requires forall p :: p in r.bm ==> p in s.accepted
    ensures MsgInv(s, ack)
  {
  }

  /** Everything the target sends back without accepting anything is sound too. */
  lemma ReplySound(s: Sys, psn: int, sackBase: Option<int>)
    requires Inv(s) && SackBaseOk(s, sackBase)
    requires s.start <= psn
    requires s.rx.base - MPR <= psn < s.rx.base || (psn in s.rx.bm && s.rx.bm[psn].ack.None?)
    ensures MsgInv(s, DefaultResponse(s.rx, psn, sackBase))
  {
  }

  lemma ReqReplySound(s: Sys, e: Event)
    requires Inv(s) && e.EvReq? && Enabled(s, e)
    requires !(Classify(s.rx, e.m.psn) == New && e.ses.Accept?)
    ensures var (rx, reply) := RequestRx(s.rx, e.m.psn, e.m.clear, e.syn, e.ses, e.due, e.sackBase);
      rx == s.rx && reply.Some? && MsgInv(s, reply.value)
  {
  }

  lemma ReqKeeps(s: Sys, e: Event)
    requires Inv(s) && e.EvReq? && Enabled(s, e)
    ensures Inv(OnReq(s, e))
  {
    if Classify(s.rx, e.m.psn) == New && e.ses.Accept? {
      AcceptKeeps(s, e);
    } else {
      ReqReplySound(s, e);
      EmitKeeps(s, RequestRx(s.rx, e.m.psn, e.m.clear, e.syn, e.ses, e.due, e.sackBase).1);
    }
  }

  lemma AckReqKeeps(s: Sys, m: Msg, sackBase: Option<int>)
    requires Inv(s) && m in s.net && m.AckReq? && SackBaseOk(s, sackBase)
    ensures Inv(s.(net := Emit(s.net, AckReqReply(s.rx, m.psn, sackBase))))
  {
    assert MsgInv(s, m);
    if m.psn in s.rx.bm {
      assert RxPktInv(s, m.psn);
      if s.rx.bm[m.psn].ack.None? { ReplySound(s, m.psn, sackBase); }
    }
    EmitKeeps(s, AckReqReply(s.rx, m.psn, sackBase));
  }

  // ---------------------------------------------------------------- the initiator

  /**
    The heart of the argument.  A packet that an acknowledgement newly covers was accepted by
    SES, and if its response is guaranteed it is covered by that very response: a cumulative
    ACK reaches it only once it is cleared, and it is cleared only once the base has passed it.
   */
  lemma AckCovers(s: Sys, m: Msg, p: int)
    requires Inv(s) && m in s.net && m.Ack? && Judge(s.tx, m.psn, m.cack) != Rejected
    requires p in s.tx.bm && !s.tx.bm[p].acked && AckedAfter(s.tx, m, p)
    ensures p in s.accepted
    ensures p in Completions(s.tx, m)
    ensures Completions(s.tx, m)[p] == if p == m.psn then Explicit(m.response) else Cumulative
    ensures s.accepted[p] ==> p == m.psn && m.response
  {
  }

  /** SES hears exactly about the packets that become acknowledged, and about none of them twice. */
  lemma CompletionsSpec(s: Sys, m: Msg)
    requires Inv(s) && m in s.net && m.Ack? && Judge(s.tx, m.psn, m.cack) != Rejected
    ensures forall p :: p in Completions(s.tx, m) <==>
              p in s.tx.bm && !s.tx.bm[p].acked && AckedAfter(s.tx, m, p)
    ensures forall p :: p in Completions(s.tx, m) ==> p !in s.done
  {
  }

  lemma LogGrows(log: multiset<int>, done: map<int, Completion>, news: map<int, Completion>)
    requires forall p :: log[p] == if p in done then 1 else 0
    requires forall p :: p in news ==> p !in done
    ensures forall p :: (log + multiset(news.Keys))[p] == if p in done + news then 1 else 0
  {
  }

  lemma AckDoneKeeps(s: Sys, m: Msg, news: map<int, Completion>, s': Sys)
    requires TxInv(s) && DoneInv(s) && m.Ack? && AckEffect(s.tx, m, s'.tx)
    requires forall p :: p in news <==> p in s.tx.bm && !s.tx.bm[p].acked && AckedAfter(s.tx, m, p)
    requires forall p :: p in news ==> p !in s.done && p in s.accepted && (s.accepted[p] ==> news[p] == Explicit(true))
    requires s'.start == s.start && s'.accepted == s.accepted && s'.done == s.done + news
    requires s'.rspLog == s.rspLog + multiset(news.Keys)
    ensures DoneInv(s')
    ensures forall p :: p in s.tx.bm ==> (p in s'.done <==> AckedAfter(s.tx, m, p))
  {
    LogGrows(s.rspLog, s.done, news);
    forall p | p in s.tx.bm ensures p in s'.done <==> AckedAfter(s.tx, m, p) {
      assert TxPktInv(s, p);
    }
    forall p | p in s'.done
      ensures s'.start <= p < s'.tx.next && (p < s'.tx.base || p in s'.tx.bm)
      ensures p in s.accepted && (s.accepted[p] ==> s'.done[p] == Explicit(true))
    {
      assert p in news || p in s.done;
    }
  }

  lemma AckKeeps(s: Sys, m: Msg)
    requires Inv(s) && m in s.net && m.Ack?
    ensures Inv(OnAck(s, m))
  {
    if Judge(s.tx, m.psn, m.cack) != Rejected {
      AckTxSpec(s.tx, m);
      var tx, news := AckTx(s.tx, m), Completions(s.tx, m);
      var clr := if Judge(s.tx, m.psn, m.cack) == Fresh && m.reqClear then Some(Clear(tx.base - 1)) else None;
      AckStateKeeps(s, m, news, clr, OnAck(s, m));
    }
  }

  /** What an acknowledgement newly reports was accepted by SES, and a guaranteed response is reported as itself. */
  lemma NewsSound(s: Sys, m: Msg, news: map<int, Completion>)
    requires Inv(s) && m in s.net && m.Ack? && Judge(s.tx, m.psn, m.cack) != Rejected && news == Completions(s.tx, m)
    ensures forall p :: p in news <==> p in s.tx.bm && !s.tx.bm[p].acked && AckedAfter(s.tx, m, p)
    ensures forall p :: p in news ==> p !in s.done && p in s.accepted && (s.accepted[p] ==> news[p] == Explicit(true))
  {
    CompletionsSpec(s, m);
    forall p | p in news ensures p in s.accepted && (s.accepted[p] ==> news[p] == Explicit(true)) {
      AckCovers(s, m, p);
    }
  }

  lemma AckTxInv(s: Sys, m: Msg, s': Sys)
    requires TxInv(s) && m.Ack? && MsgInv(s, m) && AckEffect(s.tx, m, s'.tx)
    requires Grows(s, s') && s'.rx == s.rx
    requires forall p :: p in s.tx.bm ==> (p in s'.done <==> AckedAfter(s.tx, m, p))
    ensures TxInv(s')
  {
    forall p | p in s'.tx.bm ensures TxPktInv(s', p) {
      assert TxPktInv(s, p);
    }
  }

  lemma AckStateKeeps(s: Sys, m: Msg, news: map<int, Completion>, clr: Option<Msg>, s': Sys)
    requires Inv(s) && m in s.net && m.Ack? && Judge(s.tx, m.psn, m.cack) != Rejected
    requires news == Completions(s.tx, m) && AckEffect(s.tx, m, s'.tx)
    requires clr.Some? ==> clr.value == Clear(s'.tx.base - 1)
    requires s' == s.(tx := s'.tx, net := Emit(s.net, clr), done := s.done + news,
                      rspLog := s.rspLog + multiset(news.Keys))
    ensures Inv(s')
  {
    NewsSound(s, m, news);
    AckDoneKeeps(s, m, news, s');
    AckTxInv(s, m, s');
    InitiatorKeeps(s, s', clr);
  }

  /** A step of the initiator that keeps its own window and record in order keeps everything. */
  lemma InitiatorKeeps(s: Sys, s': Sys, msg: Option<Msg>)
    requires Inv(s) && Grows(s, s') && TxInv(s') && DoneInv(s') && s'.tx.next == s.tx.next
    requires s'.rx == s.rx && s'.accepted == s.accepted && s'.sesLog == s.sesLog
    requires s'.net == Emit(s.net, msg) && (msg.Some? ==> MsgInv(s', msg.value))
    ensures Inv(s')
  {
    NetInvGrows(s, s', msg);
    RxPktsGrow(s, s');
  }

  lemma NackKeeps(s: Sys, m: Msg, probe: bool)
    requires Inv(s) && m in s.net && m.Nack?
    ensures Inv(OnNack(s, m, probe))
  {
    ResendOk(s, m.psn, probe);
    EmitKeeps(s, Resend(s.tx, m.psn, probe));
    ForgetKeeps(s, DrainTx(s.tx));
  }

  lemma StepKeeps(s: Sys, e: Event)
    requires Inv(s) && Enabled(s, e)
    ensures Inv(Apply(s, e))
  {
    match e
    case EvSend(h) => if Allowed(s.tx, s.tx.next) { SendKeeps(s, h); }
    case EvRetransmit(p, probe) => ResendOk(s, p, probe); EmitKeeps(s, Resend(s.tx, p, probe));
    case EvDrop(h) => ForgetKeeps(s, DropTx(s.tx, h));
    case EvDrain => ForgetKeeps(s, DrainTx(s.tx));
    case EvReq(_, _, _, _, _) => ReqKeeps(s, e);
    case EvAck(m) => AckKeeps(s, m);
    case EvClear(m) => assert MsgInv(s, m); AdvanceKeeps(s, m.clear);
    case EvAckReq(m, sb) => AckReqKeeps(s, m, sb);
    case EvNack(m, probe) => NackKeeps(s, m, probe);
  }

  lemma {:induction false} RunKeeps(s: Sys, es: seq<Event>)
    requires Inv(s) && ValidRun(s, es)
    ensures Inv(Run(s, es))
    decreases |es|
  {
    if es != [] {
      StepKeeps(s, es[0]);
      RunKeeps(Apply(s, es[0]), es[1..]);
    }
  }
}
