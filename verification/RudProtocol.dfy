/**
  The forward direction of a RUD packet delivery context, end to end.

  One initiator and one target exchange packets over a network that may lose, duplicate and
  reorder them: the network is the set of every packet ever sent, and any of them may be
  delivered at any time, any number of times, or never.  The timers, the SES verdicts and
  the choice of what to acknowledge are left open; they are part of the event.
 */
module RudProtocol {
  import opened PdcTypes
  import opened Psn
  import opened TxWindow
  import opened RxWindow

  /** How SES learnt that a packet is acknowledged. */
  datatype Completion =
    | Explicit(response: bool)   // rx_rsp with an ACK: a stored SES response, or the default one
    | Cumulative                 // rx_rsp with no packet

  datatype Sys = Sys(
    start: int,
    tx: Tx,
    rx: Rx,
    net: set<Msg>,
    accepted: map<int, bool>,    // PSNs the target's SES accepted, with its gtd_del
    sesLog: multiset<int>,       // one entry per acceptance by the target's SES
    done: map<int, Completion>,  // PSNs acknowledged at the initiator
    rspLog: multiset<int>)       // one entry per rx_rsp upcall at the initiator

  function Init(start: int): Sys {
    Sys(start, InitTx(start), InitRx(start), {}, map[], multiset{}, map[], multiset{})
  }

  datatype Event =
    | EvSend(handle: nat)
    | EvRetransmit(psn: int, probe: bool)      // probe: retries are left for an ACK request
    | EvDrop(handle: nat)
    | EvDrain
    | EvReq(m: Msg, syn: bool, ses: SesVerdict, due: bool, sackBase: Option<int>)
    | EvAck(m: Msg)
    | EvClear(m: Msg)
    | EvAckReq(m: Msg, sackBase: Option<int>)
    | EvNack(m: Msg, probe: bool)

  /** Where the SACK bitmap of an ACK may start; `RxSide.Target.BuildAck` stays inside these bounds. */
  predicate SackBaseOk(s: Sys, sb: Option<int>) {
    sb.Some? ==> s.start - 1 <= sb.value < s.tx.next && s.rx.base - 1 - MPR <= sb.value
  }

  predicate Enabled(s: Sys, e: Event) {
    match e
    case EvReq(m, _, _, _, sb) => m in s.net && m.Req? && SackBaseOk(s, sb)
    case EvAck(m) => m in s.net && m.Ack?
    case EvClear(m) => m in s.net && m.Clear?
    case EvAckReq(m, sb) => m in s.net && m.AckReq? && SackBaseOk(s, sb)
    case EvNack(m, _) => m in s.net && m.Nack?
    case _ => true
  }

  function Emit(net: set<Msg>, reply: Option<Msg>): set<Msg> {
    if reply.Some? then net + {reply.value} else net
  }

  /** `uet_pds_rtx_pkt` on a tracked, unacknowledged packet. */
  function Resend(t: Tx, psn: int, probe: bool): Option<Msg> {
    if psn !in t.bm || t.bm[psn].acked then None
    else if t.bm[psn].dstRecvd && probe then Some(AckReq(psn))
    else if Allowed(t, psn) then Some(Req(psn, t.bm[psn].clear))
    else None
  }

  function OnSend(s: Sys, handle: nat): Sys {
    if Allowed(s.tx, s.tx.next)
    then s.(tx := SendTx(s.tx, handle), net := s.net + {Req(s.tx.next, s.tx.base - 1)})
    else s
  }

  function OnReq(s: Sys, e: Event): Sys
    requires e.EvReq? && Enabled(s, e)
  {
    var (rx, reply) := RequestRx(s.rx, e.m.psn, e.m.clear, e.syn, e.ses, e.due, e.sackBase);
    var taken := Classify(s.rx, e.m.psn) == New && e.ses.Accept?;
    s.(rx := rx,
       net := Emit(s.net, reply),
       accepted := if taken then s.accepted[e.m.psn := e.ses.gtdDel] else s.accepted,
       sesLog := if taken then s.sesLog + multiset{e.m.psn} else s.sesLog)
  }

  /** The packets SES hears about when `m` is processed, and how. */
  function Completions(t: Tx, m: Msg): map<int, Completion>
    requires m.Ack? && Judge(t, m.psn, m.cack) != Rejected
  {
    var isFresh := Judge(t, m.psn, m.cack) == Fresh;
    var covered := NewlyCovered(if isFresh then MarkAcked(t, m.psn) else t, m.cack);
    (map p | p in covered :: Cumulative) + (if isFresh then map[m.psn := Explicit(m.response)] else map[])
  }

  function OnAck(s: Sys, m: Msg): Sys
    requires m.Ack?
  {
    if Judge(s.tx, m.psn, m.cack) == Rejected then s
    else
      var tx := AckTx(s.tx, m);
      var news := Completions(s.tx, m);
      var clr := if Judge(s.tx, m.psn, m.cack) == Fresh && m.reqClear then Some(Clear(tx.base - 1)) else None;
      s.(tx := tx,
         net := Emit(s.net, clr),
         done := s.done + news,
         rspLog := s.rspLog + multiset(news.Keys))
  }

  function OnNack(s: Sys, m: Msg, probe: bool): Sys
    requires m.Nack?
  {
    if s.tx.base > m.psn || m.psn > s.tx.next - 1 then s
    else
      match ActionOf(m.code)
      case CloseInError => s.(tx := DrainTx(s.tx))
      case Retransmit => s.(net := Emit(s.net, Resend(s.tx, m.psn, probe)))
  }

  function Apply(s: Sys, e: Event): Sys
    requires Enabled(s, e)
  {
    match e
    case EvSend(h) => OnSend(s, h)
    case EvRetransmit(p, probe) => s.(net := Emit(s.net, Resend(s.tx, p, probe)))
    case EvDrop(h) => s.(tx := DropTx(s.tx, h))
    case EvDrain => s.(tx := DrainTx(s.tx))
    case EvReq(_, _, _, _, _) => OnReq(s, e)
    case EvAck(m) => OnAck(s, m)
    case EvClear(m) => s.(rx := ClearRx(s.rx, m.clear))
    case EvAckReq(m, sb) => s.(net := Emit(s.net, AckReqReply(s.rx, m.psn, sb)))
    case EvNack(m, probe) => OnNack(s, m, probe)
  }

  /** Every event is enabled when its turn comes. */
  ghost predicate ValidRun(s: Sys, es: seq<Event>)
    decreases |es|
  {
    es == [] || (Enabled(s, es[0]) && ValidRun(Apply(s, es[0]), es[1..]))
  }

  ghost function Run(s: Sys, es: seq<Event>): Sys
    requires ValidRun(s, es)
    decreases |es|
  {
    if es == [] then s else Run(Apply(s, es[0]), es[1..])
  }

  // ---------------------------------------------------------------- the invariant

  /** What is true of every packet ever sent.  Each clause stays true as the windows advance. */
  ghost predicate MsgInv(s: Sys, m: Msg) {
    match m
    case Req(p, c) =>
      && s.start <= p < s.tx.next && p < s.rx.base + MPR
      && s.start - 1 <= c < s.tx.base && p - MPR <= c < p
    case Ack(p, c, response, reqClear, cc) =>
      && p in s.accepted
      && s.start - 1 <= c <= s.rx.cack && -MPR <= p - c <= MPR
      && (s.accepted[p] && !response ==> p < s.tx.base)
      && (response ==> reqClear == s.accepted[p])
      && (cc.Some? ==>
            && cc.value.mpr == 1
            && s.start - 1 <= cc.value.base < s.tx.next && -3 * MPR <= cc.value.base - c <= 3 * MPR
            && (forall q :: q in cc.value.sack ==> cc.value.base <= q < cc.value.base + 64)
            && (forall q :: q in cc.value.sack && q >= s.start ==> q in s.accepted))
    case Clear(c) => s.start - 1 <= c < s.tx.base
    case AckReq(p) => s.start <= p < s.tx.next
    case Nack(p, code) =>
      && s.start <= p < s.tx.next
      && (code == PsnOutOfWindow || code == InvalidSyn ==> p < s.tx.base)
  }

  ghost predicate NetInv(s: Sys) {
    forall m :: m in s.net ==> MsgInv(s, m)
  }

  ghost predicate TxPktInv(s: Sys, p: int)
    requires p in s.tx.bm
  {
    var k := s.tx.bm[p];
    && s.start - 1 <= k.clear < s.tx.base && p - MPR <= k.clear < p
    && (k.acked <==> p in s.done)
    && (k.dstRecvd ==> p in s.accepted)
  }

  ghost predicate TxInv(s: Sys) {
    && TxValid(s.tx)
    && s.start <= s.tx.base
    && s.tx.peerRange == MPR
    && s.start - 1 <= s.tx.maxCack <= s.rx.cack
    && (s.tx.mprCack.Some? ==> s.start - 1 <= s.tx.mprCack.value < s.tx.next)
    && s.tx.next <= s.rx.base + MPR
    && (forall p :: p in s.tx.bm ==> TxPktInv(s, p))
  }

  ghost predicate DoneInv(s: Sys) {
    && (forall p :: s.start <= p < s.tx.base ==> p in s.done)
    && (forall p :: p in s.done ==>
          && s.start <= p < s.tx.next
          && (p < s.tx.base || p in s.tx.bm)
          && p in s.accepted
          && (s.accepted[p] ==> s.done[p] == Explicit(true)))
    && (forall p :: s.rspLog[p] == if p in s.done then 1 else 0)
  }

  ghost predicate RxPktInv(s: Sys, p: int)
    requires p in s.rx.bm
  {
    var k := s.rx.bm[p];
    && p in s.accepted
    && k.needsClear == s.accepted[p]
    && (k.needsClear ==> k.ack.Some?)
    && (k.ack.Some? ==> k.ack.value.Ack? && k.ack.value.psn == p && k.ack.value.response && MsgInv(s, k.ack.value))
  }

  ghost predicate RxInv(s: Sys) {
    && RxValid(s.rx)
    && s.start <= s.rx.base <= s.tx.next
    && s.start - 1 <= s.rx.maxClear < s.tx.base
    && (forall p :: p in s.rx.bm ==> RxPktInv(s, p))
  }

  ghost predicate AcceptedInv(s: Sys) {
    && (forall p :: s.start <= p < s.rx.base ==> p in s.accepted && (s.accepted[p] ==> p <= s.rx.maxClear))
    && (forall p :: p in s.accepted ==> s.start <= p < s.tx.next && (p < s.rx.base || p in s.rx.bm))
    && (forall p :: s.sesLog[p] == if p in s.accepted then 1 else 0)
  }

  ghost predicate Inv(s: Sys) {
    NetInv(s) && TxInv(s) && DoneInv(s) && RxInv(s) && AcceptedInv(s)
  }

  /** The parts of the state that packet facts depend on only grow. */
  ghost predicate Grows(s: Sys, s': Sys) {
    && s'.start == s.start
    && s.tx.base <= s'.tx.base && s.tx.next <= s'.tx.next
    && s.rx.base <= s'.rx.base && s.rx.cack <= s'.rx.cack
    && (forall p :: p in s.accepted ==> p in s'.accepted && s'.accepted[p] == s.accepted[p])
  }

  lemma MsgInvGrows(s: Sys, s': Sys, m: Msg)
    requires MsgInv(s, m) && Grows(s, s')
    ensures MsgInv(s', m)
  {
  }

  lemma NetInvGrows(s: Sys, s': Sys, reply: Option<Msg>)
    requires NetInv(s) && Grows(s, s')
    requires s'.net == Emit(s.net, reply)
    requires reply.Some? ==> MsgInv(s', reply.value)
    ensures NetInv(s')
  {
  }

  lemma RxPktsGrow(s: Sys, s': Sys)
    requires RxInv(s) && Grows(s, s')
    requires forall p :: p in s'.rx.bm ==> p in s.rx.bm && s'.rx.bm[p] == s.rx.bm[p]
    ensures forall p :: p in s'.rx.bm ==> RxPktInv(s', p)
  {
  }
}
