/**
  What RUD guarantees in every state of every run, whatever the network, the timers and the
  two SES layers do.
 */
module RudTheorems {
  import opened PdcTypes
  import opened Psn
  import opened TxWindow
  import opened RxWindow
  import opened RudProtocol
  import opened RudInvariant
  import TxSide
  import RxSide

  /** SES accepts a PSN at most once, and hears about each of its own PSNs at most once. */
  lemma AtMostOnce(start: int, es: seq<Event>, p: int)
    requires ValidRun(Init(start), es)
    ensures var s := Run(Init(start), es); s.sesLog[p] <= 1 && s.rspLog[p] <= 1
  {
    InitInv(start);
    RunKeeps(Init(start), es);
  }

  /** A PSN is acknowledged at the initiator, either way, only if the target's SES accepted it. */
  lemma AcknowledgedWasAccepted(start: int, es: seq<Event>, p: int)
    requires ValidRun(Init(start), es)
    ensures var s := Run(Init(start), es);
      && (p in s.tx.bm && s.tx.bm[p].acked ==> p in s.done)
      && (s.start <= p < s.tx.base ==> p in s.done)
      && (p in s.done ==> p in s.accepted && s.sesLog[p] == 1 && s.rspLog[p] == 1)
  {
    InitInv(start);
    RunKeeps(Init(start), es);
    var s := Run(Init(start), es);
    if p in s.tx.bm { assert TxPktInv(s, p); }
  }

  /**
    A guaranteed response is never lost: until the initiator has processed that very response,
    the target still stores it, ready to be sent again, and no cumulative ACK stands in for it.
   */
  lemma GuaranteedResponse(start: int, es: seq<Event>, p: int)
    requires ValidRun(Init(start), es)
    requires var s := Run(Init(start), es); p in s.accepted && s.accepted[p]
    ensures var s := Run(Init(start), es);
      && (p in s.done ==> s.done[p] == Explicit(true))
      && (p !in s.done ==>
            && p in s.rx.bm && s.rx.bm[p].ack.Some?
            && var ack := s.rx.bm[p].ack.value;
            ack.Ack? && ack.psn == p && ack.response && ack.reqClear && ack.cack <= s.rx.cack)
  {
    InitInv(start);
    RunKeeps(Init(start), es);
    var s := Run(Init(start), es);
    if p in s.rx.bm { assert RxPktInv(s, p); }
  }

  /** The step in which the target forgets a guaranteed response comes after the initiator processed it. */
  lemma StoredResponseOutlivesNeed(start: int, es: seq<Event>, e: Event, p: int)
    requires ValidRun(Init(start), es)
    requires var s := Run(Init(start), es);
      && Enabled(s, e)
      && p in s.accepted && s.accepted[p]
      && p in s.rx.bm && p !in Apply(s, e).rx.bm
    ensures var s := Run(Init(start), es); p in s.done && s.done[p] == Explicit(true)
  {
    InitInv(start);
    RunKeeps(Init(start), es);
    var s := Run(Init(start), es);
    StepKeeps(s, e);
    var s' := Apply(s, e);
    assert s'.accepted[p] by { AcceptedKept(s, e, p); }
    assert s'.tx == s.tx && s'.done == s.done;
  }

  lemma AcceptedKept(s: Sys, e: Event, p: int)
    requires Inv(s) && Enabled(s, e) && p in s.accepted
    ensures p in Apply(s, e).accepted && Apply(s, e).accepted[p] == s.accepted[p]
  {
    if e.EvReq? && Classify(s.rx, e.m.psn) == New && e.ses.Accept? {
      assert MsgInv(s, e.m);
      AcceptCovers(s, e);
    }
  }

  /**
    The two windows never drift apart: every request ever sent is below the end of the receive
    window, and a packet the initiator may still retransmit lies within one window of its base,
    so its retransmission is new, repeated or prior and never out of the window.
   */
  lemma WindowsInStep(start: int, es: seq<Event>)
    requires ValidRun(Init(start), es)
    ensures var s := Run(Init(start), es);
      && s.tx.next <= s.rx.base + MPR
      && s.rx.base <= s.tx.base + MPR
      && (forall m :: m in s.net && m.Req? ==> m.psn < s.rx.base + MPR)
      && (forall p :: p in s.tx.bm && !s.tx.bm[p].acked ==> Classify(s.rx, p) != OutOfWindow)
  {
    InitInv(start);
    RunKeeps(Init(start), es);
    var s := Run(Init(start), es);
    forall m | m in s.net && m.Req? ensures m.psn < s.rx.base + MPR {
      assert MsgInv(s, m);
    }
  }

  /** An out-of-window NACK is always stale: it changes nothing, and in particular never closes the PDC. */
  lemma OutOfWindowNackIsStale(start: int, es: seq<Event>, m: Msg, probe: bool)
    requires ValidRun(Init(start), es)
    requires m in Run(Init(start), es).net
    requires m.Nack? && (m.code == PsnOutOfWindow || m.code == InvalidSyn)
    ensures var s := Run(Init(start), es); OnNack(s, m, probe) == s
  {
    InitInv(start);
    RunKeeps(Init(start), es);
    assert MsgInv(Run(Init(start), es), m);
  }

  /** The distances that travel in 16-bit fields, and the PSNs compared as 32-bit values, always fit. */
  lemma OffsetsFit(start: int, es: seq<Event>, m: Msg)
    requires ValidRun(Init(start), es)
    requires m in Run(Init(start), es).net
    requires Run(Init(start), es).tx.next - start < HALF_SPACE
    ensures m.Req? ==> FromWire(Wrap(m.psn), WireOffset(Wrap(m.psn), Wrap(m.clear))) == Wrap(m.clear)
    ensures m.Ack? ==> FromWire(Wrap(m.cack), WireOffset(Wrap(m.cack), Wrap(m.psn))) == Wrap(m.psn)
    ensures m.Ack? && m.cc.Some? ==>
      FromWire(Wrap(m.cack), WireOffset(Wrap(m.cack), Wrap(m.cc.value.base))) == Wrap(m.cc.value.base)
    ensures var s := Run(Init(start), es);
      !m.Clear? ==>
      forall q :: s.start - 1 <= q <= s.tx.next ==> Offset(Wrap(m.psn), Wrap(q)) == m.psn - q
  {
    InitInv(start);
    RunKeeps(Init(start), es);
    var s := Run(Init(start), es);
    StartFixed(Init(start), es);
    assert MsgInv(s, m);
    if m.Req? { WireExact(m.psn, m.clear); }
    if m.Ack? {
      WireExact(m.cack, m.psn);
      if m.cc.Some? { WireExact(m.cack, m.cc.value.base); }
    }
    if !m.Clear? {
      forall q | s.start - 1 <= q <= s.tx.next ensures Offset(Wrap(m.psn), Wrap(q)) == m.psn - q {
        OffsetExact(m.psn, q);
      }
    }
  }

  lemma {:induction false} StartFixed(s: Sys, es: seq<Event>)
    requires ValidRun(s, es)
    ensures Run(s, es).start == s.start
    decreases |es|
  {
    if es != [] { StartFixed(Apply(s, es[0]), es[1..]); }
  }

  /** A hole: a PSN in use that is no longer tracked. */
  ghost predicate Hole(s: Sys, p: int) {
    s.tx.base <= p < s.tx.next && p !in s.tx.bm
  }

  lemma HoleStays(s: Sys, e: Event, p: int)
    requires Inv(s) && Enabled(s, e) && Hole(s, p)
    ensures Hole(Apply(s, e), p)
  {
    if e.EvAck? && Judge(s.tx, e.m.psn, e.m.cack) != Rejected {
      AckTxSpec(s.tx, e.m);
    }
  }

  /**
    The price of abandoning a packet: the transmit base never passes a PSN that was dropped or
    drained, so the PDC can assign at most one window of PSNs from there on.
   */
  lemma {:induction false} HolePinsWindow(s: Sys, es: seq<Event>, p: int)
    requires Inv(s) && ValidRun(s, es) && Hole(s, p)
    ensures var s' := Run(s, es); s'.tx.base <= p && s'.tx.next <= p + MPR
    decreases |es|
  {
    if es != [] {
      StepKeeps(s, es[0]);
      HoleStays(s, es[0], p);
      HolePinsWindow(Apply(s, es[0]), es[1..], p);
    }
  }

  /**
    Every state of every run that has used less than half the PSN space meets what the 32-bit
    methods of TxSide and RxSide ask of their objects and of the packets given to them.
   */
  lemma MethodsApply(start: int, es: seq<Event>, m: Msg)
    requires ValidRun(Init(start), es)
    requires var s := Run(Init(start), es); m in s.net && s.tx.next + 5 * MPR - start < HALF_SPACE
    ensures var s := Run(Init(start), es);
      && RxValid(s.rx) && RxSide.InSpan(s.rx, start) && s.rx.base + 4 * MPR - start < HALF_SPACE
      && TxSide.InSpan(s.tx, start)
      && (!m.Clear? ==> start <= m.psn < start + HALF_SPACE)
      && (m.Req? || m.Clear? ==> start - 1 <= m.clear && m.clear - start < HALF_SPACE - 1)
      && (m.Ack? ==> start - 1 <= m.cack < s.tx.next && -0x8000 <= m.psn - m.cack < 0x8000)
      && (m.Ack? && m.cc.Some? ==>
            start - 1 <= m.cc.value.base && m.cc.value.base + 64 - start < HALF_SPACE && m.cc.value.mpr <= 255)
  {
    InitInv(start);
    RunKeeps(Init(start), es);
    var s := Run(Init(start), es);
    StartFixed(Init(start), es);
    assert MsgInv(s, m);
  }

  /** How the initiator parses an ACK header. */
  function ParseAck(h: RxSide.AckHdr): TxSide.AckPkt {
    TxSide.AckPkt(FromWire(h.cack, h.psnOff), h.cack, h.reqClear,
      if h.cc.None? then None
      else Some(TxSide.CcExt(h.cc.value.mpr, FromWire(h.cack, h.cc.value.sackOff), h.cc.value.bits)))
  }

  /**
    The two ends meet: the header the target's BuildAck writes for an ACK of the run is read by the initiator
    as that ACK, so ProcessAck carries out its event.
   */
  lemma AckCrossesWire(start: int, es: seq<Event>, m: Msg, h: RxSide.AckHdr)
    requires ValidRun(Init(start), es)
    requires var s := Run(Init(start), es); m in s.net && s.tx.next + 5 * MPR - start < HALF_SPACE
    requires m.Ack? && RxSide.AckOk(h, m)
    ensures TxSide.Parsed(ParseAck(h), m, start)
  {
    MethodsApply(start, es, m);
  }

  /** And the header the initiator's TxPkt builds is read by the target as that request. */
  lemma ReqCrossesWire(start: int, es: seq<Event>, m: Msg, h: TxSide.ReqHdr, q: RxSide.ReqPkt)
    requires ValidRun(Init(start), es)
    requires var s := Run(Init(start), es); m in s.net && s.tx.next + 5 * MPR - start < HALF_SPACE
    requires m.Req? && TxSide.HdrOk(h, m.psn, m.clear)
    requires q.psn == h.psn && q.clearPsn == FromWire(h.psn, h.clearOff)
    ensures RxSide.Arrived(q, m.psn, m.clear, start)
  {
    MethodsApply(start, es, m);
  }

  /**
    Wherever the target's methods start a SACK bitmap, the protocol allows it; `top` is the highest PSN received
    so far, which stays below the next PSN to be sent.
   */
  lemma SackBaseAllowed(start: int, es: seq<Event>, m: Msg, top: int, sb: Option<int>)
    requires ValidRun(Init(start), es)
    requires var s := Run(Init(start), es);
      && m in s.net && (m.Req? || m.AckReq?) && top < s.tx.next
      && (sb.Some? ==> start - 1 <= sb.value <= Max(top, m.psn) && s.rx.base - 1 - MPR <= sb.value)
    ensures var s := Run(Init(start), es); SackBaseOk(s, sb) && Max(top, m.psn) < s.tx.next
  {
    InitInv(start);
    RunKeeps(Init(start), es);
    StartFixed(Init(start), es);
    assert MsgInv(Run(Init(start), es), m);
  }
}
