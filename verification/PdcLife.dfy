/** How the life of an initiator PDC goes on: what is taken, how each request ends, and that a close gets through. */
module PdcLife {
  import opened PdcTypes
  import opened PdcClose

  /** While closing, the close command is the one packet listed. */
  ghost predicate LifeInv(s: Pdc) {
    Inv(s) && (s.state == Closing ==> s.closePsn.Some? && s.list == {s.closePsn.value})
  }

  lemma StepLife(s: Pdc, e: Event)
    requires LifeInv(s)
    ensures LifeInv(Apply(s, e))
  {
    StepKeeps(s, e);
    if s.state == Closing { ClosingStep(s, e); }
  }

  lemma ClosingStep(s: Pdc, e: Event)
    requires LifeInv(s) && s.state == Closing
    ensures Apply(s, e).state == Closing ==> Apply(s, e).list == s.list && Apply(s, e).closePsn == s.closePsn
  {
    assert s.list * s.data == {};
    if e.EvDrop? { assert e.ps * s.list * s.data == {}; }
  }

  lemma {:induction false} RunLife(s: Pdc, es: seq<Event>)
    requires LifeInv(s)
    ensures LifeInv(Run(s, es))
    decreases |es|
  {
    if es != [] {
      StepLife(s, es[0]);
      RunLife(Apply(s, es[0]), es[1..]);
    }
  }

  lemma Meets(ps: set<int>, p: int)
    ensures ps * {p} == if p in ps then {p} else {}
  {
  }

  // ---------------------------------------------------------------- the end of a life

  /**
    In every run an ACK that covers the close command ends the life, and nothing else but an error or a discard
    ends a closing PDC.
   */
  lemma CloseAckEnds(start: int, es: seq<Event>, e: Event)
    requires Run(InitPdc(start), es).state == Closing
    ensures var s := Run(InitPdc(start), es); var t := Apply(s, e);
      && s.closePsn.Some? && s.list == {s.closePsn.value}
      && (t.state == Unalloc <==> (e.EvAck? && s.closePsn.value in e.ps) || e.EvErrorClose? || e.EvDiscard?)
      && (t.state != Unalloc ==> t.state == Closing && t.list == s.list)
  {
    RunLife(InitPdc(start), es);
    var s := Run(InitPdc(start), es);
    StepLife(s, e);
    if e.EvAck? { Meets(e.ps, s.closePsn.value); }
    if e.EvDrop? { assert e.ps * s.list * s.data == {}; }
  }

  lemma {:induction false} RunMgrLife(m: Mgr, acts: seq<Act>)
    requires MgrInv(m) && forall k :: 0 <= k < |m.pdcs| ==> LifeInv(m.pdcs[k])
    ensures var m' := RunMgr(m, acts);
      MgrInv(m') && |m'.pdcs| == |m.pdcs| && forall k :: 0 <= k < |m'.pdcs| ==> LifeInv(m'.pdcs[k])
    decreases |acts|
  {
    if acts != [] {
      RunMgrKeeps(m, [acts[0]]);
      assert RunMgr(m, [acts[0]]) == ActOn(m, acts[0]) by { assert [acts[0]][1..] == []; }
      if acts[0].On? && acts[0].slot < |m.pdcs| { StepLife(m.pdcs[acts[0].slot], acts[0].e); }
      RunMgrLife(ActOn(m, acts[0]), acts[1..]);
    }
  }

  /** An event that ends the life in slot `k` moves the slot to the end of the free list. */
  lemma SlotGoesBack(m: Mgr, k: nat, e: Event, now: Pdc)
    requires k < |m.pdcs| && Placed(m, k) && Inv(m.pdcs[k]) && m.pdcs[k].state != Unalloc
    requires now == Apply(m.pdcs[k], e) && now.state == Unalloc
    ensures var m' := ActOn(m, On(k, e));
      m'.free == m.free + [k] && multiset(m'.alloc)[k] == 0 && multiset(m'.free)[k] == 1 && m'.pdcs[k] == now
  {
    OnPlaces(m, k, e, k);
  }

  lemma SlotsLive(n: nat, acts: seq<Act>)
    ensures var m := RunMgr(InitMgr(n), acts);
      MgrInv(m) && |m.pdcs| == n && forall k :: 0 <= k < n ==> LifeInv(m.pdcs[k])
  {
    var m0 := InitMgr(n);
    forall j: nat ensures Placed(m0, j) { SlotsOnce(n, j); }
    RunMgrLife(m0, acts);
  }

  /** Over any run of the manager, the ACK of a slot's close command puts that slot at the end of the free list. */
  lemma CloseAckFreesSlot(n: nat, acts: seq<Act>, k: nat, ps: set<int>, room: bool)
    requires k < n
    requires var m := RunMgr(InitMgr(n), acts);
      k < |m.pdcs| && m.pdcs[k].state == Closing && m.pdcs[k].closePsn.Some? && m.pdcs[k].closePsn.value in ps
    ensures var m := RunMgr(InitMgr(n), acts); var m' := ActOn(m, On(k, EvAck(ps, room)));
      && m'.free == m.free + [k] && multiset(m'.alloc)[k] == 0 && multiset(m'.free)[k] == 1
      && m'.pdcs[k].state == Unalloc
  {
    SlotsLive(n, acts);
    var m := RunMgr(InitMgr(n), acts);
    var s := m.pdcs[k];
    assert AckPdc(s, ps, room).state == Unalloc by { Meets(ps, s.closePsn.value); }
    assert Placed(m, k);
    SlotGoesBack(m, k, EvAck(ps, room), AckPdc(s, ps, room));
  }

  /** A slot on the free list is taken by the next allocations: the one at the head by the very next. */
  lemma FreeSlotIsUsed(n: nat, acts: seq<Act>, start: int)
    requires RunMgr(InitMgr(n), acts).free != []
    ensures var m := RunMgr(InitMgr(n), acts); var m' := ActOn(m, Open(start));
      && m.free[0] < n && m'.free == m.free[1..] && m'.alloc == m.alloc + [m.free[0]]
      && m'.pdcs[m.free[0]] == InitPdc(start)
  {
    var m := RunMgr(InitMgr(n), acts);
    SlotsLive(n, acts);
    assert Placed(m, m.free[0]);
  }

  // ---------------------------------------------------------------- a close gets through

  /** What the event leaves listed and active, before any close. */
  function ListAfter(s: Pdc, e: Event): set<int> {
    if e.EvAck? then s.list - e.ps else s.list
  }

  function ActiveAfter(s: Pdc, e: Event): Option<nat> {
    if e.EvCmplInd? && s.active == Some(e.msg) then None else s.active
  }

  /**
    The events that look whether a requested close can go ahead: an ACK of something listed, the end of the active
    message, and a close request from the target.
   */
  predicate LooksAtClose(s: Pdc, e: Event) {
    match e
    case EvAck(ps, room) => room && ps * s.list != {} && s.closeRequested
    case EvCmplInd(msg, room) => room && s.active == Some(msg) && s.closeRequested
    case EvCloseReq(room) => room
    case _ => false
  }

  /**
    In every run, once a close is requested, no message is active and nothing is listed any more, the event that
    brings this about, or a close request afterwards, sends the close command under the next PSN; in the SYN state,
    where there is nobody to send it to, it frees the PDC.
   */
  lemma CloseGoesAhead(start: int, es: seq<Event>, e: Event)
    requires var s := Run(InitPdc(start), es);
      && (s.state == SynSent || s.state == Established) && LooksAtClose(s, e)
      && ListAfter(s, e) == {} && ActiveAfter(s, e) == None
    ensures var s := Run(InitPdc(start), es); var t := Apply(s, e);
      if s.state == SynSent && !e.EvAck? then t.state == Unalloc
      else t.state == Closing && t.closePsn == Some(s.next) && t.list == {s.next} && t.next == s.next + 1
  {
    RunLife(InitPdc(start), es);
    var s := Run(InitPdc(start), es);
    if e.EvAck? { assert s.list - e.ps * s.list == {}; }
  }

  /**
    A PDC that fails drains what is listed; then it is freed if it was closing or in the SYN state, and closes
    otherwise.
   */
  lemma ErrorEnds(start: int, es: seq<Event>)
    requires var s := Run(InitPdc(start), es); s.state != Unalloc && s.active.None?
    ensures var s := Run(InitPdc(start), es); var t := Apply(s, EvErrorClose(true));
      if s.state == Established then t.state == Closing && t.closePsn == Some(s.next) && t.list == {s.next}
      else t.state == Unalloc
  {
    RunLife(InitPdc(start), es);
  }

  /**
    A close that cannot go ahead yet is remembered: once everything listed is acknowledged, the close command
    goes out.
   */
  lemma RememberedClose(start: int, es: seq<Event>, e: Event)
    requires var s := Run(InitPdc(start), es);
      && (s.state == SynSent || s.state == Established)
      && match e
         case EvSend(msg, som, last, mark, _) =>
           last && mark && if som then s.active.None? && !s.closeRequested else s.active == Some(msg)
         case EvCloseReq(_) => s.active.None? && s.list != {}
         case _ => false
    ensures var s := Run(InitPdc(start), es); var t := Apply(s, e); var u := Apply(t, EvAck(t.list, true));
      && t.closeRequested && t.list != {} && t.state == s.state
      && u.state == Closing && u.closePsn == Some(t.next) && u.list == {t.next}
  {
    RunLife(InitPdc(start), es);
    var t := Apply(Run(InitPdc(start), es), e);
    assert t.list != {} by { if e.EvSend? { assert Run(InitPdc(start), es).next in t.list; } }
    assert t.list * t.list == t.list && t.list - t.list == {};
  }

  /** A PDC that is discarded is freed whatever its state, and over any run of the manager its slot goes back. */
  lemma DiscardFreesSlot(n: nat, acts: seq<Act>, k: nat)
    requires k < n
    requires var m := RunMgr(InitMgr(n), acts); k < |m.pdcs| && m.pdcs[k].state != Unalloc
    ensures var m := RunMgr(InitMgr(n), acts); var m' := ActOn(m, On(k, EvDiscard));
      m'.pdcs[k].state == Unalloc && m'.free == m.free + [k] && multiset(m'.alloc)[k] == 0
  {
    SlotsLive(n, acts);
    var m := RunMgr(InitMgr(n), acts);
    assert Placed(m, k);
    SlotGoesBack(m, k, EvDiscard, Discard(m.pdcs[k]));
  }

  // ---------------------------------------------------------------- requests

  /**
    A request gets the next PSN and is listed if and only if the PDC is in use and it opens a message while none is
    active and no close is requested, or goes on with the active one.
   */
  lemma SendTaken(s: Pdc, msg: nat, som: bool, last: bool, mark: bool, room: bool)
    requires Inv(s)
    ensures var t := Apply(s, EvSend(msg, som, last, mark, room));
      if s.state != Unalloc && (if som then s.active.None? && !s.closeRequested else s.active == Some(msg)) then
        && t.data == s.data + {s.next} && s.next in t.list && t.next == s.next + 1
        && t.active == (if last then None else Some(msg)) && s.next !in t.settled
      else t == s
  {
    if s.closePsn.Some? && som { assert s.state == Unalloc || s.closeRequested; }
  }

  lemma SettleAt(m: map<int, Outcome>, ps: set<int>, o: Outcome, p: int)
    requires p !in m
    ensures p in Settle(m, ps, o) <==> p in ps
    ensures p in ps ==> Settle(m, ps, o)[p] == o
  {
  }

  /** A listed request is not settled, and the close command has not been sent. */
  lemma ListedIsOpen(s: Pdc, p: int)
    requires Inv(s) && p in s.data && s.state != Unalloc && p in s.list
    ensures p !in s.settled && s.closePsn.None? && s.state != Closing
  {
  }

  lemma AckSettles(s: Pdc, ps: set<int>, room: bool, p: int)
    requires Inv(s) && p in s.data && s.state != Unalloc && p in s.list
    ensures var t := AckPdc(s, ps, room); (p in ps <==> p in t.settled) && (p in ps ==> t.settled[p] == Acked)
  {
    ListedIsOpen(s, p);
    SettleAt(s.settled, ps * s.list, Acked, p);
  }

  /** Every listed request that an event takes off the list is settled the way the event says, and no other. */
  lemma SettledAs(s: Pdc, e: Event, p: int)
    requires Inv(s) && p in s.data && s.state != Unalloc && p in s.list
    ensures var t := Apply(s, e);
      && (e.EvAck? ==> (p in e.ps <==> p in t.settled) && (p in e.ps ==> t.settled[p] == Acked))
      && (e.EvDrop? ==> (p in e.ps <==> p in t.settled) && (p in e.ps ==> t.settled[p] == Dropped))
      && (e.EvErrorClose? || e.EvDiscard? ==> p in t.settled && t.settled[p] == FailedUp)
      && (e.EvSend? || e.EvCmplInd? || e.EvCloseReq? ==> p !in t.settled && p in t.list)
  {
    ListedIsOpen(s, p);
    match e
    case EvAck(ps, room) => AckSettles(s, ps, room, p);
    case EvDrop(ps) => SettleAt(s.settled, ps * s.list * s.data, Dropped, p);
    case EvErrorClose(_) => SettleAt(s.settled, s.list * s.data, FailedUp, p);
    case EvDiscard => SettleAt(s.settled, s.list * s.data, FailedUp, p);
    case EvSend(_, _, _, _, _) | EvCmplInd(_, _) | EvCloseReq(_) =>
  }
}
