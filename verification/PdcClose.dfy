/** The life of an initiator PDC from allocation to the return of its slot, and the close command in it. */
module PdcClose {
  import opened PdcTypes

  datatype State = SynSent | Established | Closing | Unalloc

  /** How a data packet stopped being outstanding. */
  datatype Outcome = Acked | FailedUp | Dropped

  datatype Pdc = Pdc(
    state: State,
    active: Option<nat>,            // active_msg_id
    closeRequested: bool,
    closeStarted: bool,
    next: int,                      // next_psn
    list: set<int>,                 // PSNs on tx_pkt_list, the close command included
    closePsn: Option<int>,          // the PSN of the close command, once sent
    data: set<int>,                 // PSNs given to requests
    settled: map<int, Outcome>,     // requests that are no longer outstanding
    frees: nat)                     // times the slot went back to the free list

  function InitPdc(start: int): Pdc {
    Pdc(SynSent, None, false, false, start, {}, None, {}, map[], 0)
  }

  function FreePdc(s: Pdc): Pdc {
    s.(state := Unalloc, list := {}, closeRequested := false, closeStarted := false, active := None,
       frees := s.frees + 1)
  }

  /** `uet_pds_initiate_pdc_close`; `room` is the window check of the control packet. */
  function InitiateClose(s: Pdc, room: bool): Pdc {
    if s.closeRequested && s.closeStarted then s
    else
      var s1 := s.(closeRequested := true);
      if s.active.Some? || s.list != {} then s1
      else if s.state == SynSent then FreePdc(s1)
      else if !room then s1
      else s1.(closeStarted := true, closePsn := Some(s.next), state := Closing, list := {s.next}, next := s.next + 1)
  }

  /** A request: `som` opens a message on the PDC, `last` closes it; `mark` is the decision to close it at the end. */
  function Send(s: Pdc, msg: nat, som: bool, last: bool, mark: bool, room: bool): Pdc {
    if s.state == Unalloc then s
    else if som && (s.closeRequested || s.active.Some?) then s
    else if !som && s.active != Some(msg) then s
    else
      var s1 := s.(next := s.next + 1, list := s.list + {s.next}, data := s.data + {s.next},
                   active := if last then None else Some(msg),
                   closeRequested := s.closeRequested || (last && mark));
      if s1.state == Established && s1.closeRequested && !s1.closeStarted then InitiateClose(s1, room) else s1
  }

  function Settle(m: map<int, Outcome>, ps: set<int>, o: Outcome): map<int, Outcome> {
    m + map p | p in ps :: o
  }

  /** An acknowledgement of the listed PSNs `ps`, explicit or cumulative. */
  function AckPdc(s: Pdc, ps: set<int>, room: bool): Pdc {
    var hit := ps * s.list;
    if s.state == Unalloc || hit == {} then s
    else if s.state == Closing && s.closePsn.Some? && s.closePsn.value in hit then
      FreePdc(s.(settled := Settle(s.settled, hit - {s.closePsn.value}, Acked)))
    else
      var s1 := s.(list := s.list - hit, settled := Settle(s.settled, hit, Acked),
                   state := if s.state == SynSent then Established else s.state);
      if s1.state == Established && s1.closeRequested && !s1.closeStarted && s1.active.None?
      then InitiateClose(s1, room) else s1
  }

  /** `uet_pds_msg_cmpl_ind`. */
  function CmplInd(s: Pdc, msg: nat, room: bool): Pdc {
    if s.state == Unalloc || s.active != Some(msg) then s
    else
      var s1 := s.(active := None);
      if s1.closeRequested && !s1.closeStarted then InitiateClose(s1, room) else s1
  }

  /** A close request from the target. */
  function CloseReq(s: Pdc, room: bool): Pdc {
    if s.state == Unalloc then s else InitiateClose(s.(closeRequested := true), room)
  }

  /** `uet_pds_drop_tx_pkts`: never the close command, which names no descriptor. */
  function Drop(s: Pdc, ps: set<int>): Pdc {
    var hit := ps * s.list * s.data;
    s.(list := s.list - hit, settled := Settle(s.settled, hit, Dropped))
  }

  /** `uet_pds_close_pdc_in_error`. */
  function ErrorClose(s: Pdc, room: bool): Pdc {
    if s.state == Unalloc then s
    else
      var s1 := s.(list := {}, settled := Settle(s.settled, s.list * s.data, FailedUp));
      if s1.closeStarted then FreePdc(s1) else InitiateClose(s1, room)
  }

  /** `uet_pdsm_discard_pdc`: a failed PDC is drained and freed without a close command. */
  function Discard(s: Pdc): Pdc {
    if s.state == Unalloc then s
    else FreePdc(s.(list := {}, settled := Settle(s.settled, s.list * s.data, FailedUp)))
  }

  // ---------------------------------------------------------------- runs

  datatype Event =
    | EvSend(msg: nat, som: bool, last: bool, mark: bool, room: bool)
    | EvAck(ps: set<int>, room: bool)
    | EvCmplInd(msg: nat, room: bool)
    | EvCloseReq(room: bool)
    | EvDrop(ps: set<int>)
    | EvErrorClose(room: bool)
    | EvDiscard

  function Apply(s: Pdc, e: Event): Pdc {
    match e
    case EvSend(msg, som, last, mark, room) => Send(s, msg, som, last, mark, room)
    case EvAck(ps, room) => AckPdc(s, ps, room)
    case EvCmplInd(msg, room) => CmplInd(s, msg, room)
    case EvCloseReq(room) => CloseReq(s, room)
    case EvDrop(ps) => Drop(s, ps)
    case EvErrorClose(room) => ErrorClose(s, room)
    case EvDiscard => Discard(s)
  }

  function Run(s: Pdc, es: seq<Event>): Pdc
    decreases |es|
  {
    if es == [] then s else Run(Apply(s, es[0]), es[1..])
  }

  ghost predicate Inv(s: Pdc) {
    && (forall p :: p in s.data ==> p < s.next)
    && (forall p :: p in s.settled ==> p in s.data)
    && (forall p :: p in s.data && s.state != Unalloc ==> (p in s.settled <==> p !in s.list))
    && (forall p :: p in s.list ==> p in s.data || s.closePsn == Some(p))
    && (s.closePsn.Some? ==>
          && s.state in {Closing, Unalloc}
          && s.closePsn.value !in s.data && s.closePsn.value < s.next
          && (forall p :: p in s.data ==> p < s.closePsn.value && p in s.settled))
    && (s.closeStarted <==> s.state == Closing)
    && (s.state == Closing ==> s.closeRequested && s.active.None? && s.closePsn.Some?)
    && (s.state == Unalloc ==> s.list == {} && forall p :: p in s.data ==> p in s.settled)
    && s.frees == (if s.state == Unalloc then 1 else 0)
  }

  lemma InitiateKeeps(s: Pdc, room: bool)
    requires Inv(s) && s.state != Unalloc
    ensures Inv(InitiateClose(s, room))
  {
  }

  lemma SendKeeps(s: Pdc, msg: nat, som: bool, last: bool, mark: bool, room: bool)
    requires Inv(s)
    ensures Inv(Send(s, msg, som, last, mark, room))
  {
  }

  lemma AckKeeps(s: Pdc, ps: set<int>, room: bool)
    requires Inv(s)
    ensures Inv(AckPdc(s, ps, room))
  {
  }

  lemma CmplKeeps(s: Pdc, msg: nat, room: bool)
    requires Inv(s)
    ensures Inv(CmplInd(s, msg, room))
  {
  }

  lemma CloseReqKeeps(s: Pdc, room: bool)
    requires Inv(s)
    ensures Inv(CloseReq(s, room))
  {
  }

  lemma ErrorKeeps(s: Pdc, room: bool)
    requires Inv(s)
    ensures Inv(ErrorClose(s, room))
  {
  }

  /** The close command is only ever added, and never moves. */
  ghost predicate CloseStays(s: Pdc, t: Pdc) {
    s.closePsn.Some? ==> t.closePsn == s.closePsn && t.data == s.data
  }

  lemma StepKeeps(s: Pdc, e: Event)
    requires Inv(s)
    ensures Inv(Apply(s, e)) && CloseStays(s, Apply(s, e))
  {
    match e
    case EvSend(msg, som, last, mark, room) => SendKeeps(s, msg, som, last, mark, room);
    case EvAck(ps, room) => AckKeeps(s, ps, room);
    case EvCmplInd(msg, room) => CmplKeeps(s, msg, room);
    case EvCloseReq(room) => CloseReqKeeps(s, room);
    case EvDrop(ps) =>
    case EvErrorClose(room) => ErrorKeeps(s, room);
    case EvDiscard =>
  }

  lemma {:induction false} RunKeeps(s: Pdc, es: seq<Event>)
    requires Inv(s)
    ensures Inv(Run(s, es)) && CloseStays(s, Run(s, es))
    decreases |es|
  {
    if es != [] {
      StepKeeps(s, es[0]);
      RunKeeps(Apply(s, es[0]), es[1..]);
    }
  }

  // ---------------------------------------------------------------- the theorems

  /**
    The step that sends the close command finds no active message, and every request PSN given out
    before it already acknowledged, failed up to SES or dropped by SES.
   */
  lemma CloseOnlyWhenDrained(start: int, es: seq<Event>, e: Event)
    requires var s := Run(InitPdc(start), es); s.closePsn.None? && Apply(s, e).closePsn.Some?
    ensures var t := Apply(Run(InitPdc(start), es), e);
      && t.active.None? && t.state == Closing
      && forall p :: p in t.data ==> p < t.closePsn.value && p in t.settled
  {
    RunKeeps(InitPdc(start), es);
    StepKeeps(Run(InitPdc(start), es), e);
  }

  /** Once the close command has its PSN, no request gets one, and no second close command is sent. */
  lemma NothingAfterClose(start: int, es: seq<Event>, more: seq<Event>)
    requires Run(InitPdc(start), es).closePsn.Some?
    ensures var s := Run(InitPdc(start), es); var t := Run(s, more);
      t.closePsn == s.closePsn && t.data == s.data && forall p :: p in t.data ==> p < t.closePsn.value
  {
    RunKeeps(InitPdc(start), es);
    RunKeeps(Run(InitPdc(start), es), more);
  }

  /** The slot goes back to the free list once at most, exactly when the life ends, with nothing left unsettled. */
  lemma FreedOnce(start: int, es: seq<Event>)
    ensures var s := Run(InitPdc(start), es);
      && s.frees == (if s.state == Unalloc then 1 else 0)
      && (s.state == Unalloc ==> forall p :: p in s.data ==> p in s.settled)
  {
    RunKeeps(InitPdc(start), es);
  }

  /**
    What freeing leaves behind, when nothing is unsettled: a PDC with nothing listed and no message or close
    pending, on which no event has any effect, with its PSNs as they were.
   */
  lemma FreedIsInert(s: Pdc, e: Event)
    requires Inv(s) && s.state != Unalloc && forall p :: p in s.data ==> p in s.settled
    ensures var t := FreePdc(s);
      && Inv(t) && Apply(t, e) == t
      && t.list == {} && t.active.None? && !t.closeRequested && !t.closeStarted
      && t.next == s.next && t.data == s.data && t.settled == s.settled && t.closePsn == s.closePsn
  {
    var t := FreePdc(s);
    if e.EvDrop? {
      assert e.ps * t.list * t.data == {};
      assert Settle(t.settled, {}, Dropped) == t.settled;
    }
  }

  /** No event changes the PDC. */
  ghost predicate Inert(s: Pdc) {
    forall e :: Apply(s, e) == s
  }

  lemma FreedStaysInert(s: Pdc)
    requires Inv(s) && s.state != Unalloc && forall p :: p in s.data ==> p in s.settled
    ensures Inv(FreePdc(s)) && Inert(FreePdc(s))
  {
    forall e ensures Apply(FreePdc(s), e) == FreePdc(s) {
      FreedIsInert(s, e);
    }
    FreedIsInert(s, EvDiscard);
  }

  // ---------------------------------------------------------------- the slots of the PDC manager

  function Slots(n: nat): (s: seq<nat>)
    ensures |s| == n
  {
    if n == 0 then [] else Slots(n - 1) + [n - 1]
  }

  lemma {:induction false} SlotsOnce(n: nat, k: nat)
    ensures multiset(Slots(n))[k] == if k < n then 1 else 0
  {
    if n > 0 { SlotsOnce(n - 1, k); }
  }

  /** The list without the first `x` on it. */
  function Without(s: seq<nat>, x: nat): (r: seq<nat>)
    ensures multiset(r) == multiset(s) - multiset{x}
  {
    if s == [] then []
    else
      assert s == [s[0]] + s[1..];
      if s[0] == x then s[1..] else [s[0]] + Without(s[1..], x)
  }

  /** The free and allocated lists of the PDC manager, and the PDC in every slot. */
  datatype Mgr = Mgr(free: seq<nat>, alloc: seq<nat>, pdcs: seq<Pdc>)

  datatype Act =
    | Open(start: int)          // `uet_pdsm_alloc_pdc` and the start of a life
    | On(slot: nat, e: Event)

  function InitMgr(n: nat): Mgr {
    Mgr(Slots(n), [], seq(n, _ => FreePdc(InitPdc(0))))
  }

  function ActOn(m: Mgr, a: Act): Mgr {
    match a
    case Open(start) =>
      if m.free == [] || m.free[0] >= |m.pdcs| then m
      else Mgr(m.free[1..], m.alloc + [m.free[0]], m.pdcs[m.free[0] := InitPdc(start)])
    case On(slot, e) =>
      if slot >= |m.pdcs| then m
      else
        var was, now := m.pdcs[slot], Apply(m.pdcs[slot], e);
        if was.state != Unalloc && now.state == Unalloc
        then Mgr(m.free + [slot], Without(m.alloc, slot), m.pdcs[slot := now])
        else m.(pdcs := m.pdcs[slot := now])
  }

  function RunMgr(m: Mgr, acts: seq<Act>): Mgr
    decreases |acts|
  {
    if acts == [] then m else RunMgr(ActOn(m, acts[0]), acts[1..])
  }

  predicate IsFree(m: Mgr, k: nat) {
    k < |m.pdcs| && m.pdcs[k].state == Unalloc
  }

  /** Slot `k` is where it should be, once. */
  ghost predicate Placed(m: Mgr, k: nat) {
    && multiset(m.free)[k] == (if IsFree(m, k) then 1 else 0)
    && multiset(m.alloc)[k] == if k < |m.pdcs| && !IsFree(m, k) then 1 else 0
  }

  ghost predicate MgrInv(m: Mgr) {
    && (forall k: nat :: Placed(m, k))
    && (forall k :: 0 <= k < |m.pdcs| ==> Inv(m.pdcs[k]))
  }

  lemma OpenPlaces(m: Mgr, start: int, k: nat)
    requires m.free != [] && Placed(m, m.free[0]) && Placed(m, k)
    ensures Placed(ActOn(m, Open(start)), k)
  {
    assert m.free == [m.free[0]] + m.free[1..];
  }

  lemma OpenKeeps(m: Mgr, start: int)
    requires MgrInv(m)
    ensures MgrInv(ActOn(m, Open(start)))
  {
    if m.free != [] {
      forall k: nat ensures Placed(ActOn(m, Open(start)), k) {
        OpenPlaces(m, start, k);
      }
    }
  }

  lemma OnPlaces(m: Mgr, slot: nat, e: Event, k: nat)
    requires slot < |m.pdcs| && Placed(m, slot) && Placed(m, k) && Inv(m.pdcs[slot])
    ensures Placed(ActOn(m, On(slot, e)), k)
  {
    if m.pdcs[slot].state == Unalloc { UnallocStays(m.pdcs[slot], e); }
  }

  lemma OnKeeps(m: Mgr, slot: nat, e: Event)
    requires MgrInv(m)
    ensures MgrInv(ActOn(m, On(slot, e)))
  {
    if slot < |m.pdcs| {
      StepKeeps(m.pdcs[slot], e);
      forall k: nat ensures Placed(ActOn(m, On(slot, e)), k) {
        OnPlaces(m, slot, e, k);
      }
    }
  }

  lemma UnallocStays(s: Pdc, e: Event)
    requires Inv(s) && s.state == Unalloc
    ensures Apply(s, e).state == Unalloc
  {
  }

  lemma {:induction false} RunMgrKeeps(m: Mgr, acts: seq<Act>)
    requires MgrInv(m)
    ensures MgrInv(RunMgr(m, acts)) && |RunMgr(m, acts).pdcs| == |m.pdcs|
    decreases |acts|
  {
    if acts != [] {
      match acts[0] {
        case Open(start) => OpenKeeps(m, start);
        case On(slot, e) => OnKeeps(m, slot, e);
      }
      RunMgrKeeps(ActOn(m, acts[0]), acts[1..]);
    }
  }

  /**
    Over any run of allocations and of events on any PDCs, a slot is on the free list if and only if its PDC is
    not in use, then once, and on the allocated list otherwise; a PDC not in use has nothing unsettled.
   */
  lemma SlotFreeIffUnalloc(n: nat, acts: seq<Act>, k: nat)
    requires k < n
    ensures var m := RunMgr(InitMgr(n), acts);
      && |m.pdcs| == n
      && multiset(m.free)[k] == (if m.pdcs[k].state == Unalloc then 1 else 0)
      && multiset(m.free)[k] + multiset(m.alloc)[k] == 1
      && (m.pdcs[k].state == Unalloc ==> forall p :: p in m.pdcs[k].data ==> p in m.pdcs[k].settled)
  {
    var m0 := InitMgr(n);
    forall j: nat ensures Placed(m0, j) {
      SlotsOnce(n, j);
    }
    RunMgrKeeps(m0, acts);
    assert Placed(RunMgr(m0, acts), k) && Inv(RunMgr(m0, acts).pdcs[k]);
  }

  /** The two lists in place. */
  class PdcPool {
    const size: nat
    var freeList: seq<nat>
    var allocList: seq<nat>

    /** Every slot is on exactly one of the lists, once. */
    ghost predicate Valid()
      reads this
    {
      forall k: nat :: multiset(freeList)[k] + multiset(allocList)[k] == if k < size then 1 else 0
    }

    constructor (n: nat)
      ensures Valid() && size == n && freeList == Slots(n) && allocList == []
    {
      size, freeList, allocList := n, Slots(n), [];
      forall k: nat ensures multiset(Slots(n))[k] == if k < n then 1 else 0 {
        SlotsOnce(n, k);
      }
    }

    /** `uet_pdsm_alloc_pdc`: the head of the free list, to the tail of the allocated list. */
    method AllocPdc() returns (slot: Option<nat>)
      requires Valid()
      modifies this
      ensures Valid()
      ensures slot.None? <==> old(freeList) == []
      ensures slot.Some? ==>
        slot.value == old(freeList)[0] && freeList == old(freeList)[1..] && allocList == old(allocList) + [slot.value]
      ensures slot.None? ==> freeList == old(freeList) && allocList == old(allocList)
    {
      if freeList == [] {
        return None;
      }
      slot := Some(freeList[0]);
      assert freeList == [freeList[0]] + freeList[1..];
      freeList, allocList := freeList[1..], allocList + [freeList[0]];
    }

    /** The list moves of `uet_pdsm_free_pdc`: off the allocated list, to the tail of the free list. */
    method FreeSlot(slot: nat)
      requires Valid() && slot < size && multiset(freeList)[slot] == 0
      modifies this
      ensures Valid()
      ensures freeList == old(freeList) + [slot] && allocList == Without(old(allocList), slot)
      ensures forall k: nat :: k != slot ==> multiset(freeList)[k] == multiset(old(freeList))[k]
    {
      freeList, allocList := freeList + [slot], Without(allocList, slot);
    }
  }

  // ---------------------------------------------------------------- the PDC as it runs

  class IniPdc {
    const pool: PdcPool
    const slot: nat
    var state: State
    var activeValid: bool
    var activeMsg: nat
    var closeRequested: bool
    var closeStarted: bool
    var nextPsn: int
    var list: set<int>
    var closeCmdPsn: Option<int>
    ghost var data: set<int>
    ghost var settled: map<int, Outcome>
    ghost var frees: nat

    ghost function Model(): Pdc
      reads this
    {
      Pdc(state, if activeValid then Some(activeMsg) else None, closeRequested, closeStarted, nextPsn, list,
          closeCmdPsn, data, settled, frees)
    }

    /** The PDC is as a run leaves it, and its slot is on the free list if and only if it is not in use. */
    ghost predicate Valid()
      reads this, pool
    {
      && Inv(Model())
      && pool.Valid() && slot < pool.size
      && multiset(pool.freeList)[slot] == if state == Unalloc then 1 else 0
    }

    /** What a method does to the free list: the slot joins its tail if the life ends. */
    twostate predicate Returned()
      reads this, pool
    {
      && pool.freeList == old(pool.freeList) + (if old(state) != Unalloc && state == Unalloc then [slot] else [])
      && (state != Unalloc ==> pool.allocList == old(pool.allocList))
    }

    /** A life begins in a slot that has just been allocated. */
    constructor (start: int, pool: PdcPool, slot: nat)
      requires pool.Valid() && slot < pool.size && multiset(pool.freeList)[slot] == 0
      ensures Valid() && Model() == InitPdc(start) && this.pool == pool && this.slot == slot
    {
      this.pool, this.slot := pool, slot;
      state, activeValid, activeMsg, closeRequested, closeStarted := SynSent, false, 0, false, false;
      nextPsn, list, closeCmdPsn, data, settled, frees := start, {}, None, {}, map[], 0;
    }

    method ResetFields()
      modifies this
      ensures Model() == FreePdc(old(Model()))
    {
      state, list := Unalloc, {};
      closeRequested, closeStarted := false, false;
      activeMsg, activeValid := 0, false;
      frees := frees + 1;
    }

    /**
      `uet_pdsm_free_pdc`.  The slot goes to the tail of the free list, and nothing that may still arrive for the
      PDC changes it.
     */
    method Release()
      requires Valid() && state != Unalloc && forall p :: p in data ==> p in settled
      modifies this, pool
      ensures Valid() && Returned() && Model() == FreePdc(old(Model()))
      ensures Inert(Model())
      ensures pool.allocList == Without(old(pool.allocList), slot)
    {
      FreedStaysInert(Model());
      ResetFields();
      pool.FreeSlot(slot);
    }

    /** `uet_pds_initiate_pdc_close`. */
    method InitiatePdcClose(room: bool)
      requires Valid() && state != Unalloc
      modifies this, pool
      ensures Valid() && Returned() && Model() == InitiateClose(old(Model()), room)
    {
      InitiateKeeps(Model(), room);
      if closeRequested && closeStarted {
        return;
      }
      closeRequested := true;
      if activeValid {
        return;
      }
      if list != {} {
        return;
      }
      if state == SynSent {
        Release();
        return;
      }
      if !room {
        return;
      }
      SendCloseCmd();
    }

    /** The close command takes the next PSN and is the only packet listed. */
    method SendCloseCmd()
      modifies this
      ensures Model() == old(Model()).(closeStarted := true, closePsn := Some(old(nextPsn)), state := Closing,
                                       list := {old(nextPsn)}, next := old(nextPsn) + 1)
    {
      list, closeCmdPsn := {nextPsn}, Some(nextPsn);
      nextPsn := nextPsn + 1;
      closeStarted, state := true, Closing;
    }

    /** `uet_pdsm_drain_tx_pkts`: every listed request is reported to SES. */
    method DrainTxPkts()
      requires Valid() && state != Unalloc
      modifies this`list, this`settled
      ensures Model() == old(Model()).(list := {}, settled := Settle(old(settled), old(list) * old(data), FailedUp))
      ensures Valid() && forall p :: p in data ==> p in settled
    {
      settled := Settle(settled, list * data, FailedUp);
      list := {};
    }

    /** `uet_pds_close_pdc_in_error`: the PDC is drained, then it closes, or is freed if it was closing. */
    method ClosePdcInError(room: bool)
      requires Valid() && state != Unalloc
      modifies this, pool
      ensures Valid() && Returned() && Model() == ErrorClose(old(Model()), room)
    {
      DrainTxPkts();
      if closeStarted {
        Release();
      } else {
        InitiatePdcClose(room);
      }
    }

    /** `uet_pdsm_discard_pdc`. */
    method DiscardPdc()
      requires Valid() && state != Unalloc
      modifies this, pool
      ensures Valid() && Returned() && state == Unalloc && Model() == Discard(old(Model()))
    {
      DrainTxPkts();
      Release();
    }

    /** `uet_pds_msg_cmpl_ind`. */
    method MsgCmplInd(msg: nat, room: bool)
      requires Valid() && state != Unalloc
      modifies this, pool
      ensures Valid() && Returned() && Model() == CmplInd(old(Model()), msg, room)
    {
      CmplKeeps(Model(), msg, room);
      if !activeValid || activeMsg != msg {
        return;
      }
      activeMsg, activeValid := 0, false;
      if closeRequested && !closeStarted {
        InitiatePdcClose(room);
      }
    }

    /** The ACK of the close command ends the life. */
    method CloseAcked(ghost hit: set<int>)
      requires Valid() && state == Closing && closeCmdPsn.Some? && hit <= list
      modifies this, pool
      ensures Valid() && Returned()
      ensures Model() == FreePdc(old(Model()).(settled := Settle(old(settled), hit - {old(closeCmdPsn.value)}, Acked)))
    {
      settled := Settle(settled, hit - {closeCmdPsn.value}, Acked);
      Release();
    }

    /** Requests that are acknowledged leave the list, and the PDC is established. */
    method SettleAcked(hit: set<int>)
      requires Valid() && state != Unalloc && hit <= list
      requires !(state == Closing && closeCmdPsn.Some? && closeCmdPsn.value in hit)
      modifies this
      ensures Valid()
      ensures Model() == old(Model()).(list := old(list) - hit, settled := Settle(old(settled), hit, Acked),
                                       state := if old(state) == SynSent then Established else old(state))
    {
      list := list - hit;
      settled := Settle(settled, hit, Acked);
      if state == SynSent {
        state := Established;
      }
    }

    /** The end of `uet_pds_process_ack`: `ps` are the PSNs that the ACK covers. */
    method AckPkts(ps: set<int>, room: bool)
      requires Valid() && state != Unalloc
      modifies this, pool
      ensures Valid() && Returned() && Model() == AckPdc(old(Model()), ps, room)
    {
      AckKeeps(Model(), ps, room);
      var hit := ps * list;
      if hit == {} {
        return;
      }
      if state == Closing && closeCmdPsn.Some? && closeCmdPsn.value in hit {
        CloseAcked(hit);
        return;
      }
      SettleAcked(hit);
      if state == Established && closeRequested && !closeStarted && !activeValid {
        InitiatePdcClose(room);
      }
    }
  }
}
