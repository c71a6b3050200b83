/**
  The RUDI initiator's table of outstanding requests and its retransmission list.  The table finds
  a request by packet id; the list is ordered by transmit time so that the timer can stop early.
 */
module RudiEngine {
  import opened PdcTypes

  datatype Out = Out(id: int, handle: nat, txTime: int, retries: nat)

  /** The table, the list, and where each packet id stands in the list. */
  datatype Engine = Engine(ht: map<int, Out>, list: seq<Out>, pos: map<int, nat>, nextId: int)

  function InitEngine(): Engine {
    Engine(map[], [], map[], 1)
  }

  /** Table and list hold the same requests, each once. */
  ghost predicate Agree(e: Engine) {
    && e.ht.Keys == e.pos.Keys
    && (forall i :: 0 <= i < |e.list| ==>
          e.list[i].id in e.ht && e.ht[e.list[i].id] == e.list[i] && e.pos[e.list[i].id] == i)
    && (forall id :: id in e.ht ==> id < e.nextId && e.pos[id] < |e.list| && e.list[e.pos[id]].id == id)
  }

  ghost predicate Sorted(list: seq<Out>) {
    forall i, j :: 0 <= i < j < |list| ==> list[i].txTime <= list[j].txTime
  }

  /** Nothing in the list was sent after `now`. */
  ghost predicate UpTo(list: seq<Out>, now: int) {
    forall i :: 0 <= i < |list| ==> list[i].txTime <= now
  }

  ghost predicate Inv(e: Engine, now: int) {
    Agree(e) && Sorted(e.list) && UpTo(e.list, now)
  }

  function Append(e: Engine, o: Out): Engine {
    e.(ht := e.ht[o.id := o], list := e.list + [o], pos := e.pos[o.id := |e.list|])
  }

  function RemoveAt(e: Engine, k: nat): Engine
    requires k < |e.list|
  {
    var id := e.list[k].id;
    e.(ht := e.ht - {id}, list := e.list[..k] + e.list[k + 1..],
       pos := map i | i in e.pos && i != id :: if e.pos[i] > k then e.pos[i] - 1 else e.pos[i])
  }

  /** `uet_pds_rudi_tx_pkt`, for a send that happens at `now`. */
  function TxPkt(e: Engine, handle: nat, now: int): Engine {
    Append(e, Out(e.nextId, handle, now, 0)).(nextId := e.nextId + 1)
  }

  /** `uet_rudi_rx_rsp`: the handle completed, if the id is known. */
  function RxRsp(e: Engine, id: int): (Engine, Option<nat>)
    requires Agree(e)
  {
    if id !in e.ht then (e, None) else (RemoveAt(e, e.pos[id]), Some(e.ht[id].handle))
  }

  predicate Named(o: Out, handle: nat) {
    o.handle == handle
  }

  /** `uet_pds_rudi_drop_tx_pkts`, from list position `k` on. */
  function DropFrom(e: Engine, handle: nat, k: nat): Engine
    decreases |e.list| - k
  {
    if k >= |e.list| then e
    else if Named(e.list[k], handle) then DropFrom(RemoveAt(e, k), handle, k)
    else DropFrom(e, handle, k + 1)
  }

  lemma AppendKeeps(e: Engine, o: Out)
    requires Agree(e) && o.id !in e.ht && o.id < e.nextId
    ensures Agree(Append(e, o))
  {
  }

  lemma RemoveKeeps(e: Engine, k: nat)
    requires Agree(e) && k < |e.list|
    ensures Agree(RemoveAt(e, k))
  {
    var e', id := RemoveAt(e, k), e.list[k].id;
    forall i | 0 <= i < |e'.list|
      ensures e'.list[i].id in e'.ht && e'.ht[e'.list[i].id] == e'.list[i] && e'.pos[e'.list[i].id] == i
    {
      var was := if i < k then i else i + 1;
      assert e'.list[i] == e.list[was];
      assert e.pos[e.list[was].id] == was;
    }
    forall x | x in e'.ht ensures e'.pos[x] < |e'.list| && e'.list[e'.pos[x]].id == x {
      assert e.pos[x] != k;
    }
  }

  lemma RemoveSorted(list: seq<Out>, k: nat, now: int)
    requires k < |list| && Sorted(list) && UpTo(list, now)
    ensures Sorted(list[..k] + list[k + 1..]) && UpTo(list[..k] + list[k + 1..], now)
  {
  }

  lemma {:induction false} DropKeeps(e: Engine, handle: nat, k: nat, now: int)
    requires Inv(e, now) && k <= |e.list| && forall i :: 0 <= i < k ==> !Named(e.list[i], handle)
    ensures var e' := DropFrom(e, handle, k);
      && Inv(e', now) && e'.nextId == e.nextId
      && (forall i :: 0 <= i < |e'.list| ==> !Named(e'.list[i], handle))
      && (forall id :: id in e'.ht <==> id in e.ht && !Named(e.ht[id], handle))
    decreases |e.list| - k
  {
    if k < |e.list| {
      if Named(e.list[k], handle) {
        RemoveKeeps(e, k);
        RemoveSorted(e.list, k, now);
        DropKeeps(RemoveAt(e, k), handle, k, now);
      } else {
        DropKeeps(e, handle, k + 1, now);
      }
    } else {
      NoneNamed(e, handle);
    }
  }

  lemma NoneNamed(e: Engine, handle: nat)
    requires Agree(e) && forall i :: 0 <= i < |e.list| ==> !Named(e.list[i], handle)
    ensures forall id :: id in e.ht ==> !Named(e.ht[id], handle)
  {
    forall id | id in e.ht ensures !Named(e.ht[id], handle) {
      assert e.list[e.pos[id]].id == id;
    }
  }

  // ---------------------------------------------------------------- the timer

  /** The clock read by each successive send; it never goes back. */
  type Clock = nat -> int

  ghost predicate Monotone(tick: Clock, now: int) {
    now <= tick(0) && forall k: nat :: tick(k) <= tick(k + 1)
  }

  predicate Expired(o: Out, now: int, timeout: int) {
    now - o.txTime >= timeout
  }

  /** The retransmissions the list still allows. */
  function RetriesLeft(list: seq<Out>, max: nat): nat {
    if list == [] then 0
    else RetriesLeft(list[..|list| - 1], max) + (if list[|list| - 1].retries < max then max - list[|list| - 1].retries else 0)
  }

  lemma {:induction false} RetriesJoin(a: seq<Out>, b: seq<Out>, max: nat)
    ensures RetriesLeft(a + b, max) == RetriesLeft(a, max) + RetriesLeft(b, max)
  {
    if b == [] {
      assert a + b == a;
    } else {
      RetriesJoin(a, b[..|b| - 1], max);
      assert (a + b)[..|a + b| - 1] == a + b[..|b| - 1];
    }
  }

  /** A request sent again moves to the end of the list. */
  function Rotate(e: Engine, time: int): Engine
    requires e.list != []
  {
    Append(RemoveAt(e, 0), e.list[0].(retries := e.list[0].retries + 1, txTime := time))
  }

  lemma RotateUsesRetry(e: Engine, time: int, max: nat)
    requires e.list != [] && e.list[0].retries < max
    ensures RetriesLeft(Rotate(e, time).list, max) < RetriesLeft(e.list, max)
  {
    var o, rest := e.list[0], e.list[1..];
    var o' := o.(retries := o.retries + 1, txTime := time);
    assert RetriesLeft(e.list, max) == RetriesLeft(rest, max) + max - o.retries by {
      assert e.list == [o] + rest;
      RetriesJoin([o], rest, max);
      RetriesOne(o, max);
    }
    assert RetriesLeft(rest + [o'], max) == RetriesLeft(rest, max) + max - o'.retries by {
      RetriesJoin(rest, [o'], max);
      RetriesOne(o', max);
    }
    assert Rotate(e, time).list == rest + [o'];
  }

  lemma RetriesOne(o: Out, max: nat)
    requires o.retries <= max
    ensures RetriesLeft([o], max) == max - o.retries
  {
  }

  /**
    `uet_pds_rudi_progress_tx`: the packet ids sent again, and the handle that failed if one ran out
    of retries.  The walk is always at the head, since what it has passed is at the end.
   */
  function Progress(e: Engine, now: int, timeout: int, max: nat, tick: Clock, k: nat): (Engine, seq<int>, Option<nat>)
    decreases RetriesLeft(e.list, max)
  {
    if e.list == [] then (e, [], None)
    else
      var o := e.list[0];
      if !Expired(o, now, timeout) then (e, [], None)
      else if o.retries >= max then (DropFrom(RemoveAt(e, 0), o.handle, 0), [], Some(o.handle))
      else if |e.list| == 1 then (Rotate(e, tick(k)), [o.id], None)
      else
        RotateUsesRetry(e, tick(k), max);
        var (e', sent, failed) := Progress(Rotate(e, tick(k)), now, timeout, max, tick, k + 1);
        (e', [o.id] + sent, failed)
  }

  /** What a scan of the whole list would send again. */
  function FullScan(list: seq<Out>, now: int, timeout: int): seq<int> {
    if list == [] then []
    else if Expired(list[0], now, timeout) then [list[0].id] + FullScan(list[1..], now, timeout)
    else FullScan(list[1..], now, timeout)
  }

  lemma {:induction false} NoneExpired(list: seq<Out>, now: int, timeout: int)
    requires Sorted(list) && (list != [] ==> !Expired(list[0], now, timeout))
    ensures FullScan(list, now, timeout) == []
  {
    if list != [] {
      if |list| > 1 { assert list[0].txTime <= list[1].txTime; }
      NoneExpired(list[1..], now, timeout);
    }
  }

  lemma RotateAgrees(e: Engine, time: int)
    requires Agree(e) && e.list != []
    ensures Agree(Rotate(e, time))
  {
    RemoveKeeps(e, 0);
    AppendKeeps(RemoveAt(e, 0), e.list[0].(retries := e.list[0].retries + 1, txTime := time));
  }

  lemma RotateSorted(e: Engine, t: int, time: int)
    requires e.list != [] && Sorted(e.list) && UpTo(e.list, t) && t <= time
    ensures Sorted(Rotate(e, time).list) && UpTo(Rotate(e, time).list, time)
  {
    RemoveSorted(e.list, 0, t);
    SortedAppend(RemoveAt(e, 0).list, e.list[0].(retries := e.list[0].retries + 1, txTime := time), t);
  }

  lemma RotateKeeps(e: Engine, t: int, time: int)
    requires Inv(e, t) && e.list != [] && t <= time
    ensures Inv(Rotate(e, time), time)
  {
    RotateAgrees(e, time);
    RotateSorted(e, t, time);
  }

  lemma SortedAppend(list: seq<Out>, o: Out, t: int)
    requires Sorted(list) && UpTo(list, t) && t <= o.txTime
    ensures Sorted(list + [o]) && UpTo(list + [o], o.txTime)
  {
  }

  /** A request without retries goes, and what else names its descriptor. */
  lemma FailKeeps(e: Engine, t: int)
    requires Inv(e, t) && e.list != []
    ensures Inv(DropFrom(RemoveAt(e, 0), e.list[0].handle, 0), t)
  {
    RemoveKeeps(e, 0);
    RemoveSorted(e.list, 0, t);
    DropKeeps(RemoveAt(e, 0), e.list[0].handle, 0, t);
  }

  /** The timer keeps the table and the list in step and the list in order. */
  lemma {:induction false} ProgressKeeps(e: Engine, t: int, now: int, timeout: int, max: nat, tick: Clock, k: nat)
    returns (t': int)
    requires Inv(e, t) && t <= tick(k) && Monotone(tick, now)
    ensures t <= t' && Inv(Progress(e, now, timeout, max, tick, k).0, t')
    decreases RetriesLeft(e.list, max)
  {
    t' := t;
    if e.list != [] && Expired(e.list[0], now, timeout) {
      if e.list[0].retries >= max {
        FailKeeps(e, t);
      } else {
        RotateKeeps(e, t, tick(k));
        t' := tick(k);
        if |e.list| > 1 {
          RotateUsesRetry(e, tick(k), max);
          t' := ProgressKeeps(Rotate(e, tick(k)), tick(k), now, timeout, max, tick, k + 1);
        }
      }
    }
  }

  /**
    Stopping at the first fresh entry is as good as scanning the whole list.  Of a list whose first
    `r` entries stand as they did and whose others were sent after `now`, the walk sends again exactly
    the expired ones, in order, unless one has no retries left.
   */
  lemma {:induction false} ProgressIsFullScan(e: Engine, r: nat, now: int, timeout: int, max: nat, tick: Clock, k: nat)
    requires r <= |e.list| && Sorted(e.list[..r]) && timeout > 0 && Monotone(tick, now) && now <= tick(k)
    requires forall i :: r <= i < |e.list| ==> e.list[i].txTime >= now
    ensures var (e', sent, failed) := Progress(e, now, timeout, max, tick, k);
      Exact(sent, failed, FullScan(e.list[..r], now, timeout))
    decreases RetriesLeft(e.list, max)
  {
    if e.list != [] {
      var o := e.list[0];
      if !Expired(o, now, timeout) {
        NoneExpired(e.list[..r], now, timeout);
      } else {
        assert r > 0 && e.list[..r][0] == o;
        if o.retries < max {
          var e1, rest := Rotate(e, tick(k)), e.list[..r][1..];
          ScanStep(e, r, now, tick(k));
          if |e.list| > 1 {
            RotateUsesRetry(e, tick(k), max);
            ProgressIsFullScan(e1, r - 1, now, timeout, max, tick, k + 1);
            var p := Progress(e1, now, timeout, max, tick, k + 1);
            ExactMore(o.id, p.1, p.2, FullScan(rest, now, timeout));
          }
        }
      }
    }
  }

  /** All of the scan was sent, or, after a failure, the part of it before the request that failed. */
  ghost predicate Exact(sent: seq<int>, failed: Option<nat>, scan: seq<int>) {
    if failed.None? then sent == scan else sent < scan
  }

  lemma ExactMore(id: int, sent: seq<int>, failed: Option<nat>, scan: seq<int>)
    requires Exact(sent, failed, scan)
    ensures Exact([id] + sent, failed, [id] + scan)
  {
  }

  lemma ScanStep(e: Engine, r: nat, now: int, time: int)
    requires 0 < r <= |e.list| && Sorted(e.list[..r]) && now <= time
    requires forall i :: r <= i < |e.list| ==> e.list[i].txTime >= now
    ensures var list := Rotate(e, time).list;
      && |list| == |e.list| && list[..r - 1] == e.list[..r][1..] && Sorted(list[..r - 1])
      && forall i :: r - 1 <= i < |list| ==> list[i].txTime >= now
  {
  }

  /** So the timer, called on a list in order, sends again what a full scan would. */
  lemma TimerIsFullScan(e: Engine, t: int, now: int, timeout: int, max: nat, tick: Clock)
    requires Inv(e, t) && timeout > 0 && Monotone(tick, now)
    ensures var (e', sent, failed) := Progress(e, now, timeout, max, tick, 0);
      Exact(sent, failed, FullScan(e.list, now, timeout))
  {
    assert e.list[..|e.list|] == e.list;
    ProgressIsFullScan(e, |e.list|, now, timeout, max, tick, 0);
  }

  // ---------------------------------------------------------------- runs

  datatype Event =
    | EvTx(handle: nat, time: int)
    | EvRsp(id: int)
    | EvDrop(handle: nat)
    | EvTimer(now: int, timeout: int, max: nat, tick: Clock)

  /** The clock does not go back between the last send and this event. */
  ghost predicate Enabled(t: int, e: Event) {
    match e
    case EvTx(_, time) => t <= time
    case EvTimer(now, _, _, tick) => t <= now && Monotone(tick, now)
    case _ => true
  }

  ghost function Apply(s: Engine, e: Event): Engine
    requires Agree(s)
  {
    match e
    case EvTx(h, time) => TxPkt(s, h, time)
    case EvRsp(id) => RxRsp(s, id).0
    case EvDrop(h) => DropFrom(s, h, 0)
    case EvTimer(now, timeout, max, tick) => Progress(s, now, timeout, max, tick, 0).0
  }

  /** Every operation keeps the same requests in table and list, and the list in transmit order. */
  lemma StepKeeps(s: Engine, e: Event, t: int) returns (t': int)
    requires Inv(s, t) && Enabled(t, e)
    ensures t <= t' && Inv(Apply(s, e), t')
  {
    t' := t;
    match e
    case EvTx(h, time) =>
      t' := time;
      SortedAppend(s.list, Out(s.nextId, h, time, 0), t);
      assert s.nextId !in s.ht;
    case EvRsp(id) =>
      if id in s.ht {
        RemoveKeeps(s, s.pos[id]);
        RemoveSorted(s.list, s.pos[id], t);
      }
    case EvDrop(h) => DropKeeps(s, h, 0, t);
    case EvTimer(now, timeout, max, tick) => t' := ProgressKeeps(s, t, now, timeout, max, tick, 0);
  }

  ghost predicate InOrder(s: Engine) {
    Agree(s) && Sorted(s.list)
  }

  /** The clock read by a send or by the timer is not behind the transmit times in the list. */
  ghost predicate ClockOk(s: Engine, e: Event) {
    match e
    case EvTx(_, time) => UpTo(s.list, time)
    case EvTimer(now, _, _, tick) => UpTo(s.list, now) && Monotone(tick, now)
    case _ => true
  }

  lemma StepInOrder(s: Engine, e: Event)
    requires InOrder(s) && ClockOk(s, e)
    ensures InOrder(Apply(s, e))
  {
    var t := match e
      case EvTx(_, time) => time
      case EvTimer(now, _, _, _) => now
      case _ => if s.list == [] then 0 else s.list[|s.list| - 1].txTime;
    var t' := StepKeeps(s, e, t);
  }

  ghost predicate ValidRun(s: Engine, es: seq<Event>)
    requires InOrder(s)
    decreases |es|
  {
    if es == [] then true
    else ClockOk(s, es[0]) && (StepInOrder(s, es[0]); ValidRun(Apply(s, es[0]), es[1..]))
  }

  /** Sends, responses, drops and timer calls, in any sequence, leave table and list in step and the list in order. */
  ghost function Run(s: Engine, es: seq<Event>): (s': Engine)
    requires InOrder(s) && ValidRun(s, es)
    ensures InOrder(s')
    decreases |es|
  {
    if es == [] then s
    else
      StepInOrder(s, es[0]);
      Run(Apply(s, es[0]), es[1..])
  }

  /**
    In every state reached from the empty table the timer sends again exactly what a scan of the whole list would,
    in that order, up to the first request without retries; and the table finds exactly the requests on the list.
   */
  lemma TimerExactInEveryRun(es: seq<Event>, now: int, timeout: int, max: nat, tick: Clock)
    requires ValidRun(InitEngine(), es) && timeout > 0 && Monotone(tick, now)
    ensures var s := Run(InitEngine(), es);
      && Agree(s) && Sorted(s.list)
      && var (s', sent, failed) := Progress(s, now, timeout, max, tick, 0);
      Exact(sent, failed, FullScan(s.list, now, timeout))
  {
    var s := Run(InitEngine(), es);
    TimerIsFullScan(s, if s.list == [] then 0 else s.list[|s.list| - 1].txTime, now, timeout, max, tick);
  }

  /** A response completes the request its id names, and a second one finds nothing. */
  lemma ResponseOnce(s: Engine, id: int)
    requires Agree(s)
    ensures var (s1, h) := RxRsp(s, id);
      && (h.Some? <==> id in s.ht) && (h.Some? ==> h.value == s.ht[id].handle)
      && Agree(s1) && RxRsp(s1, id) == (s1, None)
      && (forall i :: i in s1.ht <==> i in s.ht && i != id)
  {
    if id in s.ht { RemoveKeeps(s, s.pos[id]); }
  }

  // ---------------------------------------------------------------- the engine as it runs

  class RudiTable {
    var outHt: map<int, Out>
    var rtoList: seq<Out>
    var node: map<int, nat>         // the list node of each table entry, as its place in the list
    var nextPktId: int

    ghost function Model(): Engine
      reads this
    {
      Engine(outHt, rtoList, node, nextPktId)
    }

    constructor ()
      ensures Model() == InitEngine() && forall t :: Inv(Model(), t)
    {
      outHt, rtoList, node, nextPktId := map[], [], map[], 1;
    }

    method Unlink(k: nat)
      requires k < |rtoList|
      modifies this
      ensures Model() == RemoveAt(old(Model()), k)
    {
      var id := rtoList[k].id;
      outHt := outHt - {id};
      rtoList := rtoList[..k] + rtoList[k + 1..];
      node := map i | i in node && i != id :: if node[i] > k then node[i] - 1 else node[i];
    }

    method Insert(o: Out)
      modifies this
      ensures Model() == Append(old(Model()), o)
    {
      outHt := outHt[o.id := o];
      node := node[o.id := |rtoList|];
      rtoList := rtoList + [o];
    }

    /** `uet_pds_rudi_tx_pkt`, once the frame is sent at time `now`. */
    method Tx(handle: nat, now: int, ghost t: int)
      requires Inv(Model(), t) && t <= now
      modifies this
      ensures Model() == TxPkt(old(Model()), handle, now) && Inv(Model(), now)
    {
      SortedAppend(rtoList, Out(nextPktId, handle, now, 0), t);
      assert nextPktId !in outHt;
      Insert(Out(nextPktId, handle, now, 0));
      nextPktId := nextPktId + 1;
    }

    /** `uet_rudi_rx_rsp`: the handle passed to SES, if the id is outstanding. */
    method Rsp(id: int, ghost t: int) returns (handle: Option<nat>)
      requires Inv(Model(), t)
      modifies this
      ensures (Model(), handle) == RxRsp(old(Model()), id) && Inv(Model(), t)
    {
      handle := None;
      if id in outHt {
        RemoveKeeps(Model(), node[id]);
        RemoveSorted(rtoList, node[id], t);
        handle := Some(outHt[id].handle);
        Unlink(node[id]);
      }
    }

    /** `uet_pds_rudi_drop_tx_pkts`: how many requests were dropped. */
    method DropTxPkts(handle: nat, ghost t: int) returns (dropped: nat)
      requires Inv(Model(), t)
      modifies this
      ensures Model() == DropFrom(old(Model()), handle, 0) && Inv(Model(), t)
      ensures dropped == |old(rtoList)| - |rtoList|
    {
      ghost var end := DropFrom(Model(), handle, 0);
      assert Inv(end, t) by { DropKeeps(Model(), handle, 0, t); }
      dropped := 0;
      var k := 0;
      while k < |rtoList|
        invariant 0 <= k && DropFrom(Model(), handle, k) == end
        invariant dropped == |old(rtoList)| - |rtoList|
        decreases |rtoList| - k
      {
        if Named(rtoList[k], handle) {
          Unlink(k);
          dropped := dropped + 1;
        } else {
          k := k + 1;
        }
      }
    }

    /** Send the head of the list again and move it to the end. */
    method ResendHead(time: int)
      requires rtoList != []
      modifies this
      ensures Model() == Rotate(old(Model()), time)
    {
      var o := rtoList[0];
      Unlink(0);
      Insert(o.(retries := o.retries + 1, txTime := time));
    }

    /** Give up on the head of the list, and on what else names its descriptor. */
    method FailHead(ghost t: int)
      requires Inv(Model(), t) && rtoList != []
      modifies this
      ensures Model() == DropFrom(RemoveAt(old(Model()), 0), old(rtoList)[0].handle, 0) && Inv(Model(), t)
    {
      var handle := rtoList[0].handle;
      RemoveKeeps(Model(), 0);
      RemoveSorted(rtoList, 0, t);
      Unlink(0);
      var dropped := DropTxPkts(handle, t);
    }

    /** `uet_pds_rudi_progress_tx`; the k-th send happens at `tick(k)`. */
    method ProgressTx(now: int, timeout: int, max: nat, tick: Clock, ghost t: int)
      returns (sent: seq<int>, failed: Option<nat>, ghost t': int)
      requires Inv(Model(), t) && t <= now && Monotone(tick, now)
      modifies this
      ensures (Model(), sent, failed) == Progress(old(Model()), now, timeout, max, tick, 0)
      ensures t <= t' && Inv(Model(), t')
    {
      t' := ProgressKeeps(Model(), t, now, timeout, max, tick, 0);
      ghost var (e', all, f) := Progress(Model(), now, timeout, max, tick, 0);
      ghost var tn := t;
      sent, failed := [], None;
      assert all == sent + all;
      var k := 0;
      while rtoList != []
        invariant k >= 0 && Inv(Model(), tn) && tn <= tick(k) && failed == None
        invariant Owed(Progress(Model(), now, timeout, max, tick, k), e', all, f, sent)
        decreases RetriesLeft(rtoList, max)
      {
        OwedStep(Model(), now, timeout, max, tick, k, e', all, f, sent);
        var o := rtoList[0];
        if !Expired(o, now, timeout) {
          return;
        }
        if o.retries >= max {
          FailHead(tn);
          failed := Some(o.handle);
          return;
        }
        var last := |rtoList| == 1;
        RotateUsesRetry(Model(), tick(k), max);
        RotateKeeps(Model(), tn, tick(k));
        ResendHead(tick(k));
        sent := sent + [o.id];
        if last {
          return;
        }
        tn := tick(k);
        k := k + 1;
      }
      OwedStep(Model(), now, timeout, max, tick, k, e', all, f, sent);
    }
  }

  lemma OwedStep(e: Engine, now: int, timeout: int, max: nat, tick: Clock, k: nat,
                 e': Engine, all: seq<int>, f: Option<nat>, sent: seq<int>)
    requires Owed(Progress(e, now, timeout, max, tick, k), e', all, f, sent)
    ensures e.list == [] || !Expired(e.list[0], now, timeout) ==> e == e' && sent == all && f == None
    ensures e.list != [] && Expired(e.list[0], now, timeout) ==>
      var o := e.list[0];
      if o.retries >= max then e' == DropFrom(RemoveAt(e, 0), o.handle, 0) && sent == all && f == Some(o.handle)
      else if |e.list| == 1 then e' == Rotate(e, tick(k)) && all == sent + [o.id] && f == None
      else Owed(Progress(Rotate(e, tick(k)), now, timeout, max, tick, k + 1), e', all, f, sent + [o.id])
  {
  }

  /** What the rest of a walk must still give for the whole to come out as `e'`, `all` and `f`. */
  ghost predicate Owed(rest: (Engine, seq<int>, Option<nat>), e': Engine, all: seq<int>, f: Option<nat>, sent: seq<int>) {
    rest.0 == e' && sent + rest.1 == all && rest.2 == f
  }
}
