/** Retries against the retransmissions that were made. */
module RudiRetries {
  import opened PdcTypes
  import opened RudiEngine
  import opened RudiRecord

  /** The packet ids that one event sends again. */
  ghost function Again(r: Rec, e: Event): multiset<int> {
    if e.EvTimer? then multiset(Progress(r.eng, e.now, e.timeout, e.max, e.tick, 0).1) else multiset{}
  }

  /** The packet ids sent again in a run, each as often as it was. */
  ghost function AllAgain(r: Rec, es: seq<Event>): multiset<int>
    requires InOrder(r.eng) && Matches(r) && ValidNotes(r, es)
    decreases |es|
  {
    if es == [] then multiset{}
    else
      NoteKeeps(r, es[0]);
      Again(r, es[0]) + AllAgain(Note(r, es[0]), es[1..])
  }

  /** Between `e` and `e'` the retries of `id` have grown by `n`. */
  ghost predicate Grown(e: Engine, e': Engine, id: int, n: nat) {
    && (n > 0 ==> id in e.ht)
    && (id in e'.ht ==> id in e.ht && e'.ht[id].retries == e.ht[id].retries + n)
  }

  lemma RotateGrows(e: Engine, time: int, id: int)
    requires Agree(e) && e.list != []
    ensures Grown(e, Rotate(e, time), id, if e.list[0].id == id then 1 else 0)
  {
    assert e.ht[e.list[0].id] == e.list[0];
  }

  lemma FailKeeps(e: Engine, t: int, id: int)
    requires Inv(e, t) && e.list != []
    ensures Grown(e, DropFrom(RemoveAt(e, 0), e.list[0].handle, 0), id, 0)
  {
    RemoveKeeps(e, 0);
    DropHandles(RemoveAt(e, 0), e.list[0].handle, 0);
  }

  lemma FirstSent(o: int, sent: seq<int>, id: int)
    ensures multiset([o] + sent)[id] == (if o == id then 1 else 0) + multiset(sent)[id]
  {
  }

  lemma {:induction false} ProgressGrows(e: Engine, t: int, now: int, timeout: int, max: nat, tick: Clock, k: nat, id: int)
    requires Inv(e, t) && t <= tick(k) && Monotone(tick, now)
    ensures var p := Progress(e, now, timeout, max, tick, k); Grown(e, p.0, id, multiset(p.1)[id])
    decreases RetriesLeft(e.list, max)
  {
    if e.list != [] && Expired(e.list[0], now, timeout) {
      if e.list[0].retries >= max {
        FailKeeps(e, t, id);
      } else {
        var e1 := Rotate(e, tick(k));
        RotateGrows(e, tick(k), id);
        if |e.list| > 1 {
          RotateUsesRetry(e, tick(k), max);
          RotateKeeps(e, t, tick(k));
          ProgressGrows(e1, tick(k), now, timeout, max, tick, k + 1, id);
          FirstSent(e.list[0].id, Progress(e1, now, timeout, max, tick, k + 1).1, id);
          assert id in e1.ht ==> id in e.ht by { RotateEffect(e, tick(k)); }
        }
      }
    }
  }

  /** The retries an event leaves an outstanding request with; a request just sent has none. */
  lemma StepCounts(r: Rec, e: Event, id: int)
    requires InOrder(r.eng) && ClockOk(r.eng, e) && TimeoutOk(e) && Matches(r)
    ensures Again(r, e)[id] > 0 ==> id in r.eng.ht
    ensures id in Apply(r.eng, e).ht ==>
      Apply(r.eng, e).ht[id].retries == (if id in r.eng.ht then r.eng.ht[id].retries else 0) + Again(r, e)[id]
  {
    match e
    case EvTx(_, _) =>
    case EvRsp(_) =>
    case EvDrop(h) => DropHandles(r.eng, h, 0);
    case EvTimer(now, timeout, max, tick) => ProgressGrows(r.eng, now, now, timeout, max, tick, 0, id);
  }

  /** A request that has ended does not come back. */
  lemma {:induction false} GoneStays(r: Rec, es: seq<Event>, id: int)
    requires InOrder(r.eng) && Matches(r) && ValidNotes(r, es) && id in r.gone
    ensures id in Notes(r, es).gone
    decreases |es|
  {
    if es != [] {
      NoteKeeps(r, es[0]);
      GoneStays(Note(r, es[0]), es[1..], id);
    }
  }

  /** The record knows a request that leaves the table as ended. */
  lemma LeavesAsGone(r: Rec, e: Event, id: int)
    requires InOrder(r.eng) && ClockOk(r.eng, e) && TimeoutOk(e) && Matches(r)
    requires id in r.eng.ht && id !in Note(r, e).eng.ht
    ensures id in Note(r, e).gone
  {
    NoteKeeps(r, e);
    assert id in r.sent && id in Note(r, e).sent;
  }

  lemma {:induction false} RunCounts(r: Rec, es: seq<Event>, id: int)
    requires InOrder(r.eng) && Matches(r) && ValidNotes(r, es) && id in Notes(r, es).eng.ht
    ensures Notes(r, es).eng.ht[id].retries == (if id in r.eng.ht then r.eng.ht[id].retries else 0) + AllAgain(r, es)[id]
    decreases |es|
  {
    if es != [] {
      var r1 := Note(r, es[0]);
      NoteKeeps(r, es[0]);
      StepCounts(r, es[0], id);
      if id in r.eng.ht && id !in r1.eng.ht {
        LeavesAsGone(r, es[0], id);
        GoneStays(r1, es[1..], id);
        assert false;
      } else {
        RunCounts(r1, es[1..], id);
      }
    }
  }

  /** In every run the retries held for an outstanding request are the times it was sent again. */
  lemma RetriesExact(es: seq<Event>, id: int)
    requires ValidNotes(InitRec(), es) && id in Notes(InitRec(), es).eng.ht
    ensures Notes(InitRec(), es).eng.ht[id].retries == AllAgain(InitRec(), es)[id]
  {
    RunCounts(InitRec(), es, id);
  }

  /**
    In every run the timer gives up on a descriptor only if a request of it was sent again `max` times and not
    answered.
   */
  lemma GivesUpAfterMax(es: seq<Event>, now: int, timeout: int, max: nat, tick: Clock) returns (id: int)
    requires ValidNotes(InitRec(), es) && timeout > 0 && Monotone(tick, now)
    requires var r := Notes(InitRec(), es); UpTo(r.eng.list, now) && Progress(r.eng, now, timeout, max, tick, 0).2.Some?
    ensures var r := Notes(InitRec(), es);
      && id in r.sent && id !in r.gone && Progress(r.eng, now, timeout, max, tick, 0).2 == Some(r.sent[id])
      && AllAgain(InitRec(), es)[id] >= max
  {
    id := GivesUpSender(es, now, timeout, max, tick);
    RetriesExact(es, id);
  }

  // ---------------------------------------------------------------- when requests are sent again

  /** The request of `id` was sent a timeout ago or more. */
  ghost predicate Due(e: Engine, id: int, now: int, timeout: int) {
    id in e.ht && e.ht[id].txTime + timeout <= now
  }

  lemma {:induction false} ScanHas(list: seq<Out>, now: int, timeout: int, id: int)
    ensures id in FullScan(list, now, timeout) <==>
      exists i :: 0 <= i < |list| && list[i].id == id && list[i].txTime + timeout <= now
  {
    if list != [] {
      ScanHas(list[1..], now, timeout, id);
      assert list == [list[0]] + list[1..];
    }
  }

  lemma ScanIsDue(e: Engine, now: int, timeout: int, id: int)
    requires Agree(e)
    ensures id in FullScan(e.list, now, timeout) <==> Due(e, id, now, timeout)
  {
    ScanHas(e.list, now, timeout, id);
    if Due(e, id, now, timeout) { assert e.list[e.pos[id]].id == id; }
  }

  /**
    In every run a timer call that gives up on nothing sends again exactly the requests that are due; any call,
    only those.
   */
  lemma SentAgainIff(es: seq<Event>, now: int, timeout: int, max: nat, tick: Clock, id: int)
    requires ValidNotes(InitRec(), es) && timeout > 0 && Monotone(tick, now)
    ensures var e := Notes(InitRec(), es).eng; var p := Progress(e, now, timeout, max, tick, 0);
      && (id in p.1 ==> Due(e, id, now, timeout))
      && (p.2.None? ==> (id in p.1 <==> Due(e, id, now, timeout)))
  {
    var e := Notes(InitRec(), es).eng;
    TimerIsFullScan(e, if e.list == [] then 0 else e.list[|e.list| - 1].txTime, now, timeout, max, tick);
    ScanIsDue(e, now, timeout, id);
  }

  /** The time held for `id` after a timer call: not before the call if it was sent again, as before otherwise. */
  ghost predicate Timed(e: Engine, e': Engine, id: int, again: bool, now: int) {
    id in e.ht && id in e'.ht ==> if again then e'.ht[id].txTime >= now else e'.ht[id].txTime == e.ht[id].txTime
  }

  lemma RotateTimes(e: Engine, time: int, id: int, now: int)
    requires Agree(e) && e.list != [] && now <= time
    ensures Timed(e, Rotate(e, time), id, e.list[0].id == id, now)
  {
    assert e.ht[e.list[0].id] == e.list[0];
  }

  lemma {:induction false} ProgressTimes(e: Engine, t: int, now: int, timeout: int, max: nat, tick: Clock, k: nat, id: int)
    requires Inv(e, t) && t <= tick(k) && Monotone(tick, now) && now <= tick(k)
    ensures var p := Progress(e, now, timeout, max, tick, k); Timed(e, p.0, id, id in p.1, now)
    decreases RetriesLeft(e.list, max)
  {
    if e.list != [] && Expired(e.list[0], now, timeout) {
      if e.list[0].retries >= max {
        RemoveKeeps(e, 0);
        DropHandles(RemoveAt(e, 0), e.list[0].handle, 0);
      } else {
        var e1 := Rotate(e, tick(k));
        RotateTimes(e, tick(k), id, now);
        if |e.list| > 1 {
          RotateUsesRetry(e, tick(k), max);
          RotateKeeps(e, t, tick(k));
          ProgressTimes(e1, tick(k), now, timeout, max, tick, k + 1, id);
          assert id in e.ht ==> id in e1.ht by { RotateEffect(e, tick(k)); }
        }
      }
    }
  }

  /** So a request sent again is not due again, and not sent again, before another timeout has passed. */
  lemma NotDueAgain(es: seq<Event>, now: int, timeout: int, max: nat, tick: Clock, id: int, later: int)
    requires ValidNotes(InitRec(), es) && timeout > 0 && Monotone(tick, now)
    requires var e := Notes(InitRec(), es).eng; UpTo(e.list, now) && id in Progress(e, now, timeout, max, tick, 0).1
    ensures later < now + timeout ==>
      !Due(Progress(Notes(InitRec(), es).eng, now, timeout, max, tick, 0).0, id, later, timeout)
  {
    var e := Notes(InitRec(), es).eng;
    SentAgainIff(es, now, timeout, max, tick, id);
    ProgressTimes(e, now, now, timeout, max, tick, 0, id);
  }
}
