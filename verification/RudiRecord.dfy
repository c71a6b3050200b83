/**
  RUDI requests against a record kept from the events alone: which descriptor each packet id was sent for, and how
  each id that is no longer outstanding ended.
 */
module RudiRecord {
  import opened PdcTypes
  import opened RudiEngine

  datatype Way = Answered | Dropped | GivenUp

  /** The engine, and what the events so far say: packet ids are given out from 1 on. */
  datatype Rec = Rec(eng: Engine, count: nat, sent: map<int, nat>, gone: map<int, Way>)

  function InitRec(): Rec {
    Rec(InitEngine(), 0, map[], map[])
  }

  /** The ids still outstanding for a descriptor, by the record. */
  ghost function LiveFor(r: Rec, h: nat): set<int> {
    set id | id in r.sent && id !in r.gone && r.sent[id] == h
  }

  /** The descriptor the timer gives up on, if any: that of the first expired request without retries. */
  function GivesUp(list: seq<Out>, now: int, timeout: int, max: nat): Option<nat> {
    if list == [] then None
    else if !Expired(list[0], now, timeout) || list[0].retries < max then GivesUp(list[1..], now, timeout, max)
    else Some(list[0].handle)
  }

  ghost function Note(r: Rec, e: Event): Rec
    requires InOrder(r.eng) && ClockOk(r.eng, e)
  {
    var eng := Apply(r.eng, e);
    match e
    case EvTx(h, _) => Rec(eng, r.count + 1, r.sent[r.count + 1 := h], r.gone)
    case EvRsp(id) =>
      r.(eng := eng, gone := if id in r.sent && id !in r.gone then r.gone[id := Answered] else r.gone)
    case EvDrop(h) => r.(eng := eng, gone := r.gone + map id | id in LiveFor(r, h) :: Dropped)
    case EvTimer(now, timeout, max, _) =>
      var h := GivesUp(r.eng.list, now, timeout, max);
      r.(eng := eng, gone := if h.Some? then r.gone + map id | id in LiveFor(r, h.value) :: GivenUp else r.gone)
  }

  /** The table holds exactly the ids that are sent and not gone, each with the descriptor it was sent for. */
  ghost predicate Matches(r: Rec) {
    && r.eng.nextId == r.count + 1
    && (forall id :: id in r.sent <==> 1 <= id <= r.count)
    && (forall id :: id in r.gone ==> id in r.sent)
    && (forall id :: id in r.eng.ht <==> id in r.sent && id !in r.gone)
    && (forall id :: id in r.eng.ht ==> r.eng.ht[id].handle == r.sent[id])
  }

  // ---------------------------------------------------------------- one operation

  lemma {:induction false} DropHandles(e: Engine, handle: nat, k: nat)
    requires Agree(e) && k <= |e.list|
    ensures forall id :: id in DropFrom(e, handle, k).ht ==> id in e.ht && DropFrom(e, handle, k).ht[id] == e.ht[id]
    decreases |e.list| - k
  {
    if k < |e.list| {
      if Named(e.list[k], handle) {
        RemoveKeeps(e, k);
        DropHandles(RemoveAt(e, k), handle, k);
      } else {
        DropHandles(e, handle, k + 1);
      }
    }
  }

  lemma DropExact(e: Engine, handle: nat, t: int)
    requires Inv(e, t)
    ensures var e' := DropFrom(e, handle, 0);
      && e'.nextId == e.nextId
      && (forall id :: id in e'.ht <==> id in e.ht && e.ht[id].handle != handle)
      && (forall id :: id in e'.ht ==> e'.ht[id].handle == e.ht[id].handle)
  {
    DropKeeps(e, handle, 0, t);
    DropHandles(e, handle, 0);
  }

  /** The timer keeps the descriptor of every request, and takes away exactly those of the descriptor it gives up on. */
  ghost predicate TimerEffect(e: Engine, e': Engine, failed: Option<nat>) {
    && e'.nextId == e.nextId
    && (forall id :: id in e'.ht <==> id in e.ht && Some(e.ht[id].handle) != failed)
    && (forall id :: id in e'.ht ==> e'.ht[id].handle == e.ht[id].handle)
  }

  lemma FailEffect(e: Engine, t: int)
    requires Inv(e, t) && e.list != []
    ensures var h := e.list[0].handle; TimerEffect(e, DropFrom(RemoveAt(e, 0), h, 0), Some(h))
  {
    var o, e1 := e.list[0], RemoveAt(e, 0);
    RemoveKeeps(e, 0);
    RemoveSorted(e.list, 0, t);
    DropExact(e1, o.handle, t);
    assert e.ht[o.id] == o;
  }

  lemma RotateEffect(e: Engine, time: int)
    requires Agree(e) && e.list != []
    ensures TimerEffect(e, Rotate(e, time), None)
  {
    assert e.ht[e.list[0].id] == e.list[0];
  }

  lemma TimerEffects(e: Engine, e1: Engine, e2: Engine, failed: Option<nat>)
    requires TimerEffect(e, e1, None) && TimerEffect(e1, e2, failed)
    ensures TimerEffect(e, e2, failed)
  {
  }

  lemma {:induction false} ProgressEffect(e: Engine, t: int, now: int, timeout: int, max: nat, tick: Clock, k: nat)
    requires Inv(e, t) && t <= tick(k) && Monotone(tick, now)
    ensures var p := Progress(e, now, timeout, max, tick, k); TimerEffect(e, p.0, p.2)
    decreases RetriesLeft(e.list, max)
  {
    if e.list != [] && Expired(e.list[0], now, timeout) {
      if e.list[0].retries >= max {
        FailEffect(e, t);
      } else {
        var e1 := Rotate(e, tick(k));
        RotateEffect(e, tick(k));
        if |e.list| > 1 {
          RotateUsesRetry(e, tick(k), max);
          RotateKeeps(e, t, tick(k));
          ProgressEffect(e1, tick(k), now, timeout, max, tick, k + 1);
          var p := Progress(e1, now, timeout, max, tick, k + 1);
          TimerEffects(e, e1, p.0, p.2);
        }
      }
    }
  }

  lemma {:induction false} NoneGivenUp(list: seq<Out>, now: int, timeout: int, max: nat)
    requires Sorted(list) && (list != [] ==> !Expired(list[0], now, timeout))
    ensures GivesUp(list, now, timeout, max) == None
  {
    if list != [] {
      if |list| > 1 { assert list[0].txTime <= list[1].txTime; }
      NoneGivenUp(list[1..], now, timeout, max);
    }
  }

  /** The walk gives up on the request that one look over the whole list would. */
  lemma {:induction false} ProgressGivesUp(e: Engine, r: nat, now: int, timeout: int, max: nat, tick: Clock, k: nat)
    requires r <= |e.list| && Sorted(e.list[..r]) && timeout > 0 && Monotone(tick, now) && now <= tick(k)
    requires forall i :: r <= i < |e.list| ==> e.list[i].txTime >= now
    ensures Progress(e, now, timeout, max, tick, k).2 == GivesUp(e.list[..r], now, timeout, max)
    decreases RetriesLeft(e.list, max)
  {
    if e.list != [] {
      var o := e.list[0];
      if !Expired(o, now, timeout) {
        NoneGivenUp(e.list[..r], now, timeout, max);
      } else {
        assert r > 0 && e.list[..r][0] == o;
        if o.retries < max {
          ScanStep(e, r, now, tick(k));
          if |e.list| > 1 {
            RotateUsesRetry(e, tick(k), max);
            ProgressGivesUp(Rotate(e, tick(k)), r - 1, now, timeout, max, tick, k + 1);
          }
        }
      }
    }
  }

  lemma TimerExact(e: Engine, now: int, timeout: int, max: nat, tick: Clock)
    requires Inv(e, now) && timeout > 0 && Monotone(tick, now)
    ensures var p := Progress(e, now, timeout, max, tick, 0);
      p.2 == GivesUp(e.list, now, timeout, max) && TimerEffect(e, p.0, p.2)
  {
    assert e.list[..|e.list|] == e.list;
    ProgressGivesUp(e, |e.list|, now, timeout, max, tick, 0);
    ProgressEffect(e, now, now, timeout, max, tick, 0);
  }

  /** The timeout is positive, as it is in the code. */
  ghost predicate TimeoutOk(e: Event) {
    e.EvTimer? ==> e.timeout > 0
  }

  lemma NoteTx(r: Rec, e: Event)
    requires InOrder(r.eng) && ClockOk(r.eng, e) && Matches(r) && e.EvTx?
    ensures Matches(Note(r, e))
  {
  }

  lemma NoteRsp(r: Rec, e: Event)
    requires InOrder(r.eng) && Matches(r) && e.EvRsp?
    ensures Matches(Note(r, e))
  {
    assert e.id in r.eng.ht ==> r.eng.list[r.eng.pos[e.id]].id == e.id;
  }

  lemma NoteDrop(r: Rec, e: Event)
    requires InOrder(r.eng) && Matches(r) && e.EvDrop?
    ensures Matches(Note(r, e))
  {
    DropExact(r.eng, e.handle, if r.eng.list == [] then 0 else r.eng.list[|r.eng.list| - 1].txTime);
  }

  lemma NoteTimer(r: Rec, e: Event)
    requires InOrder(r.eng) && ClockOk(r.eng, e) && TimeoutOk(e) && Matches(r) && e.EvTimer?
    ensures Matches(Note(r, e))
  {
    TimerExact(r.eng, e.now, e.timeout, e.max, e.tick);
  }

  lemma NoteKeeps(r: Rec, e: Event)
    requires InOrder(r.eng) && ClockOk(r.eng, e) && TimeoutOk(e) && Matches(r)
    ensures Matches(Note(r, e)) && InOrder(Note(r, e).eng)
  {
    assert Matches(Note(r, e)) by {
      match e
      case EvTx(_, _) => NoteTx(r, e);
      case EvRsp(_) => NoteRsp(r, e);
      case EvDrop(_) => NoteDrop(r, e);
      case EvTimer(_, _, _, _) => NoteTimer(r, e);
    }
    StepInOrder(r.eng, e);
  }

  // ---------------------------------------------------------------- whole runs

  ghost predicate ValidNotes(r: Rec, es: seq<Event>)
    requires InOrder(r.eng) && Matches(r)
    decreases |es|
  {
    if es == [] then true
    else ClockOk(r.eng, es[0]) && TimeoutOk(es[0]) && (NoteKeeps(r, es[0]); ValidNotes(Note(r, es[0]), es[1..]))
  }

  ghost function Notes(r: Rec, es: seq<Event>): (r': Rec)
    requires InOrder(r.eng) && Matches(r) && ValidNotes(r, es)
    ensures InOrder(r'.eng) && Matches(r')
    decreases |es|
  {
    if es == [] then r
    else
      NoteKeeps(r, es[0]);
      Notes(Note(r, es[0]), es[1..])
  }

  /**
    In every run from the empty table: a request is in the table if and only if it was sent and has not been
    answered, dropped with its descriptor or given up, and it is there for the descriptor that sent it.  A response
    completes that descriptor, and a response to anything else completes none.
   */
  lemma CompletesItsSender(es: seq<Event>, id: int)
    requires ValidNotes(InitRec(), es)
    ensures var r := Notes(InitRec(), es);
      && (id in r.eng.ht <==> id in r.sent && id !in r.gone)
      && RxRsp(r.eng, id).1 == if id in r.sent && id !in r.gone then Some(r.sent[id]) else None
  {
  }

  /** The timer gives up on a descriptor only if one of its requests is outstanding, expired and out of retries. */
  lemma GivesUpSender(es: seq<Event>, now: int, timeout: int, max: nat, tick: Clock) returns (id: int)
    requires ValidNotes(InitRec(), es) && timeout > 0 && Monotone(tick, now)
    requires var r := Notes(InitRec(), es); UpTo(r.eng.list, now) && Progress(r.eng, now, timeout, max, tick, 0).2.Some?
    ensures var r := Notes(InitRec(), es);
      && id in r.sent && id !in r.gone && Progress(r.eng, now, timeout, max, tick, 0).2 == Some(r.sent[id])
      && Expired(r.eng.ht[id], now, timeout) && r.eng.ht[id].retries >= max
  {
    var r := Notes(InitRec(), es);
    TimerExact(r.eng, now, timeout, max, tick);
    var i := SpentAt(r.eng.list, now, timeout, max);
    id := r.eng.list[i].id;
  }

  lemma {:induction false} SpentAt(list: seq<Out>, now: int, timeout: int, max: nat) returns (i: nat)
    requires GivesUp(list, now, timeout, max).Some?
    ensures i < |list| && GivesUp(list, now, timeout, max) == Some(list[i].handle)
    ensures Expired(list[i], now, timeout) && list[i].retries >= max
  {
    if !Expired(list[0], now, timeout) || list[0].retries < max {
      var j := SpentAt(list[1..], now, timeout, max);
      i := j + 1;
    } else {
      i := 0;
    }
  }
}
