/** What an initiator PDC in the SYN state will send again: all that was sent and not dropped, in order. */
module SynQueue {
  import opened PdcTypes
  import opened Psn
  import opened StartPsn

  /** A PDC with a record of what was asked of it. */
  datatype Record = Record(
    s: Syn,
    sent: seq<nat>,             // the handle of each packet sent, first to last
    dropped: set<nat>)          // positions in `sent` that SES has dropped

  /** A send is taken while fewer than a window of packets were sent; a drop names every packet of a handle. */
  function Note(r: Record, e: Event): Record {
    var s' := Apply(r.s, e);
    match e
    case EvSend(h) => if |r.sent| < MPR then r.(s := s', sent := r.sent + [h]) else r.(s := s')
    case EvDrop(h) => r.(s := s', dropped := r.dropped + set k | 0 <= k < |r.sent| && r.sent[k] == h)
    case EvNewStart(_) => r.(s := s')
  }

  function Notes(r: Record, es: seq<Event>): Record
    decreases |es|
  {
    if es == [] then r else Notes(Note(r, es[0]), es[1..])
  }

  function InitRecord(start: u32): Record {
    Record(InitSyn(start), [], {})
  }

  ghost predicate Rising(queue: seq<SynPkt>) {
    forall i, j :: 0 <= i < j < |queue| ==> queue[i].synOff < queue[j].synOff
  }

  ghost function Offs(queue: seq<SynPkt>): set<nat> {
    set p | p in queue :: p.synOff
  }

  ghost function Owed(r: Record): set<nat> {
    set k: nat | k < |r.sent| && k !in r.dropped
  }

  /** Every packet in the queue carries the handle it was sent with. */
  ghost predicate Handles(queue: seq<SynPkt>, sent: seq<nat>) {
    forall p :: p in queue ==> p.synOff < |sent| && p.handle == sent[p.synOff]
  }

  ghost predicate Inv(r: Record) {
    && SynInv(r.s) && r.s.synOffset == |r.sent|
    && (forall k :: k in r.dropped ==> k < |r.sent|)
    && Rising(r.s.queue) && Handles(r.s.queue, r.sent) && Offs(r.s.queue) == Owed(r)
  }

  // ---------------------------------------------------------------- a drop

  lemma {:induction false} KeptExact(queue: seq<SynPkt>, h: nat, p: SynPkt)
    ensures p in Kept(queue, h) <==> p in queue && p.handle != h
  {
    if queue != [] {
      KeptExact(queue[1..], h, p);
      assert queue == [queue[0]] + queue[1..];
    }
  }

  lemma {:induction false} KeptRises(queue: seq<SynPkt>, h: nat)
    requires Rising(queue)
    ensures Rising(Kept(queue, h))
  {
    if queue != [] {
      var rest := Kept(queue[1..], h);
      KeptRises(queue[1..], h);
      forall i | 0 <= i < |rest| ensures queue[0].synOff < rest[i].synOff {
        assert rest[i] in queue[1..];
      }
    }
  }

  lemma DropOffs(r: Record, h: nat, k: nat)
    requires Inv(r)
    ensures k in Offs(Kept(r.s.queue, h)) <==> k in Owed(Note(r, EvDrop(h)))
  {
    var q := r.s.queue;
    if k in Offs(Kept(q, h)) {
      var p :| p in Kept(q, h) && p.synOff == k;
      KeptExact(q, h, p);
      assert p.synOff in Offs(q);
    }
    if k in Owed(Note(r, EvDrop(h))) {
      assert k in Owed(r);
      var p :| p in q && p.synOff == k;
      KeptExact(q, h, p);
    }
  }

  lemma DropKeeps(r: Record, h: nat)
    requires Inv(r)
    ensures Inv(Note(r, EvDrop(h)))
  {
    var r' := Note(r, EvDrop(h));
    SynKept(r.s, [EvDrop(h)]);
    assert Run(r.s, [EvDrop(h)]) == r'.s by { assert [EvDrop(h)][1..] == []; }
    KeptRises(r.s.queue, h);
    forall k: nat ensures k in Offs(r'.s.queue) <==> k in Owed(r') {
      DropOffs(r, h, k);
    }
    assert Offs(r'.s.queue) == Owed(r');
  }

  // ---------------------------------------------------------------- a send and a re-drive

  lemma SendGrows(r: Record, h: nat)
    requires Inv(r) && |r.sent| < MPR
    ensures var p := Stamped(r.s, h);
      SendSyn(r.s, h).queue == r.s.queue + [p] && p.synOff == |r.sent| && p.handle == h
  {
    RoomMeans(r.s);
  }

  lemma AppendKeeps(queue: seq<SynPkt>, p: SynPkt, sent: seq<nat>)
    requires Rising(queue) && Handles(queue, sent) && p.synOff == |sent|
    ensures Rising(queue + [p]) && Handles(queue + [p], sent + [p.handle])
    ensures Offs(queue + [p]) == Offs(queue) + {|sent|}
  {
    forall i | 0 <= i < |queue| ensures queue[i].synOff < |sent| {
      assert queue[i] in queue;
    }
  }

  lemma SendKeepsQueue(r: Record, h: nat)
    requires Inv(r)
    ensures Inv(Note(r, EvSend(h)))
  {
    var r' := Note(r, EvSend(h));
    SendKeeps(r.s, h);
    if |r.sent| < MPR {
      SendGrows(r, h);
      AppendKeeps(r.s.queue, Stamped(r.s, h), r.sent);
      assert Owed(r') == Owed(r) + {|r.sent|};
    } else {
      RoomMeans(r.s);
    }
  }

  lemma MoveKeepsOffs(queue: seq<SynPkt>, delta: int)
    ensures Offs(MoveAll(queue, delta)) == Offs(queue)
  {
    var moved := MoveAll(queue, delta);
    forall k: nat ensures k in Offs(moved) <==> k in Offs(queue) {
      if k in Offs(queue) {
        var i :| 0 <= i < |queue| && queue[i].synOff == k;
        assert moved[i] in moved;
      }
      if k in Offs(moved) {
        var i :| 0 <= i < |moved| && moved[i].synOff == k;
        assert queue[i] in queue;
      }
    }
  }

  lemma MoveKeepsHandles(queue: seq<SynPkt>, delta: int, sent: seq<nat>)
    requires Handles(queue, sent)
    ensures Handles(MoveAll(queue, delta), sent)
  {
    var moved := MoveAll(queue, delta);
    forall p | p in moved ensures p.synOff < |sent| && p.handle == sent[p.synOff] {
      var i :| 0 <= i < |moved| && moved[i] == p;
      assert queue[i] in queue;
    }
  }

  lemma RedriveKeepsQueue(r: Record, start: u32)
    requires Inv(r)
    ensures Inv(Note(r, EvNewStart(start)))
  {
    RedriveKeeps(r.s, start);
    var delta := Wrap(start - r.s.start);
    if delta != 0 {
      MoveKeepsOffs(r.s.queue, delta);
      MoveKeepsHandles(r.s.queue, delta, r.sent);
    }
  }

  // ---------------------------------------------------------------- whole runs

  lemma {:induction false} NotesKeep(r: Record, es: seq<Event>)
    requires Inv(r)
    ensures Inv(Notes(r, es)) && Notes(r, es).s == Run(r.s, es)
    decreases |es|
  {
    if es != [] {
      match es[0] {
        case EvSend(h) => SendKeepsQueue(r, h);
        case EvDrop(h) => DropKeeps(r, h);
        case EvNewStart(start) => RedriveKeepsQueue(r, start);
      }
      NotesKeep(Note(r, es[0]), es[1..]);
    }
  }

  lemma Queued(r: Record, k: nat)
    requires Inv(r)
    ensures (exists i :: 0 <= i < |r.s.queue| && r.s.queue[i].synOff == k) <==> k < |r.sent| && k !in r.dropped
  {
    assert k in Offs(r.s.queue) <==> k in Owed(r);
  }

  lemma QueuedAs(r: Record, i: nat)
    requires Inv(r) && i < |r.s.queue|
    ensures var p := r.s.queue[i];
      p.synOff < |r.sent| && p.handle == r.sent[p.synOff] && p.psn == Wrap(r.s.start + p.synOff)
  {
    assert r.s.queue[i] in r.s.queue && PktOk(r.s.queue[i], r.s.start, r.s.synOffset);
  }

  /**
    In every run in the SYN state, however often the Start_PSN changes: packet `k` is queued, once, at the PSN `k`
    past the present Start_PSN and under its own handle, if and only if it was sent and its handle was not dropped
    since; and the queue is in the order of sending.
   */
  lemma QueuedIffOwed(start: u32, es: seq<Event>, k: nat)
    ensures var r := Notes(InitRecord(start), es); var s := Run(InitSyn(start), es);
      && Rising(s.queue)
      && ((exists i :: 0 <= i < |s.queue| && s.queue[i].synOff == k) <==> k < |r.sent| && k !in r.dropped)
      && (forall i :: 0 <= i < |s.queue| && s.queue[i].synOff == k ==>
            k < |r.sent| && s.queue[i].handle == r.sent[k] && s.queue[i].psn == Wrap(s.start + k))
  {
    NotesKeep(InitRecord(start), es);
    var r, s := Notes(InitRecord(start), es), Run(InitSyn(start), es);
    Queued(r, k);
    forall i | 0 <= i < |s.queue| && s.queue[i].synOff == k
      ensures k < |r.sent| && s.queue[i].handle == r.sent[k] && s.queue[i].psn == Wrap(s.start + k)
    {
      QueuedAs(r, i);
    }
  }
}
