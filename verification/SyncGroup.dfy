/**
  Sync groups at the target.  N messages belong to one group; one of them is the terminating
  operation, which says N, and takes effect only when the other N - 1 have completed.
 */
module SyncGroup {
  import opened PdcTypes

  /** `struct uet_sync_grp_src_fep_entry`; descriptors are named by numbers. */
  datatype Entry = Entry(
    cur: nat,                       // cur_cnt: messages seen
    cmpl: nat,                      // cmpl_cnt: messages completed
    tot: nat,                       // tot_cnt: 0 until the terminating operation arrives
    termAtomic: bool,
    parms: (int, int),              // atomic_parms: address and operand
    termErr: bool,
    termDesc: Option<nat>)

  datatype Cqe = Good(desc: nat) | Bad(desc: nat)

  /** One group key of an endpoint: its table entry and what the group has caused so far. */
  datatype Sync = Sync(
    entry: Option<Entry>,
    atomics: seq<(int, int)>,       // atomic operations applied to memory
    cq: seq<Cqe>)                   // entries posted to the receive completion queue

  const NEW_ENTRY := Entry(0, 0, 0, false, (0, 0), false, None)

  /** `uet_get_sync_grp_src_fep`; the flag tells success from an operation violation. */
  function GetGroup(s: Sync, desc: nat, terminating: bool, cnt: nat, newMsg: bool): (Sync, bool) {
    var e := if s.entry.Some? then s.entry.value else NEW_ENTRY;
    if terminating && (e.tot != 0 || cnt == 0) then (s.(entry := Some(e)), false)
    else
      var e1 := if terminating then e.(tot := cnt, termDesc := Some(desc)) else e;
      if !newMsg then (s.(entry := Some(e1)), true)
      else if e1.tot != 0 && e1.cur + 1 > e1.tot then
        if !terminating then (s.(entry := Some(e1)), false)
        else (s.(entry := Some(e1.(termErr := true, tot := e1.cur + 1, cur := e1.cur + 1))), true)
      else (s.(entry := Some(e1.(cur := e1.cur + 1))), true)
  }

  /**
    `uet_rx_cq_post_entry` for a message of the group.  The last write to end well hands over to a waiting
    terminating write: it posts its completion, or, if an earlier write failed, makes the error call on its
    descriptor.  The entry is gone by then, so that call is on a write without a group.
   */
  function PostEntry(s: Sync, desc: nat, postCq: bool): Sync {
    var own := if postCq then [Good(desc)] else [];
    if s.entry.None? then s.(cq := s.cq + own)
    else
      var e := s.entry.value.(cmpl := s.entry.value.cmpl + 1);
      if e.cmpl == e.tot then
        var s1 := s.(entry := None);
        if e.termAtomic then s1.(atomics := s.atomics + (if e.termErr then [] else [e.parms]), cq := s.cq + own)
        else if e.termDesc.Some? && e.termDesc != Some(desc) && !postCq then
          if e.termErr then PostErr(s1, e.termDesc.value) else s1.(cq := s.cq + [Good(e.termDesc.value)])
        else s1.(cq := s.cq + own)
      else if e.termDesc == Some(desc) then s.(entry := Some(e))
      else s.(entry := Some(e), cq := s.cq + own)
  }

  /** `uet_rx_cq_post_err` for a write of the group. */
  function PostErr(s: Sync, desc: nat): Sync {
    if s.entry.None? then s
    else
      var e := s.entry.value.(cmpl := s.entry.value.cmpl + 1, termErr := true);
      if e.cmpl == e.tot then
        s.(entry := None,
           cq := s.cq + if e.termDesc.Some? && e.termDesc != Some(desc) then [Bad(e.termDesc.value)] else [])
      else s.(entry := Some(e))
  }

  /** `uet_rx_atomic_req_pkt` with the sync flag, for a request that passes its own checks. */
  function AtomicReq(s: Sync, cnt: nat, addr: int, data: int): (Sync, bool) {
    if s.entry.Some? then
      var e := s.entry.value;
      if e.tot != 0 then (s.(entry := Some(e.(termErr := true))), false)
      else
        var e1 := e.(termAtomic := true, cmpl := e.cmpl + 1, cur := e.cur + 1, tot := cnt);
        if e1.cur > cnt then
          var e2 := e1.(tot := e1.cur);
          if e2.cmpl == e2.tot then (s.(entry := None), false) else (s.(entry := Some(e2.(termErr := true))), false)
        else if e1.cmpl == e1.tot then (s.(entry := None, atomics := s.atomics + [(addr, data)]), true)
        else (s.(entry := Some(e1.(parms := (addr, data)))), true)
    else if cnt == 0 then (s, false)
    else if cnt == 1 then (s.(atomics := s.atomics + [(addr, data)]), true)
    else (s.(entry := Some(NEW_ENTRY.(termAtomic := true, cur := 1, cmpl := 1, tot := cnt, parms := (addr, data)))), true)
  }

  // ---------------------------------------------------------------- a conforming group

  datatype Phase = Waiting | Busy | Finished

  datatype Term = AtomicOp(addr: int, data: int) | WriteImm(desc: nat)

  /** The N - 1 writes of the group, whether its terminating operation has arrived, and what they caused. */
  datatype Group = Group(
    phases: seq<Phase>,
    arrived: bool,          // the terminating operation has arrived
    late: bool,             // it arrived after every write was over
    failed: bool,           // some write ended in error
    lastFailed: bool,       // so did the last write to end
    sync: Sync)

  function InitGroup(n: nat): Group {
    Group(seq(n, _ => Waiting), false, false, false, false, Sync(None, [], []))
  }

  datatype Event =
    | FirstPkt(i: nat)      // the first packet of write `i` to arrive
    | MorePkt(i: nat)       // another packet of write `i`
    | Complete(i: nat)      // the last byte of write `i` is in
    | Failed(i: nat)         // write `i` ends in error
    | Terminate             // the single-packet terminating operation

  ghost predicate Enabled(g: Group, e: Event) {
    match e
    case FirstPkt(i) => i < |g.phases| && g.phases[i] == Waiting
    case MorePkt(i) => i < |g.phases| && g.phases[i] == Busy
    case Complete(i) => i < |g.phases| && g.phases[i] == Busy
    case Failed(i) => i < |g.phases| && g.phases[i] == Busy
    case Terminate => !g.arrived
  }

  ghost predicate AllOver(g: Group) {
    forall i :: 0 <= i < |g.phases| ==> g.phases[i] == Finished
  }

  ghost function Apply(g: Group, term: Term, e: Event): Group
    requires Enabled(g, e)
  {
    match e
    case FirstPkt(i) => g.(phases := g.phases[i := Busy], sync := GetGroup(g.sync, i, false, 0, true).0)
    case MorePkt(i) => g.(sync := GetGroup(g.sync, i, false, 0, false).0)
    case Complete(i) => g.(phases := g.phases[i := Finished], lastFailed := false, sync := PostEntry(g.sync, i, false))
    case Failed(i) =>
      g.(phases := g.phases[i := Finished], failed := true, lastFailed := true, sync := PostErr(g.sync, i))
    case Terminate =>
      match term
      case AtomicOp(addr, data) =>
        g.(arrived := true, late := AllOver(g), sync := AtomicReq(g.sync, |g.phases| + 1, addr, data).0)
      case WriteImm(desc) =>
        g.(arrived := true, late := AllOver(g),
           sync := PostEntry(GetGroup(g.sync, desc, true, |g.phases| + 1, true).0, desc, true))
  }

  function Seen(ps: seq<Phase>): (n: nat)
    ensures n <= |ps|
  {
    if ps == [] then 0 else (if ps[0] == Waiting then 0 else 1) + Seen(ps[1..])
  }

  function Over(ps: seq<Phase>): (n: nat)
    ensures n <= Seen(ps)
    ensures n == |ps| <==> forall i :: 0 <= i < |ps| ==> ps[i] == Finished
  {
    if ps == [] then 0
    else
      assert (forall i :: 0 <= i < |ps| ==> ps[i] == Finished) <==>
        ps[0] == Finished && forall i :: 0 <= i < |ps[1..]| ==> ps[1..][i] == Finished by {
          assert ps == [ps[0]] + ps[1..];
        }
      (if ps[0] == Finished then 1 else 0) + Over(ps[1..])
  }

  lemma {:induction false} Moved(ps: seq<Phase>, i: nat, p: Phase)
    requires i < |ps|
    ensures Seen(ps[i := p]) == Seen(ps) + (if p == Waiting then 0 else 1) - (if ps[i] == Waiting then 0 else 1)
    ensures Over(ps[i := p]) == Over(ps) + (if p == Finished then 1 else 0) - (if ps[i] == Finished then 1 else 0)
  {
    if i > 0 {
      Moved(ps[1..], i - 1, p);
      assert ps[i := p][1..] == ps[1..][i - 1 := p];
    } else {
      assert ps[i := p][1..] == ps[1..];
    }
  }

  /** Every write of the group and its terminating operation have completed. */
  ghost predicate Settled(g: Group) {
    g.arrived && AllOver(g)
  }

  /** The entry counts exactly what has happened, and exists exactly while the group is under way. */
  ghost predicate EntryOk(g: Group, term: Term) {
    var seen, over := Seen(g.phases), Over(g.phases);
    var t := if g.arrived then 1 else 0;
    && (g.sync.entry.Some? <==> seen + t > 0 && !Settled(g))
    && (g.sync.entry.Some? ==>
          var e := g.sync.entry.value;
          && e.cur == seen + t && e.cmpl == over + t
          && e.tot == (if g.arrived then |g.phases| + 1 else 0)
          && e.termAtomic == (g.arrived && term.AtomicOp?)
          && e.termDesc == (if g.arrived && term.WriteImm? then Some(term.desc) else None)
          && (g.arrived && term.AtomicOp? ==> e.parms == (term.addr, term.data))
          && e.termErr == g.failed)
  }

  /** A failed write is held against the terminating operation unless that arrives last of all. */
  ghost predicate HeldAgainst(g: Group) {
    g.failed && !g.late
  }

  /**
    What a settled group has posted for a terminating write.  A failure held against it is reported if the
    last write to end is a failing one; after one that ends well nothing is posted at all.
   */
  ghost function Outcome(g: Group, desc: nat): seq<Cqe> {
    if !HeldAgainst(g) then [Good(desc)] else if g.lastFailed then [Bad(desc)] else []
  }

  /** The terminating operation takes effect when the group is settled, and not before. */
  ghost predicate Effects(g: Group, term: Term) {
    && g.sync.atomics == (if Settled(g) && term.AtomicOp? && !HeldAgainst(g) then [(term.addr, term.data)] else [])
    && g.sync.cq == (if Settled(g) && term.WriteImm? then Outcome(g, term.desc) else [])
  }

  ghost predicate Inv(g: Group, term: Term) {
    && EntryOk(g, term) && Effects(g, term)
    && (term.WriteImm? ==> term.desc >= |g.phases|)
    && (g.late ==> Settled(g)) && (g.failed ==> Seen(g.phases) > 0)
  }

  lemma {:induction false} BusyNotOver(ps: seq<Phase>, i: nat)
    requires i < |ps| && ps[i] == Busy
    ensures Over(ps) < |ps| && Seen(ps) > 0
  {
    if i > 0 { BusyNotOver(ps[1..], i - 1); }
  }

  lemma FirstKeeps(g: Group, term: Term, i: nat)
    requires Inv(g, term) && Enabled(g, FirstPkt(i))
    ensures Inv(Apply(g, term, FirstPkt(i)), term)
  {
    Moved(g.phases, i, Busy);
    assert g.phases[i] == Waiting;
  }

  /** The last write of a group whose terminating operation is waiting ends well. */
  lemma CompleteSettles(g: Group, term: Term, i: nat)
    requires Inv(g, term) && Enabled(g, Complete(i)) && g.arrived && Over(g.phases) + 1 == |g.phases|
    ensures Inv(Apply(g, term, Complete(i)), term)
  {
    Moved(g.phases, i, Finished);
    BusyNotOver(g.phases, i);
  }

  lemma CompleteKeeps(g: Group, term: Term, i: nat)
    requires Inv(g, term) && Enabled(g, Complete(i))
    ensures Inv(Apply(g, term, Complete(i)), term)
  {
    if g.arrived && Over(g.phases) + 1 == |g.phases| {
      CompleteSettles(g, term, i);
    } else {
      CompleteGoesOn(g, term, i);
    }
  }

  lemma CompleteGoesOn(g: Group, term: Term, i: nat)
    requires Inv(g, term) && Enabled(g, Complete(i)) && !(g.arrived && Over(g.phases) + 1 == |g.phases|)
    ensures Inv(Apply(g, term, Complete(i)), term)
  {
    Moved(g.phases, i, Finished);
    BusyNotOver(g.phases, i);
    var g' := Apply(g, term, Complete(i));
    assert !Settled(g') && !Settled(g);
    assert g.sync.entry.Some?;
  }

  lemma FailKeeps(g: Group, term: Term, i: nat)
    requires Inv(g, term) && Enabled(g, Failed(i))
    ensures Inv(Apply(g, term, Failed(i)), term)
  {
    Moved(g.phases, i, Finished);
    BusyNotOver(g.phases, i);
  }

  lemma AtomicKeeps(g: Group, term: Term)
    requires Inv(g, term) && Enabled(g, Terminate) && term.AtomicOp?
    ensures Inv(Apply(g, term, Terminate), term)
  {
  }

  lemma ImmKeeps(g: Group, term: Term)
    requires Inv(g, term) && Enabled(g, Terminate) && term.WriteImm?
    ensures Inv(Apply(g, term, Terminate), term)
  {
  }

  lemma StepKeeps(g: Group, term: Term, e: Event)
    requires Inv(g, term) && Enabled(g, e)
    ensures Inv(Apply(g, term, e), term) && |Apply(g, term, e).phases| == |g.phases|
  {
    match e
    case FirstPkt(i) => FirstKeeps(g, term, i);
    case MorePkt(i) => BusyNotOver(g.phases, i);
    case Complete(i) => CompleteKeeps(g, term, i);
    case Failed(i) => FailKeeps(g, term, i);
    case Terminate => if term.AtomicOp? { AtomicKeeps(g, term); } else { ImmKeeps(g, term); }
  }

  // ---------------------------------------------------------------- whole runs

  ghost predicate ValidRun(g: Group, term: Term, es: seq<Event>)
    decreases |es|
  {
    es == [] || (Enabled(g, es[0]) && ValidRun(Apply(g, term, es[0]), term, es[1..]))
  }

  ghost function Run(g: Group, term: Term, es: seq<Event>): Group
    requires ValidRun(g, term, es)
    decreases |es|
  {
    if es == [] then g else Run(Apply(g, term, es[0]), term, es[1..])
  }

  lemma {:induction false} RunKeeps(g: Group, term: Term, es: seq<Event>)
    requires Inv(g, term) && ValidRun(g, term, es)
    ensures Inv(Run(g, term, es), term) && |Run(g, term, es).phases| == |g.phases|
    decreases |es|
  {
    if es != [] {
      StepKeeps(g, term, es[0]);
      RunKeeps(Apply(g, term, es[0]), term, es[1..]);
    }
  }

  lemma {:induction false} AllWaiting(ps: seq<Phase>)
    requires forall i :: 0 <= i < |ps| ==> ps[i] == Waiting
    ensures Seen(ps) == 0
  {
    if ps != [] { AllWaiting(ps[1..]); }
  }

  /** What a reachable state of a group of `n` writes and `term` satisfies. */
  lemma Reached(n: nat, term: Term, es: seq<Event>)
    requires ValidRun(InitGroup(n), term, es) && (term.WriteImm? ==> term.desc >= n)
    ensures Inv(Run(InitGroup(n), term, es), term) && |Run(InitGroup(n), term, es).phases| == n
  {
    AllWaiting(InitGroup(n).phases);
    RunKeeps(InitGroup(n), term, es);
  }

  /**
    A group of `n` writes and a terminating atomic, in any interleaving of arrivals and completions:
    the atomic is applied once when all have completed, and nothing is applied before.
   */
  lemma AtomicOnce(n: nat, addr: int, data: int, es: seq<Event>)
    requires ValidRun(InitGroup(n), AtomicOp(addr, data), es)
    ensures var g := Run(InitGroup(n), AtomicOp(addr, data), es);
      && g.sync.atomics == (if Settled(g) && !HeldAgainst(g) then [(addr, data)] else [])
      && g.sync.cq == []
  {
    Reached(n, AtomicOp(addr, data), es);
  }

  /**
    The same for a single-packet terminating write with immediate data: nothing is posted before the end, and
    then one completion if and only if no write failed, or the terminating write came last, or the last write
    to end failed.  It reports success in the first two cases and an error in the third.
   */
  lemma WriteImmOnce(n: nat, desc: nat, es: seq<Event>)
    requires desc >= n && ValidRun(InitGroup(n), WriteImm(desc), es)
    ensures var g := Run(InitGroup(n), WriteImm(desc), es);
      && g.sync.atomics == []
      && |g.sync.cq| <= 1
      && (|g.sync.cq| == 1 <==> Settled(g) && (!g.failed || g.late || g.lastFailed))
      && (|g.sync.cq| == 1 ==> g.sync.cq[0] == if g.failed && !g.late then Bad(desc) else Good(desc))
  {
    Reached(n, WriteImm(desc), es);
  }

  /** A write fails, the terminating write arrives, the other write ends well: no completion is ever posted. */
  lemma CompletionDropped(desc: nat)
    requires desc >= 2
    ensures var term, es := WriteImm(desc), [FirstPkt(0), Failed(0), FirstPkt(1), Terminate, Complete(1)];
      && ValidRun(InitGroup(2), term, es)
      && Settled(Run(InitGroup(2), term, es))
      && Run(InitGroup(2), term, es).sync.cq == []
  {
    var term, es := WriteImm(desc), [FirstPkt(0), Failed(0), FirstPkt(1), Terminate, Complete(1)];
    var g1 := Apply(InitGroup(2), term, es[0]);
    var g2 := Apply(g1, term, es[1]);
    var g3 := Apply(g2, term, es[2]);
    assert g3.phases == [Finished, Busy] && !g3.arrived && g3.failed;
    var g4 := Apply(g3, term, es[3]);
    assert g4.phases[1] == Busy && g4.arrived && !g4.late && g4.failed;
    var g5 := Apply(g4, term, es[4]);
    assert Settled(g5) && g5.failed && !g5.late && !g5.lastFailed;
    assert ValidRun(g4, term, es[4..]) && Run(g4, term, es[4..]) == g5 by { assert es[4..] == [es[4]]; }
    assert ValidRun(g3, term, es[3..]) && Run(g3, term, es[3..]) == g5 by { assert es[3..][1..] == es[4..]; }
    assert ValidRun(g2, term, es[2..]) && Run(g2, term, es[2..]) == g5 by { assert es[2..][1..] == es[3..]; }
    assert ValidRun(g1, term, es[1..]) && Run(g1, term, es[1..]) == g5 by { assert es[1..][1..] == es[2..]; }
    WriteImmOnce(2, desc, es);
  }

  /** The table entry exists exactly while the group is under way, so a settled group leaves nothing behind. */
  lemma EntryReclaimed(n: nat, term: Term, es: seq<Event>)
    requires ValidRun(InitGroup(n), term, es) && (term.WriteImm? ==> term.desc >= n)
    ensures var g := Run(InitGroup(n), term, es);
      && |g.phases| == n
      && (g.sync.entry.Some? <==> (g.arrived || exists i :: 0 <= i < n && g.phases[i] != Waiting) && !Settled(g))
  {
    Reached(n, term, es);
    SeenSome(Run(InitGroup(n), term, es).phases);
  }

  lemma {:induction false} SeenSome(ps: seq<Phase>)
    ensures Seen(ps) > 0 <==> exists i :: 0 <= i < |ps| && ps[i] != Waiting
  {
    if ps != [] {
      SeenSome(ps[1..]);
      assert ps == [ps[0]] + ps[1..];
    }
  }

  /** So it is when a terminating write comes last: its completion reports success. */
  lemma LateWriteIgnoresFailure(desc: nat)
    requires desc >= 1
    ensures var term, es := WriteImm(desc), [FirstPkt(0), Failed(0), Terminate];
      && ValidRun(InitGroup(1), term, es)
      && Run(InitGroup(1), term, es).failed
      && Run(InitGroup(1), term, es).sync.cq == [Good(desc)]
  {
    var term, es := WriteImm(desc), [FirstPkt(0), Failed(0), Terminate];
    var g2 := Apply(Apply(InitGroup(1), term, es[0]), term, es[1]);
    assert g2.phases == [Finished] && AllOver(g2);
    assert es[1..][1..] == [Terminate];
  }

  /** A write that fails is forgotten when the terminating atomic comes last: it is applied all the same. */
  lemma LateAtomicIgnoresFailure(addr: int, data: int)
    ensures var term, es := AtomicOp(addr, data), [FirstPkt(0), Failed(0), Terminate];
      && ValidRun(InitGroup(1), term, es)
      && Run(InitGroup(1), term, es).failed
      && Run(InitGroup(1), term, es).sync.atomics == [(addr, data)]
  {
  }
}
