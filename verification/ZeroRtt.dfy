/**
  EXPECTED_0RTT_START at the target.  Each security domain remembers an Expected_PSN; a first SYN
  that starts before it only gets a PENDING context, so that an old Start_PSN is not used again.
 */
module ZeroRtt {
  import opened PdcTypes
  import opened Psn

  datatype Pdc = Pdc(established: bool, start: u32)

  /** The target PDCs of one security domain, by the initiator's address and PDC id. */
  datatype Domain = Domain(expected: u32, pdcs: map<nat, Pdc>)

  datatype Answer = Accepted | NewStartPsn(start: u32)

  /** `uet_pdsm_assign_tgt_pdc` with 0-RTT security. */
  function OnSyn(d: Domain, key: nat, psn: u32, synOff: nat): (Domain, Answer) {
    var start := Wrap(psn - synOff);
    if key in d.pdcs then
      var p := d.pdcs[key];
      if p.established then (d, Accepted)
      else if start == p.start then (d.(pdcs := d.pdcs[key := p.(established := true)]), Accepted)
      else (d, NewStartPsn(p.start))
    else if AfterEq(start, d.expected) then (d.(pdcs := d.pdcs[key := Pdc(true, start)]), Accepted)
    else (d.(pdcs := d.pdcs[key := Pdc(false, d.expected)]), NewStartPsn(d.expected))
  }

  /** `uet_pds_process_close_command_cp` on an idle established PDC: the Expected_PSN in the closing ACK. */
  function OnClose(d: Domain, key: nat): (Domain, u32)
    requires key in d.pdcs
  {
    var start := d.pdcs[key].start;
    var e := if AfterEq(start, d.expected) then Wrap(start + 1) else d.expected;
    (Domain(e, d.pdcs - {key}), e)
  }

  /** The New_PDC_Time timer, or a close in error. */
  function Forget(d: Domain, key: nat): Domain {
    d.(pdcs := d.pdcs - {key})
  }

  // ---------------------------------------------------------------- runs

  datatype Event =
    | Syn(key: nat, psn: u32, synOff: nat, start: int)     // `start` is the unbounded Start_PSN it stands for
    | Close(key: nat)
    | Reap(key: nat)

  /** A domain with the unbounded PSNs its 32-bit ones stand for, and the Start_PSNs cleanly closed so far. */
  datatype World = World(d: Domain, expected: int, starts: map<nat, int>, closed: seq<int>)

  /** All Start_PSNs of the run lie within half the PSN space. */
  ghost predicate InHalf(x: int, lo: int) {
    lo <= x < lo + HALF_SPACE - 1
  }

  ghost predicate Enabled(w: World, e: Event, lo: int) {
    match e
    case Syn(_, psn, synOff, start) => InHalf(start, lo) && Wrap(psn - synOff) == Wrap(start)
    case Close(key) => key in w.d.pdcs && w.d.pdcs[key].established && key in w.starts && InHalf(w.starts[key], lo)
    case Reap(_) => true
  }

  ghost function Apply(w: World, e: Event): World
    requires e.Close? ==> e.key in w.d.pdcs && e.key in w.starts
  {
    match e
    case Syn(key, psn, synOff, start) =>
      var d' := OnSyn(w.d, key, psn, synOff).0;
      w.(d := d',
         starts := if key in w.starts then w.starts
                   else w.starts[key := if start >= w.expected then start else w.expected])
    case Close(key) =>
      var start := w.starts[key];
      World(OnClose(w.d, key).0, if start >= w.expected then start + 1 else w.expected, w.starts - {key},
            w.closed + [start])
    case Reap(key) => w.(d := Forget(w.d, key), starts := w.starts - {key})
  }

  ghost predicate Inv(w: World, lo: int) {
    && lo <= w.expected < lo + HALF_SPACE && w.d.expected == Wrap(w.expected)
    && (forall k :: k in w.starts <==> k in w.d.pdcs)
    && (forall k :: k in w.starts ==> lo <= w.starts[k] < lo + HALF_SPACE && w.d.pdcs[k].start == Wrap(w.starts[k]))
    && (forall i :: 0 <= i < |w.closed| ==> w.closed[i] < w.expected)
  }

  lemma CompareExact(lo: int, a: int, b: int)
    requires lo <= a < lo + HALF_SPACE && lo <= b < lo + HALF_SPACE
    ensures AfterEq(Wrap(a), Wrap(b)) <==> a >= b
  {
  }

  lemma StepKeeps(w: World, e: Event, lo: int)
    requires Inv(w, lo) && Enabled(w, e, lo)
    ensures Inv(Apply(w, e), lo) && w.expected <= Apply(w, e).expected && w.closed <= Apply(w, e).closed
  {
    match e
    case Syn(key, psn, synOff, start) => CompareExact(lo, start, w.expected);
    case Close(key) =>
      var start := w.starts[key];
      CompareExact(lo, start, w.expected);
      assert Wrap(Wrap(start) + 1) == Wrap(start + 1) by { WrapDiff(start, 1); }
    case Reap(_) =>
  }

  ghost predicate ValidRun(w: World, es: seq<Event>, lo: int)
    decreases |es|
  {
    es == [] || (Enabled(w, es[0], lo) && ValidRun(Apply(w, es[0]), es[1..], lo))
  }

  ghost function Run(w: World, es: seq<Event>, lo: int): World
    requires ValidRun(w, es, lo)
    decreases |es|
  {
    if es == [] then w else Run(Apply(w, es[0]), es[1..], lo)
  }

  lemma {:induction false} RunKeeps(w: World, es: seq<Event>, lo: int)
    requires Inv(w, lo) && ValidRun(w, es, lo)
    ensures Inv(Run(w, es, lo), lo) && w.expected <= Run(w, es, lo).expected && w.closed <= Run(w, es, lo).closed
    decreases |es|
  {
    if es != [] {
      StepKeeps(w, es[0], lo);
      RunKeeps(Apply(w, es[0]), es[1..], lo);
    }
  }

  ghost function InitWorld(expected: int): World {
    World(Domain(Wrap(expected), map[]), expected, map[], [])
  }

  // ---------------------------------------------------------------- the theorems

  /**
    Within half the PSN space Expected_PSN never moves back, and every cleanly closed PDC leaves it past its
    Start_PSN.
   */
  lemma ExpectedMovesOn(lo: int, expected: int, es: seq<Event>, more: seq<Event>)
    requires lo <= expected < lo + HALF_SPACE
    requires ValidRun(InitWorld(expected), es, lo)
    requires ValidRun(Run(InitWorld(expected), es, lo), more, lo)
    ensures var w := Run(InitWorld(expected), es, lo); var w' := Run(w, more, lo);
      && w.expected <= w'.expected && AfterEq(w'.d.expected, w.d.expected)
      && (forall i :: 0 <= i < |w.closed| ==> w.closed[i] < w.expected && w.closed[i] < w'.expected)
  {
    RunKeeps(InitWorld(expected), es, lo);
    var w := Run(InitWorld(expected), es, lo);
    RunKeeps(w, more, lo);
    CompareExact(lo, Run(w, more, lo).expected, w.expected);
  }

  /** A first SYN that starts at or below a Start_PSN already closed gets a PENDING context and a NACK, nothing more. */
  lemma OldStartOnlyPending(lo: int, expected: int, es: seq<Event>, e: Event, i: nat)
    requires lo <= expected < lo + HALF_SPACE && ValidRun(InitWorld(expected), es, lo)
    requires var w := Run(InitWorld(expected), es, lo);
      e.Syn? && e.key !in w.d.pdcs && Enabled(w, e, lo) && i < |w.closed| && e.start <= w.closed[i]
    ensures var w := Run(InitWorld(expected), es, lo);
      var (d', answer) := OnSyn(w.d, e.key, e.psn, e.synOff);
      answer == NewStartPsn(w.d.expected) && d'.pdcs[e.key] == Pdc(false, w.d.expected) && d'.expected == w.d.expected
  {
    RunKeeps(InitWorld(expected), es, lo);
    var w := Run(InitWorld(expected), es, lo);
    CompareExact(lo, e.start, w.expected);
  }

  /**
    A first SYN is accepted, with the Start_PSN it asks for, if and only if that is not before Expected_PSN.  Otherwise
    the PENDING context and the NACK name Expected_PSN.  Other contexts are not touched.
   */
  lemma FirstSynExact(lo: int, expected: int, es: seq<Event>, e: Event)
    requires lo <= expected < lo + HALF_SPACE && ValidRun(InitWorld(expected), es, lo)
    requires var w := Run(InitWorld(expected), es, lo); e.Syn? && e.key !in w.d.pdcs && Enabled(w, e, lo)
    ensures var w := Run(InitWorld(expected), es, lo);
      var (d', answer) := OnSyn(w.d, e.key, e.psn, e.synOff);
      && (answer == Accepted <==> e.start >= w.expected)
      && answer == (if e.start >= w.expected then Accepted else NewStartPsn(Wrap(w.expected)))
      && d' == Domain(Wrap(w.expected), w.d.pdcs[e.key :=
                 if e.start >= w.expected then Pdc(true, Wrap(e.start)) else Pdc(false, Wrap(w.expected))])
  {
    RunKeeps(InitWorld(expected), es, lo);
    CompareExact(lo, e.start, Run(InitWorld(expected), es, lo).expected);
  }

  /** A NACK is a way in: the same initiator's next SYN that starts where the NACK says is accepted. */
  lemma NackedSynGetsIn(d: Domain, key: nat, psn: u32, synOff: nat, psn': u32, synOff': nat)
    requires OnSyn(d, key, psn, synOff).1.NewStartPsn?
    requires Wrap(psn' - synOff') == OnSyn(d, key, psn, synOff).1.start
    ensures var d' := OnSyn(d, key, psn, synOff).0; var (d'', answer) := OnSyn(d', key, psn', synOff');
      answer == Accepted && d''.pdcs[key] == Pdc(true, Wrap(psn' - synOff')) && d''.expected == d.expected
  {
  }

  /** In every run the closing ACK names the least PSN past both the closed PDC's start and all promised before. */
  lemma CloseAnswers(lo: int, expected: int, es: seq<Event>, key: nat)
    requires lo <= expected < lo + HALF_SPACE && ValidRun(InitWorld(expected), es, lo)
    requires Enabled(Run(InitWorld(expected), es, lo), Close(key), lo)
    ensures var w := Run(InitWorld(expected), es, lo); var (d', answer) := OnClose(w.d, key);
      && answer == d'.expected == Wrap(if w.starts[key] + 1 > w.expected then w.starts[key] + 1 else w.expected)
      && key !in d'.pdcs
  {
    RunKeeps(InitWorld(expected), es, lo);
    var w := Run(InitWorld(expected), es, lo);
    CompareExact(lo, w.starts[key], w.expected);
    WrapDiff(w.starts[key], 1);
  }

  /** A PENDING context becomes ESTABLISHED only by a SYN for it that starts at the PSN it was given. */
  lemma PendingNeedsItsStart(w: World, e: Event, key: nat)
    requires e.Close? ==> e.key in w.d.pdcs && e.key in w.starts
    requires key in w.d.pdcs && !w.d.pdcs[key].established
    ensures var w' := Apply(w, e);
      (key in w'.d.pdcs && w'.d.pdcs[key].established) <==>
        e.Syn? && e.key == key && Wrap(e.psn - e.synOff) == w.d.pdcs[key].start
    ensures key in Apply(w, e).d.pdcs ==> Apply(w, e).d.pdcs[key].start == w.d.pdcs[key].start
  {
  }

  /**
    The test behind all this, for any distance: a start `back` before Expected_PSN is caught just up to half the
    space.
   */
  lemma CaughtIff(expected: int, back: int)
    requires 0 <= back < PSN_SPACE
    ensures !AfterEq(Wrap(expected - back), Wrap(expected)) <==> 1 <= back <= HALF_SPACE
  {
  }

  /** The target's per-domain state as it runs. */
  class SecDomain {
    var tgtStartPsn: u32
    var pdcs: map<nat, Pdc>

    ghost function Model(): Domain
      reads this
    {
      Domain(tgtStartPsn, pdcs)
    }

    constructor (expected: u32)
      ensures Model() == Domain(expected, map[])
    {
      tgtStartPsn, pdcs := expected, map[];
    }

    /** `uet_pdsm_assign_tgt_pdc`. */
    method AssignTgtPdc(key: nat, psn: u32, synOff: nat) returns (answer: Answer)
      modifies this
      ensures (Model(), answer) == OnSyn(old(Model()), key, psn, synOff)
    {
      var startPsn := Wrap(psn - synOff);
      if key in pdcs {
        if !pdcs[key].established {
          if startPsn == pdcs[key].start {
            pdcs := pdcs[key := pdcs[key].(established := true)];
            return Accepted;
          }
          return NewStartPsn(pdcs[key].start);
        }
        return Accepted;
      }
      var base, rejectPending := startPsn, false;
      if !AfterEq(startPsn, tgtStartPsn) {
        base, rejectPending := tgtStartPsn, true;
      }
      pdcs := pdcs[key := Pdc(!rejectPending, base)];
      answer := if rejectPending then NewStartPsn(base) else Accepted;
    }

    /** The close of an idle PDC: the Expected_PSN returned in the closing ACK. */
    method CloseCommand(key: nat) returns (expected: u32)
      requires key in pdcs
      modifies this
      ensures (Model(), expected) == OnClose(old(Model()), key)
    {
      expected := tgtStartPsn;
      if AfterEq(pdcs[key].start, expected) {
        expected := Wrap(pdcs[key].start + 1);
        tgtStartPsn := expected;
      }
      pdcs := pdcs - {key};
    }
  }
}
