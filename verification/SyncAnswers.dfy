/** What a sync group is told: its own messages are taken, and messages too many are not. */
module SyncAnswers {
  import opened PdcTypes
  import opened SyncGroup

  /** The answer to a packet of the group; completions at the target have none. */
  ghost function Taken(g: Group, term: Term, e: Event): bool
    requires Enabled(g, e)
  {
    match e
    case FirstPkt(i) => GetGroup(g.sync, i, false, 0, true).1
    case MorePkt(i) => GetGroup(g.sync, i, false, 0, false).1
    case Complete(_) => true
    case Failed(_) => true
    case Terminate =>
      match term
      case AtomicOp(addr, data) => AtomicReq(g.sync, |g.phases| + 1, addr, data).1
      case WriteImm(desc) => GetGroup(g.sync, desc, true, |g.phases| + 1, true).1
  }

  lemma {:induction false} WaitingNotSeen(ps: seq<Phase>, i: nat)
    requires i < |ps| && ps[i] == Waiting
    ensures Seen(ps) < |ps|
  {
    if i > 0 { WaitingNotSeen(ps[1..], i - 1); }
  }

  /** No packet of a conforming group is answered with an operation violation, whatever the order of arrival. */
  lemma NeverRefused(n: nat, term: Term, es: seq<Event>, e: Event)
    requires ValidRun(InitGroup(n), term, es) && (term.WriteImm? ==> term.desc >= n)
    requires Enabled(Run(InitGroup(n), term, es), e)
    ensures Taken(Run(InitGroup(n), term, es), term, e)
  {
    Reached(n, term, es);
    var g := Run(InitGroup(n), term, es);
    if e.FirstPkt? {
      WaitingNotSeen(g.phases, e.i);
    }
  }

  /** Once the terminating operation has said how many, a message too many is refused and leaves the group alone. */
  lemma ExtraRefused(n: nat, term: Term, es: seq<Event>, desc: nat)
    requires ValidRun(InitGroup(n), term, es) && (term.WriteImm? ==> term.desc >= n)
    requires var g := Run(InitGroup(n), term, es);
      g.arrived && !Settled(g) && forall i :: 0 <= i < |g.phases| ==> g.phases[i] != Waiting
    ensures var g := Run(InitGroup(n), term, es); GetGroup(g.sync, desc, false, 0, true) == (g.sync, false)
  {
    Reached(n, term, es);
    AllSeen(Run(InitGroup(n), term, es).phases);
  }

  lemma {:induction false} AllSeen(ps: seq<Phase>)
    requires forall i :: 0 <= i < |ps| ==> ps[i] != Waiting
    ensures Seen(ps) == |ps|
  {
    if ps != [] { AllSeen(ps[1..]); }
  }

  /**
    A second terminating operation is refused while the group is under way.  A write leaves the group alone; an
    atomic marks it as in error, but is not applied.
   */
  lemma SecondTerminateRefused(n: nat, term: Term, es: seq<Event>, desc: nat, cnt: nat, addr: int, data: int)
    requires ValidRun(InitGroup(n), term, es) && (term.WriteImm? ==> term.desc >= n)
    requires var g := Run(InitGroup(n), term, es); g.arrived && !Settled(g)
    ensures var g := Run(InitGroup(n), term, es);
      && GetGroup(g.sync, desc, true, cnt, true) == (g.sync, false)
      && var (s', ok) := AtomicReq(g.sync, cnt, addr, data);
      && !ok && s'.entry == Some(g.sync.entry.value.(termErr := true)) && s'.atomics == g.sync.atomics == []
      && s'.cq == g.sync.cq
  {
    Reached(n, term, es);
  }

  /** A terminating operation that counts fewer messages than were seen is held in error, and an atomic is refused. */
  lemma ShortCountHeld(n: nat, term: Term, es: seq<Event>, desc: nat, cnt: nat, addr: int, data: int)
    requires ValidRun(InitGroup(n), term, es) && (term.WriteImm? ==> term.desc >= n)
    requires var g := Run(InitGroup(n), term, es); !g.arrived && 0 < cnt <= Seen(g.phases)
    ensures var g := Run(InitGroup(n), term, es);
      && (var (s', ok) := GetGroup(g.sync, desc, true, cnt, true);
          ok && s'.entry.Some? && s'.entry.value.termErr && s'.entry.value.tot == Seen(g.phases) + 1)
      && (var (s', ok) := AtomicReq(g.sync, cnt, addr, data);
          !ok && s'.atomics == [] && s'.cq == g.sync.cq)
  {
    Reached(n, term, es);
  }
}
