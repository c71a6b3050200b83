/** The counters of a descriptor against a ledger of what was given to PDS and what came back. */
module TxLedger {
  import opened PdcTypes
  import opened TxMachine

  datatype Ledger = Ledger(
    given: nat,                 // packets PDS took, requests to cancel included
    reported: nat,              // responses, cumulative acknowledgements and errors
    asked: nat,                 // read requests
    answered: nat)              // read responses

  function InitLedger(): Ledger {
    Ledger(0, 0, 0, 0)
  }

  /** A read that fails or times out is settled as a whole. */
  ghost function Enter(l: Ledger, d: Desc, e: Event): Ledger
    requires Enabled(d, e)
  {
    match e
    case EvSent(_) => l.(given := l.given + 1, asked := if d.kind == ReadReq then l.asked + 1 else l.asked)
    case EvCancel(sent, _) => if sent && d.remaining > 0 then l.(given := l.given + 1) else l
    case EvRsp(_, answers) => l.(reported := l.reported + 1, answered := if answers then l.answered + 1 else l.answered)
    case EvCack => l.(reported := l.reported + 1)
    case EvPdsErr => l.(reported := l.reported + 1)
    case EvReadData => l.(answered := l.answered + 1)
    case EvReadTimeout => l.(answered := l.asked)
    case EvTransition => if d.state == Err && d.unack == 0 && d.kind == ReadReq then l.(answered := l.asked) else l
    case EvSendErr => l
    case EvGotRtr => l
  }

  ghost function Entered(l: Ledger, d: Desc, es: seq<Event>, max: Option<nat>): Ledger
    requires ValidRun(d, es, max)
    decreases |es|
  {
    if es == [] then l else Entered(Enter(l, d, es[0]), Apply(d, es[0], max), es[1..], max)
  }

  ghost predicate Balanced(l: Ledger, d: Desc) {
    l.given == l.reported + d.unack && l.asked == l.answered + d.expectedRd
  }

  lemma StepBalances(l: Ledger, d: Desc, e: Event, max: Option<nat>)
    requires Balanced(l, d) && Enabled(d, e)
    ensures Balanced(Enter(l, d, e), Apply(d, e, max))
  {
  }

  lemma {:induction false} RunBalances(l: Ledger, d: Desc, es: seq<Event>, max: Option<nat>)
    requires Balanced(l, d) && ValidRun(d, es, max)
    ensures Balanced(Entered(l, d, es, max), Run(d, es, max))
    decreases |es|
  {
    if es != [] {
      StepBalances(l, d, es[0], max);
      RunBalances(Enter(l, d, es[0]), Apply(d, es[0], max), es[1..], max);
    }
  }

  /**
    In every run unack_pkts is the number of packets PDS took and has not reported on, and a read waits for exactly
    the responses it asked for and did not get; so a descriptor that is complete was given as many reports as packets.
   */
  lemma CountersExact(kind: Kind, len: nat, es: seq<Event>, max: Option<nat>)
    requires ValidRun(InitDesc(kind, len), es, max)
    ensures var d := Run(InitDesc(kind, len), es, max); var l := Entered(InitLedger(), InitDesc(kind, len), es, max);
      && d.unack == l.given - l.reported && d.expectedRd == l.asked - l.answered
      && (d.state == Complete ==> l.given == l.reported && l.asked == l.answered)
  {
    RunBalances(InitLedger(), InitDesc(kind, len), es, max);
    RunKeeps(InitDesc(kind, len), es, max);
    NoReads(InitLedger(), InitDesc(kind, len), es, max);
  }

  /** Only a read asks for read responses. */
  lemma {:induction false} NoReads(l: Ledger, d: Desc, es: seq<Event>, max: Option<nat>)
    requires Balanced(l, d) && ValidRun(d, es, max)
    requires d.kind != ReadReq ==> l.asked == l.answered
    ensures Run(d, es, max).kind == d.kind
    ensures d.kind != ReadReq ==> Entered(l, d, es, max).asked == Entered(l, d, es, max).answered
    decreases |es|
  {
    if es != [] {
      StepBalances(l, d, es[0], max);
      SameKind(d, es[0], max);
      NoReads(Enter(l, d, es[0]), Apply(d, es[0], max), es[1..], max);
    }
  }
}
