/** Descriptors and completions against logs of what was taken and given back. */
module TxFlow {
  import opened TxPool

  datatype Flow = Flow(
    pool: Pool,
    taken: seq<nat>,            // descriptors taken from the free list, by sends and deferred messages
    freed: seq<nat>,            // descriptors given back
    started: seq<nat>,          // descriptors put on the ring
    ended: seq<nat>,            // descriptors that left it
    posted: seq<nat>,           // those that reported to the completion queue
    read: seq<nat>)             // completions read, in order

  function InitFlow(n: nat): Flow {
    Flow(InitPool(n), [], [], [], [], [], [])
  }

  /** What each step is for: a step whose list is empty takes nothing. */
  function Log(f: Flow, e: Step): Flow {
    var p := f.pool;
    var g := f.(pool := Apply(p, e));
    match e
    case PostSend => if p.avail == [] then g else g.(taken := f.taken + [p.avail[0]], started := f.started + [p.avail[0]])
    case BufferRtr => if p.avail == [] then g else g.(taken := f.taken + [p.avail[0]])
    case StartRtr(k) => if k >= |p.rtr| then g else g.(started := f.started + [p.rtr[k]])
    case AgeRtr(k) => if k >= |p.rtr| then g else g.(freed := f.freed + [p.rtr[k]])
    case Rotate => g
    case Complete(post) =>
      if p.ring == [] then g
      else if post then g.(ended := f.ended + [p.ring[0]], posted := f.posted + [p.ring[0]])
      else g.(ended := f.ended + [p.ring[0]], freed := f.freed + [p.ring[0]])
    case CqRead => if p.cq == [] then g else g.(read := f.read + [p.cq[0]], freed := f.freed + [p.cq[0]])
  }

  function Logs(f: Flow, es: seq<Step>): Flow
    decreases |es|
  {
    if es == [] then f else Logs(Log(f, es[0]), es[1..])
  }

  /** How often `d` is in `s`. */
  function Count(s: seq<nat>, d: nat): nat {
    if s == [] then 0 else (if s[0] == d then 1 else 0) + Count(s[1..], d)
  }

  /** How often descriptor `d` was taken and given back says whether it is free. */
  ghost predicate FreeInv(f: Flow, d: nat, n: nat) {
    Count(f.taken, d) + Count(f.pool.avail, d) == (if d < n then 1 else 0) + Count(f.freed, d)
  }

  /** What was started and has not ended is on the ring. */
  ghost predicate RingInv(f: Flow, d: nat) {
    Count(f.started, d) == Count(f.ended, d) + Count(f.pool.ring, d)
  }

  /** Completions leave the queue in the order they entered it. */
  ghost predicate QueueInv(f: Flow) {
    f.posted == f.read + f.pool.cq
  }

  lemma {:induction false} Append(s: seq<nat>, x: nat, d: nat)
    ensures Count(s + [x], d) == Count(s, d) + if x == d then 1 else 0
  {
    if s != [] {
      Append(s[1..], x, d);
      assert (s + [x])[1..] == s[1..] + [x];
    }
  }

  lemma Prepend(s: seq<nat>, x: nat, d: nat)
    ensures Count([x] + s, d) == Count(s, d) + if x == d then 1 else 0
  {
    assert ([x] + s)[1..] == s;
  }

  lemma {:induction false} CountIds(n: nat, d: nat)
    ensures Count(Ids(n), d) == if d < n then 1 else 0
  {
    if n > 0 {
      CountIds(n - 1, d);
      Append(Ids(n - 1), n - 1, d);
    }
  }

  lemma LogFree(f: Flow, e: Step, d: nat, n: nat)
    requires FreeInv(f, d, n)
    ensures FreeInv(Log(f, e), d, n)
  {
    var p := f.pool;
    match e
    case PostSend => if p.avail != [] { Append(f.taken, p.avail[0], d); }
    case BufferRtr => if p.avail != [] { Append(f.taken, p.avail[0], d); }
    case StartRtr(_) =>
    case AgeRtr(k) => if k < |p.rtr| { Prepend(p.avail, p.rtr[k], d); Append(f.freed, p.rtr[k], d); }
    case Rotate =>
    case Complete(_) => if p.ring != [] { Prepend(p.avail, p.ring[0], d); Append(f.freed, p.ring[0], d); }
    case CqRead => if p.cq != [] { Prepend(p.avail, p.cq[0], d); Append(f.freed, p.cq[0], d); }
  }

  lemma LogRing(f: Flow, e: Step, d: nat)
    requires RingInv(f, d)
    ensures RingInv(Log(f, e), d)
  {
    var p := f.pool;
    match e
    case PostSend => if p.avail != [] { Append(p.ring, p.avail[0], d); Append(f.started, p.avail[0], d); }
    case BufferRtr =>
    case StartRtr(k) => if k < |p.rtr| { Append(p.ring, p.rtr[k], d); Append(f.started, p.rtr[k], d); }
    case AgeRtr(_) =>
    case Rotate => if p.ring != [] { Append(p.ring[1..], p.ring[0], d); }
    case Complete(_) => if p.ring != [] { Append(f.ended, p.ring[0], d); }
    case CqRead =>
  }

  lemma LogQueue(f: Flow, e: Step)
    requires QueueInv(f)
    ensures QueueInv(Log(f, e))
  {
  }

  lemma {:induction false} LogsKeep(f: Flow, es: seq<Step>, d: nat, n: nat)
    requires FreeInv(f, d, n) && RingInv(f, d) && QueueInv(f)
    ensures var g := Logs(f, es); FreeInv(g, d, n) && RingInv(g, d) && QueueInv(g)
    decreases |es|
  {
    if es != [] {
      LogFree(f, es[0], d, n);
      LogRing(f, es[0], d);
      LogQueue(f, es[0]);
      LogsKeep(Log(f, es[0]), es[1..], d, n);
    }
  }

  /** The pool of the logged run is the pool of the run. */
  lemma {:induction false} LogsPool(f: Flow, es: seq<Step>)
    ensures Logs(f, es).pool == Run(f.pool, es)
    decreases |es|
  {
    if es != [] {
      LogsPool(Log(f, es[0]), es[1..]);
    }
  }

  /**
    In every run completions are read in the order in which they were posted, none lost and none twice; what was
    started and has not ended is on the ring; and a descriptor is free if and only if it was given back as often as
    it was taken.
   */
  lemma NothingLost(n: nat, es: seq<Step>, d: nat)
    requires d < n
    ensures var f := Logs(InitFlow(n), es); var p := Run(InitPool(n), es);
      && f.posted == f.read + p.cq
      && Count(f.started, d) == Count(f.ended, d) + Count(p.ring, d)
      && Count(f.taken, d) + Count(p.avail, d) == 1 + Count(f.freed, d)
  {
    CountIds(n, d);
    LogsKeep(InitFlow(n), es, d, n);
    LogsPool(InitFlow(n), es);
  }

  /** In every run a send finds a descriptor if and only if fewer than all are on the ring, buffered or in the queue. */
  lemma SendIff(n: nat, es: seq<Step>)
    ensures var p := Run(InitPool(n), es); var p' := Apply(p, PostSend);
      if |p.ring| + |p.rtr| + |p.cq| < n then |p'.ring| == |p.ring| + 1 && p'.ring[..|p.ring|] == p.ring else p' == p
  {
    QueuesFit(n, es);
  }
}
