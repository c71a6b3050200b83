/** Transmit descriptors: the ring, the free list, the buffered ready-to-restart list and the send completion queue. */
module TxPool {
  import opened PdcTypes

  // ---------------------------------------------------------------- the ring

  /** `struct uet_ring`: one slot is always free, so `head == tail` means empty. */
  class Ring<T(0)> {
    const base: array<T>
    var head: nat
    var tail: nat

    ghost predicate Valid()
      reads this
    {
      base.Length > 0 && head < base.Length && tail < base.Length
    }

    /** The entries from the oldest to the newest. */
    ghost function Contents(): seq<T>
      reads this, base
      requires Valid()
    {
      if head >= tail then base[tail..head] else base[tail..] + base[..head]
    }

    /** `uet_ring_init`: room for `n` entries. */
    constructor (n: nat)
      ensures Valid() && fresh(base) && base.Length == n + 1 && Contents() == []
    {
      base := new T[n + 1];
      head, tail := 0, 0;
    }

    /** `uet_ring_entry_cnt`. */
    method EntryCnt() returns (n: nat)
      requires Valid()
      ensures n == |Contents()| < base.Length
    {
      if head >= tail {
        n := head - tail;
      } else {
        n := base.Length - (tail - head);
      }
    }

    /** `uet_ring_head_advance`: what stands in the head slot becomes the newest entry. */
    method HeadAdvance()
      requires Valid() && |Contents()| < base.Length - 1
      modifies this`head
      ensures Valid() && Contents() == old(Contents()) + [old(base[head])]
    {
      head := head + 1;
      if head == base.Length {
        head := 0;
      }
    }

    /** `uet_ring_tail_advance`: the oldest entry goes. */
    method TailAdvance()
      requires Valid() && |Contents()| > 0
      modifies this`tail
      ensures Valid() && Contents() == old(Contents())[1..]
    {
      tail := tail + 1;
      if tail == base.Length {
        tail := 0;
      }
    }

    /** `uet_tx_desc_ring_insert`. */
    method Insert(x: T)
      requires Valid() && |Contents()| < base.Length - 1
      modifies this`head, base
      ensures Valid() && Contents() == old(Contents()) + [x]
    {
      base[head] := x;
      assert Contents() == old(Contents());
      HeadAdvance();
    }

    /** `uet_tx_desc_ring_remove`: the oldest entry goes. */
    method Remove() returns (x: T)
      requires Valid() && |Contents()| > 0
      modifies this`tail
      ensures Valid() && Contents() == old(Contents())[1..] && x == old(Contents())[0]
    {
      x := base[tail];
      TailAdvance();
    }

    /** `uet_tx_desc_ring_rotate`: the oldest entry becomes the newest, even when the ring is full. */
    method Rotate()
      requires Valid() && |Contents()| > 0
      modifies this, base
      ensures Valid() && Contents() == old(Contents())[1..] + [old(Contents())[0]]
    {
      base[head] := base[tail];
      assert Contents() == old(Contents());
      TailAdvance();
      HeadAdvance();
    }
  }

  // ---------------------------------------------------------------- where descriptors are

  datatype Pool = Pool(
    avail: seq<nat>,            // the free list
    ring: seq<nat>,             // the tx ring, oldest first
    rtr: seq<nat>,              // buffered ready-to-restart messages, tagged and untagged
    cq: seq<nat>)               // the send completion queue, oldest first

  function Ids(n: nat): seq<nat> {
    if n == 0 then [] else Ids(n - 1) + [n - 1]
  }

  function InitPool(n: nat): Pool {
    Pool(Ids(n), [], [], [])
  }

  datatype Step =
    | PostSend                  // a send takes a descriptor and puts it on the ring
    | BufferRtr                 // a deferred message waits for a receive buffer
    | StartRtr(k: nat)          // a receive buffer arrives for entry `k`
    | AgeRtr(k: nat)            // entry `k` times out; it is the oldest tagged or the oldest untagged one
    | Rotate
    | Complete(post: bool)      // the oldest ring entry ends; `post` says whether it reports to the queue
    | CqRead

  function Take(s: seq<nat>, k: nat): seq<nat>
    requires k < |s|
  {
    s[..k] + s[k + 1..]
  }

  /** Every step does nothing when the container it takes from is empty. */
  function Apply(p: Pool, e: Step): Pool {
    match e
    case PostSend => if p.avail == [] then p else p.(avail := p.avail[1..], ring := p.ring + [p.avail[0]])
    case BufferRtr => if p.avail == [] then p else p.(avail := p.avail[1..], rtr := p.rtr + [p.avail[0]])
    case StartRtr(k) => if k >= |p.rtr| then p else p.(rtr := Take(p.rtr, k), ring := p.ring + [p.rtr[k]])
    case AgeRtr(k) => if k >= |p.rtr| then p else p.(rtr := Take(p.rtr, k), avail := [p.rtr[k]] + p.avail)
    case Rotate => if p.ring == [] then p else p.(ring := p.ring[1..] + [p.ring[0]])
    case Complete(post) =>
      if p.ring == [] then p
      else if post then p.(ring := p.ring[1..], cq := p.cq + [p.ring[0]])
      else p.(ring := p.ring[1..], avail := [p.ring[0]] + p.avail)
    case CqRead => if p.cq == [] then p else p.(cq := p.cq[1..], avail := [p.cq[0]] + p.avail)
  }

  ghost function All(p: Pool): multiset<nat> {
    multiset(p.avail) + multiset(p.ring) + multiset(p.rtr) + multiset(p.cq)
  }

  lemma Split(s: seq<nat>)
    requires s != []
    ensures multiset(s) == multiset{s[0]} + multiset(s[1..])
  {
    assert s == [s[0]] + s[1..];
  }

  lemma SplitAt(s: seq<nat>, k: nat)
    requires k < |s|
    ensures multiset(s) == multiset(Take(s, k)) + multiset{s[k]}
  {
    assert s == s[..k] + [s[k]] + s[k + 1..];
  }

  lemma RtrStepKeeps(p: Pool, e: Step)
    requires e.BufferRtr? || e.StartRtr? || e.AgeRtr?
    ensures All(Apply(p, e)) == All(p)
  {
    match e
    case BufferRtr => if p.avail != [] { Split(p.avail); }
    case StartRtr(k) => if k < |p.rtr| { SplitAt(p.rtr, k); }
    case AgeRtr(k) => if k < |p.rtr| { SplitAt(p.rtr, k); }
  }

  lemma StepKeeps(p: Pool, e: Step)
    ensures All(Apply(p, e)) == All(p)
  {
    match e
    case PostSend => if p.avail != [] { Split(p.avail); }
    case BufferRtr | StartRtr(_) | AgeRtr(_) => RtrStepKeeps(p, e);
    case Rotate => if p.ring != [] { Split(p.ring); }
    case Complete(_) => if p.ring != [] { Split(p.ring); }
    case CqRead => if p.cq != [] { Split(p.cq); }
  }

  function Run(p: Pool, es: seq<Step>): Pool
    decreases |es|
  {
    if es == [] then p else Run(Apply(p, es[0]), es[1..])
  }

  lemma {:induction false} RunKeeps(p: Pool, es: seq<Step>)
    ensures All(Run(p, es)) == All(p)
    decreases |es|
  {
    if es != [] {
      StepKeeps(p, es[0]);
      RunKeeps(Apply(p, es[0]), es[1..]);
    }
  }

  lemma {:induction false} InitAll(n: nat, d: nat)
    ensures multiset(Ids(n))[d] == (if d < n then 1 else 0) && |Ids(n)| == n
  {
    if n > 0 { InitAll(n - 1, d); }
  }

  /** In every run each descriptor is in exactly one place, once. */
  lemma OnePlaceEach(n: nat, es: seq<Step>, d: nat)
    requires d < n
    ensures var p := Run(InitPool(n), es);
      multiset(p.avail)[d] + multiset(p.ring)[d] + multiset(p.rtr)[d] + multiset(p.cq)[d] == 1
  {
    RunKeeps(InitPool(n), es);
    InitAll(n, d);
    assert All(Run(InitPool(n), es))[d] == All(InitPool(n))[d] == multiset(Ids(n))[d];
  }

  /** So the send completion queue, which has room for every descriptor, never overflows; nor does the ring. */
  lemma QueuesFit(n: nat, es: seq<Step>)
    ensures var p := Run(InitPool(n), es); |p.cq| <= n && |p.ring| <= n && |p.avail| + |p.ring| + |p.rtr| + |p.cq| == n
  {
    RunKeeps(InitPool(n), es);
    var p := Run(InitPool(n), es);
    assert |All(p)| == |p.avail| + |p.ring| + |p.rtr| + |p.cq|;
    InitAll(n, 0);
    assert All(InitPool(n)) == multiset(Ids(n)) && |multiset(Ids(n))| == n;
  }

  /** A pool that holds descriptors 0 to n - 1, each once. */
  ghost predicate Whole(p: Pool, n: nat) {
    All(p) == multiset(Ids(n))
  }

  lemma WholeKeeps(p: Pool, e: Step, n: nat)
    requires Whole(p, n)
    ensures Whole(Apply(p, e), n)
    ensures |p.avail| + |p.ring| + |p.rtr| + |p.cq| == n
  {
    StepKeeps(p, e);
    InitAll(n, 0);
    assert |All(p)| == |p.avail| + |p.ring| + |p.rtr| + |p.cq|;
    assert |multiset(Ids(n))| == n;
  }

  /** The entries that report, or those that do not, in order. */
  function Kept(s: seq<nat>, reports: nat -> bool, want: bool): (r: seq<nat>)
    ensures forall i :: 0 <= i < |r| ==> reports(r[i]) == want
  {
    if s == [] then []
    else
      var k := |s| - 1;
      Kept(s[..k], reports, want) + if reports(s[k]) == want then [s[k]] else []
  }

  function Reversed(s: seq<nat>): (r: seq<nat>)
    ensures |r| == |s| && forall i :: 0 <= i < |s| ==> r[i] == s[|s| - 1 - i]
  {
    seq(|s|, i requires 0 <= i < |s| => s[|s| - 1 - i])
  }

  /**
    The pool after the `n` oldest ring entries are completed in error.  A descriptor that stands for an operation
    of the application goes to the queue; a read response or RTR request goes back to the free list.
   */
  function Flushed(p: Pool, n: nat, reports: nat -> bool): Pool
    requires n <= |p.ring|
  {
    var out := p.ring[..n];
    Pool(Reversed(Kept(out, reports, false)) + p.avail, p.ring[n..], p.rtr, p.cq + Kept(out, reports, true))
  }

  lemma FlushedNone(p: Pool, reports: nat -> bool)
    ensures Flushed(p, 0, reports) == p
  {
  }

  lemma FlushedMore(p: Pool, n: nat, reports: nat -> bool)
    requires n < |p.ring|
    ensures Flushed(p, n + 1, reports) == Apply(Flushed(p, n, reports), Complete(reports(p.ring[n])))
  {
    var d := p.ring[n];
    assert p.ring[..n + 1][..n] == p.ring[..n];
    var was := Kept(p.ring[..n], reports, false);
    assert !reports(d) ==> Reversed(was + [d]) == [d] + Reversed(was);
  }

  // ---------------------------------------------------------------- the endpoint as it runs

  /** The descriptor bookkeeping of an endpoint; the two rings are held as their contents. */
  class TxEndpoint {
    const n: nat                        // num_tx_desc
    const cqRoom: nat                   // entries the send completion queue can hold
    var avail: seq<nat>
    var txRing: seq<nat>
    var rtr: seq<nat>
    var sendCq: seq<nat>

    ghost function Model(): Pool
      reads this
    {
      Pool(avail, txRing, rtr, sendCq)
    }

    ghost predicate Valid()
      reads this
    {
      Whole(Model(), n) && cqRoom >= n
    }

    /** The queue is bound with room for the larger of the size asked for and the number of descriptors. */
    constructor (numDesc: nat, cqSize: nat)
      ensures Valid() && n == numDesc && Model() == InitPool(numDesc)
    {
      n, cqRoom := numDesc, if cqSize < numDesc then numDesc else cqSize;
      avail, txRing, rtr, sendCq := Ids(numDesc), [], [], [];
    }

    /** The descriptor side of a send call. */
    method Send() returns (ok: bool)
      requires Valid()
      modifies this
      ensures Valid() && Model() == Apply(old(Model()), PostSend)
      ensures ok <==> old(avail) != []
    {
      WholeKeeps(Model(), PostSend, n);
      ok := avail != [];
      if ok {
        avail, txRing := avail[1..], txRing + [avail[0]];
      }
      assert Model() == Apply(old(Model()), PostSend);
    }

    /**
      `uet_tx_cq_post_entry` and `uet_tx_cq_post_err` on the oldest ring entry.  The code writes to the
      queue without asking whether it is full; the assertion shows that it never is.
     */
    method CqPost(post: bool)
      requires Valid() && txRing != []
      modifies this
      ensures Valid() && Model() == Apply(old(Model()), Complete(post))
    {
      WholeKeeps(Model(), Complete(post), n);
      var d := txRing[0];
      txRing := txRing[1..];
      if post {
        assert |sendCq| < cqRoom;
        sendCq := sendCq + [d];
      } else {
        avail := [d] + avail;
      }
      assert Model() == Apply(old(Model()), Complete(post));
    }

    /** `uet_tx_cq_read_entry`. */
    method CqReadEntry() returns (d: Option<nat>)
      requires Valid()
      modifies this
      ensures Valid() && Model() == Apply(old(Model()), CqRead)
      ensures d == if old(sendCq) == [] then None else Some(old(sendCq)[0])
    {
      WholeKeeps(Model(), CqRead, n);
      if sendCq == [] {
        return None;
      }
      d := Some(sendCq[0]);
      avail, sendCq := [sendCq[0]] + avail, sendCq[1..];
      assert Model() == Apply(old(Model()), CqRead);
    }

    method FlushOne(reports: nat -> bool, ghost p: Pool, ghost done: nat)
      requires Valid() && done < |p.ring| && Model() == Flushed(p, done, reports)
      modifies this
      ensures Valid() && Model() == Flushed(p, done + 1, reports) && |txRing| == |p.ring| - (done + 1)
    {
      FlushedMore(p, done, reports);
      CqPost(reports(txRing[0]));
    }

    /** `uet_ep_flush`: up to `max` descriptors, oldest first. */
    method Flush(max: nat, reports: nat -> bool) returns (done: nat)
      requires Valid()
      modifies this
      ensures Valid()
      ensures done == if max < |old(txRing)| then max else |old(txRing)|
      ensures Model() == Flushed(old(Model()), done, reports)
    {
      ghost var p := Model();
      done := 0;
      FlushedNone(p, reports);
      while done < max && txRing != []
        invariant Valid() && done <= max && done <= |p.ring| && |txRing| == |p.ring| - done
        invariant Model() == Flushed(p, done, reports)
        decreases max - done
      {
        FlushOne(reports, p, done);
        done := done + 1;
      }
    }
  }
}
