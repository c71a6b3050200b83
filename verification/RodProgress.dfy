/** ROD messages at SES get their turn. */
module RodProgress {
  import opened PdcTypes
  import opened RodSes

  /** The numbers of the messages to `d` on the ring. */
  ghost function NumsOf(ring: seq<Entry>, d: nat): set<nat> {
    if ring == [] then {} else NumsOf(ring[1..], d) + if ring[0].dest == d then {ring[0].num} else {}
  }

  lemma {:induction false} InNums(ring: seq<Entry>, d: nat, n: nat) returns (i: nat)
    requires n in NumsOf(ring, d)
    ensures i < |ring| && ring[i].dest == d && ring[i].num == n
  {
    if ring[0].dest == d && ring[0].num == n {
      i := 0;
    } else {
      var j := InNums(ring[1..], d, n);
      i := j + 1;
    }
  }

  lemma {:induction false} NumsCount(ring: seq<Entry>, d: nat)
    requires forall i, j :: 0 <= i < j < |ring| && ring[i].dest == ring[j].dest ==> ring[i].num != ring[j].num
    ensures |NumsOf(ring, d)| == CountFor(ring, d)
  {
    if ring != [] {
      NumsCount(ring[1..], d);
      if ring[0].dest == d && ring[0].num in NumsOf(ring[1..], d) {
        var i := InNums(ring[1..], d, ring[0].num);
        assert false;
      }
    }
  }

  ghost function Between(lo: nat, hi: nat): (s: set<nat>)
    requires lo <= hi
    ensures |s| == hi - lo && forall n :: n in s <==> lo <= n < hi
    decreases hi - lo
  {
    if lo == hi then {} else Between(lo, hi - 1) + {hi - 1}
  }

  lemma {:induction false} NumsInRange(ring: seq<Entry>, d: nat, lo: nat, hi: nat)
    requires lo <= hi && forall i :: 0 <= i < |ring| && ring[i].dest == d ==> lo <= ring[i].num < hi
    ensures NumsOf(ring, d) <= Between(lo, hi)
  {
    if ring != [] {
      assert forall i :: 0 <= i < |ring[1..]| ==> ring[1..][i] == ring[i + 1];
      NumsInRange(ring[1..], d, lo, hi);
    }
  }

  lemma SameSize(a: set<nat>, b: set<nat>)
    requires a <= b && |a| == |b|
    ensures a == b
  {
    assert b == a + (b - a);
  }

  /** As long as a destination has messages open, the one whose number is next is on the ring. */
  lemma NextIsOnRing(es: seq<Event>, d: nat) returns (i: nat)
    requires var s := Run(InitSys(), es); Num(s.next, d) < Num(s.alloc, d)
    ensures var s := Run(InitSys(), es);
      i < |s.ring| && s.ring[i].dest == d && s.ring[i].num == Num(s.next, d)
  {
    RunKeeps(InitSys(), es);
    var s := Run(InitSys(), es);
    var lo, hi := Num(s.next, d), Num(s.alloc, d);
    forall k | 0 <= k < |s.ring| && s.ring[k].dest == d ensures lo <= s.ring[k].num < hi {
      assert EntryOk(s, s.ring[k]);
    }
    NumsInRange(s.ring, d, lo, hi);
    NumsCount(s.ring, d);
    SameSize(NumsOf(s.ring, d), Between(lo, hi));
    i := InNums(s.ring, d, lo);
  }

  function Visits(works: seq<Work>): seq<Event> {
    seq(|works|, i requires 0 <= i < |works| => EvVisit(works[i]))
  }

  lemma VisitPasses(s: Sys, i: nat, w: Work)
    requires Inv(s) && 0 < i < |s.ring| && s.ring[i].num == Num(s.next, s.ring[i].dest)
    ensures var s' := Visit(s, w);
      && i - 1 < |s'.ring| && s'.ring[i - 1] == s.ring[i] && Num(s'.next, s.ring[i].dest) == s.ring[i].num
      && NumsFor(s'.log, s.ring[i].dest) == NumsFor(s.log, s.ring[i].dest)
  {
    var e, d := s.ring[0], s.ring[i].dest;
    assert e.dest == d ==> e.num != s.ring[i].num;
    VisitKeeps(s, w);
  }

  /**
    Visits to the descriptors before it bring the next message of a destination to the front, whatever they come
    to.
   */
  lemma {:induction false} ComesToFront(s: Sys, i: nat, works: seq<Work>)
    requires Inv(s) && i == |works| < |s.ring| && s.ring[i].num == Num(s.next, s.ring[i].dest)
    ensures var t := Run(s, Visits(works));
      && Inv(t) && t.ring != [] && t.ring[0] == s.ring[i] && Num(t.next, s.ring[i].dest) == s.ring[i].num
    decreases i
  {
    if i > 0 {
      VisitPasses(s, i, works[0]);
      VisitKeeps(s, works[0]);
      ComesToFront(Visit(s, works[0]), i - 1, works[1..]);
      assert Visits(works)[1..] == Visits(works[1..]);
    }
  }

  /**
    In every run, a pass over the ring reaches the next message of every destination that has one open, and if that
    message is then finished, its completion, with its own result, is the next one of that destination.
   */
  lemma NextCompletes(es: seq<Event>, d: nat, works: seq<Work>, ok: bool) returns (i: nat)
    requires var s := Run(InitSys(), es); Num(s.next, d) < Num(s.alloc, d) && |works| >= |s.ring|
    ensures var s := Run(InitSys(), es);
      && i < |s.ring|
      && var t := Run(s, Visits(works[..i])); var t' := Apply(t, EvVisit(Finished(ok)));
      && Num(t'.next, d) == Num(s.next, d) + 1
      && t'.log == t.log + [Done(d, Num(s.next, d), ok)]
  {
    i := NextIsOnRing(es, d);
    RunKeeps(InitSys(), es);
    ComesToFront(Run(InitSys(), es), i, works[..i]);
  }

  /** Message `n` to `d` is under way. */
  ghost predicate UnderWay(s: Sys, d: nat, n: nat) {
    exists i :: 0 <= i < |s.ring| && s.ring[i] == Entry(d, n, true)
  }

  /** Message `n` to `d` is the one this visit works on. */
  ghost predicate Worked(s: Sys, d: nat, n: nat) {
    s.ring != [] && s.ring[0].dest == d && s.ring[0].num == n == Num(s.next, d)
  }

  lemma InRing(ring: seq<Entry>, x: Entry)
    ensures x in ring <==> exists i :: 0 <= i < |ring| && ring[i] == x
  {
  }

  lemma Turned(ring: seq<Entry>, last: Entry, x: Entry)
    requires ring != []
    ensures x in ring[1..] + [last] <==> x == last || x in ring[1..]
    ensures x in ring <==> x == ring[0] || x in ring[1..]
  {
    assert ring == [ring[0]] + ring[1..];
  }

  lemma NotBehind(s: Sys, x: Entry)
    requires Inv(s) && s.ring != [] && x.dest == s.ring[0].dest && x.num == s.ring[0].num
    ensures x !in s.ring[1..]
  {
    var rest := s.ring[1..];
    forall i | 0 <= i < |rest| ensures rest[i] != x {
      assert rest[i] == s.ring[i + 1];
    }
  }

  /**
    A visit leaves a message under way or not as it was, except the one it works on, which starts, goes on or
    stops.
   */
  lemma UnderWayIff(s: Sys, w: Work, d: nat, n: nat)
    requires Inv(s)
    ensures UnderWay(Visit(s, w), d, n) <==>
      if Worked(s, d, n) then w == Started || (w == Busy && s.ring[0].begun) else UnderWay(s, d, n)
  {
    var x := Entry(d, n, true);
    InRing(s.ring, x);
    InRing(Visit(s, w).ring, x);
    if s.ring != [] {
      var e := s.ring[0];
      Turned(s.ring, e, x);
      Turned(s.ring, e.(begun := true), x);
      Turned(s.ring, e.(begun := false), x);
      if Worked(s, d, n) { NotBehind(s, x); }
    }
  }
}
