/**
  ROD at SES.  Messages to one destination carry sequence numbers; only the message whose number is
  next may be worked on, and the number moves on when a message completes.
 */
module RodSes {
  import opened PdcTypes

  /** A ROD descriptor on the tx ring. */
  datatype Entry = Entry(dest: nat, num: nat, begun: bool)

  datatype Done = Done(dest: nat, num: nat, ok: bool)

  datatype Sys = Sys(
    ring: seq<Entry>,               // the tx ring, oldest first
    alloc: map<nat, nat>,           // seq_num of each destination
    next: map<nat, nat>,            // next_tx_seq_num of each destination
    log: seq<Done>)                 // completions, in order

  function Num(m: map<nat, nat>, d: nat): nat {
    if d in m then m[d] else 0
  }

  /** A send call: if nothing else is on the ring, the message is handed to PDS at once. */
  function Post(s: Sys, dest: nat, began: bool): Sys {
    var e := Entry(dest, Num(s.alloc, dest), s.ring == [] && began);
    s.(ring := s.ring + [e], alloc := s.alloc[dest := Num(s.alloc, dest) + 1])
  }

  /** What comes of working on a descriptor. */
  datatype Work = Busy | Started | Again | Finished(ok: bool)

  /**
    One iteration of `uet_tx_msg_try`: the oldest descriptor is worked on if its number is next, and rotated
    otherwise.
   */
  function Visit(s: Sys, w: Work): Sys {
    if s.ring == [] then s
    else
      var e, rest := s.ring[0], s.ring[1..];
      if e.num != Num(s.next, e.dest) then s.(ring := rest + [e])
      else
        match w
        case Busy => s.(ring := rest + [e])
        case Started => s.(ring := rest + [e.(begun := true)])
        // uet_retx_msg: the next number is lowered to this one if it is past it
        case Again =>
          var n := if e.num < Num(s.next, e.dest) then e.num else Num(s.next, e.dest);
          s.(ring := rest + [e.(begun := false)], next := s.next[e.dest := n])
        case Finished(ok) =>
          s.(ring := rest, next := s.next[e.dest := Num(s.next, e.dest) + 1], log := s.log + [Done(e.dest, e.num, ok)])
  }

  datatype Event = EvPost(dest: nat, began: bool) | EvVisit(w: Work)

  function Apply(s: Sys, e: Event): Sys {
    match e
    case EvPost(dest, began) => Post(s, dest, began)
    case EvVisit(w) => Visit(s, w)
  }

  function Run(s: Sys, es: seq<Event>): Sys
    decreases |es|
  {
    if es == [] then s else Run(Apply(s, es[0]), es[1..])
  }

  function InitSys(): Sys {
    Sys([], map[], map[], [])
  }

  // ---------------------------------------------------------------- the invariant

  /** The entries of the ring for destination `d`. */
  function CountFor(ring: seq<Entry>, d: nat): nat {
    if ring == [] then 0 else (if ring[0].dest == d then 1 else 0) + CountFor(ring[1..], d)
  }

  /** The numbers completed for destination `d`, in order of completion. */
  function NumsFor(log: seq<Done>, d: nat): seq<nat> {
    if log == [] then []
    else NumsFor(log[..|log| - 1], d) + (if log[|log| - 1].dest == d then [log[|log| - 1].num] else [])
  }

  function UpTo(n: nat): seq<nat> {
    if n == 0 then [] else UpTo(n - 1) + [n - 1]
  }

  /** The entry is one of its destination's open messages, and is under way only if it is the next. */
  ghost predicate EntryOk(s: Sys, e: Entry) {
    Num(s.next, e.dest) <= e.num < Num(s.alloc, e.dest) && (e.begun ==> e.num == Num(s.next, e.dest))
  }

  ghost predicate Inv(s: Sys) {
    && (forall i :: 0 <= i < |s.ring| ==> EntryOk(s, s.ring[i]))
    && (forall i, j :: 0 <= i < j < |s.ring| && s.ring[i].dest == s.ring[j].dest ==> s.ring[i].num != s.ring[j].num)
    && (forall d :: CountFor(s.ring, d) + Num(s.next, d) == Num(s.alloc, d))
    && (forall d :: NumsFor(s.log, d) == UpTo(Num(s.next, d)))
  }

  lemma {:induction false} CountAppend(ring: seq<Entry>, e: Entry, d: nat)
    ensures CountFor(ring + [e], d) == CountFor(ring, d) + if e.dest == d then 1 else 0
  {
    if ring != [] {
      CountAppend(ring[1..], e, d);
      assert (ring + [e])[1..] == ring[1..] + [e];
    }
  }

  lemma LogAppend(log: seq<Done>, x: Done, d: nat)
    ensures NumsFor(log + [x], d) == NumsFor(log, d) + if x.dest == d then [x.num] else []
  {
  }

  lemma PostKeeps(s: Sys, dest: nat, began: bool)
    requires Inv(s)
    ensures Inv(Post(s, dest, began))
  {
    var s' := Post(s, dest, began);
    forall d ensures CountFor(s'.ring, d) + Num(s'.next, d) == Num(s'.alloc, d) {
      CountAppend(s.ring, s'.ring[|s.ring|], d);
    }
    forall i | 0 <= i < |s'.ring| ensures EntryOk(s', s'.ring[i]) {
      assert i < |s.ring| ==> EntryOk(s, s.ring[i]);
      assert s.ring == [] ==> CountFor(s.ring, dest) == 0;
    }
  }

  /** Rotating an entry, changed or not in whether it is under way. */
  lemma RotateKeeps(s: Sys, e: Entry, s': Sys)
    requires Inv(s) && s.ring != [] && e == s.ring[0].(begun := e.begun)
    requires s' == s.(ring := s.ring[1..] + [e], next := s'.next) && forall d :: Num(s'.next, d) == Num(s.next, d)
    requires EntryOk(s, e)
    ensures Inv(s')
  {
    forall d ensures CountFor(s'.ring, d) == CountFor(s.ring, d) {
      CountAppend(s.ring[1..], e, d);
    }
  }

  /** What completing the oldest ring entry, whose number is next, leaves. */
  ghost predicate Finishes(s: Sys, e: Entry, ok: bool, s': Sys) {
    && s.ring != [] && s.ring[0] == e && e.num == Num(s.next, e.dest)
    && s'.ring == s.ring[1..] && s'.alloc == s.alloc
    && (forall d :: Num(s'.next, d) == Num(s.next, d) + if d == e.dest then 1 else 0)
    && s'.log == s.log + [Done(e.dest, e.num, ok)]
  }

  lemma FinishEntry(s: Sys, e: Entry, ok: bool, s': Sys, i: nat)
    requires Inv(s) && Finishes(s, e, ok, s') && i < |s'.ring|
    ensures EntryOk(s', s'.ring[i])
  {
    assert s'.ring[i] == s.ring[i + 1];
    assert EntryOk(s, s.ring[i + 1]) && EntryOk(s, s.ring[0]);
  }

  lemma FinishLog(s: Sys, e: Entry, ok: bool, s': Sys, d: nat)
    requires Inv(s) && Finishes(s, e, ok, s')
    ensures NumsFor(s'.log, d) == UpTo(Num(s'.next, d))
  {
    LogAppend(s.log, Done(e.dest, e.num, ok), d);
  }

  lemma FinishDistinct(s: Sys, e: Entry, ok: bool, s': Sys)
    requires Inv(s) && Finishes(s, e, ok, s')
    ensures forall i, j :: 0 <= i < j < |s'.ring| && s'.ring[i].dest == s'.ring[j].dest ==> s'.ring[i].num != s'.ring[j].num
  {
    assert forall i :: 0 <= i < |s'.ring| ==> s'.ring[i] == s.ring[i + 1];
  }

  lemma FinishKeeps(s: Sys, e: Entry, ok: bool, s': Sys)
    requires Inv(s) && Finishes(s, e, ok, s')
    ensures Inv(s')
  {
    forall i | 0 <= i < |s'.ring| ensures EntryOk(s', s'.ring[i]) {
      FinishEntry(s, e, ok, s', i);
    }
    FinishDistinct(s, e, ok, s');
    forall d ensures NumsFor(s'.log, d) == UpTo(Num(s'.next, d)) {
      FinishLog(s, e, ok, s', d);
    }
    assert forall d :: CountFor(s.ring, d) == CountFor(s'.ring, d) + if e.dest == d then 1 else 0;
  }

  lemma VisitKeeps(s: Sys, w: Work)
    requires Inv(s)
    ensures Inv(Visit(s, w))
  {
    if s.ring != [] {
      var e := s.ring[0];
      assert EntryOk(s, e);
      if e.num == Num(s.next, e.dest) && w.Finished? {
        FinishKeeps(s, e, w.ok, Visit(s, w));
      } else {
        var s' := Visit(s, w);
        RotateKeeps(s, s'.ring[|s'.ring| - 1], s');
      }
    }
  }

  lemma {:induction false} RunKeeps(s: Sys, es: seq<Event>)
    requires Inv(s)
    ensures Inv(Run(s, es))
    decreases |es|
  {
    if es != [] {
      match es[0] {
        case EvPost(dest, began) => PostKeeps(s, dest, began);
        case EvVisit(w) => VisitKeeps(s, w);
      }
      RunKeeps(Apply(s, es[0]), es[1..]);
    }
  }

  // ---------------------------------------------------------------- the theorems

  /** At most one message per destination is under way, and it is the oldest one not completed. */
  lemma OneUnderWay(es: seq<Event>, i: nat, j: nat)
    requires var s := Run(InitSys(), es);
      i < |s.ring| && j < |s.ring| && s.ring[i].begun && s.ring[j].begun && s.ring[i].dest == s.ring[j].dest
    ensures i == j && Run(InitSys(), es).ring[i].num == Num(Run(InitSys(), es).next, Run(InitSys(), es).ring[i].dest)
  {
    RunKeeps(InitSys(), es);
    var s := Run(InitSys(), es);
    assert EntryOk(s, s.ring[i]) && EntryOk(s, s.ring[j]);
  }

  /** Completions to a destination, successes and errors alike, come out in the order the messages were posted. */
  lemma InPostingOrder(es: seq<Event>, d: nat)
    ensures var s := Run(InitSys(), es); NumsFor(s.log, d) == UpTo(Num(s.next, d))
  {
    RunKeeps(InitSys(), es);
  }

  // ---------------------------------------------------------------- the endpoint as it runs

  class RodEndpoint {
    var ring: seq<Entry>
    var seqNum: map<nat, nat>           // seq_num
    var nextTx: map<nat, nat>           // next_tx_seq_num
    ghost var log: seq<Done>

    ghost function Model(): Sys
      reads this
    {
      Sys(ring, seqNum, nextTx, log)
    }

    constructor ()
      ensures Model() == InitSys() && Inv(Model())
    {
      ring, seqNum, nextTx, log := [], map[], map[], [];
    }

    /** The ROD side of a send call. */
    method Send(dest: nat, accepted: bool)
      requires Inv(Model())
      modifies this
      ensures Model() == Post(old(Model()), dest, accepted) && Inv(Model())
    {
      PostKeeps(Model(), dest, accepted);
      var num := Num(seqNum, dest);
      seqNum := seqNum[dest := num + 1];
      ring := ring + [Entry(dest, num, false)];
      if |ring| == 1 && accepted {
        ring := [Entry(dest, num, true)];
      }
    }

    /** `uet_set_av_msg_tx_seq_num`: the number never rises, and other destinations keep theirs. */
    method SetTxSeqNum(dest: nat, num: nat)
      modifies this`nextTx
      ensures Num(nextTx, dest) <= num && Num(nextTx, dest) <= Num(old(nextTx), dest)
      ensures Num(nextTx, dest) in {num, Num(old(nextTx), dest)}
      ensures nextTx == old(nextTx)[dest := Num(nextTx, dest)]
    {
      var cur := Num(nextTx, dest);
      nextTx := nextTx[dest := if num < cur then num else cur];
    }

    /** The body of the loop in `uet_tx_msg_try`, for ROD descriptors. */
    method TryTail(w: Work)
      requires Inv(Model()) && ring != []
      modifies this
      ensures Model() == Visit(old(Model()), w) && Inv(Model())
    {
      VisitKeeps(Model(), w);
      var e := ring[0];
      ring := ring[1..];
      if e.num != Num(nextTx, e.dest) {
        ring := ring + [e];
      } else if w == Busy {
        ring := ring + [e];
      } else if w == Started {
        ring := ring + [e.(begun := true)];
      } else if w == Again {
        SetTxSeqNum(e.dest, e.num);
        ring := ring + [e.(begun := false)];
      } else {
        nextTx := nextTx[e.dest := Num(nextTx, e.dest) + 1];
        log := log + [Done(e.dest, e.num, w.ok)];
      }
    }

    /** `uet_tx_msg_try`: one visit to each descriptor at most, stopping when the ring is empty. */
    method TxMsgTry(works: seq<Work>)
      requires Inv(Model())
      modifies this
      ensures Inv(Model()) && Model() == Run(old(Model()), seq(|works|, i requires 0 <= i < |works| => EvVisit(works[i])))
    {
      ghost var es := seq(|works|, i requires 0 <= i < |works| => EvVisit(works[i]));
      var i := 0;
      while i < |works|
        invariant 0 <= i <= |works| && Inv(Model())
        invariant Run(Model(), es[i..]) == Run(old(Model()), es)
      {
        assert es[i..][1..] == es[i + 1..];
        if ring != [] {
          TryTail(works[i]);
        }
        i := i + 1;
      }
    }
  }
}
