/**
  Reliable ordered delivery.  The target keeps early packets in rx_bm and hands a consecutive
  run up to SES; the initiator lets one message at a time use a PDC.
 */
module Rod {
  import opened PdcTypes
  import opened Psn
  import opened RxWindow

  /** What SES answers to each PSN handed up during one call. */
  type Ses = int -> SesVerdict

  // ---------------------------------------------------------------- the target, as a value

  /** One accepted upcall: `uet_pds_upcall_ses_rx_req`, then the packet is marked reordered. */
  function HandUp(r: Rx, p: int, gtdDel: bool): Rx
    requires p in r.bm
  {
    var r1 := UpdateCack(r.(bm := r.bm[p := r.bm[p].(needsClear := gtdDel)]), r.bm[p].clear);
    r1.(bm := r1.bm[p := r1.bm[p].(reordered := true)])
  }

  /** The reorder loop from PSN `p` on: the new state and the PSNs that SES accepted. */
  function Deliver(r: Rx, p: int, ses: Ses): (Rx, seq<int>)
    decreases r.base + MPR - p
  {
    if p >= r.base + MPR || p !in r.bm then (r, [])
    else if r.bm[p].reordered then Deliver(r, p + 1, ses)
    else
      match ses(p)
      case Accept(g) => var (r', up) := Deliver(HandUp(r, p, g), p + 1, ses); (r', [p] + up)
      case _ => (r.(bm := r.bm - {p}), [])
  }

  function Place(r: Rx, psn: int, clear: int): Rx {
    r.(bm := r.bm[psn := RxPkt(clear, false, false, None)])
  }

  /** `uet_pds_process_request` for a ROD request; only a new PSN changes anything. */
  function Arrive(r: Rx, psn: int, clear: int, ses: Ses): (Rx, seq<int>) {
    if Classify(r, psn) != New then (r, [])
    else
      var (r', up) := Deliver(Place(r, psn, clear), r.base, ses);
      (ShiftRx(r'), up)
  }

  /** The first PSN at or above `p` that is not held. */
  function FirstAbsent(bm: map<int, RxPkt>, p: int, end: int): (f: int)
    requires p <= end
    ensures p <= f <= end
    ensures forall q :: p <= q < f ==> q in bm
    ensures f < end ==> f !in bm
    decreases end - p
  {
    if p < end && p in bm then FirstAbsent(bm, p + 1, end) else p
  }

  /** The PSN the target hands up next. */
  function Expect(r: Rx): int {
    FirstAbsent(r.bm, r.base, r.base + MPR)
  }

  /** Between calls: exactly the held packets below the first hole have been handed up. */
  ghost predicate RodInv(r: Rx) {
    && RxValid(r)
    && (forall p :: p in r.bm ==> (r.bm[p].reordered <==> p < Expect(r)))
    && (forall p :: p in r.bm && !r.bm[p].reordered ==> !r.bm[p].needsClear)
  }

  function Ascending(from: int, n: nat): (s: seq<int>)
    ensures |s| == n && forall i :: 0 <= i < n ==> s[i] == from + i
  {
    seq(n, i requires 0 <= i < n => from + i)
  }

  /** The highest clear PSN known once the packets in [p, end) have been handed up. */
  function Cleared(bm: map<int, RxPkt>, maxClear: int, p: int, end: int): int
    requires forall q :: p <= q < end ==> q in bm
    decreases end - p
  {
    if p < end then Cleared(bm, Max(maxClear, bm[p].clear), p + 1, end) else maxClear
  }

  /** How far one run of upcalls gets: up to the first hole or the first refusal. */
  function StopAt(bm: map<int, RxPkt>, p: int, end: int, ses: Ses): (s: int)
    requires p <= end
    ensures p <= s <= end
    ensures forall q :: p <= q < s ==> q in bm && ses(q).Accept?
    ensures s < end && s in bm ==> !ses(s).Accept?
    decreases end - p
  {
    if p < end && p in bm && ses(p).Accept? then StopAt(bm, p + 1, end, ses) else p
  }

  /**
    The case in which the loop loses packets: SES accepts the PSN that filled the hole, later
    refuses `s` in the same run, and no uncleared guaranteed response below `s` holds the
    cumulative ACK back.
   */
  ghost predicate Overrun(r: Rx, psn: int, clear: int, ses: Ses) {
    var bm := Place(r, psn, clear).bm;
    var h := Expect(r);
    var s := StopAt(bm, h, r.base + MPR, ses);
    && Classify(r, psn) == New
    && h < s < r.base + MPR && s in bm
    && forall q :: r.base <= q < s ==>
         (q in bm && (if q < h then bm[q].needsClear else ses(q) == Accept(true))) ==>
           q <= Cleared(bm, r.maxClear, h, s)
  }

  // ---------------------------------------------------------------- one call

  /** UpdateCack looks only at presence and needs_clear. */
  lemma FrontierSame(a: map<int, RxPkt>, b: map<int, RxPkt>, mc: int, p: int, end: int)
    requires p <= end
    requires forall q :: p <= q < end ==> Passable(a, mc, q) == Passable(b, mc, q)
    ensures Frontier(a, mc, p, end) == Frontier(b, mc, p, end)
  {
  }

  lemma {:induction false} SkipReordered(r: Rx, p: int, h: int, ses: Ses)
    requires p <= h <= r.base + MPR
    requires forall q :: p <= q < h ==> q in r.bm && r.bm[q].reordered
    ensures Deliver(r, p, ses) == Deliver(r, h, ses)
    decreases h - p
  {
    if p < h { SkipReordered(r, p + 1, h, ses); }
  }

  /** The packets from `p` to `s` are marked as handed up, and `s` itself is gone. */
  ghost predicate HandedUp(bm: map<int, RxPkt>, p: int, ses: Ses, s: int, bm': map<int, RxPkt>) {
    && (forall q :: q in bm' <==> q in bm && q != s)
    && (forall q :: q in bm' ==>
          bm'[q] == if p <= q < s then bm[q].(needsClear := ses(q) == Accept(true), reordered := true) else bm[q])
  }

  /** What the loop leaves behind, without its intermediate states. */
  ghost predicate Delivered(r: Rx, p: int, ses: Ses, s: int, r': Rx)
    requires p <= s && forall q :: p <= q < s ==> q in r.bm
  {
    && r'.base == r.base
    && r'.maxClear == Cleared(r.bm, r.maxClear, p, s)
    && HandedUp(r.bm, p, ses, s, r'.bm)
    && r'.cack == if s == p then r.cack else
         Frontier(if s in r.bm then r'.bm[s := r.bm[s]] else r'.bm, r'.maxClear, r.base, r.base + MPR) - 1
  }

  lemma HandUpSpec(r: Rx, p: int, g: bool)
    requires p in r.bm
    ensures var r1 := HandUp(r, p, g);
      && r1.base == r.base && r1.maxClear == Max(r.maxClear, r.bm[p].clear)
      && r1.bm == r.bm[p := r.bm[p].(needsClear := g, reordered := true)]
      && r1.cack == Frontier(r1.bm, r1.maxClear, r.base, r.base + MPR) - 1
  {
    var mc := Max(r.maxClear, r.bm[p].clear);
    FrontierSame(r.bm[p := r.bm[p].(needsClear := g)], r.bm[p := r.bm[p].(needsClear := g, reordered := true)],
      mc, r.base, r.base + MPR);
  }

  lemma {:induction false} StopSame(a: map<int, RxPkt>, b: map<int, RxPkt>, p: int, end: int, ses: Ses)
    requires p <= end && forall q :: p <= q < end ==> (q in a <==> q in b)
    ensures StopAt(a, p, end, ses) == StopAt(b, p, end, ses)
    decreases end - p
  {
  }

  lemma {:induction false} ClearedSame(a: map<int, RxPkt>, b: map<int, RxPkt>, mc: int, p: int, end: int)
    requires forall q :: p <= q < end ==> q in a && q in b && a[q].clear == b[q].clear
    ensures Cleared(a, mc, p, end) == Cleared(b, mc, p, end)
    decreases end - p
  {
    if p < end { ClearedSame(a, b, Max(mc, a[p].clear), p + 1, end); }
  }

  lemma HandedUpOneMore(bm: map<int, RxPkt>, p: int, ses: Ses, s: int, bm': map<int, RxPkt>)
    requires p < s && p in bm && ses(p).Accept?
    requires HandedUp(bm[p := bm[p].(needsClear := ses(p).gtdDel, reordered := true)], p + 1, ses, s, bm')
    ensures HandedUp(bm, p, ses, s, bm')
  {
  }

  lemma DeliveredOneMore(r: Rx, p: int, ses: Ses, r1: Rx, s: int, r': Rx)
    requires r.base <= p < s <= r.base + MPR && (forall q :: p <= q < s ==> q in r.bm) && ses(p).Accept?
    requires r1.base == r.base && r1.maxClear == Max(r.maxClear, r.bm[p].clear)
    requires r1.bm == r.bm[p := r.bm[p].(needsClear := ses(p).gtdDel, reordered := true)]
    requires r1.cack == Frontier(r1.bm, r1.maxClear, r.base, r.base + MPR) - 1
    requires Delivered(r1, p + 1, ses, s, r')
    ensures Delivered(r, p, ses, s, r')
  {
    ClearedSame(r.bm, r1.bm, r1.maxClear, p + 1, s);
    HandedUpOneMore(r.bm, p, ses, s, r'.bm);
    if s == p + 1 {
      assert (if s in r.bm then r'.bm[s := r.bm[s]] else r'.bm) == r1.bm;
    }
  }

  lemma DeliveredStep(r: Rx, p: int, ses: Ses, s: int, r': Rx)
    requires r.base <= p < s <= r.base + MPR && (forall q :: p <= q < s ==> q in r.bm) && ses(p).Accept?
    requires var r1 := HandUp(r, p, ses(p).gtdDel);
      (forall q :: p + 1 <= q < s ==> q in r1.bm) && Delivered(r1, p + 1, ses, s, r')
    ensures Delivered(r, p, ses, s, r')
  {
    HandUpSpec(r, p, ses(p).gtdDel);
    DeliveredOneMore(r, p, ses, HandUp(r, p, ses(p).gtdDel), s, r');
  }

  lemma DeliverStops(r: Rx, p: int, ses: Ses)
    requires r.base <= p <= r.base + MPR
    requires p in r.bm ==> p < r.base + MPR && !r.bm[p].reordered && !ses(p).Accept?
    ensures Deliver(r, p, ses).1 == []
    ensures Delivered(r, p, ses, p, Deliver(r, p, ses).0)
  {
  }

  lemma DeliverGoesOn(r: Rx, p: int, ses: Ses)
    requires p < r.base + MPR && p in r.bm && !r.bm[p].reordered && ses(p).Accept?
    ensures var r1 := HandUp(r, p, ses(p).gtdDel);
      && Deliver(r, p, ses).0 == Deliver(r1, p + 1, ses).0
      && Deliver(r, p, ses).1 == [p] + Deliver(r1, p + 1, ses).1
      && StopAt(r.bm, p, r.base + MPR, ses) == StopAt(r1.bm, p + 1, r.base + MPR, ses)
      && r1.base == r.base && r1.bm == r.bm[p := r1.bm[p]]
  {
    HandUpSpec(r, p, ses(p).gtdDel);
    StopSame(r.bm, HandUp(r, p, ses(p).gtdDel).bm, p + 1, r.base + MPR, ses);
  }

  /** Nothing at or above `p` has been handed up yet. */
  ghost predicate Untouched(r: Rx, p: int) {
    r.base <= p <= r.base + MPR && forall q :: q in r.bm && p <= q ==> q < r.base + MPR && !r.bm[q].reordered
  }

  lemma UntouchedAfter(r: Rx, p: int, g: bool)
    requires Untouched(r, p) && p in r.bm
    ensures Untouched(HandUp(r, p, g), p + 1)
  {
    HandUpSpec(r, p, g);
  }

  /** The loop hands up exactly the consecutive PSNs from `p` to the first hole or refusal. */
  lemma {:induction false} DeliverList(r: Rx, p: int, ses: Ses)
    requires Untouched(r, p)
    ensures var up := Deliver(r, p, ses).1;
      |up| == StopAt(r.bm, p, r.base + MPR, ses) - p && forall i :: 0 <= i < |up| ==> up[i] == p + i
    decreases r.base + MPR - p
  {
    if p in r.bm && ses(p).Accept? {
      DeliverGoesOn(r, p, ses);
      UntouchedAfter(r, p, ses(p).gtdDel);
      DeliverList(HandUp(r, p, ses(p).gtdDel), p + 1, ses);
    } else {
      DeliverStops(r, p, ses);
    }
  }

  lemma {:induction false} DeliverState(r: Rx, p: int, ses: Ses, s: int)
    requires Untouched(r, p) && s == StopAt(r.bm, p, r.base + MPR, ses)
    ensures Delivered(r, p, ses, s, Deliver(r, p, ses).0)
    decreases r.base + MPR - p
  {
    if p in r.bm && ses(p).Accept? {
      var r1 := HandUp(r, p, ses(p).gtdDel);
      assert Untouched(r1, p + 1) by { UntouchedAfter(r, p, ses(p).gtdDel); }
      assert s == StopAt(r1.bm, p + 1, r1.base + MPR, ses) by { DeliverGoesOn(r, p, ses); }
      DeliverState(r1, p + 1, ses, s);
      DeliverStateOn(r, p, ses, s);
    } else {
      DeliverStops(r, p, ses);
    }
  }

  lemma DeliverStateOn(r: Rx, p: int, ses: Ses, s: int)
    requires r.base <= p < s <= r.base + MPR && (forall q :: p <= q < s ==> q in r.bm) && ses(p).Accept? && !r.bm[p].reordered
    requires var r1 := HandUp(r, p, ses(p).gtdDel);
      (forall q :: p + 1 <= q < s ==> q in r1.bm) && Delivered(r1, p + 1, ses, s, Deliver(r1, p + 1, ses).0)
    ensures Delivered(r, p, ses, s, Deliver(r, p, ses).0)
  {
    DeliverGoesOn(r, p, ses);
    DeliveredStep(r, p, ses, s, Deliver(r, p, ses).0);
  }

  lemma FirstAbsentIs(bm: map<int, RxPkt>, p: int, end: int, f: int)
    requires p <= f <= end && (forall q :: p <= q < f ==> q in bm) && (f < end ==> f !in bm)
    ensures FirstAbsent(bm, p, end) == f
  {
  }

  /** The window after a run that left no hole behind it: the target now expects `s`. */
  lemma ShiftKeeps(r: Rx, s: int)
    requires r.base <= s <= r.base + MPR && s !in r.bm
    requires forall q :: q in r.bm ==> r.base <= q < r.base + MPR && (r.bm[q].reordered <==> q < s)
    requires forall q :: q in r.bm && !r.bm[q].reordered ==> !r.bm[q].needsClear
    requires forall q :: r.base <= q < s ==> q in r.bm
    requires r.base - 1 <= r.cack < s
    ensures RodInv(ShiftRx(r)) && Expect(ShiftRx(r)) == s
  {
    var r' := ShiftRx(r);
    FirstAbsentIs(r'.bm, r'.base, r'.base + MPR, s);
  }

  /** The window after an overrun: packets from `s` to the cumulative ACK are gone. */
  lemma ShiftPastHole(r: Rx, s: int)
    requires r.base <= s < r.cack + 1 <= r.base + MPR
    requires forall q :: q in r.bm ==> r.base <= q < r.base + MPR && (r.bm[q].reordered <==> q < s)
    requires forall q :: q in r.bm && !r.bm[q].reordered ==> !r.bm[q].needsClear
    requires r.cack + 1 !in r.bm
    ensures RodInv(ShiftRx(r)) && Expect(ShiftRx(r)) == r.cack + 1
  {
  }

  lemma ArriveHolds(r: Rx, psn: int, clear: int, ses: Ses, s: int, r2: Rx)
    requires RodInv(r) && Classify(r, psn) == New
    requires var h := Expect(r); var r1 := Place(r, psn, clear);
      s == StopAt(r1.bm, h, r.base + MPR, ses) && Delivered(r1, h, ses, s, r2)
    ensures var h := Expect(r);
      && r2.base == r.base && s !in r2.bm
      && (forall q :: q in r2.bm ==> r.base <= q < r.base + MPR && (r2.bm[q].reordered <==> q < s))
      && (forall q :: q in r2.bm && !r2.bm[q].reordered ==> !r2.bm[q].needsClear)
      && (forall q :: r.base <= q < s ==> q in r2.bm)
  {
  }

  lemma ArriveClean(r: Rx, psn: int, clear: int, ses: Ses, s: int, r2: Rx)
    requires RodInv(r) && Classify(r, psn) == New && !Overrun(r, psn, clear, ses)
    requires var h := Expect(r); var r1 := Place(r, psn, clear);
      s == StopAt(r1.bm, h, r.base + MPR, ses) && Delivered(r1, h, ses, s, r2)
    ensures RodInv(ShiftRx(r2)) && Expect(ShiftRx(r2)) == s
  {
    ArriveHolds(r, psn, clear, ses, s, r2);
    var h, end := Expect(r), r.base + MPR;
    var bm := Place(r, psn, clear).bm;
    var f := if s in bm then r2.bm[s := bm[s]] else r2.bm;
    if s > h {
      if s !in bm {
        assert s < end ==> !Passable(f, r2.maxClear, s);
      } else {
        var q :| r.base <= q < s && q in bm && (if q < h then bm[q].needsClear else ses(q) == Accept(true))
                 && q > Cleared(bm, r.maxClear, h, s);
        assert !Passable(f, r2.maxClear, q);
      }
    }
    ShiftKeeps(r2, s);
  }

  lemma ArriveOverruns(r: Rx, psn: int, clear: int, ses: Ses, s: int, r2: Rx)
    requires RodInv(r) && Overrun(r, psn, clear, ses)
    requires var h := Expect(r); var r1 := Place(r, psn, clear);
      s == StopAt(r1.bm, h, r.base + MPR, ses) && Delivered(r1, h, ses, s, r2)
    ensures RodInv(ShiftRx(r2)) && Expect(ShiftRx(r2)) > s
  {
    ArriveHolds(r, psn, clear, ses, s, r2);
    var h, end := Expect(r), r.base + MPR;
    var bm := Place(r, psn, clear).bm;
    var f := r2.bm[s := bm[s]];
    forall q | r.base <= q <= s ensures Passable(f, r2.maxClear, q) {
      assert q < s ==> q in r2.bm;
    }
    var c := Frontier(f, r2.maxClear, r.base, end);
    assert c >= end || !Passable(f, r2.maxClear, c);
    assert c !in r2.bm;
    ShiftPastHole(r2, s);
  }

  lemma PlacedAhead(r: Rx, psn: int, clear: int)
    requires RodInv(r) && Classify(r, psn) == New
    ensures var h, r1 := Expect(r), Place(r, psn, clear);
      Untouched(r1, h) && forall q :: r.base <= q < h ==> q in r1.bm && r1.bm[q].reordered
  {
  }

  /** A new PSN sets the loop going at the PSN expected, and it stops at `s`. */
  lemma ArriveRun(r: Rx, psn: int, clear: int, ses: Ses, s: int) returns (r2: Rx, up: seq<int>)
    requires RodInv(r) && Classify(r, psn) == New
    requires s == StopAt(Place(r, psn, clear).bm, Expect(r), r.base + MPR, ses)
    ensures Arrive(r, psn, clear, ses) == (ShiftRx(r2), up)
    ensures Delivered(Place(r, psn, clear), Expect(r), ses, s, r2)
    ensures |up| == s - Expect(r) && forall i :: 0 <= i < |up| ==> up[i] == Expect(r) + i
  {
    var h, r1 := Expect(r), Place(r, psn, clear);
    PlacedAhead(r, psn, clear);
    assert Deliver(r1, r.base, ses) == Deliver(r1, h, ses) by { SkipReordered(r1, r.base, h, ses); }
    r2, up := Deliver(r1, h, ses).0, Deliver(r1, h, ses).1;
    DeliverList(r1, h, ses);
    DeliverState(r1, h, ses, s);
  }

  /**
    One ROD request, whatever SES answers.  SES receives consecutive PSNs starting at the expected
    one, and the target then expects the PSN after the last of them exactly when the call does not
    overrun; if it does overrun, the PSNs in between can never be handed up.
   */
  lemma ArriveSpec(r: Rx, psn: int, clear: int, ses: Ses)
    requires RodInv(r)
    ensures var (r', up) := Arrive(r, psn, clear, ses);
      && RodInv(r')
      && (forall i :: 0 <= i < |up| ==> up[i] == Expect(r) + i)
      && Expect(r) + |up| <= Expect(r')
      && (Expect(r) + |up| == Expect(r') <==> !Overrun(r, psn, clear, ses))
  {
    if Classify(r, psn) == New {
      var s := StopAt(Place(r, psn, clear).bm, Expect(r), r.base + MPR, ses);
      var r2, up := ArriveRun(r, psn, clear, ses, s);
      if Overrun(r, psn, clear, ses) {
        ArriveOverruns(r, psn, clear, ses, s, r2);
      } else {
        ArriveClean(r, psn, clear, ses, s, r2);
      }
    }
  }

  /** Only packets that arrived are held or handed up. */
  lemma ArriveOnlyHeld(r: Rx, psn: int, clear: int, ses: Ses)
    requires RodInv(r)
    ensures var (r', up) := Arrive(r, psn, clear, ses);
      forall q :: q in r'.bm || q in up ==> q in r.bm || q == psn
  {
    if Classify(r, psn) == New {
      var s := StopAt(Place(r, psn, clear).bm, Expect(r), r.base + MPR, ses);
      var r2, up := ArriveRun(r, psn, clear, ses, s);
      forall q | q in up ensures q in Place(r, psn, clear).bm {
        var i :| 0 <= i < |up| && up[i] == q;
      }
    }
  }

  /** A CLEAR never moves the window past the next PSN to hand up. */
  lemma ClearKeeps(r: Rx, clear: int)
    requires RodInv(r)
    ensures RodInv(ClearRx(r, clear)) && Expect(ClearRx(r, clear)) == Expect(r)
  {
    var r1 := UpdateCack(r, clear);
    var h := Expect(r);
    assert h < r.base + MPR ==> !Passable(r.bm, r1.maxClear, h);
    ShiftKeeps(r1, h);
  }
}
