/** What a ROD target does with each packet that arrives, over whole runs: hold it, hand it up, or answer that it has it. */
module RodAnswers {
  import opened PdcTypes
  import opened Psn
  import opened RxWindow
  import opened Rod
  import opened RodOrder
  import RodSide

  /** PSN `q` can be handed up when `psn` arrives: all from the expected one up to it are there, and SES takes them. */
  ghost predicate Ready(r: Rx, psn: int, ses: Ses, q: int) {
    && Expect(r) <= q < r.base + MPR
    && forall x :: Expect(r) <= x <= q ==> (x == psn || x in r.bm) && ses(x).Accept?
  }

  lemma StopsWhenNotReady(r: Rx, psn: int, clear: int, ses: Ses, s: int, q: int)
    requires s == StopAt(Place(r, psn, clear).bm, Expect(r), r.base + MPR, ses)
    ensures Expect(r) <= q < s <==> Ready(r, psn, ses, q)
  {
    var bm := Place(r, psn, clear).bm;
    assert forall x :: x in bm <==> x == psn || x in r.bm;
    assert s < r.base + MPR ==> !(s in bm && ses(s).Accept?);
  }

  lemma Rises(up: seq<int>, h: int, s: int, q: int)
    requires |up| == s - h && forall i :: 0 <= i < |up| ==> up[i] == h + i
    ensures q in up <==> h <= q < s
  {
    if h <= q < s { assert up[q - h] == q; }
  }

  lemma HandsUpReady(r: Rx, psn: int, clear: int, ses: Ses, q: int)
    requires RodInv(r) && Classify(r, psn) == New
    ensures q in Arrive(r, psn, clear, ses).1 <==> Ready(r, psn, ses, q)
  {
    var s := StopAt(Place(r, psn, clear).bm, Expect(r), r.base + MPR, ses);
    StopsWhenNotReady(r, psn, clear, ses, s, q);
    var r2, up := ArriveRun(r, psn, clear, ses, s);
    Rises(up, Expect(r), s, q);
  }

  /** In every run a new PSN makes the target hand up exactly the packets that are then ready, and no others. */
  lemma HandedUpExactly(start: int, es: seq<Event>, psn: int, clear: int, ses: Ses, q: int)
    requires ValidRun(InitSys(start), es) && Classify(Reach(start, es).rx, psn) == New
    ensures var s := Reach(start, es); q in Arrive(s.rx, psn, clear, ses).1 <==> Ready(s.rx, psn, ses, q)
  {
    ReachInv(start, es);
    HandsUpReady(Reach(start, es).rx, psn, clear, ses, q);
  }

  /** A packet that comes early is held, and nothing else changes hands, until the packets before it have come. */
  lemma EarlyIsHeld(start: int, es: seq<Event>, psn: int, clear: int, ses: Ses)
    requires ValidRun(InitSys(start), es)
    requires var r := Reach(start, es).rx; Classify(r, psn) == New && psn != Expect(r)
    ensures var r := Reach(start, es).rx; var (r', up) := Arrive(r, psn, clear, ses);
      up == [] && r'.base == r.base && Expect(r') == Expect(r) && r'.bm.Keys == r.bm.Keys + {psn}
  {
    ReachInv(start, es);
    var r := Reach(start, es).rx;
    var h := Expect(r);
    assert h !in Place(r, psn, clear).bm;
    var r2, up := ArriveRun(r, psn, clear, ses, h);
    ArriveSpec(r, psn, clear, ses);
    assert r2.bm.Keys == r.bm.Keys + {psn};
  }

  /**
    As long as no call has overrun, a repeated packet near the window is acknowledged if and only if SES has accepted
    it; one that is held but not yet handed up is told so.
   */
  lemma AcknowledgedIffAccepted(start: int, es: seq<Event>, psn: int, syn: bool)
    requires ValidRun(InitSys(start), es) && !Reach(start, es).overran
    requires var r := Reach(start, es).rx; start <= psn && r.base - MPR <= psn < r.base + MPR && Classify(r, psn) != New
    ensures var s := Reach(start, es);
      && (RodSide.AnswerTo(s.rx, psn, syn) == RodSide.Acknowledged <==> psn in s.up)
      && (RodSide.AnswerTo(s.rx, psn, syn) == RodSide.StillWithSes <==> psn in s.rx.bm && psn !in s.up)
  {
    ReachInv(start, es);
    GaplessIff(start, es);
    var s := Reach(start, es);
    if psn < Expect(s.rx) {
      assert s.up[psn - start] == psn;
    }
  }

  /** In every run, overrun or not, what SES has accepted is acknowledged when it comes again. */
  lemma AcceptedIsAcknowledged(start: int, es: seq<Event>, psn: int, syn: bool)
    requires ValidRun(InitSys(start), es) && psn in Reach(start, es).up
    requires var r := Reach(start, es).rx; r.base - MPR <= psn
    ensures var r := Reach(start, es).rx; Classify(r, psn) != New && RodSide.AnswerTo(r, psn, syn) == RodSide.Acknowledged
  {
    ReachInv(start, es);
  }
}
