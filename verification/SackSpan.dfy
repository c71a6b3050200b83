/** Where coalesced ACKs start their SACK bitmaps: a packet just accepted is reported by one of the next three. */
module SackSpan {
  import opened PdcTypes
  import opened Psn
  import opened RxWindow
  import RxSide

  /** Where the bitmap of the `i`-th ACK from here on starts, if nothing else arrives. */
  function Span(track: int, maxRcvd: int, i: nat): int {
    if i == 0 then track else RxSide.NextSpan(Span(track, maxRcvd, i - 1), maxRcvd)
  }

  lemma {:induction false} SpanAt(track: int, maxRcvd: int, i: nat)
    requires maxRcvd >= track + 64 * i
    ensures Span(track, maxRcvd, i) == track + 64 * i
  {
    if i > 0 {
      SpanAt(track, maxRcvd, i - 1);
    }
  }

  /** The bitmaps stop at the one that reaches the highest PSN received. */
  lemma SpansEnd(track: int, maxRcvd: int)
    requires maxRcvd <= track + 63
    ensures RxSide.NextSpan(track, maxRcvd) == track
  {
  }

  /** An accepted packet above the cumulative ACK is in the range of one of the next three bitmaps. */
  lemma ReportedSoon(r: Rx, track: int, maxRcvd: int, start: int, psn: int, clear: int, k: RxPkt) returns (i: nat)
    requires RxValid(r) && start <= r.base && Classify(r, psn) == New && RxSide.SackInv(r, track, maxRcvd, start)
    requires UpdateCack(r.(bm := r.bm[psn := k]), clear).cack < psn
    ensures var r1 := UpdateCack(r.(bm := r.bm[psn := k]), clear);
      var from := Span(RxSide.FollowCack(track, r1.cack, psn), Max(maxRcvd, psn), i);
      i < 3 && from <= psn < from + 64
  {
    RxSide.FollowKeeps(r, track, maxRcvd, start, psn, clear, k);
    var t := RxSide.FollowCack(track, UpdateCack(r.(bm := r.bm[psn := k]), clear).cack, psn);
    i := if psn < t + 64 then 0 else if psn < t + 128 then 1 else 2;
    SpanAt(t, Max(maxRcvd, psn), i);
  }

  /** A packet the cumulative ACK covers moves the start of the bitmap up to it, and never past it. */
  lemma FollowsCack(track: int, cack: int, psn: int)
    requires psn <= cack
    ensures RxSide.FollowCack(track, cack, psn) == Max(track, cack)
  {
  }
}
