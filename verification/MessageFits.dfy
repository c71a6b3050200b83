/** A message goes into a receive buffer whole, or not at all. */
module MessageFits {
  import opened FlatMem
  import opened Reassembly

  /** A packet of a message that is too long for the buffer is refused, and nothing changes. */
  lemma TooLongRefused(s: Rx, msg: seq<Byte>, start: nat, mpl: nat, p: Piece)
    requires mpl > 0 && Fits(p, |msg|) && !s.started
    requires |s.buf| < start + |msg| < SIZE_SPACE
    ensures RxPkt(s, PktOf(msg, p), start, mpl) == (s, Refused)
  {
    NoWrap(start, |msg|);
  }

  lemma {:induction false} TooLongRun(a: Arrival, msg: seq<Byte>, start: nat, mpl: nat, order: seq<nat>)
    requires mpl > 0 && |a.got| == |Pieces(|msg|, mpl)| && Fresh(a.got, order) && !a.rx.started
    requires |a.rx.buf| < start + |msg| < SIZE_SPACE
    ensures Run(a, msg, start, mpl, order).rx == a.rx
    decreases |order|
  {
    if order != [] {
      PiecesTile(|msg|, mpl);
      assert Fits(Pieces(|msg|, mpl)[order[0]], |msg|);
      TooLongRefused(a.rx, msg, start, mpl, Pieces(|msg|, mpl)[order[0]]);
      TooLongRun(Take(a, msg, start, mpl, order[0]), msg, start, mpl, order[1..]);
    }
  }

  /**
    All packets of a message arrive, in any order.  If the message fits the buffer it is there, and one completion is
    posted; if it does not, not one byte is written, no completion is posted and the descriptor is not taken.
   */
  lemma WholeOrNothing(msg: seq<Byte>, buf0: seq<Byte>, start: nat, mpl: nat, order: seq<nat>)
    requires mpl > 0 && start + |msg| < SIZE_SPACE && |buf0| < SIZE_SPACE
    requires Fresh(Empty(buf0, |Pieces(|msg|, mpl)|).got, order)
    requires AllGot(Run(Empty(buf0, |Pieces(|msg|, mpl)|), msg, start, mpl, order).got)
    ensures var rx := Run(Empty(buf0, |Pieces(|msg|, mpl)|), msg, start, mpl, order).rx;
      && (rx.posted == 1 <==> start + |msg| <= |buf0|)
      && (if start + |msg| <= |buf0| then rx.buf == Splice(buf0, start, msg) && rx.posted == 1
          else rx.buf == buf0 && rx.posted == 0 && !rx.started)
  {
    if start + |msg| <= |buf0| {
      Reassembled(msg, buf0, start, mpl, order);
    } else {
      TooLongRun(Empty(buf0, |Pieces(|msg|, mpl)|), msg, start, mpl, order);
    }
  }
}
