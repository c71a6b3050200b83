/** The peer's advertised range: the one in force is that of the newest ACK, however ACKs are reordered. */
module MprLimit {
  import opened PdcTypes
  import opened Psn
  import opened TxWindow

  datatype Advert = Advert(cack: int, mpr: nat)

  /** A sequence of advertisements, as they arrive. */
  function ApplyAll(t: Tx, ads: seq<Advert>): Tx {
    if ads == [] then t else ApplyMpr(ApplyAll(t, ads[..|ads| - 1]), ads[|ads| - 1].cack, ads[|ads| - 1].mpr)
  }

  /** The first to arrive of those with the highest cumulative ACK. */
  ghost predicate Newest(ads: seq<Advert>, i: nat) {
    && i < |ads|
    && (forall j :: 0 <= j < |ads| ==> ads[j].cack <= ads[i].cack)
    && (forall j :: 0 <= j < i ==> ads[j].cack < ads[i].cack)
  }

  /** Whatever order the ACKs of a new PDC arrive in, the range in force is that of the newest of them. */
  lemma {:induction false} NewestCounts(start: int, ads: seq<Advert>) returns (i: nat)
    requires ads != []
    ensures Newest(ads, i)
    ensures var t := ApplyAll(InitTx(start), ads); t.peerRange == ads[i].mpr * MPR && t.mprCack == Some(ads[i].cack)
  {
    var n := |ads| - 1;
    if n == 0 {
      i := 0;
      assert ads[..0] == [];
    } else {
      var last := ads[..n];
      var k := NewestCounts(start, last);
      assert forall j :: 0 <= j < n ==> last[j] == ads[j];
      i := if ads[n].cack > ads[k].cack then n else k;
    }
  }

  /** An ACK that is not refused advertises a range just if it has an ACK_CC extension, and does nothing else to it. */
  lemma AckAdvertises(t: Tx, m: Msg)
    requires TxValid(t) && m.Ack? && Judge(t, m.psn, m.cack) != Rejected
    ensures var t' := AckTx(t, m); var u := if m.cc.Some? then ApplyAll(t, [Advert(m.cack, m.cc.value.mpr)]) else t;
      t'.peerRange == u.peerRange && t'.mprCack == u.mprCack
  {
    ShiftTxSpec(MergeAck(t, m));
    if m.cc.Some? { assert [Advert(m.cack, m.cc.value.mpr)][..0] == []; }
  }
}
