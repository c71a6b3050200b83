/**
  The initiator's half of a RUD PDC as a value: the transmit bitmap, its base, and what
  sending, acknowledgement, dropping and draining do to it.
 */
module TxWindow {
  import opened PdcTypes
  import opened Psn

  datatype TxPkt = TxPkt(clear: int, handle: nat, acked: bool, dstRecvd: bool)

  datatype Tx = Tx(
    next: int,                  // next_psn
    base: int,                  // tx_bm_base_psn
    bm: map<int, TxPkt>,        // tx_bm, keyed by PSN
    maxCack: int,               // max_cack_psn
    peerRange: nat,             // peer_mp_range
    mprCack: Option<int>)       // mpr_update_cack_psn when mpr_update_valid

  function InitTx(start: int): Tx {
    Tx(start, start, map[], start - 1, MPR, None)
  }

  /** What the bitmap and the counters satisfy between operations. */
  ghost predicate TxValid(t: Tx) {
    && t.base <= t.next <= t.base + MPR
    && (forall p :: p in t.bm ==> t.base <= p < t.next)
    && t.maxCack < t.next
  }

  /** `uet_pds_tx_psn_allowed`. */
  predicate Allowed(t: Tx, psn: int) {
    && t.base <= psn < t.base + MPR
    && (t.peerRange == 0 || psn <= t.maxCack + t.peerRange)
  }

  /** `uet_pds_tx_pkt` once the PSN is allowed: track the packet and take the PSN. */
  function SendTx(t: Tx, handle: nat): Tx {
    t.(next := t.next + 1, bm := t.bm[t.next := TxPkt(t.base - 1, handle, false, false)])
  }

  datatype Verdict = Rejected | Duplicate | Fresh

  /** The checks at the head of `uet_pds_process_ack`. */
  function Judge(t: Tx, psn: int, cack: int): Verdict {
    if cack > t.next - 1 then Rejected
    else if t.base > psn then Duplicate
    else if psn >= t.base + MPR then Rejected
    else if psn !in t.bm then Rejected
    else if t.bm[psn].acked then Duplicate
    else Fresh
  }

  function MarkAcked(t: Tx, psn: int): Tx
    requires psn in t.bm
  {
    t.(bm := t.bm[psn := t.bm[psn].(acked := true)])
  }

  /** `uet_pds_process_mpr`. */
  function ApplyMpr(t: Tx, cack: int, mpr: nat): Tx {
    if t.mprCack.Some? && cack <= t.mprCack.value then t
    else t.(peerRange := mpr * MPR, mprCack := Some(cack))
  }

  /** The packets that `uet_pds_process_cack` reports to SES as implicitly acknowledged. */
  function NewlyCovered(t: Tx, cack: int): set<int> {
    set p | p in t.bm && !t.bm[p].acked && p <= Max(t.maxCack, cack)
  }

  /** The handles of the tracked, unacknowledged packets in `[lo, hi)`, in PSN order. */
  function PendingHandles(t: Tx, lo: int, hi: int): seq<nat>
    decreases hi - lo
  {
    if hi <= lo then []
    else
      PendingHandles(t, lo, hi - 1) +
      (if hi - 1 in t.bm && !t.bm[hi - 1].acked then [t.bm[hi - 1].handle] else [])
  }

  /** The handles that an acknowledgement completes cumulatively, after its explicit PSN is marked. */
  function CumulativeUpcalls(t: Tx, m: Msg): seq<nat>
    requires m.Ack? && Judge(t, m.psn, m.cack) != Rejected
  {
    var t1 := if Judge(t, m.psn, m.cack) == Fresh then MarkAcked(t, m.psn) else t;
    PendingHandles(t1, t.base, Max(t.maxCack, m.cack) + 1)
  }

  /** `uet_pds_process_cack`. */
  function ApplyCack(t: Tx, cack: int): Tx {
    var top := Max(t.maxCack, cack);
    t.(maxCack := top,
       bm := map p | p in t.bm :: if p <= top then t.bm[p].(acked := true) else t.bm[p])
  }

  /** `uet_pds_process_sack_bitmap`. */
  function ApplySack(t: Tx, sack: set<int>): Tx {
    t.(bm := map p | p in t.bm ::
               if p in sack && p > t.maxCack then t.bm[p].(dstRecvd := true) else t.bm[p])
  }

  /** `uet_pds_shift_tx_window`. */
  function ShiftTx(t: Tx): Tx
    decreases |t.bm|
  {
    if t.base in t.bm && t.bm[t.base].acked
    then ShiftTx(t.(base := t.base + 1, bm := t.bm - {t.base}))
    else t
  }

  /** What the MPR, the cumulative ACK and the SACK bits of an acknowledgement do, in that order. */
  function MergeFields(t: Tx, m: Msg): Tx
    requires m.Ack?
  {
    var t2 := if m.cc.Some? then ApplyMpr(t, m.cack, m.cc.value.mpr) else t;
    var t3 := ApplyCack(t2, m.cack);
    if m.cc.Some? then ApplySack(t3, m.cc.value.sack) else t3
  }

  /** What an acknowledgement that is not rejected marks in the window. */
  function MergeAck(t: Tx, m: Msg): Tx
    requires m.Ack? && Judge(t, m.psn, m.cack) != Rejected
  {
    MergeFields(if Judge(t, m.psn, m.cack) == Fresh then MarkAcked(t, m.psn) else t, m)
  }

  /** `uet_pds_process_ack` on an acknowledgement that is not rejected. */
  function AckTx(t: Tx, m: Msg): Tx
    requires m.Ack? && Judge(t, m.psn, m.cack) != Rejected
  {
    ShiftTx(MergeAck(t, m))
  }

  /** `uet_pds_drop_tx_pkts`: forget the unacknowledged packets that name a descriptor. */
  function DropTx(t: Tx, handle: nat): Tx {
    t.(bm := map p | p in t.bm && (t.bm[p].acked || t.bm[p].handle != handle) :: t.bm[p])
  }

  /** `uet_pdsm_drain_tx_pkts`: forget every unacknowledged packet. */
  function DrainTx(t: Tx): Tx {
    t.(bm := map p | p in t.bm && t.bm[p].acked :: t.bm[p])
  }

  /** The window only moves over acknowledged packets, and over all it can. */
  lemma {:induction false} ShiftTxSpec(t: Tx)
    ensures var s := ShiftTx(t);
      && t.base <= s.base
      && s == t.(base := s.base, bm := s.bm)
      && (forall p :: t.base <= p < s.base ==> p in t.bm && t.bm[p].acked)
      && s.bm == (map p | p in t.bm && !(t.base <= p < s.base) :: t.bm[p])
      && !(s.base in t.bm && t.bm[s.base].acked)
    decreases |t.bm|
  {
    if t.base in t.bm && t.bm[t.base].acked {
      var u := t.(base := t.base + 1, bm := t.bm - {t.base});
      ShiftTxSpec(u);
      forall p | t.base <= p < ShiftTx(t).base
        ensures p in t.bm && t.bm[p].acked
      {
        if p != t.base {
          assert p in u.bm && u.bm[p].acked;
        }
      }
    }
  }

  lemma ShiftTxValid(t: Tx)
    requires TxValid(t)
    ensures TxValid(ShiftTx(t))
  {
    ShiftTxSpec(t);
    assert t.next !in t.bm;
  }

  /** A packet of the window that counts as acknowledged once `m` has been processed. */
  predicate AckedAfter(t: Tx, m: Msg, p: int)
    requires m.Ack? && p in t.bm
  {
    t.bm[p].acked || p == m.psn || p <= Max(t.maxCack, m.cack)
  }

  /** What an acknowledgement does, said without the intermediate states. */
  ghost predicate AckEffect(t: Tx, m: Msg, t': Tx)
    requires m.Ack?
  {
    && TxValid(t') && t.base <= t'.base && t'.next == t.next
    && t'.maxCack == Max(t.maxCack, m.cack)
    && (t'.peerRange == t.peerRange || (m.cc.Some? && t'.peerRange == m.cc.value.mpr * MPR))
    && (t'.mprCack == t.mprCack || t'.mprCack == Some(m.cack))
    && (forall p :: t.base <= p < t'.base ==> p in t.bm && AckedAfter(t, m, p))
    && (forall p :: p in t'.bm <==> p in t.bm && p >= t'.base)
    && (forall p :: p in t'.bm ==>
          && t'.bm[p].clear == t.bm[p].clear && t'.bm[p].handle == t.bm[p].handle
          && t'.bm[p].acked == AckedAfter(t, m, p)
          && (t'.bm[p].dstRecvd ==> t.bm[p].dstRecvd || (m.cc.Some? && p in m.cc.value.sack)))
    && !(t'.base in t.bm && AckedAfter(t, m, t'.base))
  }

  lemma AckTxSpec(t: Tx, m: Msg)
    requires TxValid(t)
    requires m.Ack? && Judge(t, m.psn, m.cack) != Rejected
    ensures AckEffect(t, m, AckTx(t, m))
  {
    var t4 := MergeAck(t, m);
    MergeAckSpec(t, m);
    ShiftTxSpec(t4);
    ShiftTxValid(t4);
  }

  lemma MergeAckSpec(t: Tx, m: Msg)
    requires TxValid(t)
    requires m.Ack? && Judge(t, m.psn, m.cack) != Rejected
    ensures var t' := MergeAck(t, m);
      && TxValid(t') && t'.base == t.base && t'.next == t.next
      && t'.maxCack == Max(t.maxCack, m.cack)
      && (t'.peerRange == t.peerRange || (m.cc.Some? && t'.peerRange == m.cc.value.mpr * MPR))
      && (t'.mprCack == t.mprCack || t'.mprCack == Some(m.cack))
      && t'.bm.Keys == t.bm.Keys
      && (forall p :: p in t.bm ==>
            && t'.bm[p].clear == t.bm[p].clear && t'.bm[p].handle == t.bm[p].handle
            && t'.bm[p].acked == AckedAfter(t, m, p)
            && (t'.bm[p].dstRecvd ==> t.bm[p].dstRecvd || (m.cc.Some? && p in m.cc.value.sack)))
  {
    MergeFieldsSpec(if Judge(t, m.psn, m.cack) == Fresh then MarkAcked(t, m.psn) else t, m);
  }

  lemma MergeFieldsSpec(t: Tx, m: Msg)
    requires m.Ack?
    ensures var t' := MergeFields(t, m);
      && t'.base == t.base && t'.next == t.next && t'.maxCack == Max(t.maxCack, m.cack)
      && (t'.peerRange == t.peerRange || (m.cc.Some? && t'.peerRange == m.cc.value.mpr * MPR))
      && (t'.mprCack == t.mprCack || t'.mprCack == Some(m.cack))
      && t'.bm.Keys == t.bm.Keys
      && (forall p :: p in t.bm ==>
            && t'.bm[p].clear == t.bm[p].clear && t'.bm[p].handle == t.bm[p].handle
            && t'.bm[p].acked == (t.bm[p].acked || p <= Max(t.maxCack, m.cack))
            && (t'.bm[p].dstRecvd ==> t.bm[p].dstRecvd || (m.cc.Some? && p in m.cc.value.sack)))
  {
  }
}
