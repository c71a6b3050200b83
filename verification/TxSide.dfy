/**
  The initiator side fields of `struct uet_pdc` and the functions that update them in place,
  with 32-bit PSNs, 16-bit wire offsets and a 128-slot bitmap.  The ghost field `model` is the
  unbounded-PSN window the object stands for; every method is proved to do to it what the
  corresponding function of module TxWindow does.
 */
module TxSide {
  import opened PdcTypes
  import opened Psn
  import opened TxWindow

  /** The PDS header fields of a built request that depend on PSNs. */
  datatype ReqHdr = ReqHdr(psn: u32, clearOff: i16)

  /** `struct uet_pdc_pkt` as tracked in tx_bm. */
  datatype PktDesc = PktDesc(hdr: ReqHdr, handle: nat, acked: bool, dstRecvd: bool)

  type Slots = seq<Option<PktDesc>>

  /** The fields of a received ACK after parsing. */
  datatype AckPkt = AckPkt(psn: u32, cack: u32, reqClear: bool, cc: Option<CcExt>)

  /** Its ACK_CC extension: `bits[i]` is bit `i` of the SACK bitmap. */
  datatype CcExt = CcExt(mpr: nat, sackBase: u32, bits: seq<bool>)

  // ---------------------------------------------------------------- slots and the window they show

  /** Bitmap slot `i` tracks packet `base + i`. */
  ghost predicate SlotsShow(slots: Slots, t: Tx) {
    && |slots| == MPR
    && (forall i :: 0 <= i < MPR ==> (slots[i].Some? <==> t.base + i in t.bm))
    && (forall i :: 0 <= i < MPR && slots[i].Some? ==> Tracks(slots[i].value, t.bm[t.base + i]))
  }

  ghost predicate Tracks(d: PktDesc, k: TxPkt) {
    d.handle == k.handle && d.acked == k.acked && d.dstRecvd == k.dstRecvd
  }

  /** The header built for packet `p` names its PSN, and its clear offset leads back to `clear`. */
  ghost predicate HdrOk(h: ReqHdr, p: int, clear: int) {
    h.psn == Wrap(p) && FromWire(h.psn, h.clearOff) == Wrap(clear)
  }

  ghost predicate HdrsOk(slots: Slots, t: Tx)
    requires SlotsShow(slots, t)
  {
    forall i :: 0 <= i < MPR && slots[i].Some? ==> HdrOk(slots[i].value.hdr, t.base + i, t.bm[t.base + i].clear)
  }

  lemma SlotIs(slots: Slots, t: Tx, p: int)
    requires SlotsShow(slots, t) && t.base <= p < t.base + MPR
    ensures slots[p - t.base].Some? <==> p in t.bm
    ensures p in t.bm ==> Tracks(slots[p - t.base].value, t.bm[p])
  {
    var i := p - t.base;
    assert slots[i].Some? <==> t.base + i in t.bm;
  }

  /** The slots with the first `n` packets marked acknowledged. */
  ghost function AckFirst(slots: Slots, n: int): Slots {
    seq(|slots|, i requires 0 <= i < |slots| =>
      if i < n && slots[i].Some? then Some(slots[i].value.(acked := true)) else slots[i])
  }

  /** The handles of the unacknowledged packets in the slots, in slot order. */
  function Pending(slots: Slots): seq<nat> {
    if slots == [] then []
    else
      var k := |slots| - 1;
      Pending(slots[..k]) + (if slots[k].Some? && !slots[k].value.acked then [slots[k].value.handle] else [])
  }

  lemma AckFirstShows(slots: Slots, t: Tx, cack: int)
    requires SlotsShow(slots, t) && TxValid(t) && HdrsOk(slots, t)
    ensures var n := Max(t.maxCack, cack) + 1 - t.base;
      SlotsShow(AckFirst(slots, n), ApplyCack(t, cack)) && HdrsOk(AckFirst(slots, n), ApplyCack(t, cack))
  {
  }

  lemma {:induction false} PendingShows(slots: Slots, t: Tx, n: nat)
    requires SlotsShow(slots, t) && n <= MPR
    ensures Pending(slots[..n]) == PendingHandles(t, t.base, t.base + n)
  {
    if n > 0 {
      PendingShows(slots, t, n - 1);
      assert slots[..n][..n - 1] == slots[..n - 1];
    }
  }

  lemma SendShows(slots: Slots, t: Tx, h: nat, hdr: ReqHdr)
    requires SlotsShow(slots, t) && TxValid(t) && HdrsOk(slots, t)
    requires t.next < t.base + MPR && HdrOk(hdr, t.next, t.base - 1)
    ensures var slots' := slots[t.next - t.base := Some(PktDesc(hdr, h, false, false))];
      SlotsShow(slots', SendTx(t, h)) && HdrsOk(slots', SendTx(t, h))
  {
  }

  lemma DropFirstShows(slots: Slots, t: Tx)
    requires SlotsShow(slots, t) && TxValid(t) && HdrsOk(slots, t)
    ensures var t' := t.(base := t.base + 1, bm := t.bm - {t.base});
      SlotsShow(slots[1..] + [None], t') && HdrsOk(slots[1..] + [None], t')
  {
  }

  lemma MarkShows(slots: Slots, t: Tx, i: nat)
    requires SlotsShow(slots, t) && HdrsOk(slots, t) && i < MPR && slots[i].Some?
    ensures var slots' := slots[i := Some(slots[i].value.(acked := true))];
      SlotsShow(slots', MarkAcked(t, t.base + i)) && HdrsOk(slots', MarkAcked(t, t.base + i))
  {
  }

  /** The slots after SACK bits `0..n` have been looked at; bit 0 belongs to slot `d`. */
  ghost function SackFirst(slots: Slots, bits: seq<bool>, n: int, d: int, floor: int): Slots
    requires n <= |bits|
  {
    seq(|slots|, k requires 0 <= k < |slots| =>
      if slots[k].Some? && k > floor && 0 <= k - d < n && bits[k - d]
      then Some(slots[k].value.(dstRecvd := true)) else slots[k])
  }

  lemma SackShows(slots: Slots, t: Tx, sb: int, bits: seq<bool>)
    requires SlotsShow(slots, t) && HdrsOk(slots, t)
    ensures var slots' := SackFirst(slots, bits, |bits|, sb - t.base, t.maxCack - t.base);
      var t' := ApplySack(t, SackSet(sb, bits));
      SlotsShow(slots', t') && HdrsOk(slots', t')
  {
    var slots' := SackFirst(slots, bits, |bits|, sb - t.base, t.maxCack - t.base);
    var t' := ApplySack(t, SackSet(sb, bits));
    forall i | 0 <= i < MPR && slots[i].Some?
      ensures t.base + i in t'.bm && Tracks(slots'[i].value, t'.bm[t.base + i])
      ensures slots'[i].value.hdr == slots[i].value.hdr && t'.bm[t.base + i].clear == t.bm[t.base + i].clear
    {
      assert t.base + i in SackSet(sb, bits) <==> Reported(sb, bits, t.base + i);
    }
  }

  // ---------------------------------------------------------------- the object

  class Initiator {
    var nextPsn: u32
    var txBmBase: u32
    var txBm: Slots
    var maxCack: u32
    var peerMpRange: nat
    var mprUpdateCack: u32
    var mprUpdateValid: bool

    ghost const start: int
    ghost var model: Tx

    ghost predicate CountersShow(t: Tx)
      reads this
    {
      && nextPsn == Wrap(t.next)
      && txBmBase == Wrap(t.base)
      && maxCack == Wrap(t.maxCack)
      && peerMpRange == t.peerRange
      && mprUpdateValid == t.mprCack.Some?
      && (mprUpdateValid ==> mprUpdateCack == Wrap(t.mprCack.value))
    }

    /** The fields show the model, and all PSNs in play span less than half the PSN space. */
    ghost predicate Valid()
      reads this
    {
      && CountersShow(model)
      && SlotsShow(txBm, model) && HdrsOk(txBm, model)
      && InSpan(model, start)
    }

    /** `uet_pdsm_assign_ini_pdc`: a new context at the given Start_PSN. */
    constructor (startPsn: int)
      ensures Valid() && start == startPsn && model == InitTx(startPsn)
    {
      start := startPsn;
      model := InitTx(startPsn);
      nextPsn := Wrap(startPsn);
      txBmBase := Wrap(startPsn);
      txBm := seq(MPR, _ => None);
      maxCack := Wrap(startPsn - 1);
      peerMpRange := MPR;
      mprUpdateCack := 0;
      mprUpdateValid := false;
    }

    /** `uet_pds_tx_psn_allowed` decides the same on 32-bit values as on the PSNs they stand for. */
    method TxPsnAllowed(psn: u32, ghost p: int) returns (ok: bool)
      requires Valid()
      requires psn == Wrap(p) && start <= p <= model.next
      ensures ok == Allowed(model, p)
    {
      assert InMpr(psn, txBmBase) == (model.base <= p < model.base + MPR) by { WindowExact(p, model.base); }
      ok := InMpr(psn, txBmBase);
      if ok && peerMpRange != 0 {
        var limit := Wrap(maxCack + peerMpRange);
        assert limit == Wrap(model.maxCack + model.peerRange) by { WrapDiff(model.maxCack, peerMpRange); }
        ok := !After(psn, limit);
        OffsetExact(p, model.maxCack + model.peerRange);
      }
    }

    /** Slot `idx` takes the packet that has just been built. */
    method Enqueue(idx: nat, handle: nat, hdr: ReqHdr)
      requires Valid() && model.next + 1 - start < HALF_SPACE && model.next < model.base + MPR
      requires idx == model.next - model.base && HdrOk(hdr, model.next, model.base - 1)
      modifies this`nextPsn, this`txBm, this`model
      ensures Valid() && model == SendTx(old(model), handle)
    {
      var out := txBm[idx := Some(PktDesc(hdr, handle, false, false))];
      ghost var t := SendTx(model, handle);
      assert SlotsShow(out, t) && HdrsOk(out, t) by { SendShows(txBm, model, handle, hdr); }
      assert Wrap(nextPsn + 1) == Wrap(model.next + 1) by { WrapDiff(model.next, 1); }
      nextPsn := Wrap(nextPsn + 1);
      txBm, model := out, t;
    }

    /** `uet_pds_tx_pkt`: refuse when the window is full, otherwise track and send the next PSN. */
    method TxPkt(handle: nat) returns (sent: bool, hdr: ReqHdr)
      requires Valid() && model.next + 1 - start < HALF_SPACE
      modifies this`nextPsn, this`txBm, this`model
      ensures Valid()
      ensures sent == old(Allowed(model, model.next))
      ensures sent ==> model == SendTx(old(model), handle) && HdrOk(hdr, old(model.next), old(model.base) - 1)
      ensures !sent ==> model == old(model)
    {
      hdr := ReqHdr(nextPsn, 0);
      sent := TxPsnAllowed(nextPsn, model.next);
      if sent {
        hdr := BuildHdr(nextPsn, txBmBase, model.next, model.base);
        var idx := Wrap(nextPsn - txBmBase);
        assert idx == model.next - model.base by { WindowExact(model.next, model.base); }
        Enqueue(idx, handle, hdr);
      }
    }

    /** Slot 0, which holds an acknowledged packet, leaves the bitmap. */
    method ShiftOne()
      requires Valid() && model.base in model.bm
      modifies this`txBm, this`txBmBase, this`model
      ensures Valid() && model == old(model).(base := old(model).base + 1, bm := old(model).bm - {old(model).base})
    {
      DropFirstShows(txBm, model);
      txBm := txBm[1..] + [None];
      assert Wrap(txBmBase + 1) == Wrap(model.base + 1) by { WrapDiff(model.base, 1); }
      txBmBase := Wrap(txBmBase + 1);
      model := model.(base := model.base + 1, bm := model.bm - {model.base});
    }

    /** `uet_pds_shift_tx_window`. */
    method ShiftTxWindow()
      requires Valid()
      modifies this`txBm, this`txBmBase, this`model
      ensures Valid() && model == ShiftTx(old(model))
    {
      while txBm[0].Some? && txBm[0].value.acked
        invariant Valid()
        invariant ShiftTx(model) == ShiftTx(old(model))
        decreases |model.bm|
      {
        assert model.base + 0 in model.bm;
        ShiftOne();
      }
    }

    /** `uet_pds_process_mpr`. */
    method ProcessMpr(cack: u32, mpr: nat, ghost c: int)
      requires Valid() && cack == Wrap(c) && start - 1 <= c < model.next && mpr <= 255
      modifies this`peerMpRange, this`mprUpdateCack, this`mprUpdateValid, this`model
      ensures Valid() && model == ApplyMpr(old(model), c, mpr)
    {
      if mprUpdateValid {
        assert After(cack, mprUpdateCack) == (c > model.mprCack.value) by { OffsetExact(c, model.mprCack.value); }
        if !After(cack, mprUpdateCack) { return; }
      }
      peerMpRange := mpr * MPR;
      mprUpdateCack := cack;
      mprUpdateValid := true;
      model := ApplyMpr(model, c, mpr);
    }

    /** `uet_pds_process_cack`: the handles passed to rx_rsp with no packet, lowest PSN first. */
    method ProcessCack(cack: u32, ghost c: int) returns (upcalls: seq<nat>)
      requires Valid() && cack == Wrap(c) && start - 1 <= c < model.next
      modifies this`maxCack, this`txBm, this`model
      ensures Valid() && model == ApplyCack(old(model), c)
      ensures upcalls == PendingHandles(old(model), old(model).base, model.maxCack + 1)
    {
      var latest, shift := CackReach(maxCack, cack, txBmBase, model.maxCack, c, model.base);
      var out;
      out, upcalls := CoverBm(txBm, shift, model, c);
      CackSpan(model, c, start);
      maxCack, txBm, model := latest, out, ApplyCack(model, c);
    }

    /** The bitmap now shows `t`, which differs from the window so far in its packets only. */
    method Install(out: Slots, ghost t: Tx)
      requires Valid() && t == model.(bm := t.bm) && TxValid(t) && SlotsShow(out, t) && HdrsOk(out, t)
      modifies this`txBm, this`model
      ensures Valid() && txBm == out && model == t
    {
      txBm, model := out, t;
    }

    /** `uet_pdsm_drain_tx_pkts`: the handles passed to pds_err. */
    method DrainTxPkts() returns (upcalls: seq<nat>)
      requires Valid()
      modifies this`txBm, this`model
      ensures Valid() && model == DrainTx(old(model))
      ensures upcalls == PendingHandles(old(model), old(model).base, old(model).base + MPR)
    {
      UnsetHandles(txBm, model, 0);
      var out;
      out, upcalls := ForgetSlots(txBm, None);
      ghost var t := DrainTx(model);
      assert SlotsShow(out, t) && HdrsOk(out, t) && TxValid(t) by { DrainShows(txBm, model); }
      Install(out, t);
    }

    /** `uet_pds_drop_tx_pkts` on this PDC: the number of packets dropped. */
    method DropTxPkts(handle: nat) returns (dropped: nat)
      requires Valid()
      modifies this`txBm, this`model
      ensures Valid() && model == DropTx(old(model), handle)
      ensures dropped == multiset(PendingHandles(old(model), old(model).base, old(model).base + MPR))[handle]
    {
      UnsetHandles(txBm, model, handle);
      var out, upcalls := ForgetSlots(txBm, Some(handle));
      ghost var t := DropTx(model, handle);
      assert SlotsShow(out, t) && HdrsOk(out, t) && TxValid(t) by { ForgetShows(txBm, model, Some(handle)); }
      dropped := |upcalls|;
      Install(out, t);
    }

    /** `uet_pds_process_sack_bitmap`. */
    method ProcessSackBitmap(sackBase: u32, bits: seq<bool>, ghost sb: int)
      requires Valid() && sackBase == Wrap(sb)
      requires |bits| == 64 && start - 1 <= sb && sb + 64 - start < HALF_SPACE
      modifies this`txBm, this`model
      ensures Valid() && model == ApplySack(old(model), SackSet(sb, bits))
    {
      ghost var t := ApplySack(model, SackSet(sb, bits));
      var out := SackSlots(txBm, sackBase, bits, maxCack, txBmBase, sb, model.maxCack, model.base);
      assert SlotsShow(out, t) && HdrsOk(out, t) by { SackShows(txBm, model, sb, bits); }
      txBm := out;
      model := t;
    }

    /** The checks at the head of `uet_pds_process_ack`. */
    method JudgeAck(psn: u32, cack: u32, ghost p: int, ghost c: int) returns (verdict: Verdict)
      requires Valid() && psn == Wrap(p) && cack == Wrap(c)
      requires start <= p < start + HALF_SPACE && start - 1 <= c < start + HALF_SPACE - 1
      ensures verdict == Judge(model, p, c)
      ensures verdict == Fresh ==> Wrap(psn - txBmBase) == p - model.base
    {
      var last := Wrap(nextPsn - 1);
      assert last == Wrap(model.next - 1) by { WrapDiff(model.next, -1); }
      AckNear(p, c, model.next - 1, model.base);
      if After(cack, last) { return Rejected; }
      if After(txBmBase, psn) { return Duplicate; }
      if !InMpr(psn, txBmBase) { return Rejected; }
      var slot := txBm[Wrap(psn - txBmBase)];
      SlotIs(txBm, model, p);
      return if slot.None? then Rejected else if slot.value.acked then Duplicate else Fresh;
    }

    /**
      `uet_pds_process_ack` on a data ACK: whether it is rejected, repeated or new, the handle
      given its explicit response, the handles acknowledged cumulatively, and the CLEAR to send.
     */
    method ProcessAck(a: AckPkt, ghost m: Msg)
      returns (verdict: Verdict, rsp: Option<nat>, upcalls: seq<nat>, clear: Option<u32>)
      requires Valid() && Parsed(a, m, start)
      modifies this`txBm, this`txBmBase, this`maxCack, this`peerMpRange, this`mprUpdateCack, this`mprUpdateValid, this`model
      ensures Valid() && verdict == Judge(old(model), m.psn, m.cack)
      ensures verdict == Rejected ==> model == old(model) && upcalls == []
      ensures verdict != Rejected ==>
        && model == AckTx(old(model), m)
        && upcalls == CumulativeUpcalls(old(model), m)
      ensures rsp == if verdict == Fresh then Some(old(model).bm[m.psn].handle) else None
      ensures clear == if verdict == Fresh && a.reqClear then Some(Wrap(model.base - 1)) else None
    {
      rsp, upcalls, clear := None, [], None;
      verdict := JudgeAck(a.psn, a.cack, m.psn, m.cack);
      if verdict == Rejected { return; }
      if verdict == Fresh { rsp := MarkExplicit(a.psn, m.psn); }
      var edge;
      upcalls, edge := MergeAndShift(a, m);
      if verdict == Fresh && a.reqClear { clear := Some(edge); }
    }

    /** The rest of an acknowledgement once its explicit PSN is marked; `edge` is the PSN below the base. */
    method MergeAndShift(a: AckPkt, ghost m: Msg) returns (upcalls: seq<nat>, edge: u32)
      requires Valid() && Parsed(a, m, start) && m.cack < model.next
      modifies this`txBm, this`txBmBase, this`maxCack, this`peerMpRange, this`mprUpdateCack, this`mprUpdateValid, this`model
      ensures Valid() && model == ShiftTx(MergeFields(old(model), m))
      ensures upcalls == PendingHandles(old(model), old(model).base, Max(old(model).maxCack, m.cack) + 1)
      ensures edge == Wrap(model.base - 1)
    {
      upcalls := MergeCack(a, m);
      ShiftTxWindow();
      edge := Wrap(txBmBase - 1);
      assert edge == Wrap(model.base - 1) by { WrapDiff(model.base, -1); }
    }

    /** Mark the packet an ACK names explicitly. */
    method MarkExplicit(psn: u32, ghost p: int) returns (rsp: Option<nat>)
      requires Valid() && p in model.bm && Wrap(psn - txBmBase) == p - model.base
      modifies this`txBm, this`model
      ensures Valid() && model == MarkAcked(old(model), p)
      ensures rsp == Some(old(model).bm[p].handle)
    {
      var idx := Wrap(psn - txBmBase);
      assert p == model.base + idx;
      MarkShows(txBm, model, idx);
      rsp := Some(txBm[idx].value.handle);
      txBm := txBm[idx := Some(txBm[idx].value.(acked := true))];
      model := MarkAcked(model, p);
    }

    /** The MPR, cumulative ACK and SACK of an acknowledgement, in that order. */
    method MergeCack(a: AckPkt, ghost m: Msg) returns (upcalls: seq<nat>)
      requires Valid() && Parsed(a, m, start) && m.cack < model.next
      modifies this`txBm, this`maxCack, this`peerMpRange, this`mprUpdateCack, this`mprUpdateValid, this`model
      ensures Valid()
      ensures model == MergeFields(old(model), m)
      ensures upcalls == PendingHandles(old(model), old(model).base, Max(old(model).maxCack, m.cack) + 1)
    {
      if a.cc.Some? { ProcessMpr(a.cack, a.cc.value.mpr, m.cack); }
      PendingSame(old(model), model, model.base, Max(model.maxCack, m.cack) + 1);
      upcalls := ProcessCack(a.cack, m.cack);
      if a.cc.Some? { ProcessSackBitmap(a.cc.value.sackBase, a.cc.value.bits, m.cc.value.base); }
    }
  }

  lemma {:induction false} PendingSame(t: Tx, u: Tx, lo: int, hi: int)
    requires t.bm == u.bm
    ensures PendingHandles(t, lo, hi) == PendingHandles(u, lo, hi)
    decreases hi - lo
  {
    if lo < hi { PendingSame(t, u, lo, hi - 1); }
  }

  /** `a` is `m` as it comes off the wire, with PSNs near enough to be told apart. */
  ghost predicate Parsed(a: AckPkt, m: Msg, start: int) {
    && m.Ack? && a.psn == Wrap(m.psn) && a.cack == Wrap(m.cack) && a.reqClear == m.reqClear
    && start <= m.psn < start + HALF_SPACE && start - 1 <= m.cack < start + HALF_SPACE - 1
    && a.cc.Some? == m.cc.Some?
    && (a.cc.Some? ==>
          && a.cc.value.mpr == m.cc.value.mpr <= 255
          && a.cc.value.sackBase == Wrap(m.cc.value.base)
          && |a.cc.value.bits| == 64 && start - 1 <= m.cc.value.base && m.cc.value.base + 64 - start < HALF_SPACE
          && m.cc.value.sack == SackSet(m.cc.value.base, a.cc.value.bits))
  }

  /** All PSNs of the window lie in a span of less than half the PSN space. */
  ghost predicate InSpan(t: Tx, start: int) {
    && TxValid(t)
    && start <= t.base && start - 1 <= t.maxCack
    && (t.mprCack.Some? ==> start - 1 <= t.mprCack.value < t.next)
    && t.next - start < HALF_SPACE
    && t.peerRange <= 255 * MPR
  }

  /** The comparisons at the head of `uet_pds_process_ack`, on PSNs that are near. */
  lemma AckNear(p: int, c: int, last: int, base: int)
    requires -HALF_SPACE <= c - last < HALF_SPACE && -HALF_SPACE < p - base < HALF_SPACE
    ensures After(Wrap(c), Wrap(last)) == (c > last) && After(Wrap(base), Wrap(p)) == (base > p)
    ensures InMpr(Wrap(p), Wrap(base)) == (base <= p < base + MPR)
    ensures base <= p < base + MPR ==> Wrap(Wrap(p) - Wrap(base)) == p - base
  {
    OffsetExact(c, last);
    OffsetExact(base, p);
    WindowExact(p, base);
  }

  lemma CackSpan(t: Tx, c: int, start: int)
    requires InSpan(t, start) && c < t.next
    ensures InSpan(ApplyCack(t, c), start)
  {
  }

  method BuildHdr(next: u32, base: u32, ghost n: int, ghost b: int) returns (hdr: ReqHdr)
    requires next == Wrap(n) && base == Wrap(b) && b <= n < b + MPR
    ensures HdrOk(hdr, n, b - 1)
  {
    var clear := Wrap(base - 1);
    assert clear == Wrap(b - 1) by { WrapDiff(b, -1); }
    hdr := ReqHdr(next, WireOffset(next, clear));
    WireExact(n, b - 1);
  }

  /** The later cumulative ACK, and how many slots from the base it covers. */
  method CackReach(was: u32, cack: u32, base: u32, ghost mc: int, ghost c: int, ghost b: int)
    returns (latest: u32, shift: int)
    requires was == Wrap(mc) && cack == Wrap(c) && base == Wrap(b)
    requires -HALF_SPACE <= c - mc < HALF_SPACE && -HALF_SPACE <= Max(mc, c) + 1 - b < HALF_SPACE
    ensures latest == Wrap(Max(mc, c)) && shift == Max(mc, c) + 1 - b
  {
    ghost var top := Max(mc, c);
    latest := Later(was, cack);
    assert latest == Wrap(top) by { LaterExact(mc, c); }
    var limit := Wrap(latest + 1);
    assert limit == Wrap(top + 1) by { WrapDiff(top, 1); }
    shift := Offset(limit, base);
    assert shift == top + 1 - b by { OffsetExact(top + 1, b); }
  }

  /** The bitmap once the first `shift` packets are acknowledged, and the upcalls made for them. */
  method CoverBm(slots: Slots, shift: int, ghost t: Tx, ghost c: int) returns (out: Slots, upcalls: seq<nat>)
    requires SlotsShow(slots, t) && TxValid(t) && HdrsOk(slots, t)
    requires c < t.next && shift == Max(t.maxCack, c) + 1 - t.base
    ensures SlotsShow(out, ApplyCack(t, c)) && HdrsOk(out, ApplyCack(t, c))
    ensures upcalls == PendingHandles(t, t.base, Max(t.maxCack, c) + 1)
  {
    out, upcalls := CoverSlots(slots, shift);
    AckFirstShows(slots, t, c);
    if shift > 0 { PendingShows(slots, t, shift); }
  }

  /** The loop of `uet_pds_process_cack` over the first `shift` slots. */
  method CoverSlots(slots: Slots, shift: int) returns (out: Slots, upcalls: seq<nat>)
    requires shift <= |slots|
    ensures out == AckFirst(slots, shift)
    ensures upcalls == if shift <= 0 then [] else Pending(slots[..shift])
  {
    out, upcalls := slots, [];
    var i := 0;
    while i < shift
      invariant 0 <= i <= Max(shift, 0) && |out| == |slots|
      invariant forall k :: i <= k < |slots| ==> out[k] == slots[k]
      invariant forall k :: 0 <= k < i ==> out[k] == AckFirst(slots, shift)[k]
      invariant upcalls == Pending(slots[..i])
    {
      assert slots[..i + 1][..i] == slots[..i];
      if out[i].Some? && !out[i].value.acked {
        upcalls := upcalls + [out[i].value.handle];
        out := out[i := Some(out[i].value.(acked := true))];
      }
      i := i + 1;
    }
  }

  /** Whether a slot holds an unacknowledged packet, of the given descriptor if one is given. */
  predicate Forgettable(slot: Option<PktDesc>, only: Option<nat>) {
    slot.Some? && !slot.value.acked && (only.None? || only == Some(slot.value.handle))
  }

  ghost function Forget(slots: Slots, only: Option<nat>): Slots {
    seq(|slots|, i requires 0 <= i < |slots| => if Forgettable(slots[i], only) then None else slots[i])
  }

  lemma ForgetShows(slots: Slots, t: Tx, only: Option<nat>)
    requires SlotsShow(slots, t) && TxValid(t) && HdrsOk(slots, t)
    ensures var t' := if only.None? then DrainTx(t) else DropTx(t, only.value);
      SlotsShow(Forget(slots, only), t') && HdrsOk(Forget(slots, only), t') && TxValid(t')
  {
  }

  lemma DrainShows(slots: Slots, t: Tx)
    requires SlotsShow(slots, t) && TxValid(t) && HdrsOk(slots, t)
    ensures SlotsShow(Forget(slots, None), DrainTx(t)) && HdrsOk(Forget(slots, None), DrainTx(t)) && TxValid(DrainTx(t))
  {
    ForgetShows(slots, t, None);
  }

  function Unset(slots: Slots, only: Option<nat>): seq<nat> {
    if slots == [] then []
    else
      var k := |slots| - 1;
      Unset(slots[..k], only) + (if Forgettable(slots[k], only) then [slots[k].value.handle] else [])
  }

  lemma {:induction false} UnsetIsPending(slots: Slots, h: nat)
    ensures Unset(slots, None) == Pending(slots)
    ensures |Unset(slots, Some(h))| == multiset(Pending(slots))[h]
  {
    if slots != [] { UnsetIsPending(slots[..|slots| - 1], h); }
  }

  lemma UnsetHandles(slots: Slots, t: Tx, h: nat)
    requires SlotsShow(slots, t)
    ensures Unset(slots, None) == PendingHandles(t, t.base, t.base + MPR)
    ensures |Unset(slots, Some(h))| == multiset(PendingHandles(t, t.base, t.base + MPR))[h]
  {
    PendingShows(slots, t, MPR);
    assert slots[..MPR] == slots;
    UnsetIsPending(slots, h);
  }

  /** The loops of the drain and drop functions, over the bitmap; the handles of what was unset. */
  method ForgetSlots(slots: Slots, only: Option<nat>) returns (out: Slots, unset: seq<nat>)
    ensures out == Forget(slots, only)
    ensures unset == Unset(slots, only)
  {
    out, unset := slots, [];
    var i := 0;
    while i < |slots|
      invariant 0 <= i <= |slots| == |out|
      invariant forall k :: i <= k < |slots| ==> out[k] == slots[k]
      invariant forall k :: 0 <= k < i ==> out[k] == Forget(slots, only)[k]
      invariant unset == Unset(slots[..i], only)
    {
      assert slots[..i + 1][..i] == slots[..i];
      if Forgettable(out[i], only) {
        unset := unset + [out[i].value.handle];
        out := out[i := None];
      }
      i := i + 1;
    }
    assert slots[..i] == slots;
  }

  /** The loop of `uet_pds_process_sack_bitmap`. */
  method SackSlots(slots: Slots, sackBase: u32, bits: seq<bool>, maxCack: u32, base: u32,
                   ghost sb: int, ghost mc: int, ghost b: int) returns (out: Slots)
    requires |slots| == MPR && |bits| == 64
    requires sackBase == Wrap(sb) && maxCack == Wrap(mc) && base == Wrap(b)
    requires -HALF_SPACE <= mc - (sb + 63) && mc - sb < HALF_SPACE
    requires -HALF_SPACE <= sb - b && sb + 63 - b < HALF_SPACE
    ensures out == SackFirst(slots, bits, 64, sb - b, mc - b)
  {
    out := slots;
    var i := 0;
    while i < 64
      invariant 0 <= i <= 64
      invariant out == SackFirst(slots, bits, i, sb - b, mc - b)
    {
      var psn := Wrap(sackBase + i);
      assert psn == Wrap(sb + i) by { WrapDiff(sb, i); }
      assert Offset(maxCack, psn) == mc - (sb + i) by { OffsetExact(mc, sb + i); }
      assert Offset(psn, base) == sb + i - b by { OffsetExact(sb + i, b); }
      if !AfterEq(maxCack, psn) && bits[i] {
        var idx := Offset(psn, base);
        if 0 <= idx < |out| && out[idx].Some? {
          out := out[idx := Some(out[idx].value.(dstRecvd := true))];
        }
      }
      i := i + 1;
    }
  }
}
