/**
  The target side fields of `struct uet_pdc` and the functions that update them in place, with
  32-bit PSNs, 16-bit wire offsets and a 128-slot bitmap.  The ghost field `model` is the
  unbounded-PSN window the object stands for; every method is proved to do to it what the
  corresponding function of module RxWindow does.
 */
module RxSide {
  import opened PdcTypes
  import opened Psn
  import opened RxWindow

  /** The PDS header fields of a built ACK. */
  datatype AckHdr = AckHdr(cack: u32, psnOff: i16, response: bool, reqClear: bool, cc: Option<CcHdr>)

  /** Its ACK_CC extension: `bits[i]` is bit `i` of the SACK bitmap. */
  datatype CcHdr = CcHdr(mpr: nat, sackOff: i16, bits: seq<bool>)

  /** `struct uet_pdc_pkt` as tracked in rx_bm. */
  datatype RxDesc = RxDesc(psn: u32, needsClear: bool, ack: Option<AckHdr>)

  type Slots = seq<Option<RxDesc>>

  /** A parsed RUD request. */
  datatype ReqPkt = ReqPkt(psn: u32, clearPsn: u32, ar: bool, syn: bool, payloadLen: nat)

  /** What goes back to the initiator. */
  datatype Reply = NoReply | SendAck(hdr: AckHdr) | SendNack(psn: u32, code: NackCode)

  ghost predicate ReplyOk(w: Reply, m: Option<Msg>) {
    match m
    case None => w == NoReply
    case Some(Nack(p, code)) => w == SendNack(Wrap(p), code)
    case Some(k) => w.SendAck? && AckOk(w.hdr, k)
  }

  const ACK_GEN_MIN_PKT_ADD: nat := 1024
  const ACK_GEN_TRIGGER: nat := 16384

  /** `h` is the ACK `m` as it goes on the wire. */
  ghost predicate AckOk(h: AckHdr, m: Msg) {
    && m.Ack?
    && h.cack == Wrap(m.cack) && FromWire(h.cack, h.psnOff) == Wrap(m.psn)
    && h.response == m.response && h.reqClear == m.reqClear
    && CcOk(h, m.cc)
  }

  ghost predicate CcOk(h: AckHdr, cc: Option<Cc>) {
    && h.cc.Some? == cc.Some?
    && (cc.Some? ==>
          && h.cc.value.mpr == cc.value.mpr
          && FromWire(h.cack, h.cc.value.sackOff) == Wrap(cc.value.base)
          && |h.cc.value.bits| == 64 && cc.value.sack == SackSet(cc.value.base, h.cc.value.bits))
  }

  ghost predicate Tracks(d: RxDesc, p: int, k: RxPkt) {
    && d.psn == Wrap(p) && d.needsClear == k.needsClear
    && d.ack.Some? == k.ack.Some?
    && (d.ack.Some? ==> AckOk(d.ack.value, k.ack.value))
  }

  /** Bitmap slot `i` tracks packet `base + i`. */
  ghost predicate SlotsShow(slots: Slots, r: Rx) {
    && |slots| == MPR
    && (forall i :: 0 <= i < MPR ==> (slots[i].Some? <==> r.base + i in r.bm))
    && (forall i :: 0 <= i < MPR && slots[i].Some? ==> Tracks(slots[i].value, r.base + i, r.bm[r.base + i]))
  }

  /** All PSNs of the window lie in a span of less than half the PSN space. */
  ghost predicate InSpan(r: Rx, start: int) {
    && start <= r.base && r.base + 2 * MPR - start < HALF_SPACE
    && start - 1 <= r.cack < r.base + MPR
    && start - 1 <= r.maxClear && r.maxClear - start < HALF_SPACE - 1
    && (forall p :: p in r.bm ==> r.base <= p < r.base + MPR)
  }

  lemma SetShows(slots: Slots, r: Rx, i: nat, d: RxDesc, k: RxPkt)
    requires SlotsShow(slots, r) && i < MPR && Tracks(d, r.base + i, k)
    ensures SlotsShow(slots[i := Some(d)], r.(bm := r.bm[r.base + i := k]))
  {
  }

  lemma {:induction false} ShiftShows(slots: Slots, r: Rx, n: nat)
    requires SlotsShow(slots, r) && n <= MPR && r.cack == r.base + n - 1 && n > 0
    requires forall p :: p in r.bm ==> r.base <= p < r.base + MPR
    ensures SlotsShow(ShiftRight(slots, n), ShiftRx(r))
  {
  }

  /** `bm_shift_right` on the slots. */
  function ShiftRight(slots: Slots, n: nat): (out: Slots)
    requires n <= |slots|
    ensures |out| == |slots|
    ensures forall i :: 0 <= i < |slots| ==> out[i] == if i + n < |slots| then slots[i + n] else None
  {
    slots[n..] + seq(n, _ => None)
  }

  /** `bm_extract64`: ones before the bitmap, zeros past it. */
  function Extract64(slots: Slots, i: int): seq<bool> {
    seq(64, k requires 0 <= k < 64 => i + k < 0 || (i + k < |slots| && slots[i + k].Some?))
  }

  lemma ExtractShows(slots: Slots, r: Rx, sb: int)
    requires SlotsShow(slots, r) && forall p :: p in r.bm ==> r.base <= p < r.base + MPR
    ensures SackSet(sb, Extract64(slots, sb - r.base)) == SackBits(r, sb)
  {
    var bits := Extract64(slots, sb - r.base);
    forall p | sb <= p < sb + 64 ensures Reported(sb, bits, p) <==> p < r.base || p in r.bm {
      assert bits[p - sb] == (p < r.base || (p - r.base < MPR && slots[p - r.base].Some?));
      assert r.base <= p < r.base + MPR ==> (slots[p - r.base].Some? <==> r.base + (p - r.base) in r.bm);
    }
  }

  /** The fields of the ACK_CC extension for the SACK base `base`. */
  method FillCcExt(cack: u32, base: u32, bmBase: u32, slots: Slots, ghost sb: int, ghost r: Rx) returns (cc: CcHdr)
    requires cack == Wrap(r.cack) && base == Wrap(sb) && bmBase == Wrap(r.base)
    requires -0x8000 <= sb - r.cack < 0x8000 && -0x8000 <= sb - r.base < 0x8000
    requires SlotsShow(slots, r) && forall p :: p in r.bm ==> r.base <= p < r.base + MPR
    ensures CcOk(AckHdr(cack, 0, false, false, Some(cc)), BuildCc(r, Some(sb)))
  {
    var idx := Offset(base, bmBase);
    assert idx == sb - r.base by { OffsetExact(sb, r.base); }
    var off, bits := WireOffset(cack, base), Extract64(slots, idx);
    assert FromWire(cack, off) == Wrap(sb) by { WireExact(r.cack, sb); }
    assert SackSet(sb, bits) == SackBits(r, sb) by { ExtractShows(slots, r, sb); }
    cc := CcHdr(1, off, bits);
  }

  // ---------------------------------------------------------------- where the SACK bitmap starts

  /** `uet_pds_update_sack_base` once a packet is accepted: never below the cumulative ACK. */
  function FollowCack(track: int, cack: int, psn: int): int {
    if cack > track then cack else if psn > cack && track > psn then psn else track
  }

  /** `uet_pds_update_sack_base` once an ACK is built: the next one reports the next 64 PSNs, if there are any. */
  function NextSpan(track: int, maxRcvd: int): int {
    if maxRcvd > track + 63 then track + 64 else track
  }

  /** The tracked base stays within one window of the highest PSN received and of the cumulative ACK. */
  ghost predicate SackInv(r: Rx, track: int, maxRcvd: int, start: int) {
    && start - 1 <= track <= maxRcvd <= track + MPR
    && r.base - 1 <= r.cack <= maxRcvd < r.base + MPR
    && (forall p :: p in r.bm ==> p <= maxRcvd)
  }

  lemma FollowKeeps(r: Rx, track: int, maxRcvd: int, start: int, psn: int, clear: int, k: RxPkt)
    requires RxValid(r) && start <= r.base && Classify(r, psn) == New && SackInv(r, track, maxRcvd, start)
    ensures var r1 := RxWindow.UpdateCack(r.(bm := r.bm[psn := k]), clear);
      && SackInv(r1, FollowCack(track, r1.cack, psn), Max(maxRcvd, psn), start)
      && FollowCack(track, r1.cack, psn) >= r.cack
  {
    var r1 := RxWindow.UpdateCack(r.(bm := r.bm[psn := k]), clear);
    if r1.cack >= r.base { assert Passable(r1.bm, r1.maxClear, r1.cack); }
  }

  lemma ClearKeepsSack(r: Rx, track: int, maxRcvd: int, start: int, clear: int)
    requires RxValid(r) && SackInv(r, track, maxRcvd, start)
    ensures SackInv(ClearRx(r, clear), track, maxRcvd, start)
  {
    var r1 := RxWindow.UpdateCack(r, clear);
    if r1.cack >= r.base { assert Passable(r1.bm, r1.maxClear, r1.cack); }
  }

  class Target {
    const ackCc: bool                   // ack_type is ACK_CC or ACK_CCX
    const perPktAck: bool               // per_pkt_ack_enabled
    var rxBmBase: u32
    var rxBm: Slots
    var cackPsn: u32
    var maxClearPsn: u32
    var prevArPsn: u32
    var maxRcvdPsn: u32
    var sackBaseTrack: u32
    var acceptedBytes: nat

    ghost const start: int
    ghost var model: Rx
    ghost var track: int                // the PSN sackBaseTrack stands for
    ghost var maxRcvd: int              // the PSN maxRcvdPsn stands for

    ghost predicate Valid()
      reads this
    {
      && rxBmBase == Wrap(model.base)
      && cackPsn == Wrap(model.cack)
      && maxClearPsn == Wrap(model.maxClear)
      && SlotsShow(rxBm, model)
      && InSpan(model, start)
    }

    ghost predicate SackValid()
      reads this
    {
      && sackBaseTrack == Wrap(track) && maxRcvdPsn == Wrap(maxRcvd)
      && SackInv(model, track, maxRcvd, start)
    }

    /** `uet_pdsm_assign_tgt_pdc`: a new context seeded from the chosen base. */
    constructor (base: int, cc: bool, perPkt: bool)
      ensures Valid() && SackValid() && start == base && model == InitRx(base)
      ensures ackCc == cc && perPktAck == perPkt && track == maxRcvd == base - 1
    {
      ackCc, perPktAck := cc, perPkt;
      start, track, maxRcvd := base, base - 1, base - 1;
      model := InitRx(base);
      rxBmBase := Wrap(base);
      rxBm := seq(MPR, _ => None);
      cackPsn := Wrap(base - 1);
      maxClearPsn := Wrap(base - 1);
      prevArPsn := Wrap(base - 1);
      maxRcvdPsn := Wrap(base - 1);
      sackBaseTrack := Wrap(base - 1);
      acceptedBytes := 0;
    }

    /** `uet_pds_update_cack`. */
    method UpdateCack(clear: u32, ghost c: int)
      requires Valid() && clear == Wrap(c) && start - 1 <= c && c - start < HALF_SPACE - 1
      modifies this`maxClearPsn, this`cackPsn, this`model
      ensures Valid() && model == RxWindow.UpdateCack(old(model), c)
    {
      maxClearPsn, cackPsn := CackAfter(rxBm, rxBmBase, maxClearPsn, clear, model, c, start);
      model := RxWindow.UpdateCack(model, c);
    }

    /** `uet_pds_shift_rx_window`. */
    method ShiftRxWindow()
      requires Valid()
      requires model.cack + 1 + 2 * MPR - start < HALF_SPACE
      modifies this`rxBmBase, this`rxBm, this`model
      ensures Valid() && model == ShiftRx(old(model))
    {
      var limit := Wrap(cackPsn + 1);
      assert limit == Wrap(model.cack + 1) by { WrapDiff(model.cack, 1); }
      var count := Offset(limit, rxBmBase);
      assert count == model.cack + 1 - model.base by { OffsetExact(model.cack + 1, model.base); }
      if count <= 0 { return; }
      ShiftShows(rxBm, model, count);
      rxBm := ShiftRight(rxBm, count);
      assert Wrap(rxBmBase + count) == Wrap(model.base + count) by { WrapDiff(model.base, count); }
      rxBmBase := Wrap(rxBmBase + count);
      model := ShiftRx(model);
    }

    /** `uet_pds_should_sack`. */
    predicate ShouldSack(q: ReqPkt, needsClear: bool)
      reads this
    {
      q.ar || q.syn || needsClear || acceptedBytes >= ACK_GEN_TRIGGER || prevArPsn == maxRcvdPsn
    }

    /** The classification of `uet_pds_check_duplicate_and_rtx`. */
    method CheckDuplicate(psn: u32, ghost p: int) returns (class_: Class)
      requires Valid() && psn == Wrap(p) && start <= p < start + HALF_SPACE
      ensures class_ == Classify(model, p)
      ensures class_ == New || class_ == Repeat ==> Wrap(psn - rxBmBase) == p - model.base
    {
      WindowExact(p, model.base);
      if InPriorMpr(psn, rxBmBase) { return Prior; }
      if !InMpr(psn, rxBmBase) { return OutOfWindow; }
      var slot := rxBm[Wrap(psn - rxBmBase)];
      assert slot.Some? <==> model.base + (p - model.base) in model.bm;
      return if slot.Some? then Repeat else New;
    }

    /** `uet_pds_update_sack_base` for an accepted packet. */
    method FollowSackBase(psn: u32, ghost p: int)
      requires Valid() && psn == Wrap(p) && start <= p < model.base + MPR
      requires sackBaseTrack == Wrap(track) && start - 1 <= track < model.base + MPR
      modifies this`sackBaseTrack, this`track
      ensures track == FollowCack(old(track), model.cack, p) && sackBaseTrack == Wrap(track)
    {
      assert After(cackPsn, sackBaseTrack) == (model.cack > track) by { OffsetExact(model.cack, track); }
      assert After(psn, cackPsn) == (p > model.cack) by { OffsetExact(p, model.cack); }
      assert After(sackBaseTrack, psn) == (track > p) by { OffsetExact(track, p); }
      track := FollowCack(track, model.cack, p);
      if After(cackPsn, sackBaseTrack) {
        sackBaseTrack := cackPsn;
      } else if After(psn, cackPsn) && After(sackBaseTrack, psn) {
        sackBaseTrack := psn;
      }
    }

    /** `uet_pds_update_sack_base` for an ACK that reports from the tracked base. */
    method AdvanceSackBase()
      requires Valid() && SackValid()
      modifies this`sackBaseTrack, this`track
      ensures SackValid() && track == NextSpan(old(track), maxRcvd)
    {
      var last := Wrap(sackBaseTrack + 63);
      assert last == Wrap(track + 63) by { WrapDiff(track, 63); }
      assert After(maxRcvdPsn, last) == (maxRcvd > track + 63) by { OffsetExact(maxRcvd, track + 63); }
      if After(maxRcvdPsn, last) {
        assert Wrap(sackBaseTrack + 64) == Wrap(track + 64) by { WrapDiff(track, 64); }
        sackBaseTrack := Wrap(sackBaseTrack + 64);
      }
      track := NextSpan(track, maxRcvd);
    }

    /** The base of the next SACK bitmap, and the PSN it stands for. */
    method ChooseSackBase(psn: u32, ghost p: int) returns (base: u32, ghost b: int)
      requires Valid() && SackValid() && psn == Wrap(p)
      modifies this`sackBaseTrack, this`track
      ensures SackValid() && base == Wrap(b)
      ensures b == if perPktAck then p else old(track)
      ensures track == if perPktAck then old(track) else NextSpan(old(track), maxRcvd)
    {
      if perPktAck {
        base, b := psn, p;
      } else {
        base, b := sackBaseTrack, track;
        AdvanceSackBase();
      }
    }

    /** `uet_pds_build_ack_cc_ext`. */
    method BuildCcExt(psn: u32, ghost p: int) returns (cc: CcHdr, ghost sb: int)
      requires Valid() && SackValid() && psn == Wrap(p)
      requires start <= p < start + HALF_SPACE && -0x4000 <= p - model.cack < 0x4000
      modifies this`sackBaseTrack, this`track
      ensures SackValid()
      ensures sb == if perPktAck then p else old(track)
      ensures CcOk(AckHdr(cackPsn, 0, false, false, Some(cc)), BuildCc(model, Some(sb)))
    {
      var base;
      base, sb := ChooseSackBase(psn, p);
      cc := FillCcExt(cackPsn, base, rxBmBase, rxBm, sb, model);
    }

    /**
      The ACK header fields that depend on PSNs (`uet_pds_build_ack_pkt`), with the extension for the ACK types
      that have one; `sb` is the PSN of the first SACK bit.
     */
    method BuildAck(psn: u32, response: bool, reqClear: bool, ghost p: int) returns (hdr: AckHdr, ghost sb: Option<int>)
      requires Valid() && SackValid() && psn == Wrap(p)
      requires start <= p < start + HALF_SPACE && -0x4000 <= p - model.cack < 0x4000
      modifies this`sackBaseTrack, this`track
      ensures SackValid()
      ensures sb == if !ackCc then None else if perPktAck then Some(p) else Some(old(track))
      ensures AckOk(hdr, Ack(p, model.cack, response, reqClear, BuildCc(model, sb)))
    {
      var off := WireOffset(cackPsn, psn);
      assert FromWire(cackPsn, off) == Wrap(p) by { WireExact(model.cack, p); }
      if ackCc {
        var cc; ghost var b;
        cc, b := BuildCcExt(psn, p);
        hdr, sb := AckHdr(cackPsn, off, response, reqClear, Some(cc)), Some(b);
      } else {
        hdr, sb := AckHdr(cackPsn, off, response, reqClear, None), None;
      }
    }

    /** Put a packet, or a packet with its ACK, in the bitmap. */
    method Track(psn: u32, needsClear: bool, ack: Option<AckHdr>, ghost p: int, ghost k: RxPkt)
      requires Valid() && model.base <= p < model.base + MPR && Tracks(RxDesc(psn, needsClear, ack), p, k)
      modifies this`rxBm, this`model
      ensures Valid() && model == old(model).(bm := old(model).bm[p := k])
    {
      var idx := Wrap(psn - rxBmBase);
      assert idx == p - model.base by { WindowExact(p, model.base); }
      SetShows(rxBm, model, idx, RxDesc(psn, needsClear, ack), k);
      rxBm := rxBm[idx := Some(RxDesc(psn, needsClear, ack))];
      model := model.(bm := model.bm[p := k]);
    }

    /** What accepting a packet does before its ACK is considered. */
    method TakeIn(q: ReqPkt, gtdDel: bool, ghost p: int, ghost c: int)
      requires Valid() && SackValid() && RxValid(model) && Arrived(q, p, c, start) && Classify(model, p) == New
      modifies this
      ensures Valid() && SackValid()
      ensures model == RxWindow.UpdateCack(old(model).(bm := old(model).bm[p := RxPkt(c, gtdDel, false, None)]), c)
      ensures acceptedBytes == old(acceptedBytes) + Credit(q)
      ensures maxRcvd == Max(old(maxRcvd), p) && track >= old(model).cack
    {
      ghost var r, k, was, top := model, RxPkt(c, gtdDel, false, None), track, maxRcvd;
      FollowKeeps(r, was, top, start, p, c, k);
      Track(q.psn, gtdDel, None, p, k);
      acceptedBytes := acceptedBytes + Credit(q);
      maxRcvdPsn, maxRcvd := Later(maxRcvdPsn, q.psn), Max(maxRcvd, p);
      assert maxRcvdPsn == Wrap(maxRcvd) by { LaterExact(top, p); }
      if q.ar { prevArPsn := Later(prevArPsn, q.psn); }
      UpdateCack(q.clearPsn, c);
      FollowSackBase(q.psn, p);
    }

    /** The ACK of a packet just taken in, kept with it for later. */
    method AckTaken(psn: u32, gtdDel: bool, ghost p: int, ghost c: int) returns (w: Reply, ghost sb: Option<int>)
      requires Valid() && SackValid() && psn == Wrap(p) && model.base <= p < model.base + MPR
      requires p in model.bm
      modifies this`sackBaseTrack, this`track, this`rxBm, this`model
      ensures Valid() && SackValid()
      ensures var ack := Ack(p, old(model).cack, true, gtdDel, BuildCc(old(model), sb));
        model == old(model).(bm := old(model).bm[p := RxPkt(c, gtdDel, false, Some(ack))]) && ReplyOk(w, Some(ack))
      ensures sb.Some? ==> sb.value == p || sb.value == old(track)
    {
      var hdr;
      hdr, sb := BuildAck(psn, true, gtdDel, p);
      w := SendAck(hdr);
      Track(psn, gtdDel, Some(hdr), p, RxPkt(c, gtdDel, false, Some(Ack(p, model.cack, true, gtdDel, BuildCc(model, sb)))));
    }

    /** A new RUD request that SES accepts (`uet_pds_upcall_ses_rx_req`, then the shift). */
    method AcceptPkt(q: ReqPkt, gtdDel: bool, ghost p: int, ghost c: int) returns (w: Reply, due: bool, ghost sb: Option<int>)
      requires Valid() && SackValid() && RxValid(model) && Arrived(q, p, c, start) && Classify(model, p) == New
      requires model.base + 4 * MPR - start < HALF_SPACE
      modifies this
      ensures Valid() && SackValid() && maxRcvd == Max(old(maxRcvd), p)
      ensures due <==> q.ar || q.syn || gtdDel || old(acceptedBytes) + Credit(q) >= ACK_GEN_TRIGGER || prevArPsn == maxRcvdPsn
      ensures acceptedBytes == if due then 0 else old(acceptedBytes) + Credit(q)
      ensures var (r, m) := AcceptRx(old(model), p, c, gtdDel, due, sb); model == r && ReplyOk(w, m)
      ensures sb.Some? ==> old(model).base - 1 <= sb.value <= maxRcvd
    {
      TakeIn(q, gtdDel, p, c);
      due := ShouldSack(q, gtdDel);
      w, sb := NoReply, None;
      if due {
        w, sb := AckTaken(q.psn, gtdDel, p, c);
        acceptedBytes := 0;
      }
      ShiftRxWindow();
    }

    /** The default response (`uet_pds_tx_def_rsp_ack_pkt`). */
    method SendDefaultResponse(psn: u32, ghost p: int) returns (w: Reply, ghost sb: Option<int>)
      requires Valid() && SackValid() && psn == Wrap(p)
      requires start <= p < start + HALF_SPACE && -0x4000 <= p - model.cack < 0x4000
      modifies this`sackBaseTrack, this`track
      ensures SackValid()
      ensures sb == if !ackCc then None else if perPktAck then Some(p) else Some(old(track))
      ensures ReplyOk(w, Some(DefaultResponse(model, p, sb)))
    {
      var hdr;
      hdr, sb := BuildAck(psn, false, false, p);
      w := SendAck(hdr);
    }

    /** The answer to a PSN that is already in the bitmap: its ACK again, or the default response. */
    method AnswerAgain(psn: u32, ghost p: int) returns (w: Reply, ghost sb: Option<int>)
      requires Valid() && SackValid() && RxValid(model) && psn == Wrap(p) && start <= p < start + HALF_SPACE
      requires Classify(model, p) == Repeat && Wrap(psn - rxBmBase) == p - model.base
      modifies this`sackBaseTrack, this`track
      ensures SackValid()
      ensures ReplyOk(w, Some(if model.bm[p].ack.Some? then model.bm[p].ack.value else DefaultResponse(model, p, sb)))
      ensures sb.Some? ==> sb.value == p || sb.value == old(track)
    {
      var d := rxBm[Wrap(psn - rxBmBase)].value;
      assert Tracks(d, model.base + (p - model.base), model.bm[p]);
      if d.ack.Some? {
        w, sb := SendAck(d.ack.value), None;
      } else {
        w, sb := SendDefaultResponse(psn, p);
      }
    }

    /**
      `uet_pds_process_request` for a RUD request; `ses` is what SES would answer if asked.  A SACK bitmap
      starts where a run of the protocol allows it to.
     */
    method ProcessRequest(q: ReqPkt, ses: SesVerdict, ghost p: int, ghost c: int)
      returns (w: Reply, due: bool, ghost sb: Option<int>)
      requires Valid() && SackValid() && RxValid(model) && Arrived(q, p, c, start)
      requires model.base + 4 * MPR - start < HALF_SPACE
      modifies this
      ensures Valid() && SackValid() && RxValid(model) && maxRcvd <= Max(old(maxRcvd), p)
      ensures var (r, m) := RequestRx(old(model), p, c, q.syn, ses, due, sb); model == r && ReplyOk(w, m)
      ensures sb.Some? ==> start - 1 <= sb.value <= Max(old(maxRcvd), p) && old(model).base - 1 - MPR <= sb.value
    {
      due, sb := false, None;
      var class_ := CheckDuplicate(q.psn, p);
      match class_
      case Prior =>
        w, sb := SendDefaultResponse(q.psn, p);
      case Repeat =>
        w, sb := AnswerAgain(q.psn, p);
      case OutOfWindow =>
        w := SendNack(q.psn, if q.syn then InvalidSyn else PsnOutOfWindow);
      case New =>
        match ses
        case Accept(gtdDel) =>
          w, due, sb := AcceptPkt(q, gtdDel, p, c);
          AcceptRxSpec(old(model), p, c, gtdDel, due, sb);
        case Refuse => w := SendNack(q.psn, NoSesMsgAvail);
        case Fail => w := SendNack(q.psn, UnexpectedEvent);
    }

    /** `uet_pds_process_clear_cp`. */
    method ProcessClear(clear: u32, ghost c: int)
      requires Valid() && SackValid() && RxValid(model)
      requires clear == Wrap(c) && start - 1 <= c && c - start < HALF_SPACE - 1
      requires model.base + 4 * MPR - start < HALF_SPACE
      modifies this`maxClearPsn, this`cackPsn, this`rxBmBase, this`rxBm, this`model
      ensures Valid() && SackValid() && model == ClearRx(old(model), c)
    {
      ClearKeepsSack(model, track, maxRcvd, start, c);
      UpdateCack(clear, c);
      ShiftRxWindow();
    }

    /** `uet_pds_process_ack_req_cp` for RUD. */
    method ProcessAckReq(psn: u32, ghost p: int) returns (w: Reply, ghost sb: Option<int>)
      requires Valid() && SackValid() && RxValid(model) && psn == Wrap(p) && start <= p < start + HALF_SPACE
      modifies this`sackBaseTrack, this`track
      ensures Valid() && SackValid()
      ensures ReplyOk(w, AckReqReply(model, p, sb))
      ensures sb.Some? ==> sb.value == p || sb.value == old(track)
    {
      sb := None;
      var class_ := CheckDuplicate(psn, p);
      if class_ == Prior || class_ == OutOfWindow { return NoReply, None; }
      if class_ == New { return SendNack(psn, PktNotReceived), None; }
      w, sb := AnswerAgain(psn, p);
    }
  }

  /** What a packet adds to accepted_bytes. */
  function Credit(q: ReqPkt): nat {
    if q.payloadLen > ACK_GEN_MIN_PKT_ADD then q.payloadLen else ACK_GEN_MIN_PKT_ADD
  }

  /** `q` is request `p` with clear PSN `c`, near enough to be told apart. */
  ghost predicate Arrived(q: ReqPkt, p: int, c: int, start: int) {
    && q.psn == Wrap(p) && start <= p < start + HALF_SPACE
    && q.clearPsn == Wrap(c) && start - 1 <= c && c - start < HALF_SPACE - 1
  }

  /** The cleared PSN and the cumulative ACK after a packet that clears up to `c`. */
  method CackAfter(slots: Slots, base: u32, maxClear: u32, clear: u32, ghost r: Rx, ghost c: int, ghost start: int)
    returns (newClear: u32, cack: u32)
    requires SlotsShow(slots, r) && InSpan(r, start)
    requires base == Wrap(r.base) && maxClear == Wrap(r.maxClear) && clear == Wrap(c)
    requires start - 1 <= c && c - start < HALF_SPACE - 1
    ensures var r' := RxWindow.UpdateCack(r, c); newClear == Wrap(r'.maxClear) && cack == Wrap(r'.cack)
  {
    ghost var mc := Max(r.maxClear, c);
    newClear := Later(maxClear, clear);
    assert newClear == Wrap(mc) by { LaterExact(r.maxClear, c); }
    var i := PassableRun(slots, newClear, r, mc, start);
    cack := Wrap(base + (i - 1));
    assert cack == Wrap(r.base + (i - 1)) by { WrapDiff(r.base, i - 1); }
  }

  /** The loop of `uet_pds_update_cack`. */
  method PassableRun(slots: Slots, maxClear: u32, ghost r: Rx, ghost mc: int, ghost start: int) returns (i: int)
    requires SlotsShow(slots, r) && InSpan(r, start) && maxClear == Wrap(mc)
    requires start - 1 <= mc && mc - start < HALF_SPACE - 1
    ensures 0 <= i <= MPR && r.base + i == Frontier(r.bm, mc, r.base, r.base + MPR)
  {
    i := 0;
    while i < MPR && slots[i].Some?
      invariant 0 <= i <= MPR
      invariant Frontier(r.bm, mc, r.base, r.base + MPR) == Frontier(r.bm, mc, r.base + i, r.base + MPR)
    {
      var d := slots[i].value;
      assert Tracks(d, r.base + i, r.bm[r.base + i]);
      assert After(d.psn, maxClear) == (r.base + i > mc) by { OffsetExact(r.base + i, mc); }
      if d.needsClear && After(d.psn, maxClear) { break; }
      i := i + 1;
    }
  }
}
