/**
  The target's half of a RUD PDC as a value: the receive bitmap, the cumulative ACK, the
  cleared PSN, and what requests, CLEARs and ACK requests do to them.
 */
module RxWindow {
  import opened PdcTypes
  import opened Psn

  /** `struct uet_pdc_pkt` as tracked in rx_bm. */
  datatype RxPkt = RxPkt(
    clear: int,                 // the clear PSN the packet carried
    needsClear: bool,           // SES asked for guaranteed delivery of its response
    reordered: bool,            // ROD: already handed up to SES
    ack: Option<Msg>)           // the ACK built for it

  datatype Rx = Rx(
    base: int,                  // rx_bm_base_psn
    bm: map<int, RxPkt>,        // rx_bm, keyed by PSN
    cack: int,                  // cack_psn
    maxClear: int)              // max_clear_psn

  function InitRx(start: int): Rx {
    Rx(start, map[], start - 1, start - 1)
  }

  ghost predicate RxValid(r: Rx) {
    && r.base == r.cack + 1
    && forall p :: p in r.bm ==> r.base <= p < r.base + MPR
  }

  datatype Class = New | Repeat | Prior | OutOfWindow

  /** The classification in `uet_pds_check_duplicate_and_rtx`. */
  function Classify(r: Rx, psn: int): Class {
    if r.base - MPR <= psn < r.base then Prior
    else if r.base <= psn < r.base + MPR then
      if psn in r.bm then Repeat else New
    else OutOfWindow
  }

  /** A tracked packet whose guaranteed response has not been cleared stops the cumulative ACK. */
  predicate Passable(bm: map<int, RxPkt>, maxClear: int, p: int) {
    p in bm && !(bm[p].needsClear && p > maxClear)
  }

  /** The first PSN at or above `p` that the cumulative ACK cannot cover. */
  function Frontier(bm: map<int, RxPkt>, maxClear: int, p: int, end: int): (f: int)
    requires p <= end
    ensures p <= f <= end
    ensures forall q :: p <= q < f ==> Passable(bm, maxClear, q)
    ensures f < end ==> !Passable(bm, maxClear, f)
    decreases end - p
  {
    if p < end && Passable(bm, maxClear, p) then Frontier(bm, maxClear, p + 1, end) else p
  }

  /** `uet_pds_update_cack`. */
  function UpdateCack(r: Rx, clear: int): Rx {
    var mc := Max(r.maxClear, clear);
    r.(maxClear := mc, cack := Frontier(r.bm, mc, r.base, r.base + MPR) - 1)
  }

  /** `uet_pds_shift_rx_window`. */
  function ShiftRx(r: Rx): Rx {
    if r.cack + 1 <= r.base then r
    else r.(base := r.cack + 1, bm := map p | p in r.bm && p > r.cack :: r.bm[p])
  }

  /** The SACK bits of `uet_pds_build_ack_cc_ext`: everything below the window, and what is tracked in it. */
  function SackBits(r: Rx, sackBase: int): set<int> {
    set p | sackBase <= p < sackBase + 64 && (p < r.base || p in r.bm)
  }

  /** The ACK_CC extension is absent for plain ACKs; otherwise it advertises UET_DEFAULT_MPR. */
  function BuildCc(r: Rx, sackBase: Option<int>): Option<Cc> {
    if sackBase.None? then None else Some(Cc(sackBase.value, 1, SackBits(r, sackBase.value)))
  }

  function DefaultResponse(r: Rx, psn: int, sackBase: Option<int>): Msg {
    Ack(psn, r.cack, false, false, BuildCc(r, sackBase))
  }

  /** A new request that SES accepts: track it, update the ACK state, and acknowledge it when due. */
  function AcceptRx(r: Rx, psn: int, clear: int, gtdDel: bool, due: bool, sackBase: Option<int>): (Rx, Option<Msg>)
  {
    var r1 := UpdateCack(r.(bm := r.bm[psn := RxPkt(clear, gtdDel, false, None)]), clear);
    if gtdDel || due then
      var ack := Ack(psn, r1.cack, true, gtdDel, BuildCc(r1, sackBase));
      (ShiftRx(r1.(bm := r1.bm[psn := RxPkt(clear, gtdDel, false, Some(ack))])), Some(ack))
    else
      (ShiftRx(r1), None)
  }

  /** `uet_pds_process_request` for RUD: the new state and the packet sent back, if any. */
  function RequestRx(r: Rx, psn: int, clear: int, syn: bool, ses: SesVerdict, due: bool, sackBase: Option<int>)
    : (Rx, Option<Msg>)
  {
    match Classify(r, psn)
    case Prior => (r, Some(DefaultResponse(r, psn, sackBase)))
    case Repeat => (r, Some(if r.bm[psn].ack.Some? then r.bm[psn].ack.value else DefaultResponse(r, psn, sackBase)))
    case OutOfWindow => (r, Some(Nack(psn, if syn then InvalidSyn else PsnOutOfWindow)))
    case New =>
      match ses
      case Accept(gtdDel) => AcceptRx(r, psn, clear, gtdDel, due, sackBase)
      case Refuse => (r, Some(Nack(psn, NoSesMsgAvail)))
      case Fail => (r, Some(Nack(psn, UnexpectedEvent)))
  }

  /** `uet_pds_process_clear_cp`. */
  function ClearRx(r: Rx, clear: int): Rx {
    ShiftRx(UpdateCack(r, clear))
  }

  /** `uet_pds_process_ack_req_cp` for RUD. */
  function AckReqReply(r: Rx, psn: int, sackBase: Option<int>): Option<Msg> {
    if !(r.base <= psn < r.base + MPR) then None
    else if psn !in r.bm then Some(Nack(psn, PktNotReceived))
    else if r.bm[psn].ack.Some? then r.bm[psn].ack
    else Some(DefaultResponse(r, psn, sackBase))
  }

  /** What accepting a new request does, said without the intermediate states. */
  lemma AcceptRxSpec(r: Rx, psn: int, clear: int, gtdDel: bool, due: bool, sackBase: Option<int>)
    requires RxValid(r) && Classify(r, psn) == New
    ensures var (r', reply) := AcceptRx(r, psn, clear, gtdDel, due, sackBase);
      && RxValid(r') && r.cack <= r'.cack < r.base + MPR
      && r'.maxClear == Max(r.maxClear, clear)
      && (reply.Some? <==> gtdDel || due)
      && (reply.Some? ==> exists cc :: reply.value == Ack(psn, r'.cack, true, gtdDel, cc))
      && (forall q :: r.base <= q <= r'.cack ==>
            if q == psn then gtdDel ==> q <= r'.maxClear
            else q in r.bm && (r.bm[q].needsClear ==> q <= r'.maxClear))
      && (forall q :: q in r'.bm <==> q > r'.cack && (q == psn || q in r.bm))
      && (forall q :: q in r'.bm ==> r'.bm[q] == if q == psn then RxPkt(clear, gtdDel, false, reply) else r.bm[q])
  {
    var bm1 := r.bm[psn := RxPkt(clear, gtdDel, false, None)];
    var r1 := UpdateCack(r.(bm := bm1), clear);
    forall q | r.base <= q <= r1.cack
      ensures if q == psn then gtdDel ==> q <= r1.maxClear
              else q in r.bm && (r.bm[q].needsClear ==> q <= r1.maxClear)
    {
      assert Passable(bm1, r1.maxClear, q);
    }
  }
}
