/** The two ROD ends as they run: fields updated in place, proved against Rod and RodOrder. */
module RodSide {
  import opened PdcTypes
  import opened Psn
  import RxWindow
  import opened Rod
  import opened RodOrder

  /** What a request that is not new gets back. */
  datatype Answer =
    | Acknowledged              // its ACK again, or the default response
    | StillWithSes              // UET_NACK_RCVD_SES_PROCG
    | Nacked(code: NackCode)

  /** A PSN near the window is acknowledged once the target has handed up everything before and including it. */
  function AnswerTo(r: RxWindow.Rx, psn: int, syn: bool): Answer {
    if !(r.base - MPR <= psn < r.base + MPR) then Nacked(if syn then InvalidSyn else PsnOutOfWindow)
    else if psn < Expect(r) then Acknowledged
    else StillWithSes
  }

  /** From PSN `p` on, the loop still owes the rest of `all` and ends in `final`. */
  ghost predicate Left(r: RxWindow.Rx, p: int, ses: Ses, final: RxWindow.Rx, all: seq<int>, up: seq<int>) {
    final == Deliver(r, p, ses).0 && all == up + Deliver(r, p, ses).1
  }

  lemma LeftStep(r: RxWindow.Rx, p: int, ses: Ses, final: RxWindow.Rx, all: seq<int>, up: seq<int>)
    requires p < r.base + MPR && p in r.bm && !r.bm[p].reordered && Left(r, p, ses, final, all, up)
    ensures ses(p).Accept? ==>
      var r1 := HandUp(r, p, ses(p).gtdDel);
      Left(r1, p + 1, ses, final, all, up + [p]) && r1.base == r.base && r1.bm.Keys == r.bm.Keys
    ensures !ses(p).Accept? ==> final == r.(bm := r.bm - {p}) && all == up
  {
  }

  class RodTarget {
    var base: int                           // rx_bm_base_psn
    var bm: map<int, RxWindow.RxPkt>        // rx_bm
    var cack: int                           // cack_psn
    var maxClear: int                       // max_clear_psn

    ghost function Model(): RxWindow.Rx
      reads this
    {
      RxWindow.Rx(base, bm, cack, maxClear)
    }

    ghost predicate Valid()
      reads this
    {
      RodInv(Model())
    }

    constructor (start: int)
      ensures Model() == RxWindow.InitRx(start) && Valid()
    {
      base, bm, cack, maxClear := start, map[], start - 1, start - 1;
    }

    /** `uet_pds_update_cack`. */
    method UpdateCack(clear: int)
      modifies this
      ensures Model() == RxWindow.UpdateCack(old(Model()), clear)
    {
      if clear > maxClear {
        maxClear := clear;
      }
      var p := base;
      while p < base + MPR && p in bm && !(bm[p].needsClear && p > maxClear)
        invariant base <= p <= base + MPR
        invariant RxWindow.Frontier(bm, maxClear, p, base + MPR) == RxWindow.Frontier(bm, maxClear, base, base + MPR)
      {
        p := p + 1;
      }
      cack := p - 1;
    }

    /** `uet_pds_shift_rx_window`. */
    method ShiftRxWindow()
      modifies this
      ensures Model() == RxWindow.ShiftRx(old(Model()))
    {
      if cack + 1 > base {
        bm := map p | p in bm && p > cack :: bm[p];
        base := cack + 1;
      }
    }

    /** `bm_max`: the index of the highest set bit, or -1. */
    method BmMax() returns (m: int)
      requires forall p :: p in bm ==> base <= p < base + MPR
      ensures -1 <= m < MPR && forall p :: p in bm ==> p <= base + m
      ensures m >= 0 ==> base + m in bm
    {
      m := MPR - 1;
      while m >= 0 && base + m !in bm
        invariant -1 <= m < MPR && forall p :: p in bm ==> p <= base + m
      {
        m := m - 1;
      }
    }

    /** `uet_pds_upcall_ses_rx_req` on a packet held in the bitmap. */
    method Upcall(p: int, verdict: SesVerdict) returns (rc: bool)
      requires p in bm
      modifies this
      ensures rc == verdict.Accept?
      ensures rc ==>
        var tracked := old(bm)[p := old(bm)[p].(needsClear := verdict.gtdDel)];
        Model() == RxWindow.UpdateCack(old(Model()).(bm := tracked), old(bm)[p].clear)
      ensures !rc ==> Model() == old(Model())
    {
      rc := verdict.Accept?;
      if rc {
        var clear := bm[p].clear;
        bm := bm[p := bm[p].(needsClear := verdict.gtdDel)];
        UpdateCack(clear);
      }
    }

    /** One iteration's upcall: the packet is marked as handed up, or leaves the bitmap. */
    method TryHandUp(p: int, verdict: SesVerdict) returns (rc: bool)
      requires p in bm
      modifies this
      ensures rc == verdict.Accept?
      ensures rc ==> Model() == HandUp(old(Model()), p, verdict.gtdDel)
      ensures !rc ==> Model() == old(Model()).(bm := old(bm) - {p})
    {
      rc := Upcall(p, verdict);
      if rc {
        bm := bm[p := bm[p].(reordered := true)];
      } else {
        bm := bm - {p};
      }
    }

    /** The reorder loop of `uet_pds_process_data_pkt`. */
    method ReorderLoop(ses: Ses) returns (up: seq<int>)
      requires forall p :: p in bm ==> base <= p < base + MPR
      modifies this
      ensures Model() == Deliver(old(Model()), old(base), ses).0
      ensures up == Deliver(old(Model()), old(base), ses).1
    {
      ghost var (final, all) := Deliver(Model(), base, ses);
      var max := BmMax();
      var i := 0;
      up := [];
      assert Left(Model(), base, ses, final, all, up) by { assert all == up + all; }
      while i <= max
        invariant 0 <= i <= max + 1 <= MPR && base == old(base)
        invariant forall q :: q in bm ==> q <= base + max
        invariant Left(Model(), base + i, ses, final, all, up)
      {
        var p := base + i;
        if p !in bm {
          break;
        }
        if !bm[p].reordered {
          LeftStep(Model(), p, ses, final, all, up);
          var rc := TryHandUp(p, ses(p));
          if !rc {
            return;
          }
          up := up + [p];
        }
        i := i + 1;
      }
      assert up + [] == up;
    }

    /** `uet_pds_process_data_pkt` on a ROD request that has been classed as new. */
    method ProcessDataPkt(psn: int, clear: int, ses: Ses) returns (up: seq<int>)
      requires Valid() && RxWindow.Classify(Model(), psn) == RxWindow.New
      modifies this
      ensures (Model(), up) == Arrive(old(Model()), psn, clear, ses)
      ensures Valid()
    {
      ArriveSpec(Model(), psn, clear, ses);
      bm := bm[psn := RxWindow.RxPkt(clear, false, false, None)];
      up := ReorderLoop(ses);
      ShiftRxWindow();
    }

    /** `uet_pds_check_duplicate_and_rtx` for ROD: the answer to a PSN that is not new. */
    method CheckDuplicate(psn: int, syn: bool) returns (answer: Option<Answer>)
      requires Valid()
      ensures answer.None? <==> RxWindow.Classify(Model(), psn) == RxWindow.New
      ensures answer.Some? ==> answer.value == AnswerTo(Model(), psn, syn)
    {
      if base - MPR <= psn < base {
        return Some(Acknowledged);
      }
      if !(base <= psn < base + MPR) {
        return Some(Nacked(if syn then InvalidSyn else PsnOutOfWindow));
      }
      if psn !in bm {
        return None;
      }
      answer := Some(if bm[psn].reordered then Acknowledged else StillWithSes);
    }

    /**
      `uet_pds_process_request` for ROD.  Repeats, prior and out-of-window PSNs leave the window alone; one that
      the target has is acknowledged again if and only if it is below the next PSN to hand up.
     */
    method ProcessRequest(psn: int, clear: int, syn: bool, ses: Ses) returns (up: seq<int>, answer: Option<Answer>)
      requires Valid()
      modifies this
      ensures (Model(), up) == Arrive(old(Model()), psn, clear, ses)
      ensures answer.None? <==> RxWindow.Classify(old(Model()), psn) == RxWindow.New
      ensures answer.Some? ==> answer.value == AnswerTo(old(Model()), psn, syn)
      ensures Valid()
    {
      up := [];
      answer := CheckDuplicate(psn, syn);
      if answer.None? {
        up := ProcessDataPkt(psn, clear, ses);
      }
    }
  }

  /** The active-message fields of an initiator PDC. */
  class MsgGate {
    var activeValid: bool                   // active_msg_id_valid
    var activeMsg: nat                      // active_msg_id
    var mapped: set<nat>                    // this PDC's entries in the msg_id table
    var nextPsn: int                        // next_psn
    const start: int                        // start_psn
    ghost var model: Gate

    ghost predicate Valid()
      reads this
    {
      && GateInv(model)
      && model.active == (if activeValid then Some(activeMsg) else None)
      && model.mapped == mapped
      && nextPsn == start + |model.log|
    }

    constructor (start: int)
      ensures Valid() && this.start == start && model == InitSys(start).gate
    {
      this.start, nextPsn, activeValid, activeMsg, mapped := start, start, false, 0, {};
      model := Gate(None, {}, [], {});
    }

    /** `uet_pds_tx_pkt`: a packet that is sent takes the next PSN, which is its place in the log. */
    method TxPkt(p: Pkt, maintain: bool, room: bool, xmit: bool) returns (code: SendCode, psn: int)
      requires Valid()
      modifies this
      ensures Valid() && (model, code) == Send(old(model), p, maintain, room, xmit)
      ensures code == Sent ==> psn - start == |old(model).log| && model.log[psn - start] == p
      ensures code != Invalid
    {
      SendKeeps(model, p, maintain, room, xmit);
      psn := nextPsn;
      if p.som {
        if activeValid {
          return Again, psn;
        }
      } else if p.msg !in mapped {
        return Again, psn;
      }
      if !room {
        return Again, psn;
      }
      if !p.som {
        if !activeValid || activeMsg != p.msg {
          return Invalid, psn;
        }
      }
      if !xmit {
        return SendFailed, psn;
      }
      if p.som {
        mapped, activeMsg, activeValid := mapped + {p.msg}, p.msg, true;
      }
      nextPsn := nextPsn + 1;
      if p.eom && !maintain {
        activeMsg, activeValid, mapped := 0, false, mapped - {p.msg};
      }
      code := Sent;
      model := Send(model, p, maintain, room, xmit).0;
    }

    /** `uet_pds_msg_cmpl_ind`. */
    method MsgCmplInd(msg: nat) returns (ok: bool)
      requires Valid()
      modifies this
      ensures Valid() && model == CmplInd(old(model), msg)
      ensures ok <==> old(model).active == Some(msg)
    {
      ok := msg in mapped;
      if ok {
        activeMsg, activeValid, mapped := 0, false, mapped - {msg};
      }
      model := CmplInd(model, msg);
    }
  }
}
