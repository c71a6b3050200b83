/** The sync-group functions of the target endpoint as they run, proved against SyncGroup. */
module SyncSide {
  import opened PdcTypes
  import opened SyncGroup

  class SyncTarget {
    var live: bool                  // the group's key is in the hash table
    var curCnt: nat
    var cmplCnt: nat
    var totCnt: nat
    var termAtomic: bool
    var parms: (int, int)
    var termErr: bool
    var termDesc: Option<nat>
    var atomics: seq<(int, int)>
    var cq: seq<Cqe>

    ghost function Model(): Sync
      reads this
    {
      Sync(if live then Some(Entry(curCnt, cmplCnt, totCnt, termAtomic, parms, termErr, termDesc)) else None,
           atomics, cq)
    }

    constructor ()
      ensures Model() == Sync(None, [], [])
    {
      live, curCnt, cmplCnt, totCnt, termAtomic, parms, termErr, termDesc := false, 0, 0, 0, false, (0, 0), false, None;
      atomics, cq := [], [];
    }

    /** A zeroed entry goes into the table. */
    method Insert()
      requires !live
      modifies this
      ensures Model() == old(Model()).(entry := Some(NEW_ENTRY))
    {
      live, curCnt, cmplCnt, totCnt, termAtomic, parms, termErr, termDesc := true, 0, 0, 0, false, (0, 0), false, None;
    }

    /** `uet_get_sync_grp_src_fep`. */
    method GetSyncGrp(desc: nat, terminating: bool, cnt: nat, newMsg: bool) returns (ok: bool)
      modifies this
      ensures (Model(), ok) == GetGroup(old(Model()), desc, terminating, cnt, newMsg)
    {
      if !live {
        Insert();
      }
      if terminating {
        if totCnt != 0 || cnt == 0 {
          return false;
        }
        totCnt := cnt;
        termDesc := Some(desc);
      }
      if newMsg {
        if totCnt != 0 && curCnt + 1 > totCnt {
          if !terminating {
            return false;
          }
          termErr := true;
          totCnt := curCnt + 1;
        }
        curCnt := curCnt + 1;
      }
      ok := true;
    }

    /** `uet_rx_cq_post_entry`. */
    method RxCqPostEntry(desc: nat, postCq: bool)
      modifies this
      ensures Model() == PostEntry(old(Model()), desc, postCq)
    {
      var handOver := false;
      if live {
        cmplCnt := cmplCnt + 1;
        if cmplCnt == totCnt {
          if termAtomic {
            if !termErr {
              atomics := atomics + [parms];
            }
          } else if termDesc.Some? && termDesc.value != desc {
            handOver := true;
          }
          live := false;
        } else if termDesc == Some(desc) {
          return;
        }
      }
      if postCq {
        cq := cq + [Good(desc)];
      } else if handOver {
        if termErr {
          RxCqPostErr(termDesc.value);
        } else {
          cq := cq + [Good(termDesc.value)];
        }
      }
    }

    /** `uet_rx_cq_post_err` for a write. */
    method RxCqPostErr(desc: nat)
      modifies this
      ensures Model() == PostErr(old(Model()), desc)
    {
      if live {
        termErr := true;
        cmplCnt := cmplCnt + 1;
        if cmplCnt == totCnt {
          live := false;
          if termDesc.Some? && termDesc.value != desc {
            cq := cq + [Bad(termDesc.value)];
          }
        }
      }
    }

    /** `uet_rx_atomic_req_pkt` with the sync flag. */
    method RxAtomicReq(cnt: nat, addr: int, data: int) returns (ok: bool)
      modifies this
      ensures (Model(), ok) == AtomicReq(old(Model()), cnt, addr, data)
    {
      var defer := false;
      if live {
        if totCnt != 0 {
          termErr := true;
          return false;
        }
        termAtomic := true;
        cmplCnt := cmplCnt + 1;
        curCnt := curCnt + 1;
        totCnt := cnt;
        ok := true;
        if curCnt > totCnt {
          ok := false;
          totCnt := curCnt;
        }
        if cmplCnt == totCnt {
          live := false;
        } else {
          defer := true;
        }
        if !ok {
          if live {
            termErr := true;
          }
          return;
        }
      } else if cnt == 0 {
        return false;
      } else if cnt != 1 {
        Insert();
        termAtomic, curCnt, cmplCnt, totCnt := true, 1, 1, cnt;
        defer := true;
      }
      if defer {
        parms := (addr, data);
      } else {
        atomics := atomics + [(addr, data)];
      }
      ok := true;
    }
  }
}
