/**
  Accounting between SES and PDS for RUD and ROD.  SES counts the unacknowledged packets of each
  transmit descriptor; PDS tracks packets that name descriptors on its PDCs.  The two must agree.
 */
module Conservation {
  import opened PdcTypes
  import opened Psn
  import opened TxWindow

  /** How a tracked packet stops being outstanding. */
  datatype Cause = ByAck | ByCumulativeAck | ByPdsErr | ByDrop

  /** A packet is named by the PDC it was sent on and its PSN; PDC names are never reused here. */
  type PktId = (nat, int)

  datatype World = World(
    pdcs: map<nat, Tx>,          // every allocated PDC
    unack: map<nat, int>,        // unack_pkts of each descriptor; 0 when absent
    home: map<nat, nat>,         // the PDC a descriptor's message is mapped to
    sent: set<PktId>,            // every data packet handed to PDS successfully
    left: map<PktId, Cause>)     // the ones no longer outstanding, and why

  function Count(unack: map<nat, int>, h: nat): int {
    if h in unack then unack[h] else 0
  }

  /** One `unack_pkts--` for each upcall, in order. */
  function Debit(unack: map<nat, int>, upcalls: seq<nat>): map<nat, int> {
    if upcalls == [] then unack
    else
      var u := Debit(unack, upcalls[..|upcalls| - 1]);
      var h := upcalls[|upcalls| - 1];
      u[h := Count(u, h) - 1]
  }

  /** The outstanding packets of one PDC that name `h`. */
  function PktsOf(t: Tx, h: nat): set<int> {
    set p | p in t.bm && !t.bm[p].acked && t.bm[p].handle == h
  }

  /** The packets of `h` that a sweep over `[lo, hi)` reports. */
  function Swept(t: Tx, h: nat, lo: int, hi: int): set<int> {
    set p | p in PktsOf(t, h) && lo <= p < hi
  }

  ghost predicate Outstanding(w: World, id: PktId) {
    id.0 in w.pdcs && id.1 in w.pdcs[id.0].bm && !w.pdcs[id.0].bm[id.1].acked
  }

  /** The outstanding packets, over all PDCs, that name `h`. */
  function AllOf(w: World, h: nat): set<PktId> {
    set id | id in w.sent && id.0 in w.pdcs && id.1 in PktsOf(w.pdcs[id.0], h)
  }

  /** The rx_rsp upcalls of one acknowledgement. */
  function AckUpcalls(t: Tx, m: Msg): seq<nat>
    requires m.Ack? && Judge(t, m.psn, m.cack) != Rejected
  {
    CumulativeUpcalls(t, m) + OwnUpcall(t, m)
  }

  /** The upcall for the PSN the acknowledgement names, unless it is a repeat. */
  function OwnUpcall(t: Tx, m: Msg): seq<nat>
    requires m.Ack?
  {
    if Judge(t, m.psn, m.cack) == Fresh then [t.bm[m.psn].handle] else []
  }

  /** Which packets leave with `m`, and how. */
  function AckLeaves(k: nat, t: Tx, m: Msg): map<PktId, Cause>
    requires m.Ack? && Judge(t, m.psn, m.cack) != Rejected
  {
    map p | p in t.bm && !t.bm[p].acked && AckedAfter(t, m, p) ::
      (k, p) := if p == m.psn then ByAck else ByCumulativeAck
  }

  function DrainLeaves(k: nat, t: Tx): map<PktId, Cause> {
    map p | p in t.bm && !t.bm[p].acked :: (k, p) := ByPdsErr
  }

  // ---------------------------------------------------------------- steps

  function Allocate(w: World, k: nat, start: int): World {
    w.(pdcs := w.pdcs[k := InitTx(start)])
  }

  /** `uet_tx_msg`, one packet: SES counts it once PDS has taken it. */
  function SendPkt(w: World, h: nat, k: nat): World
    requires k in w.pdcs
  {
    var t := w.pdcs[k];
    if !Allowed(t, t.next) then w
    else w.(pdcs := w.pdcs[k := SendTx(t, h)], unack := w.unack[h := Count(w.unack, h) + 1],
            home := w.home[h := k], sent := w.sent + {(k, t.next)})
  }

  function AckPkt(w: World, k: nat, m: Msg): World
    requires k in w.pdcs && m.Ack?
  {
    var t := w.pdcs[k];
    if Judge(t, m.psn, m.cack) == Rejected then w
    else w.(pdcs := w.pdcs[k := AckTx(t, m)], unack := Debit(w.unack, AckUpcalls(t, m)),
            left := w.left + AckLeaves(k, t, m))
  }

  /** `uet_pdsm_drain_tx_pkts`: a pds_err upcall for every outstanding packet. */
  function Drain(w: World, k: nat): World
    requires k in w.pdcs
  {
    var t := w.pdcs[k];
    w.(pdcs := w.pdcs[k := DrainTx(t)], unack := Debit(w.unack, PendingHandles(t, t.base, t.next)),
       left := w.left + DrainLeaves(k, t))
  }

  /** `uet_pds_drop_tx_pkts`: forget a descriptor's packets on every PDC, without an upcall. */
  function DropAll(w: World, h: nat): World {
    w.(pdcs := map k | k in w.pdcs :: DropTx(w.pdcs[k], h),
       left := w.left + map id | id in AllOf(w, h) :: ByDrop)
  }

  /** Retries exhausted: drain the PDC in error, then drop what else names the failed packet's descriptor. */
  function Exhaust(w: World, k: nat, p: int): World
    requires k in w.pdcs && p in w.pdcs[k].bm
  {
    DropAll(Drain(w, k), w.pdcs[k].bm[p].handle)
  }

  /** `uet_ep_flush` for one descriptor. */
  function Flush(w: World, h: nat): World {
    DropAll(w, h).(unack := w.unack[h := 0])
  }

  function Free(w: World, k: nat): World {
    w.(pdcs := w.pdcs - {k})
  }

  datatype Event =
    | EvAllocate(k: nat, start: int)
    | EvSend(h: nat, k: nat)
    | EvAck(k: nat, m: Msg)
    | EvDrain(k: nat)
    | EvExhaust(k: nat, p: int)
    | EvFlush(h: nat)
    | EvFree(k: nat)

  /**
    SES starts or restarts a message, which may choose another PDC, only when nothing of it is
    outstanding; a PDC is freed only when nothing on it is.
   */
  ghost predicate Enabled(w: World, e: Event) {
    match e
    case EvAllocate(k, _) => k !in w.pdcs && forall id :: id in w.sent ==> id.0 != k
    case EvSend(h, k) => k in w.pdcs && (Count(w.unack, h) == 0 || (h in w.home && w.home[h] == k))
    case EvAck(k, m) => k in w.pdcs && m.Ack?
    case EvDrain(k) => k in w.pdcs
    case EvExhaust(k, p) => k in w.pdcs && p in w.pdcs[k].bm && !w.pdcs[k].bm[p].acked
    case EvFlush(_) => true
    case EvFree(k) => k in w.pdcs && forall p :: p in w.pdcs[k].bm ==> w.pdcs[k].bm[p].acked
  }

  ghost function Apply(w: World, e: Event): World
    requires Enabled(w, e)
  {
    match e
    case EvAllocate(k, start) => Allocate(w, k, start)
    case EvSend(h, k) => SendPkt(w, h, k)
    case EvAck(k, m) => AckPkt(w, k, m)
    case EvDrain(k) => Drain(w, k)
    case EvExhaust(k, p) => Exhaust(w, k, p)
    case EvFlush(h) => Flush(w, h)
    case EvFree(k) => Free(w, k)
  }

  ghost predicate ValidRun(w: World, es: seq<Event>)
    decreases |es|
  {
    es == [] || (Enabled(w, es[0]) && ValidRun(Apply(w, es[0]), es[1..]))
  }

  ghost function Run(w: World, es: seq<Event>): World
    requires ValidRun(w, es)
    decreases |es|
  {
    if es == [] then w else Run(Apply(w, es[0]), es[1..])
  }

  function InitWorld(): World {
    World(map[], map[], map[], {}, map[])
  }

  // ---------------------------------------------------------------- the invariant

  /** What PDS holds for a descriptor, all of it on one PDC. */
  ghost function Held(w: World, h: nat): nat {
    if h in w.home && w.home[h] in w.pdcs then |PktsOf(w.pdcs[w.home[h]], h)| else 0
  }

  ghost predicate Homed(w: World) {
    forall k, p :: k in w.pdcs && p in w.pdcs[k].bm && !w.pdcs[k].bm[p].acked ==>
      w.pdcs[k].bm[p].handle in w.home && w.home[w.pdcs[k].bm[p].handle] == k
  }

  ghost predicate Inv(w: World) {
    && (forall k :: k in w.pdcs ==> TxValid(w.pdcs[k]))
    && Homed(w)
    && (forall h :: Count(w.unack, h) == Held(w, h))
    && (forall id :: id in w.sent <==> Outstanding(w, id) || id in w.left)
    && (forall id :: Outstanding(w, id) ==> id !in w.left)
    && (forall id :: id in w.sent && id.0 in w.pdcs ==> id.1 < w.pdcs[id.0].next)
  }

  lemma {:induction false} DebitCount(u: map<nat, int>, ups: seq<nat>, h: nat)
    ensures Count(Debit(u, ups), h) == Count(u, h) - multiset(ups)[h]
  {
    if ups != [] {
      var n := |ups| - 1;
      DebitCount(u, ups[..n], h);
      assert ups == ups[..n] + [ups[n]];
    }
  }

  lemma {:induction false} PendingCount(t: Tx, lo: int, hi: int, h: nat)
    ensures multiset(PendingHandles(t, lo, hi))[h] == |Swept(t, h, lo, hi)|
    decreases hi - lo
  {
    var s := Swept(t, h, lo, hi);
    if hi <= lo {
      assert s == {};
    } else {
      PendingCount(t, lo, hi - 1, h);
      var s' := Swept(t, h, lo, hi - 1);
      assert s == if hi - 1 in PktsOf(t, h) then s' + {hi - 1} else s';
    }
  }

  lemma AckPackets(t: Tx, m: Msg, h: nat, t1: Tx, t': Tx)
    requires TxValid(t) && m.Ack? && Judge(t, m.psn, m.cack) != Rejected && AckEffect(t, m, t')
    requires t1 == if Judge(t, m.psn, m.cack) == Fresh then MarkAcked(t, m.psn) else t
    ensures var top := Max(t.maxCack, m.cack);
      && PktsOf(t1, h) == Swept(t1, h, t.base, top + 1) + PktsOf(t', h)
      && Swept(t1, h, t.base, top + 1) !! PktsOf(t', h)
      && PktsOf(t, h) == PktsOf(t1, h) + Explicitly(t, m, h)
      && PktsOf(t1, h) !! Explicitly(t, m, h)
  {
    var top := Max(t.maxCack, m.cack);
    forall p ensures p in PktsOf(t', h) <==> p in PktsOf(t1, h) && p > top {
      if p in t.bm && p < t'.base {
        assert AckedAfter(t, m, p);
      }
      if p in t'.bm {
        assert t'.bm[p].acked == AckedAfter(t, m, p);
      }
    }
  }

  function Explicitly(t: Tx, m: Msg, h: nat): set<int>
    requires m.Ack?
  {
    if Judge(t, m.psn, m.cack) == Fresh && t.bm[m.psn].handle == h then {m.psn} else {}
  }

  lemma UpcallCount(t: Tx, m: Msg, h: nat, t1: Tx)
    requires m.Ack? && Judge(t, m.psn, m.cack) != Rejected
    requires t1 == if Judge(t, m.psn, m.cack) == Fresh then MarkAcked(t, m.psn) else t
    ensures multiset(AckUpcalls(t, m))[h] == |Swept(t1, h, t.base, Max(t.maxCack, m.cack) + 1)| + |Explicitly(t, m, h)|
  {
    var ups := PendingHandles(t1, t.base, Max(t.maxCack, m.cack) + 1);
    assert CumulativeUpcalls(t, m) == ups;
    PendingCount(t1, t.base, Max(t.maxCack, m.cack) + 1, h);
    OwnCount(t, m, h);
    CountJoin(ups, OwnUpcall(t, m), h);
  }

  lemma OwnCount(t: Tx, m: Msg, h: nat)
    requires m.Ack?
    ensures multiset(OwnUpcall(t, m))[h] == |Explicitly(t, m, h)|
  {
  }

  lemma CountJoin(a: seq<nat>, b: seq<nat>, h: nat)
    ensures multiset(a + b)[h] == multiset(a)[h] + multiset(b)[h]
  {
  }

  lemma LeaveCount(t: Tx, m: Msg, h: nat, t1: Tx, t': Tx)
    requires TxValid(t) && m.Ack? && Judge(t, m.psn, m.cack) != Rejected && AckEffect(t, m, t')
    requires t1 == if Judge(t, m.psn, m.cack) == Fresh then MarkAcked(t, m.psn) else t
    ensures |PktsOf(t, h)| ==
      |Swept(t1, h, t.base, Max(t.maxCack, m.cack) + 1)| + |PktsOf(t', h)| + |Explicitly(t, m, h)|
  {
    AckPackets(t, m, h, t1, t');
    Parts(PktsOf(t, h), PktsOf(t1, h), Swept(t1, h, t.base, Max(t.maxCack, m.cack) + 1), PktsOf(t', h),
      Explicitly(t, m, h));
  }

  lemma Parts(all: set<int>, rest: set<int>, a: set<int>, b: set<int>, one: set<int>)
    requires all == rest + one && rest !! one && rest == a + b && a !! b
    ensures |all| == |a| + |b| + |one|
  {
  }

  /** Each acknowledgement makes exactly as many upcalls for `h` as it takes packets of `h` out of the window. */
  lemma AckCount(t: Tx, m: Msg, h: nat, t': Tx)
    requires TxValid(t) && m.Ack? && Judge(t, m.psn, m.cack) != Rejected && AckEffect(t, m, t')
    ensures multiset(AckUpcalls(t, m))[h] + |PktsOf(t', h)| == |PktsOf(t, h)|
  {
    var t1 := if Judge(t, m.psn, m.cack) == Fresh then MarkAcked(t, m.psn) else t;
    UpcallCount(t, m, h, t1);
    LeaveCount(t, m, h, t1, t');
  }

  lemma DrainCount(t: Tx, h: nat)
    requires TxValid(t)
    ensures multiset(PendingHandles(t, t.base, t.next))[h] == |PktsOf(t, h)|
    ensures PktsOf(DrainTx(t), h) == {}
  {
    PendingCount(t, t.base, t.next, h);
    assert PktsOf(t, h) == Swept(t, h, t.base, t.next);
  }

  lemma NotHome(w: World, k: nat, h: nat)
    requires Homed(w) && k in w.pdcs && !(h in w.home && w.home[h] == k)
    ensures PktsOf(w.pdcs[k], h) == {}
  {
    forall p | p in w.pdcs[k].bm ensures p !in PktsOf(w.pdcs[k], h) {
    }
  }

  /** Some outstanding packets of PDC `k` leave, each with one upcall or counted drop. */
  lemma PdcChange(w: World, k: nat, t': Tx, ups: seq<nat>, gone: map<PktId, Cause>, w': World)
    requires Inv(w) && k in w.pdcs && TxValid(t') && t'.next == w.pdcs[k].next
    requires w' == w.(pdcs := w.pdcs[k := t'], unack := Debit(w.unack, ups), left := w.left + gone)
    requires forall id :: id in gone ==> id.0 == k && Outstanding(w, id)
    requires forall p :: p in t'.bm && !t'.bm[p].acked <==>
               p in w.pdcs[k].bm && !w.pdcs[k].bm[p].acked && (k, p) !in gone
    requires forall p :: p in t'.bm ==> p in w.pdcs[k].bm && t'.bm[p].handle == w.pdcs[k].bm[p].handle
    requires forall h :: multiset(ups)[h] + |PktsOf(t', h)| == |PktsOf(w.pdcs[k], h)|
    ensures Inv(w')
  {
    forall h ensures Count(w'.unack, h) == Held(w', h) {
      DebitCount(w.unack, ups, h);
      if !(h in w.home && w.home[h] == k) {
        NotHome(w, k, h);
      }
    }
    forall id ensures Outstanding(w', id) <==> Outstanding(w, id) && id !in gone {
      assert id == (id.0, id.1);
    }
  }

  lemma AckKeeps(w: World, k: nat, m: Msg)
    requires Inv(w) && Enabled(w, EvAck(k, m))
    ensures Inv(AckPkt(w, k, m)) && w.left.Items <= AckPkt(w, k, m).left.Items
  {
    var t := w.pdcs[k];
    if Judge(t, m.psn, m.cack) != Rejected {
      AckTxSpec(t, m);
      var t' := AckTx(t, m);
      forall h ensures multiset(AckUpcalls(t, m))[h] + |PktsOf(t', h)| == |PktsOf(t, h)| {
        AckCount(t, m, h, t');
      }
      PdcChange(w, k, t', AckUpcalls(t, m), AckLeaves(k, t, m), AckPkt(w, k, m));
    }
  }

  lemma DrainKeeps(w: World, k: nat)
    requires Inv(w) && k in w.pdcs
    ensures Inv(Drain(w, k)) && w.left.Items <= Drain(w, k).left.Items
  {
    var t := w.pdcs[k];
    forall h ensures multiset(PendingHandles(t, t.base, t.next))[h] + |PktsOf(DrainTx(t), h)| == |PktsOf(t, h)| {
      DrainCount(t, h);
    }
    PdcChange(w, k, DrainTx(t), PendingHandles(t, t.base, t.next), DrainLeaves(k, t), Drain(w, k));
  }

  lemma SendCounts(w: World, h: nat, k: nat)
    requires Inv(w) && Enabled(w, EvSend(h, k))
    ensures |PktsOf(w.pdcs[k], h)| == Count(w.unack, h)
    ensures forall j, p :: j in w.pdcs && j != k && p in w.pdcs[j].bm && !w.pdcs[j].bm[p].acked ==>
              w.pdcs[j].bm[p].handle != h
  {
    if !(h in w.home && w.home[h] == k) {
      NotHome(w, k, h);
    }
    forall j | j in w.pdcs && j != k ensures PktsOf(w.pdcs[j], h) == {} {
      if !(h in w.home && w.home[h] == j) {
        NotHome(w, j, h);
      }
    }
    forall j, p | j in w.pdcs && j != k && p in w.pdcs[j].bm && !w.pdcs[j].bm[p].acked
      ensures w.pdcs[j].bm[p].handle != h
    {
      assert p !in PktsOf(w.pdcs[j], h);
    }
  }

  lemma SentPkts(t: Tx, h: nat, g: nat)
    requires t.next !in t.bm
    ensures |PktsOf(SendTx(t, h), g)| == |PktsOf(t, g)| + if g == h then 1 else 0
  {
    if g == h {
      assert PktsOf(SendTx(t, h), g) == PktsOf(t, g) + {t.next};
    } else {
      assert PktsOf(SendTx(t, h), g) == PktsOf(t, g);
    }
  }

  lemma SendLedger(w: World, h: nat, k: nat, g: nat)
    requires k in w.pdcs && Allowed(w.pdcs[k], w.pdcs[k].next) && w.pdcs[k].next !in w.pdcs[k].bm
    requires |PktsOf(w.pdcs[k], h)| == Count(w.unack, h) && Count(w.unack, g) == Held(w, g)
    ensures Count(SendPkt(w, h, k).unack, g) == Held(SendPkt(w, h, k), g)
  {
    SentPkts(w.pdcs[k], h, g);
  }

  lemma SendIds(w: World, h: nat, k: nat, id: PktId)
    requires k in w.pdcs && Allowed(w.pdcs[k], w.pdcs[k].next)
    ensures Outstanding(SendPkt(w, h, k), id) <==> Outstanding(w, id) || id == (k, w.pdcs[k].next)
  {
  }

  lemma SendKeeps(w: World, h: nat, k: nat)
    requires Inv(w) && Enabled(w, EvSend(h, k))
    ensures Inv(SendPkt(w, h, k)) && w.left.Items <= SendPkt(w, h, k).left.Items
  {
    var t, w' := w.pdcs[k], SendPkt(w, h, k);
    if Allowed(t, t.next) {
      SendCounts(w, h, k);
      forall g ensures Count(w'.unack, g) == Held(w', g) {
        SendLedger(w, h, k, g);
      }
      forall id ensures Outstanding(w', id) <==> Outstanding(w, id) || id == (k, t.next) {
        SendIds(w, h, k, id);
      }
    }
  }

  lemma DropPkts(t: Tx, h: nat, g: nat)
    ensures PktsOf(DropTx(t, h), g) == if g == h then {} else PktsOf(t, g)
  {
  }

  lemma DropIds(w: World, h: nat, id: PktId)
    requires Inv(w)
    ensures var w' := DropAll(w, h);
      && (Outstanding(w', id) <==> Outstanding(w, id) && w.pdcs[id.0].bm[id.1].handle != h)
      && (id in w'.left <==> id in w.left || (Outstanding(w, id) && w.pdcs[id.0].bm[id.1].handle == h))
  {
  }

  /** Dropping is exact when nothing else of the descriptor is outstanding, or its counter is reset with it. */
  lemma DropKeeps(w: World, h: nat, w': World)
    requires Inv(w) && w' == DropAll(w, h).(unack := w'.unack)
    requires forall g :: Count(w'.unack, g) == if g == h then 0 else Count(w.unack, g)
    ensures Inv(w') && w.left.Items <= w'.left.Items
  {
    forall g ensures Held(w', g) == if g == h then 0 else Held(w, g) {
      if g in w.home && w.home[g] in w.pdcs { DropPkts(w.pdcs[w.home[g]], h, g); }
    }
    forall id
      ensures Outstanding(w', id) <==> Outstanding(w, id) && w.pdcs[id.0].bm[id.1].handle != h
      ensures id in w'.left <==> id in w.left || (Outstanding(w, id) && w.pdcs[id.0].bm[id.1].handle == h)
    {
      DropIds(w, h, id);
    }
  }

  lemma ExhaustKeeps(w: World, k: nat, p: int)
    requires Inv(w) && Enabled(w, EvExhaust(k, p))
    ensures Inv(Exhaust(w, k, p)) && w.left.Items <= Exhaust(w, k, p).left.Items
  {
    var h, w1 := w.pdcs[k].bm[p].handle, Drain(w, k);
    DrainKeeps(w, k);
    assert w1.home[h] == k;
    DrainCount(w.pdcs[k], h);
    assert Count(w1.unack, h) == Held(w1, h) == 0;
    DropKeeps(w1, h, Exhaust(w, k, p));
  }

  lemma StepKeeps(w: World, e: Event)
    requires Inv(w) && Enabled(w, e)
    ensures Inv(Apply(w, e)) && w.left.Items <= Apply(w, e).left.Items
  {
    match e
    case EvAllocate(k, start) => AllocateKeeps(w, k, start);
    case EvSend(h, k) => SendKeeps(w, h, k);
    case EvAck(k, m) => AckKeeps(w, k, m);
    case EvDrain(k) => DrainKeeps(w, k);
    case EvExhaust(k, p) => ExhaustKeeps(w, k, p);
    case EvFlush(h) => DropKeeps(w, h, Flush(w, h));
    case EvFree(k) => FreeKeeps(w, k);
  }

  lemma AllocateKeeps(w: World, k: nat, start: int)
    requires Inv(w) && Enabled(w, EvAllocate(k, start))
    ensures Inv(Allocate(w, k, start))
  {
    var w' := Allocate(w, k, start);
    forall h ensures Held(w', h) == Held(w, h) {
      assert PktsOf(InitTx(start), h) == {};
    }
    forall id ensures Outstanding(w', id) <==> Outstanding(w, id) {
    }
  }

  lemma FreeKeeps(w: World, k: nat)
    requires Inv(w) && Enabled(w, EvFree(k))
    ensures Inv(Free(w, k))
  {
    var w' := Free(w, k);
    forall h ensures Held(w', h) == Held(w, h) {
      assert |PktsOf(w.pdcs[k], h)| == 0 by {
        forall p | p in w.pdcs[k].bm ensures p !in PktsOf(w.pdcs[k], h) {
        }
      }
    }
    forall id ensures Outstanding(w', id) <==> Outstanding(w, id) {
    }
  }

  lemma {:induction false} RunKeeps(w: World, es: seq<Event>)
    requires Inv(w) && ValidRun(w, es)
    ensures Inv(Run(w, es)) && w.left.Items <= Run(w, es).left.Items
    decreases |es|
  {
    if es != [] {
      StepKeeps(w, es[0]);
      RunKeeps(Apply(w, es[0]), es[1..]);
    }
  }

  // ---------------------------------------------------------------- the theorems

  lemma {:induction false} TagSize(k: nat, t: Tx, h: nat, lo: int, hi: int)
    ensures |set p | p in Swept(t, h, lo, hi) :: (k, p)| == |Swept(t, h, lo, hi)|
    decreases hi - lo
  {
    var s := Swept(t, h, lo, hi);
    if hi <= lo {
      assert s == {};
    } else {
      TagSize(k, t, h, lo, hi - 1);
      var s' := Swept(t, h, lo, hi - 1);
      if hi - 1 in PktsOf(t, h) {
        assert s == s' + {hi - 1};
        assert (set p | p in s :: (k, p)) == (set p | p in s' :: (k, p)) + {(k, hi - 1)};
      } else {
        assert s == s';
      }
    }
  }

  /** In every run a descriptor's counter is the number of packets PDS is tracking for it. */
  lemma CounterIsExact(es: seq<Event>, h: nat)
    requires ValidRun(InitWorld(), es)
    ensures var w := Run(InitWorld(), es); Count(w.unack, h) == |AllOf(w, h)|
  {
    RunKeeps(InitWorld(), es);
    var w := Run(InitWorld(), es);
    var k := if h in w.home then w.home[h] else 0;
    if h in w.home && k in w.pdcs {
      var t := w.pdcs[k];
      assert PktsOf(t, h) == Swept(t, h, t.base, t.next);
      TagSize(k, t, h, t.base, t.next);
      AllOfHome(w, h, k);
    } else {
      forall j | j in w.pdcs ensures PktsOf(w.pdcs[j], h) == {} {
        NotHome(w, j, h);
      }
      assert AllOf(w, h) == {};
    }
  }

  lemma AllOfHome(w: World, h: nat, k: nat)
    requires Inv(w) && h in w.home && w.home[h] == k && k in w.pdcs
    ensures AllOf(w, h) == set p | p in PktsOf(w.pdcs[k], h) :: (k, p)
  {
  }

  /**
    Every packet PDS took is either outstanding or has left, never both; and once it has left,
    by one cause, no later step of the run makes it leave again by another.
   */
  lemma LeavesOnce(es: seq<Event>, more: seq<Event>, id: PktId)
    requires ValidRun(InitWorld(), es)
    requires ValidRun(Run(InitWorld(), es), more)
    ensures var w := Run(InitWorld(), es); var w' := Run(w, more);
      && (id in w.sent <==> Outstanding(w, id) || id in w.left)
      && !(Outstanding(w, id) && id in w.left)
      && (id in w.left ==> id in w'.left && w'.left[id] == w.left[id] && !Outstanding(w', id))
  {
    RunKeeps(InitWorld(), es);
    var w := Run(InitWorld(), es);
    RunKeeps(w, more);
    var w' := Run(w, more);
    if id in w.left {
      assert (id, w.left[id]) in w.left.Items;
      assert (id, w.left[id]) in w'.left.Items;
    }
  }

  /** The upcalls of one acknowledgement, or of one drain. */
  ghost predicate UpcallsOf(t: Tx, ups: seq<nat>) {
    || ups == PendingHandles(t, t.base, t.next)
    || exists m: Msg :: m.Ack? && Judge(t, m.psn, m.cack) != Rejected && ups == AckUpcalls(t, m)
  }

  lemma UpcallsBounded(t: Tx, ups: seq<nat>, h: nat)
    requires TxValid(t) && UpcallsOf(t, ups)
    ensures multiset(ups)[h] <= |PktsOf(t, h)|
  {
    if ups == PendingHandles(t, t.base, t.next) {
      DrainCount(t, h);
    } else {
      var m: Msg :| m.Ack? && Judge(t, m.psn, m.cack) != Rejected && ups == AckUpcalls(t, m);
      AckTxSpec(t, m);
      AckCount(t, m, h, AckTx(t, m));
    }
  }

  lemma OccursAgain(s: seq<nat>, i: nat)
    requires i < |s|
    ensures multiset(s[..i])[s[i]] < multiset(s)[s[i]]
  {
    assert s == s[..i] + [s[i]] + s[i + 1..];
  }

  /** No single upcall of an acknowledgement or a drain finds the counter at zero. */
  lemma NoUnderflow(es: seq<Event>, k: nat, ups: seq<nat>, i: nat)
    requires ValidRun(InitWorld(), es)
    requires var w := Run(InitWorld(), es); k in w.pdcs && UpcallsOf(w.pdcs[k], ups)
    requires i < |ups|
    ensures Count(Debit(Run(InitWorld(), es).unack, ups[..i]), ups[i]) > 0
  {
    RunKeeps(InitWorld(), es);
    var w, h := Run(InitWorld(), es), ups[i];
    DebitCount(w.unack, ups[..i], h);
    OccursAgain(ups, i);
    UpcallsBounded(w.pdcs[k], ups, h);
    if !(h in w.home && w.home[h] == k) {
      NotHome(w, k, h);
    }
  }
}
