/** Order and message contiguity over whole runs of a ROD PDC. */
module RodOrder {
  import opened PdcTypes
  import opened Psn
  import opened RxWindow
  import opened Rod

  // ---------------------------------------------------------------- the initiator's message gate

  datatype Pkt = Pkt(msg: nat, som: bool, eom: bool)

  /** The initiator's side of one PDC; packet `i` of `log` carries PSN Start_PSN + i. */
  datatype Gate = Gate(
    active: Option<nat>,        // active_msg_id, when active_msg_id_valid
    mapped: set<nat>,           // message ids that the msg_id table maps to this PDC
    log: seq<Pkt>,              // every packet sent, in PSN order
    closed: set<nat>)           // log positions at which SES ended the active message

  datatype SendCode = Sent | Again | Invalid | SendFailed

  /** `uet_pds_tx_pkt`, the part that assigns the PDC and its next PSN. */
  function Send(g: Gate, p: Pkt, maintain: bool, room: bool, xmit: bool): (Gate, SendCode) {
    if p.som && g.active.Some? then (g, Again)
    else if !p.som && p.msg !in g.mapped then (g, Again)
    else if !room then (g, Again)
    else if !p.som && g.active != Some(p.msg) then (g, Invalid)
    else if !xmit then (g, SendFailed)
    else if p.eom && !maintain then (g.(active := None, mapped := g.mapped - {p.msg}, log := g.log + [p]), Sent)
    else if p.som then (g.(active := Some(p.msg), mapped := g.mapped + {p.msg}, log := g.log + [p]), Sent)
    else (g.(log := g.log + [p]), Sent)
  }

  /** `uet_pds_msg_cmpl_ind`. */
  function CmplInd(g: Gate, msg: nat): Gate {
    if msg !in g.mapped then g
    else g.(active := None, mapped := g.mapped - {msg}, closed := g.closed + {|g.log|})
  }

  /** Only SOM starts a message, and only when the one before has ended. */
  ghost predicate GateInv(g: Gate) {
    && g.mapped == (if g.active.Some? then {g.active.value} else {})
    && (g.active.Some? ==> g.log != [] && g.log[|g.log| - 1].msg == g.active.value)
    && (g.active.None? ==> g.log == [] || g.log[|g.log| - 1].eom || |g.log| in g.closed)
    && (forall i :: 0 <= i < |g.log| && !g.log[i].som ==> i > 0 && g.log[i - 1].msg == g.log[i].msg)
    && (forall i :: 0 < i < |g.log| && g.log[i].som ==> g.log[i - 1].eom || i in g.closed)
  }

  lemma SendKeeps(g: Gate, p: Pkt, maintain: bool, room: bool, xmit: bool)
    requires GateInv(g)
    ensures var (g', code) := Send(g, p, maintain, room, xmit);
      GateInv(g') && code != Invalid && g.log <= g'.log
  {
  }

  /** The position of the SOM packet of the message that packet `i` belongs to. */
  function MsgStart(log: seq<Pkt>, i: nat): (j: nat)
    requires i < |log|
    ensures j <= i && (j == 0 || log[j].som)
    ensures forall k :: j < k <= i ==> !log[k].som
  {
    if log[i].som || i == 0 then i else MsgStart(log, i - 1)
  }

  /** A message's packets occupy one unbroken interval of PSNs, headed by its SOM packet. */
  lemma {:induction false} Contiguous(g: Gate, i: nat)
    requires GateInv(g) && i < |g.log|
    ensures g.log[MsgStart(g.log, i)].som
    ensures forall k :: MsgStart(g.log, i) <= k <= i ==> g.log[k].msg == g.log[i].msg
    ensures forall k :: MsgStart(g.log, i) <= k <= i ==> MsgStart(g.log, k) == MsgStart(g.log, i)
  {
    if !g.log[i].som {
      Contiguous(g, i - 1);
    }
  }

  // ---------------------------------------------------------------- runs

  datatype Sys = Sys(
    start: int,
    gate: Gate,
    rx: Rx,
    up: seq<int>,               // PSNs SES accepted, in order
    overran: bool)              // some call so far was an overrun

  ghost function InitSys(start: int): Sys {
    Sys(start, Gate(None, {}, [], {}), InitRx(start), [], false)
  }

  datatype Event =
    | SendEv(p: Pkt, maintain: bool, room: bool, xmit: bool)
    | CmplEv(msg: nat)
      // any packet sent so far may arrive, any number of times and in any order
    | ReqEv(psn: int, clear: int, ses: Ses)
    | ClearEv(clear: int)

  ghost predicate Enabled(s: Sys, e: Event) {
    e.ReqEv? ==> s.start <= e.psn < s.start + |s.gate.log|
  }

  ghost function Apply(s: Sys, e: Event): Sys {
    match e
    case SendEv(p, maintain, room, xmit) => s.(gate := Send(s.gate, p, maintain, room, xmit).0)
    case CmplEv(msg) => s.(gate := CmplInd(s.gate, msg))
    case ClearEv(clear) => s.(rx := ClearRx(s.rx, clear))
    case ReqEv(psn, clear, ses) =>
      var (r', newUp) := Arrive(s.rx, psn, clear, ses);
      s.(rx := r', up := s.up + newUp, overran := s.overran || Overrun(s.rx, psn, clear, ses))
  }

  ghost predicate ValidRun(s: Sys, es: seq<Event>)
    decreases |es|
  {
    es == [] || (Enabled(s, es[0]) && ValidRun(Apply(s, es[0]), es[1..]))
  }

  ghost function Run(s: Sys, es: seq<Event>): Sys
    decreases |es|
  {
    if es == [] then s else Run(Apply(s, es[0]), es[1..])
  }

  ghost predicate Increasing(up: seq<int>) {
    forall i, j :: 0 <= i < j < |up| ==> up[i] < up[j]
  }

  ghost predicate Inv(s: Sys) {
    && GateInv(s.gate)
    && RodInv(s.rx)
    && (forall p :: p in s.rx.bm || p in s.up ==> s.start <= p < s.start + |s.gate.log|)
    && Increasing(s.up)
    && (forall i :: 0 <= i < |s.up| ==> s.start + i <= s.up[i] < Expect(s.rx))
    && s.start + |s.up| <= Expect(s.rx)
    && (s.start + |s.up| == Expect(s.rx) <==> !s.overran)
  }

  lemma ReqKeeps(s: Sys, psn: int, clear: int, ses: Ses)
    requires Inv(s) && Enabled(s, ReqEv(psn, clear, ses))
    ensures Inv(Apply(s, ReqEv(psn, clear, ses)))
  {
    ArriveSpec(s.rx, psn, clear, ses);
    ArriveOnlyHeld(s.rx, psn, clear, ses);
    var (r', newUp) := Arrive(s.rx, psn, clear, ses);
    var s' := Apply(s, ReqEv(psn, clear, ses));
    forall p | p in r'.bm || p in s'.up ensures s.start <= p < s.start + |s.gate.log| {
      assert p in s'.up ==> p in s.up || p in newUp;
    }
  }

  lemma StepKeeps(s: Sys, e: Event)
    requires Inv(s) && Enabled(s, e)
    ensures Inv(Apply(s, e)) && s.gate.log <= Apply(s, e).gate.log && Apply(s, e).start == s.start
  {
    match e
    case SendEv(p, maintain, room, xmit) => SendKeeps(s.gate, p, maintain, room, xmit);
    case CmplEv(_) =>
    case ClearEv(clear) => ClearKeeps(s.rx, clear);
    case ReqEv(psn, clear, ses) => ReqKeeps(s, psn, clear, ses);
  }

  lemma {:induction false} RunKeeps(s: Sys, es: seq<Event>)
    requires Inv(s) && ValidRun(s, es)
    ensures Inv(Run(s, es)) && Run(s, es).start == s.start
    decreases |es|
  {
    if es != [] {
      StepKeeps(s, es[0]);
      RunKeeps(Apply(s, es[0]), es[1..]);
    }
  }

  // ---------------------------------------------------------------- the theorems

  ghost function Reach(start: int, es: seq<Event>): Sys {
    Run(InitSys(start), es)
  }

  lemma ReachInv(start: int, es: seq<Event>)
    requires ValidRun(InitSys(start), es)
    ensures Inv(Reach(start, es)) && Reach(start, es).start == start
  {
    RunKeeps(InitSys(start), es);
  }

  /** Whatever SES answers, it sees PSNs in strictly increasing order, and only PSNs that were sent. */
  lemma StrictlyIncreasing(start: int, es: seq<Event>)
    requires ValidRun(InitSys(start), es)
    ensures var s := Reach(start, es);
      Increasing(s.up) && forall p :: p in s.up ==> start <= p < start + |s.gate.log|
  {
    ReachInv(start, es);
  }

  lemma DenseIsAscending(up: seq<int>, from: int, end: int)
    requires Increasing(up) && end == from + |up|
    requires forall i :: 0 <= i < |up| ==> from + i <= up[i] < end
    ensures up == Ascending(from, |up|)
  {
    Pinned(up, from, end, 0);
  }

  lemma {:induction false} Pinned(up: seq<int>, from: int, end: int, k: nat)
    requires Increasing(up) && end == from + |up| && k <= |up|
    requires forall i :: 0 <= i < |up| ==> from + i <= up[i] < end
    ensures forall i :: k <= i < |up| ==> up[i] == from + i
    decreases |up| - k
  {
    if k < |up| {
      Pinned(up, from, end, k + 1);
      assert k + 1 < |up| ==> up[k] < up[k + 1];
    }
  }

  /**
    Delivery is gapless from Start_PSN up to the next expected PSN exactly when no call overran;
    after an overrun some sent PSN below the expected one was never accepted and never will be.
   */
  lemma GaplessIff(start: int, es: seq<Event>)
    requires ValidRun(InitSys(start), es)
    ensures var s := Reach(start, es);
      && (s.up == Ascending(start, |s.up|) && Expect(s.rx) == start + |s.up| <==> !s.overran)
      && (s.overran ==> start + |s.up| < Expect(s.rx))
  {
    ReachInv(start, es);
    var s := Reach(start, es);
    if !s.overran {
      DenseIsAscending(s.up, start, Expect(s.rx));
    }
  }

  ghost predicate AcceptsAll(es: seq<Event>) {
    forall i :: 0 <= i < |es| && es[i].ReqEv? ==> forall p :: es[i].ses(p).Accept?
  }

  lemma {:induction false} NoOverrun(s: Sys, es: seq<Event>)
    requires AcceptsAll(es) && !s.overran
    ensures !Run(s, es).overran
    decreases |es|
  {
    if es != [] {
      assert !Apply(s, es[0]).overran by {
        if es[0].ReqEv? { assert forall p :: es[0].ses(p).Accept?; }
      }
      NoOverrun(Apply(s, es[0]), es[1..]);
    }
  }

  function View(log: seq<Pkt>, start: int, up: seq<int>): (v: seq<Pkt>)
    requires forall p :: p in up ==> start <= p < start + |log|
    ensures |v| == |up| && forall i :: 0 <= i < |up| ==> up[i] in up && v[i] == log[up[i] - start]
  {
    seq(|up|, i requires 0 <= i < |up| => assert up[i] in up; log[up[i] - start])
  }

  /** When SES accepts every packet it sees, in order and once, a prefix of exactly what was sent. */
  lemma SesSeesPrefix(start: int, es: seq<Event>)
    requires ValidRun(InitSys(start), es) && AcceptsAll(es)
    ensures var s := Reach(start, es);
      && (forall p :: p in s.up ==> start <= p < start + |s.gate.log|)
      && |s.up| <= |s.gate.log|
      && View(s.gate.log, start, s.up) == s.gate.log[..|s.up|]
  {
    StrictlyIncreasing(start, es);
    NoOverrun(InitSys(start), es);
    GaplessIff(start, es);
    var s := Reach(start, es);
    if s.up != [] {
      assert s.up[|s.up| - 1] in s.up;
    }
  }

  /**
    SES never sees two messages interleaved, refusals or not: between two packets of one message
    it sees only packets of that message, and messages come in the order they were sent.
   */
  lemma Uninterleaved(start: int, es: seq<Event>, i: nat, j: nat, k: nat)
    requires ValidRun(InitSys(start), es)
    requires i <= j <= k < |Reach(start, es).up|
    ensures var s := Reach(start, es); var log := s.gate.log;
      && (forall x | x in {i, j, k} :: 0 <= s.up[x] - start < |log|)
      && var a, b, c := s.up[i] - start, s.up[j] - start, s.up[k] - start;
         && MsgStart(log, a) <= MsgStart(log, b) <= MsgStart(log, c)
         && (MsgStart(log, a) == MsgStart(log, c) ==> log[b].msg == log[a].msg == log[c].msg)
  {
    ReachInv(start, es);
    var s := Reach(start, es);
    var log := s.gate.log;
    assert s.up[i] in s.up && s.up[j] in s.up && s.up[k] in s.up;
    StartsRise(log, s.up[i] - start, s.up[j] - start);
    StartsRise(log, s.up[j] - start, s.up[k] - start);
    Contiguous(s.gate, s.up[k] - start);
  }

  lemma StartsRise(log: seq<Pkt>, a: nat, b: nat)
    requires a <= b < |log|
    ensures MsgStart(log, a) <= MsgStart(log, b)
  {
  }

  /** A PSN can be acknowledged and then lost: the hole at 0 is filled while 1 waits, and SES refuses 1. */
  lemma LossExample()
    ensures var ses: Ses := p => if p == 0 then Accept(false) else Refuse;
      var r1 := Arrive(InitRx(0), 1, -1, ses);
      var r2 := Arrive(r1.0, 0, -1, ses);
      && HandUp(Place(r1.0, 0, -1), 0, false).cack == 1
      && r2.1 == [0] && Expect(r2.0) == 2 && Classify(r2.0, 1) == Prior
  {
    var ses: Ses := p => if p == 0 then Accept(false) else Refuse;
    var r1 := Arrive(InitRx(0), 1, -1, ses).0;
    assert r1 == Rx(0, map[1 := RxPkt(-1, false, false, None)], -1, -1);
    var r2 := Place(r1, 0, -1);
    var r3 := HandUp(r2, 0, false);
    assert r3.cack == 1 by {
      assert Passable(r2.bm, -1, 0) && Passable(r2.bm, -1, 1) && 2 !in r2.bm;
      HandUpSpec(r2, 0, false);
    }
    assert Deliver(r3, 1, ses) == (r3.(bm := r3.bm - {1}), []);
    DeliverGoesOn(r2, 0, ses);
    assert Deliver(r2, 0, ses) == (r3.(bm := r3.bm - {1}), [0] + []);
  }
}
