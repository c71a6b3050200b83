/** A ROD initiator lets a message through when the one before it has ended, and only then. */
module GateProgress {
  import opened PdcTypes
  import opened Rod
  import opened RodOrder

  lemma Reached(start: int, es: seq<Event>)
    requires ValidRun(InitSys(start), es)
    ensures Inv(Run(InitSys(start), es))
  {
    RunKeeps(InitSys(start), es);
  }

  /**
    In every run a packet is sent if and only if the window has room, the transmission succeeds, and it either starts
    a message while none is active or belongs to the active one.  What is sent is logged; what is not changes nothing.
   */
  lemma SentIff(start: int, es: seq<Event>, p: Pkt, maintain: bool, room: bool, xmit: bool)
    requires ValidRun(InitSys(start), es)
    ensures var g := Run(InitSys(start), es).gate; var (g', code) := Send(g, p, maintain, room, xmit);
      && (code == Sent <==> room && xmit && g.active == if p.som then None else Some(p.msg))
      && g'.log == (if code == Sent then g.log + [p] else g.log)
      && (code != Sent ==> g' == g)
  {
    Reached(start, es);
  }

  /** After a packet is sent the active message is its own, until its last packet is sent or SES ends it. */
  lemma ActiveAfter(start: int, es: seq<Event>, p: Pkt, maintain: bool)
    requires ValidRun(InitSys(start), es)
    requires Run(InitSys(start), es).gate.active == if p.som then None else Some(p.msg)
    ensures var g := Run(InitSys(start), es).gate; var g' := Send(g, p, maintain, true, true).0;
      && g'.active == (if p.eom && !maintain then None else Some(p.msg))
      && (g'.active.Some? ==> CmplInd(g', p.msg).active == None)
  {
    Reached(start, es);
  }

  /** Packet `i` of a message of `n` packets. */
  function PktAt(msg: nat, i: nat, n: nat): Pkt {
    Pkt(msg, i == 0, i == n - 1)
  }

  /** The first `k` packets of a message, sent one after the other. */
  function SendFirst(g: Gate, msg: nat, n: nat, k: nat): Gate {
    if k == 0 then g else Send(SendFirst(g, msg, n, k - 1), PktAt(msg, k - 1, n), false, true, true).0
  }

  lemma {:induction false} GoesThrough(g: Gate, msg: nat, n: nat, k: nat)
    requires GateInv(g) && g.active.None? && 0 < k <= n
    ensures var g' := SendFirst(g, msg, n, k);
      && GateInv(g') && |g'.log| == |g.log| + k && g.log <= g'.log
      && (forall i :: 0 <= i < k ==> g'.log[|g.log| + i] == PktAt(msg, i, n))
      && g'.active == (if k < n then Some(msg) else None)
  {
    if k > 1 {
      GoesThrough(g, msg, n, k - 1);
    }
    SendKeeps(SendFirst(g, msg, n, k - 1), PktAt(msg, k - 1, n), false, true, true);
  }

  /** In every run, when no message is active, the next one goes out packet by packet and leaves the way free again. */
  lemma MessageGoesThrough(start: int, es: seq<Event>, msg: nat, n: nat, i: nat)
    requires ValidRun(InitSys(start), es) && i < n
    requires Run(InitSys(start), es).gate.active.None?
    ensures var g := Run(InitSys(start), es).gate; var g' := SendFirst(g, msg, n, n);
      |g'.log| == |g.log| + n && g'.log[|g.log| + i] == PktAt(msg, i, n) && g'.active.None?
  {
    Reached(start, es);
    GoesThrough(Run(InitSys(start), es).gate, msg, n, n);
  }
}
