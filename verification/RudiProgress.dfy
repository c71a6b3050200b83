/** A RUDI write gets done in spite of loss, and touches nothing but its own place. */
module RudiProgress {
  import opened FlatMem
  import R = Reassembly
  import opened RudiWrite

  /** The events that complete packet `id`: it is sent again, arrives and its response arrives. */
  ghost function Retry(s: Sys, id: int): seq<Event>
    requires id in s.out
  {
    [EvResend(id), EvTarget(Req(id, s.out[id]), true), EvResponse(Rsp(id, true))]
  }

  lemma RunCons(s: Sys, j: Job, e: Event, rest: seq<Event>)
    requires JobOk(j) && Enabled(s, j, e) && ValidRun(Apply(s, j, e), j, rest)
    ensures ValidRun(s, j, [e] + rest) && Run(s, j, [e] + rest) == Run(Apply(s, j, e), j, rest)
  {
    assert ([e] + rest)[1..] == rest;
  }

  lemma RunThree(s: Sys, j: Job, e0: Event, e1: Event, e2: Event)
    requires JobOk(j) && Enabled(s, j, e0) && Enabled(Apply(s, j, e0), j, e1)
    requires Enabled(Apply(Apply(s, j, e0), j, e1), j, e2)
    ensures ValidRun(s, j, [e0, e1, e2]) && Run(s, j, [e0, e1, e2]) == Apply(Apply(Apply(s, j, e0), j, e1), j, e2)
  {
    var s1 := Apply(s, j, e0);
    var s2 := Apply(s1, j, e1);
    RunCons(s2, j, e2, []);
    assert [e2] + [] == [e2] && [e1] + [e2] == [e1, e2] && [e0] + [e1, e2] == [e0, e1, e2];
    RunCons(s1, j, e1, [e2]);
    RunCons(s, j, e0, [e1, e2]);
  }

  /**
    In every run, with everything on the network lost, an outstanding packet is completed by sending it again, its
    arrival at a region that allows it, and the arrival of the response: its bytes stand in the region, its id is no
    longer outstanding, and SES has heard of it once.
   */
  lemma Recoverable(j: Job, mem: seq<Byte>, es: seq<Event>, id: int)
    requires JobOk(j) && |mem| == j.size && ValidRun(Init(j, mem), j, es) && id in Run(Init(j, mem), j, es).out
    ensures var s := Run(Init(j, mem), j, es); var s0 := s.(net := {});
      && ValidRun(s0, j, Retry(s, id))
      && var t := Run(s0, j, Retry(s, id));
      Placed(t, j, s.out[id]) && id !in t.out && t.done[id] == 1 && t.err == s.err
  {
    RunKeeps(Init(j, mem), j, es);
    var s := Run(Init(j, mem), j, es);
    var s0 := s.(net := {});
    var i := s.out[id];
    R.PiecesTile(|j.msg|, j.mpl);
    assert R.Fits(PiecesOf(j)[i], |j.msg|);
    R.Overlay(s.mem, j.msg, j.start, PiecesOf(j)[i], PiecesOf(j)[i]);
    RunThree(s0, j, EvResend(id), EvTarget(Req(id, i), true), EvResponse(Rsp(id, true)));
  }

  /** A request that the region does not allow is answered with a failure and leaves memory alone. */
  lemma RefusedAnswered(s: Sys, j: Job, m: Msg)
    requires JobOk(j) && m in s.net && m.Req?
    ensures var s' := Apply(s.(net := {m}), j, EvTarget(m, false)); Rsp(m.id, false) in s'.net && s'.mem == s.mem
  {
  }

  /** A failure response fails the message, whatever else arrives. */
  lemma FailureCounts(s: Sys, j: Job, m: Msg)
    requires j.mpl > 0 && JobOk(j) && m in s.net && m.Rsp? && !m.ok && m.id in s.out
    ensures var s' := Apply(s, j, EvResponse(m)); s'.err && m.id !in s'.out
  {
  }

  /** Nothing outside the place of the message is ever written. */
  ghost predicate OnlyThere(mem0: seq<Byte>, mem: seq<Byte>, j: Job) {
    |mem| == |mem0| && forall x :: 0 <= x < |mem0| && !(j.start <= x < j.start + |j.msg|) ==> mem[x] == mem0[x]
  }

  lemma StepOnlyThere(s: Sys, j: Job, e: Event, mem0: seq<Byte>)
    requires Inv(s, j) && Enabled(s, j, e) && OnlyThere(mem0, s.mem, j)
    ensures OnlyThere(mem0, Apply(s, j, e).mem, j)
  {
    if e.EvTarget? && e.m.piece < |PiecesOf(j)| && R.Fits(PiecesOf(j)[e.m.piece], |j.msg|) {
      R.Overlay(s.mem, j.msg, j.start, PiecesOf(j)[e.m.piece], PiecesOf(j)[e.m.piece]);
    }
  }

  lemma {:induction false} RunOnlyThere(s: Sys, j: Job, es: seq<Event>, mem0: seq<Byte>)
    requires Inv(s, j) && ValidRun(s, j, es) && OnlyThere(mem0, s.mem, j)
    ensures OnlyThere(mem0, Run(s, j, es).mem, j)
    decreases |es|
  {
    if es != [] {
      StepOnlyThere(s, j, es[0], mem0);
      StepKeeps(s, j, es[0]);
      RunOnlyThere(Apply(s, j, es[0]), j, es[1..], mem0);
    }
  }

  lemma WritesOnlyItsPlace(j: Job, mem: seq<Byte>, es: seq<Event>, x: nat)
    requires JobOk(j) && |mem| == j.size && ValidRun(Init(j, mem), j, es)
    requires x < |mem| && !(j.start <= x < j.start + |j.msg|)
    ensures |Run(Init(j, mem), j, es).mem| == |mem| && Run(Init(j, mem), j, es).mem[x] == mem[x]
  {
    RunOnlyThere(Init(j, mem), j, es, mem);
  }
}
