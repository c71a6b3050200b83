/** What each response, failure and restart leads to in the life of a transmit descriptor. */
module TxOutcome {
  import opened PdcTypes
  import opened TxMachine

  // ---------------------------------------------------------------- failure

  /** The event reports a failure of the message. */
  predicate Fails(d: Desc, e: Event) {
    match e
    case EvRsp(r, _) => r == RspBadVersion || (r == RspErr && (d.state == Active || d.state == Wait))
    case EvSendErr => true
    case EvPdsErr => true
    case EvReadTimeout => true
    case EvCancel(sent, failed) => d.remaining > 0 && !sent && failed
    case _ => false
  }

  /**
    In any run, once the target answers with a failure, PDS reports one, a packet cannot be sent or a read times
    out, the descriptor is in error for good: no later state is Complete.
   */
  lemma FailureIsFinal(kind: Kind, len: nat, es: seq<Event>, e: Event, more: seq<Event>, max: Option<nat>)
    requires ValidRun(InitDesc(kind, len), es, max)
    requires var d := Run(InitDesc(kind, len), es, max);
      Enabled(d, e) && Fails(d, e) && ValidRun(Apply(d, e, max), more, max)
    ensures var d' := Run(Apply(Run(InitDesc(kind, len), es, max), e, max), more, max);
      InError(d') && d'.state != Complete
  {
    RunKeeps(InitDesc(kind, len), es, max);
    var d := Run(InitDesc(kind, len), es, max);
    StepKeeps(d, e, max);
    RunKeeps(Apply(d, e, max), more, max);
  }

  /** Only a failure or the retransmit limit puts a descriptor in error. */
  lemma ErrorOnlyByFailure(d: Desc, e: Event, max: Option<nat>)
    requires Inv(d, max) && Enabled(d, e) && !InError(d) && InError(Apply(d, e, max))
    ensures Fails(d, e) || (e == EvTransition && max.Some? && d.restarts == max.value && (d.state == Retx || d.state == RestartWait))
  {
  }

  /** A failed descriptor is reported as soon as nothing of it is outstanding. */
  lemma FailureEnds(d: Desc, max: Option<nat>)
    requires Enabled(d, EvTransition) && d.state == Err
    ensures Apply(d, EvTransition, max).state == if d.unack == 0 then ErrComplete else Err
  {
  }

  // ---------------------------------------------------------------- success

  /** A transition completes the descriptor if and only if all is sent, acknowledged and, for a read, answered. */
  lemma CompletesIff(d: Desc, max: Option<nat>)
    requires Enabled(d, EvTransition)
    ensures Apply(d, EvTransition, max).state == Complete <==>
      && (d.state == Active || d.state == Wait)
      && d.unack == 0 && (d.kind == ReadReq ==> d.expectedRd == 0)
      && (d.state == Active ==> d.remaining == 0 && d.transmitted)
  {
  }

  function Total(sizes: seq<nat>): nat {
    if sizes == [] then 0 else sizes[0] + Total(sizes[1..])
  }

  function Sends(sizes: seq<nat>): seq<Event> {
    seq(|sizes|, i requires 0 <= i < |sizes| => EvSent(sizes[i]))
  }

  function Answers(n: nat): seq<Event> {
    seq(n, _ => EvRsp(RspOk, false))
  }

  lemma {:induction false} AllSent(d: Desc, sizes: seq<nat>, max: Option<nat>)
    requires d.state == Active && !d.cancel && d.kind != ReadReq && d.remaining == Total(sizes)
    requires forall i :: 0 <= i < |sizes| ==> sizes[i] > 0
    ensures ValidRun(d, Sends(sizes), max)
    ensures Run(d, Sends(sizes), max) ==
      d.(remaining := 0, transmitted := d.transmitted || sizes != [], unack := d.unack + |sizes|)
    decreases |sizes|
  {
    if sizes != [] {
      var d1 := Apply(d, EvSent(sizes[0]), max);
      AllSent(d1, sizes[1..], max);
      assert Sends(sizes)[1..] == Sends(sizes[1..]);
    }
  }

  lemma {:induction false} AllAnswered(d: Desc, n: nat, max: Option<nat>)
    requires (d.state == Active || d.state == Wait) && d.unack == n
    ensures ValidRun(d, Answers(n), max) && Run(d, Answers(n), max) == d.(unack := 0)
    decreases n
  {
    if n > 0 {
      AllAnswered(d.(unack := n - 1), n - 1, max);
      assert Answers(n)[1..] == Answers(n - 1);
      assert Answers(n)[0] == EvRsp(RspOk, false);
    }
  }

  /** However a message is cut into packets, sending them all and having each answered with success completes it. */
  lemma SuccessCompletes(kind: Kind, len: nat, sizes: seq<nat>, max: Option<nat>)
    requires kind != ReadReq && len == Total(sizes) > 0 && forall i :: 0 <= i < |sizes| ==> sizes[i] > 0
    ensures var d0 := InitDesc(kind, len);
      && ValidRun(d0, Sends(sizes), max)
      && var d1 := Run(d0, Sends(sizes), max);
      && ValidRun(d1, Answers(|sizes|), max)
      && var d2 := Run(d1, Answers(|sizes|), max);
      Enabled(d2, EvTransition) && Apply(d2, EvTransition, max).state == Complete
  {
    var d0 := InitDesc(kind, len);
    AllSent(d0, sizes, max);
    AllAnswered(Run(d0, Sends(sizes), max), |sizes|, max);
  }

  // ---------------------------------------------------------------- restart

  /** None of the events of the run reports a failure. */
  ghost predicate NoFailure(d: Desc, es: seq<Event>, max: Option<nat>)
    requires ValidRun(d, es, max)
    decreases |es|
  {
    es == [] || (!Fails(d, es[0]) && NoFailure(Apply(d, es[0], max), es[1..], max))
  }

  /** A response that asks for the message again stops it, and nothing of it is sent until it is started again. */
  lemma RetxAsked(d: Desc, answers: bool, max: Option<nat>)
    requires Enabled(d, EvRsp(RspRetx, answers)) && (d.state == Active || d.state == Wait)
    ensures var d' := Apply(d, EvRsp(RspRetx, answers), max);
      d'.state == Retx && d'.cancel && d'.restarts == d.restarts && d'.unack == d.unack - 1
  {
  }

  /**
    The message waits for what is outstanding; the next transition starts it from its first byte, or ends it at
    the limit.
   */
  lemma RestartIff(d: Desc, max: Option<nat>)
    requires Inv(d, max) && Enabled(d, EvTransition) && d.state == Retx
    ensures var d' := Apply(d, EvTransition, max);
      if d.unack > 0 || (d.kind == ReadReq && d.expectedRd > 0) then d' == d
      else if max.Some? && d.restarts == max.value then d'.state == ErrComplete && d'.restarts == d.restarts
      else d'.state == Active && d'.remaining == d.len && !d'.transmitted && d'.restarts == d.restarts + 1
  {
  }

  lemma StepRetx(d: Desc, e: Event, max: Option<nat>)
    requires Inv(d, max) && Enabled(d, e) && !Fails(d, e) && d.state == Retx
    ensures var d' := Apply(d, e, max);
      || (d'.state == Retx && d'.restarts == d.restarts)
      || (e == EvTransition && d.unack == 0 && d'.restarts == d.restarts + 1)
      || (e == EvTransition && d'.state == ErrComplete && max == Some(d.restarts))
  {
  }

  lemma RestartsGrow(d: Desc, e: Event, max: Option<nat>)
    requires Enabled(d, e)
    ensures d.restarts <= Apply(d, e, max).restarts
  {
  }

  lemma {:induction false} RunRestartsGrow(d: Desc, es: seq<Event>, max: Option<nat>)
    requires ValidRun(d, es, max)
    ensures d.restarts <= Run(d, es, max).restarts
    decreases |es|
  {
    if es != [] {
      RestartsGrow(d, es[0], max);
      RunRestartsGrow(Apply(d, es[0], max), es[1..], max);
    }
  }

  /**
    A message asked for again is still waiting, has been started again, or has ended in error at the limit; it
    is never Complete without a restart.
   */
  lemma {:induction false} RetxLeadsToRestart(d: Desc, es: seq<Event>, max: Option<nat>)
    requires Inv(d, max) && d.state == Retx && ValidRun(d, es, max) && NoFailure(d, es, max)
    ensures var d' := Run(d, es, max);
      || (d'.state == Retx && d'.restarts == d.restarts)
      || d'.restarts > d.restarts
      || (InError(d') && max == Some(d.restarts))
    decreases |es|
  {
    if es != [] {
      var d1 := Apply(d, es[0], max);
      StepKeeps(d, es[0], max);
      StepRetx(d, es[0], max);
      if d1.state == Retx && d1.restarts == d.restarts {
        RetxLeadsToRestart(d1, es[1..], max);
      } else {
        RunRestartsGrow(d1, es[1..], max);
        RunKeeps(d1, es[1..], max);
      }
    }
  }

  // ---------------------------------------------------------------- deferral

  lemma DeferAsked(d: Desc, answers: bool, max: Option<nat>)
    requires Enabled(d, EvRsp(RspDefer, answers)) && (d.state == Active || d.state == Wait)
    ensures var d' := Apply(d, EvRsp(RspDefer, answers), max);
      d'.state == Defer && d'.cancel && d'.restarts == d.restarts && d'.gotRtr == d.gotRtr
  {
  }

  /** The message is deferred, or waits for its ready-to-restart. */
  predicate Deferred(d: Desc) {
    d.state == Defer || d.state == RestartWait
  }

  /** Without a ready-to-restart a deferred message is neither started again nor completed. */
  lemma {:induction false} NoRestartBeforeRtr(d: Desc, es: seq<Event>, max: Option<nat>)
    requires Deferred(d) && !d.gotRtr && ValidRun(d, es, max) && NoFailure(d, es, max) && EvGotRtr !in es
    ensures var d' := Run(d, es, max); Deferred(d') && !d'.gotRtr && d'.restarts == d.restarts
    decreases |es|
  {
    if es != [] {
      assert es[0] in es;
      NoRestartBeforeRtr(Apply(d, es[0], max), es[1..], max);
    }
  }

  /** With one, it is started again once nothing of it is outstanding, or ends at the limit. */
  lemma RtrRestarts(d: Desc, max: Option<nat>)
    requires Inv(d, max) && Enabled(d, EvTransition) && Deferred(d) && d.gotRtr
    ensures var d' := Apply(d, EvTransition, max);
      if d.state == Defer then d'.state == (if d.unack == 0 then RestartWait else Defer) && d'.gotRtr
      else if max.Some? && d.restarts == max.value then d'.state == ErrComplete
      else d'.state == Active && d'.remaining == d.len && !d'.transmitted && d'.restarts == d.restarts + 1 && !d'.gotRtr
  {
  }
}
