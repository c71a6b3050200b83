/** The state machine of a transmit descriptor that carries a request. */
module TxMachine {
  import opened PdcTypes

  datatype DState = Active | Wait | Retx | Defer | RestartWait | Err | Complete | ErrComplete

  datatype Kind = Plain | ReadReq | FetchAtomic

  datatype Desc = Desc(
    kind: Kind,
    len: nat,                   // buf_desc.len
    remaining: nat,             // remaining_bytes
    transmitted: bool,
    unack: nat,                 // unack_pkts
    expectedRd: nat,            // rx_desc->expected_rd_rsp, for a read
    state: DState,
    retxCnt: nat,               // retransmit_cnt
    cancel: bool,               // UET_TX_DESC_FLAG_CANCEL_PENDING
    gotRtr: bool,               // UET_TX_DESC_FLAG_GOT_RTR
    restarts: nat)              // times the message was started again

  function InitDesc(kind: Kind, len: nat): Desc {
    Desc(kind, len, len, false, 0, 0, Active, 0, false, false, 0)
  }

  /** What SES reads out of a response. */
  datatype Rsp =
    | RspOk                     // success, or nothing to act on
    | RspRetx                   // start the message again
    | RspDefer                  // wait for a ready-to-restart
    | RspErr                    // failure
    | RspBadVersion

  /** `uet_retx_msg`; no limit is UET_MSG_RETRANSMIT_MAX_INFINITY. */
  function RetxMsg(d: Desc, max: Option<nat>): Desc {
    var d1 := d.(retxCnt := d.retxCnt + 1);
    if max.Some? && d1.retxCnt > max.value then d1.(state := ErrComplete)
    else d1.(remaining := d.len, transmitted := false, state := Active, restarts := d.restarts + 1)
  }

  /** `uet_tx_desc_state_transition`. */
  function Transition(d: Desc, max: Option<nat>): Desc {
    match d.state
    case Active =>
      if d.remaining > 0 || !d.transmitted then d
      else if d.unack > 0 || (d.kind == ReadReq && d.expectedRd > 0) then d.(state := Wait)
      else d.(state := Complete)
    case Wait => if d.unack > 0 || (d.kind == ReadReq && d.expectedRd > 0) then d else d.(state := Complete)
    case Retx => if d.unack > 0 || (d.kind == ReadReq && d.expectedRd > 0) then d else RetxMsg(d, max)
    case Defer => if d.unack > 0 then d else d.(state := RestartWait)
    case RestartWait => if !d.gotRtr then d else RetxMsg(d.(gotRtr := false), max)
    case Err =>
      if d.unack > 0 then d
      else d.(expectedRd := if d.kind == ReadReq then 0 else d.expectedRd, remaining := 0, state := ErrComplete)
    case _ => d
  }

  /** `uet_pds_to_ses_rx_rsp` with a response packet; `answers` says that it settles a read request. */
  function OnRsp(d: Desc, r: Rsp, answers: bool): Desc
    requires d.unack > 0 && (answers ==> d.kind == ReadReq && d.expectedRd > 0)
  {
    var d1 := d.(unack := d.unack - 1, expectedRd := if answers then d.expectedRd - 1 else d.expectedRd);
    if r == RspBadVersion then d1.(state := Err, cancel := true)
    else if d.state != Active && d.state != Wait then d1
    else
      match r
      case RspRetx => d1.(state := Retx, cancel := true)
      case RspDefer => d1.(state := Defer, cancel := true)
      case RspErr => d1.(state := Err, cancel := true)
      case _ => d1
  }

  datatype Event =
    | EvSent(n: nat)                    // uet_tx_msg: PDS took a packet of n bytes
    | EvSendErr                         // uet_tx_msg: PDS failed
    | EvRsp(r: Rsp, answers: bool)
    | EvCack                            // acknowledged cumulatively
    | EvPdsErr
    | EvReadData                        // read data in a packet of its own
    | EvReadTimeout
    | EvCancel(sent: bool, failed: bool)
    | EvTransition
    | EvGotRtr

  /** A completed descriptor has been posted; PDS reports only on packets it was given. */
  ghost predicate Enabled(d: Desc, e: Event) {
    && d.state != Complete
    && match e
       case EvSent(n) =>
         && d.state == Active && !d.cancel && (d.remaining > 0 || !d.transmitted)
         && n <= d.remaining && (n == 0 ==> d.remaining == 0)
       case EvSendErr => d.state == Active && !d.cancel
       case EvRsp(_, answers) => d.unack > 0 && (answers ==> d.kind == ReadReq && d.expectedRd > 0)
       case EvCack => d.unack > 0
       case EvPdsErr => d.unack > 0
       case EvReadData => d.kind == ReadReq && d.expectedRd > 0
       case EvReadTimeout => d.kind == ReadReq
       case EvCancel(_, _) => d.cancel
       case EvTransition => !d.cancel
       case EvGotRtr => true
  }

  ghost function Apply(d: Desc, e: Event, max: Option<nat>): Desc
    requires Enabled(d, e)
  {
    match e
    case EvSent(n) =>
      d.(remaining := d.remaining - n, transmitted := true, unack := d.unack + 1,
         expectedRd := if d.kind == ReadReq then d.expectedRd + 1 else d.expectedRd)
    case EvSendErr => d.(state := ErrComplete)
    case EvRsp(r, answers) => OnRsp(d, r, answers)
    case EvCack => d.(unack := d.unack - 1)
    case EvPdsErr => d.(unack := d.unack - 1, state := Err)
    case EvReadData => d.(expectedRd := d.expectedRd - 1)
    case EvReadTimeout => d.(expectedRd := 0, state := Err)
    case EvCancel(sent, failed) =>
      if d.remaining == 0 then d.(cancel := false)
      else if sent then d.(unack := d.unack + 1, cancel := false)
      else if failed then d.(cancel := false, state := ErrComplete)
      else d
    case EvTransition => Transition(d, max)
    case EvGotRtr => d.(gotRtr := true)
  }

  ghost predicate ValidRun(d: Desc, es: seq<Event>, max: Option<nat>)
    decreases |es|
  {
    es == [] || (Enabled(d, es[0]) && ValidRun(Apply(d, es[0], max), es[1..], max))
  }

  ghost function Run(d: Desc, es: seq<Event>, max: Option<nat>): Desc
    requires ValidRun(d, es, max)
    decreases |es|
  {
    if es == [] then d else Run(Apply(d, es[0], max), es[1..], max)
  }

  predicate InError(d: Desc) {
    d.state == Err || d.state == ErrComplete
  }

  ghost predicate Inv(d: Desc, max: Option<nat>) {
    && (d.state == Wait || d.state == Complete ==> d.remaining == 0 && d.transmitted)
    && (d.state == Complete ==> d.unack == 0 && (d.kind == ReadReq ==> d.expectedRd == 0))
    && (d.state == Active && !d.transmitted ==> d.unack == 0 && d.remaining == d.len)
    && (d.state == RestartWait ==> d.unack == 0)
    && (d.cancel ==> d.state == Retx || d.state == Defer || InError(d))
    && d.restarts <= d.retxCnt && (max.Some? ==> d.restarts <= max.value)
    && (!InError(d) ==> d.restarts == d.retxCnt)
  }

  lemma TransitionKeeps(d: Desc, max: Option<nat>)
    requires Inv(d, max) && Enabled(d, EvTransition)
    ensures Inv(Transition(d, max), max) && (InError(d) ==> InError(Transition(d, max)))
  {
  }

  lemma RspKeeps(d: Desc, r: Rsp, answers: bool, max: Option<nat>)
    requires Inv(d, max) && Enabled(d, EvRsp(r, answers))
    ensures Inv(OnRsp(d, r, answers), max) && (InError(d) ==> InError(OnRsp(d, r, answers)))
  {
  }

  lemma PdsKeeps(d: Desc, e: Event, max: Option<nat>)
    requires Inv(d, max) && Enabled(d, e) && (e.EvSent? || e.EvSendErr? || e.EvCack? || e.EvPdsErr?)
    ensures Inv(Apply(d, e, max), max) && (InError(d) ==> InError(Apply(d, e, max)))
  {
  }

  lemma CancelKeeps(d: Desc, e: Event, max: Option<nat>)
    requires Inv(d, max) && Enabled(d, e) && e.EvCancel?
    ensures Inv(Apply(d, e, max), max) && (InError(d) ==> InError(Apply(d, e, max)))
  {
  }

  lemma SameKind(d: Desc, e: Event, max: Option<nat>)
    requires Enabled(d, e)
    ensures Apply(d, e, max).len == d.len && Apply(d, e, max).kind == d.kind
  {
  }

  lemma StepKeeps(d: Desc, e: Event, max: Option<nat>)
    requires Inv(d, max) && Enabled(d, e)
    ensures Inv(Apply(d, e, max), max)
    ensures InError(d) ==> InError(Apply(d, e, max))
    ensures Apply(d, e, max).len == d.len && Apply(d, e, max).kind == d.kind
  {
    SameKind(d, e, max);
    match e
    case EvTransition => TransitionKeeps(d, max);
    case EvRsp(r, answers) => RspKeeps(d, r, answers, max);
    case EvSent(_) | EvSendErr | EvCack | EvPdsErr => PdsKeeps(d, e, max);
    case EvCancel(_, _) => CancelKeeps(d, e, max);
    case EvReadData | EvReadTimeout | EvGotRtr =>
  }

  lemma {:induction false} RunKeeps(d: Desc, es: seq<Event>, max: Option<nat>)
    requires Inv(d, max) && ValidRun(d, es, max)
    ensures var d' := Run(d, es, max); Inv(d', max) && (InError(d) ==> InError(d')) && d'.len == d.len && d'.kind == d.kind
    decreases |es|
  {
    if es != [] {
      StepKeeps(d, es[0], max);
      RunKeeps(Apply(d, es[0], max), es[1..], max);
    }
  }

  /** A descriptor completes only with all its bytes sent, nothing unacknowledged and, for a read, every response in. */
  lemma CompleteMeansDone(kind: Kind, len: nat, es: seq<Event>, max: Option<nat>)
    requires ValidRun(InitDesc(kind, len), es, max)
    ensures var d := Run(InitDesc(kind, len), es, max);
      d.state == Complete ==>
        d.remaining == 0 && d.transmitted && d.unack == 0 && (d.kind == ReadReq ==> d.expectedRd == 0)
  {
    RunKeeps(InitDesc(kind, len), es, max);
  }

  /** An error never turns into success. */
  lemma ErrorIsFinal(kind: Kind, len: nat, es: seq<Event>, more: seq<Event>, max: Option<nat>)
    requires ValidRun(InitDesc(kind, len), es, max)
    requires InError(Run(InitDesc(kind, len), es, max))
    requires ValidRun(Run(InitDesc(kind, len), es, max), more, max)
    ensures Run(Run(InitDesc(kind, len), es, max), more, max).state != Complete
  {
    RunKeeps(InitDesc(kind, len), es, max);
    RunKeeps(Run(InitDesc(kind, len), es, max), more, max);
  }

  /** A finite retransmit limit bounds the number of times a message is started again. */
  lemma RestartsBounded(kind: Kind, len: nat, es: seq<Event>, max: nat)
    requires ValidRun(InitDesc(kind, len), es, Some(max))
    ensures Run(InitDesc(kind, len), es, Some(max)).restarts <= max
  {
    RunKeeps(InitDesc(kind, len), es, Some(max));
  }

  /**
    A message is started, or started again, only when nothing of it is outstanding; this is what lets
    PDS put it on another PDC.
   */
  lemma StartsWithNothingOut(kind: Kind, len: nat, es: seq<Event>, max: Option<nat>, n: nat)
    requires ValidRun(InitDesc(kind, len), es, max)
    requires var d := Run(InitDesc(kind, len), es, max); Enabled(d, EvSent(n)) && !d.transmitted
    ensures Run(InitDesc(kind, len), es, max).unack == 0
  {
    RunKeeps(InitDesc(kind, len), es, max);
  }

  /** The descriptor as it runs. */
  class TxDescriptor {
    const kind: Kind
    const len: nat
    var remaining: nat
    var transmitted: bool
    var unack: nat
    var expectedRd: nat
    var state: DState
    var retxCnt: nat
    var cancel: bool
    var gotRtr: bool
    ghost var restarts: nat

    ghost function Model(): Desc
      reads this
    {
      Desc(kind, len, remaining, transmitted, unack, expectedRd, state, retxCnt, cancel, gotRtr, restarts)
    }

    constructor (k: Kind, n: nat)
      ensures Model() == InitDesc(k, n) && forall max :: Inv(Model(), max)
    {
      kind, len, remaining, transmitted, unack, expectedRd := k, n, n, false, 0, 0;
      state, retxCnt, cancel, gotRtr, restarts := Active, 0, false, false, 0;
    }

    /** `uet_retx_msg`; the caller sets the state on success. */
    method RetxStart(max: Option<nat>) returns (ok: bool)
      modifies this
      ensures ok ==> Model().(state := Active) == RetxMsg(old(Model()), max)
      ensures !ok ==> Model() == RetxMsg(old(Model()), max)
    {
      retxCnt := retxCnt + 1;
      if max.Some? && retxCnt > max.value {
        state := ErrComplete;
        return false;
      }
      remaining := len;
      transmitted := false;
      restarts := restarts + 1;
      ok := true;
    }

    /** All packets acknowledged: complete, unless read responses are missing. */
    method Finish() returns (msgCmpl: bool)
      requires unack == 0
      modifies this`state
      ensures state == (if kind == ReadReq && expectedRd > 0 then Wait else Complete)
      ensures msgCmpl <==> kind != Plain && state == Complete
    {
      msgCmpl := false;
      if kind == ReadReq {
        if expectedRd > 0 {
          state := Wait;
          return;
        }
        msgCmpl := true;
      } else if kind == FetchAtomic {
        msgCmpl := true;
      }
      state := Complete;
    }

    /** `uet_tx_desc_state_transition`; `msgCmpl` says whether PDS is told that the message is over. */
    method StateTransition(max: Option<nat>) returns (msgCmpl: bool)
      requires Inv(Model(), max) && !cancel && state != Complete
      modifies this
      ensures Model() == Transition(old(Model()), max) && Inv(Model(), max)
      ensures msgCmpl ==> unack == 0
    {
      TransitionKeeps(Model(), max);
      msgCmpl := false;
      if state == Active {
        if remaining > 0 || !transmitted {
          return;
        }
        if unack > 0 {
          state := Wait;
        } else {
          msgCmpl := Finish();
        }
      } else if state == Wait {
        if unack == 0 {
          msgCmpl := Finish();
        }
      } else if state == Defer {
        if unack == 0 {
          state := RestartWait;
        }
      } else {
        msgCmpl := LaterTransition(max);
      }
    }

    /** The transitions of a message that is being started again or has failed. */
    method LaterTransition(max: Option<nat>) returns (msgCmpl: bool)
      requires state == Retx || state == RestartWait || state == Err || state == ErrComplete
      modifies this
      ensures Model() == Transition(old(Model()), max)
      ensures msgCmpl ==> unack == 0
    {
      msgCmpl := false;
      if state == Retx {
        if unack > 0 || (kind == ReadReq && expectedRd > 0) {
          return;
        }
        msgCmpl := kind != Plain;
        var ok := RetxStart(max);
        if ok {
          state := Active;
        }
      } else if state == RestartWait {
        if gotRtr {
          gotRtr := false;
          var ok := RetxStart(max);
          if ok {
            state := Active;
          }
        }
      } else if state == Err {
        if unack > 0 {
          return;
        }
        if kind == ReadReq {
          expectedRd := 0;
          msgCmpl := true;
        } else {
          msgCmpl := kind == FetchAtomic || remaining > 0;
        }
        remaining := 0;
        state := ErrComplete;
      }
    }
  }
}
