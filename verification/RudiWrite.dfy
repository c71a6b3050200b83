/**
  A RUDI write end to end.  The target keeps no state: each packet is written where it belongs and
  answered once; the network may lose, duplicate and reorder requests and responses.
 */
module RudiWrite {
  import opened FlatMem
  import opened Reassembly

  const ID_SPACE: int := 0x1_0000_0000

  datatype Msg =
    | Req(id: int, piece: nat)          // the bytes of one piece of the message, under a packet id
    | Rsp(id: int, ok: bool)

  datatype Sys = Sys(
    mem: seq<Byte>,                     // the target's memory region
    net: set<Msg>,                      // every packet ever sent
    nextId: int,                        // rudi.next_pkt_id
    pieceOf: map<int, nat>,             // what each packet id was used for
    out: map<int, nat>,                 // rudi.out_ht
    sent: nat,                          // pieces handed to RUDI since the message was last started
    idOf: seq<int>,                     // and their ids
    ok: seq<bool>,                      // pieces answered with success since then
    err: bool,                          // the descriptor is in error
    done: multiset<int>)                // rx_rsp upcalls, by packet id

  /** What is being written, and where; every other field of the run is in the state. */
  datatype Job = Job(msg: seq<Byte>, start: nat, mpl: nat, size: nat)

  ghost predicate JobOk(j: Job) {
    j.mpl > 0 && j.start + |j.msg| <= j.size
  }

  ghost function PiecesOf(j: Job): seq<Piece>
    requires j.mpl > 0
  {
    Pieces(|j.msg|, j.mpl)
  }

  ghost function Init(j: Job, mem: seq<Byte>): Sys
    requires j.mpl > 0
  {
    Sys(mem, {}, 1, map[], map[], 0, [], [], false, multiset{})
  }

  datatype Event =
    | EvSend                            // uet_tx_msg hands over the next piece
    | EvResend(id: int)                 // RTO retransmission
    | EvTarget(m: Msg, allowed: bool)   // a request arrives; `allowed` covers the key and permission checks
    | EvResponse(m: Msg)                // a response arrives
    | EvExhausted(id: int)              // retries run out: everything outstanding is dropped
    | EvRestart                         // SES starts the message again

  ghost predicate Enabled(s: Sys, j: Job, e: Event)
    requires j.mpl > 0
  {
    match e
    case EvSend => s.sent < |PiecesOf(j)| && s.nextId < ID_SPACE
    case EvResend(id) => id in s.out
    case EvTarget(m, _) => m in s.net && m.Req?
    case EvResponse(m) => m in s.net && m.Rsp?
    case EvExhausted(id) => id in s.out
    case EvRestart => s.out == map[]
  }

  /** The RUDI branch of `uet_rx_req_pkt`. */
  ghost function OnReq(s: Sys, j: Job, m: Msg, allowed: bool): Sys
    requires JobOk(j) && m.Req?
  {
    var ps := PiecesOf(j);
    if allowed && m.piece < |ps| && |s.mem| == j.size && Fits(ps[m.piece], |j.msg|)
    then s.(mem := Laid(s.mem, j.msg, j.start, ps[m.piece]), net := s.net + {Rsp(m.id, true)})
    else s.(net := s.net + {Rsp(m.id, false)})
  }

  /** `uet_rudi_rx_rsp`, and what SES makes of it. */
  ghost function OnRsp(s: Sys, m: Msg): Sys
    requires m.Rsp?
  {
    if m.id !in s.out then s
    else
      var i := s.out[m.id];
      s.(out := s.out - {m.id}, done := s.done + multiset{m.id},
         ok := if m.ok && i < |s.ok| then s.ok[i := true] else s.ok,
         err := s.err || !m.ok)
  }

  ghost function Apply(s: Sys, j: Job, e: Event): Sys
    requires JobOk(j) && Enabled(s, j, e)
  {
    match e
    case EvSend =>
      s.(net := s.net + {Req(s.nextId, s.sent)}, pieceOf := s.pieceOf[s.nextId := s.sent],
         out := s.out[s.nextId := s.sent], idOf := s.idOf + [s.nextId], ok := s.ok + [false],
         sent := s.sent + 1, nextId := s.nextId + 1)
    case EvResend(id) => s.(net := s.net + {Req(id, s.out[id])})
    case EvTarget(m, allowed) => OnReq(s, j, m, allowed)
    case EvResponse(m) => OnRsp(s, m)
    case EvExhausted(_) => s.(out := map[], err := true)
    case EvRestart => s.(sent := 0, idOf := [], ok := [], err := false)
  }

  /** SES completes the message with success: all of it sent, all answered, no error. */
  ghost predicate Succeeded(s: Sys, j: Job)
    requires j.mpl > 0
  {
    s.sent == |PiecesOf(j)| && s.out == map[] && !s.err
  }

  // ---------------------------------------------------------------- the invariant

  ghost predicate Placed(s: Sys, j: Job, i: nat)
    requires j.mpl > 0
  {
    i < |PiecesOf(j)| && InPlace(s.mem, j.msg, j.start, PiecesOf(j)[i])
  }

  ghost predicate NetInv(s: Sys, j: Job)
    requires j.mpl > 0
  {
    && (forall m :: m in s.net ==>
          && m.id in s.pieceOf
          && (m.Req? ==> m.piece == s.pieceOf[m.id])
          && (m.Rsp? && m.ok ==> Placed(s, j, s.pieceOf[m.id])))
    && (forall id :: id in s.pieceOf ==> s.pieceOf[id] < |PiecesOf(j)|)
  }

  ghost predicate OutInv(s: Sys) {
    && (forall id :: id in s.pieceOf ==> id < s.nextId)
    && (forall id :: id in s.out ==> id in s.pieceOf && s.out[id] == s.pieceOf[id])
    && (forall id :: s.done[id] <= 1)
    && (forall id :: id in s.out || id >= s.nextId ==> s.done[id] == 0)
  }

  ghost predicate SesInv(s: Sys, j: Job)
    requires j.mpl > 0
  {
    && s.sent == |s.ok| == |s.idOf| <= |PiecesOf(j)|
    && (forall i :: 0 <= i < s.sent && s.ok[i] ==> Placed(s, j, i))
    && (forall i :: 0 <= i < s.sent ==> s.ok[i] || s.err || (s.idOf[i] in s.out && s.out[s.idOf[i]] == i))
    && (forall i :: 0 <= i < s.sent ==> s.idOf[i] in s.pieceOf)
  }

  ghost predicate Inv(s: Sys, j: Job) {
    JobOk(j) && |s.mem| == j.size && NetInv(s, j) && OutInv(s) && SesInv(s, j)
  }

  lemma SendKeeps(s: Sys, j: Job)
    requires Inv(s, j) && Enabled(s, j, EvSend)
    ensures Inv(Apply(s, j, EvSend), j)
  {
  }

  lemma ResendKeeps(s: Sys, j: Job, id: int)
    requires Inv(s, j) && Enabled(s, j, EvResend(id))
    ensures Inv(Apply(s, j, EvResend(id)), j)
  {
  }

  lemma TargetKeeps(s: Sys, j: Job, m: Msg, allowed: bool)
    requires Inv(s, j) && Enabled(s, j, EvTarget(m, allowed))
    ensures Inv(Apply(s, j, EvTarget(m, allowed)), j)
  {
    var ps := PiecesOf(j);
    var s' := OnReq(s, j, m, allowed);
    if allowed && m.piece < |ps| && Fits(ps[m.piece], |j.msg|) {
      forall i: nat | Placed(s, j, i) ensures Placed(s', j, i) {
        Overlay(s.mem, j.msg, j.start, ps[m.piece], ps[i]);
      }
      Overlay(s.mem, j.msg, j.start, ps[m.piece], ps[m.piece]);
    }
  }

  lemma ResponseKeeps(s: Sys, j: Job, m: Msg)
    requires Inv(s, j) && Enabled(s, j, EvResponse(m))
    ensures Inv(Apply(s, j, EvResponse(m)), j)
  {
  }

  lemma StepKeeps(s: Sys, j: Job, e: Event)
    requires Inv(s, j) && Enabled(s, j, e)
    ensures Inv(Apply(s, j, e), j)
  {
    match e
    case EvSend => SendKeeps(s, j);
    case EvResend(id) => ResendKeeps(s, j, id);
    case EvTarget(m, allowed) => TargetKeeps(s, j, m, allowed);
    case EvResponse(m) => ResponseKeeps(s, j, m);
    case EvExhausted(_) =>
    case EvRestart =>
  }

  ghost predicate ValidRun(s: Sys, j: Job, es: seq<Event>)
    requires JobOk(j)
    decreases |es|
  {
    es == [] || (Enabled(s, j, es[0]) && ValidRun(Apply(s, j, es[0]), j, es[1..]))
  }

  ghost function Run(s: Sys, j: Job, es: seq<Event>): Sys
    requires JobOk(j) && ValidRun(s, j, es)
    decreases |es|
  {
    if es == [] then s else Run(Apply(s, j, es[0]), j, es[1..])
  }

  lemma {:induction false} RunKeeps(s: Sys, j: Job, es: seq<Event>)
    requires Inv(s, j) && ValidRun(s, j, es)
    ensures Inv(Run(s, j, es), j)
    decreases |es|
  {
    if es != [] {
      StepKeeps(s, j, es[0]);
      RunKeeps(Apply(s, j, es[0]), j, es[1..]);
    }
  }

  /**
    When the initiator reports success, the target's region holds the whole message, whatever the
    network lost, repeated or reordered, and however often the message was started again.
   */
  lemma SuccessMeansWritten(j: Job, mem: seq<Byte>, es: seq<Event>)
    requires JobOk(j) && |mem| == j.size && ValidRun(Init(j, mem), j, es)
    requires Succeeded(Run(Init(j, mem), j, es), j)
    ensures var s := Run(Init(j, mem), j, es);
      |s.mem| == j.size && s.mem[j.start..j.start + |j.msg|] == j.msg
  {
    RunKeeps(Init(j, mem), j, es);
    var s := Run(Init(j, mem), j, es);
    var ps := PiecesOf(j);
    PiecesTile(|j.msg|, j.mpl);
    forall b: nat | b < |j.msg| ensures s.mem[j.start + b] == j.msg[b] {
      var i := Covered(ps, 0, |j.msg|, b);
      assert s.ok[i] && Placed(s, j, i);
    }
  }

  /** Each packet id completes SES at most once, and never while it is still outstanding. */
  lemma CompletesOnce(j: Job, mem: seq<Byte>, es: seq<Event>, id: int)
    requires JobOk(j) && |mem| == j.size && ValidRun(Init(j, mem), j, es)
    ensures var s := Run(Init(j, mem), j, es); s.done[id] <= 1 && (id in s.out ==> s.done[id] == 0)
  {
    RunKeeps(Init(j, mem), j, es);
  }
}
