/** Values shared by the models of a packet delivery context (PDC). */
module PdcTypes {

  datatype Option<+T> = None | Some(value: T)

  /** The ACK_CC extension: the PSN of SACK bit 0, the advertised MPR, and the PSNs whose SACK bit is set. */
  datatype Cc = Cc(base: int, mpr: nat, sack: set<int>)

  predicate Reported(sb: int, bits: seq<bool>, p: int) {
    sb <= p < sb + |bits| && bits[p - sb]
  }

  /** The PSNs that a SACK bitmap based at `sb` reports. */
  function SackSet(sb: int, bits: seq<bool>): set<int> {
    set p | sb <= p < sb + |bits| && Reported(sb, bits, p)
  }

  /** NACK codes that a target of a RUD flow can send. */
  datatype NackCode =
    | PsnOutOfWindow        // UET_NACK_PSN_OOR_WINDOW
    | InvalidSyn            // UET_NACK_INVALID_SYN: out of window and carrying SYN
    | NoSesMsgAvail         // SES asked for a NACK
    | UnexpectedEvent       // the SES upcall failed
    | PktNotReceived        // ACK request for a PSN that is not in the bitmap

  datatype NackAction = Retransmit | CloseInError

  /** `uet_pds_nack_action` on the codes above. */
  function ActionOf(code: NackCode): NackAction {
    match code
    case PsnOutOfWindow | NoSesMsgAvail | PktNotReceived => Retransmit
    case InvalidSyn | UnexpectedEvent => CloseInError
  }

  /**
    Packets of the forward direction of one PDC.  PSNs are unbounded here; the classes that
    implement the two ends carry them as 32-bit values and 16-bit offsets.
   */
  datatype Msg =
    | Req(psn: int, clear: int)
      // an ACK: `response` tells a stored SES response from the default response
    | Ack(psn: int, cack: int, response: bool, reqClear: bool, cc: Option<Cc>)
    | Clear(clear: int)
    | AckReq(psn: int)
    | Nack(psn: int, code: NackCode)

  /** What SES answers to a request handed up to it. */
  datatype SesVerdict =
    | Accept(gtdDel: bool)
    | Refuse            // rc == 0 and ses_nack
    | Fail              // rc != 0

  function Max(a: int, b: int): int {
    if a < b then b else a
  }
}
