# Verified model of the Ultra Ethernet reference transport

A Dafny model of the two upper layers of an Ultra Ethernet endpoint, and proofs of what they promise.

- **PDS** (packet delivery) runs packet delivery contexts (PDCs): a sliding window of 128 packet sequence
  numbers (PSNs) on each side, explicit and cumulative acknowledgements, stored responses that are cleared
  later, retransmission, NACKs, Start_PSN negotiation, ordered delivery (ROD) and close. RUDI is its
  connectionless, idempotent mode.
- **SES** (semantics) cuts messages into packets, places them in memory at the other end, counts what is
  unacknowledged, and reports completions.

Verify with `dafny verify dfyconfig.toml`.

## How the model is laid out

Each part has its behaviour as functions on values, theorems about every run of those functions, and the
code's own form: classes with the fields of the C structures and methods with its loops, each proved to do
to its fields what the functions say.

| files | part |
|---|---|
| `Psn` | 32-bit PSNs, serial comparison, 16-bit wire offsets, and exactly when they agree with unbounded PSNs |
| `PdcTypes`, `TxWindow`, `RxWindow`, `RudProtocol`, `RudInvariant`, `RudTheorems` | RUD end to end: initiator, target and a network that loses, repeats and reorders, as one state machine |
| `TxSide`, `RxSide`, `SackSpan` | the two ends in place, with 32-bit PSNs, 128-slot bitmaps and the headers between them; what SACK bitmaps reach |
| `RudProgress`, `RudRecovery`, `MprLimit` | what each RUD event must bring about, exactly when a packet's own retransmissions can complete it, and the peer's range |
| `RudMessage` | a message over a RUD PDC: the protocol above joined to the buffer it fills |
| `Rod`, `RodOrder`, `RodSide` | ordered delivery at the target, and the one-message-at-a-time gate at the initiator |
| `RodAnswers`, `GateProgress` | what a ROD target hands up, holds and acknowledges, and what the gate lets through |
| `Conservation` | SES counters against the packets PDS tracks, over all PDCs |
| `PdcClose`, `PdcLife` | the life and close of a PDC and its slot in the pool, and that a close gets through |
| `StartPsn`, `SynQueue`, `ZeroRtt` | re-driving a Start_PSN, what is queued for it, 0-RTT establishment |
| `FlatMem`, `MrCopy`, `MrRegion`, `MrSegment` | copies over iovecs, page lists and segment lists as copies on one flat byte sequence |
| `Reassembly`, `MessageFits` | segmentation and reassembly, and messages that do not fit |
| `SyncGroup`, `SyncSide`, `SyncAnswers` | sync groups at the target, and which of their packets are taken |
| `RudiWrite`, `RudiProgress` | RUDI writes end to end, and that loss is made good |
| `RudiEngine`, `RudiRecord`, `RudiRetries` | the RUDI retry index, against records of what was sent, answered and sent again |
| `TxPool`, `TxFlow` | transmit descriptors: where they are, against logs of what was taken, started and completed |
| `TxMachine`, `TxOutcome`, `TxLedger` | the states of a descriptor, its counters, and what leads to success, restart and error |
| `RodSes`, `RodProgress` | ROD order across messages, and that each message gets its turn |

A run is a sequence of events, each enabled when its turn comes. The network is the set of every packet ever
sent: any of them may arrive at any time, any number of times, or never. What the code asks of its
surroundings (the SES verdict on a request, a full window, a send that fails, the clock) is part of the event
or a parameter. The theorems about a PDC are for the forward direction and for fewer than 2^31 PSNs per PDC;
`RudTheorems.MethodsApply` shows that every reachable state then meets what the 32-bit methods require, and
`RudTheorems.AckCrossesWire` and `RudTheorems.ReqCrossesWire` that what one end builds the other end reads.

## What the proofs found

- **ROD acknowledges ahead of SES.** The reorder loop recomputes the cumulative ACK while packets behind the
  current one are held but not yet handed up (uet_pds.c:2772-2782, 3851-3868). If SES accepts one packet of a
  run and refuses a later one, the refused packet and those behind it can be acknowledged, dropped from the
  window and never delivered (`RodOrder.LossExample`). `Rod.ArriveSpec` gives the exact condition, and
  `RodOrder.GaplessIff` shows that delivery is gapless exactly in the runs in which it never arises; it never
  arises when SES accepts every packet.
- **A sync group forgets a failed write when its terminating operation comes last.** A deferred atomic is not
  applied after a write of the group failed, but an atomic that arrives after all the writes is applied at
  once without looking at the error, and a terminating write with immediate data that arrives last reports
  success (uet_api.c:2820-2824, 2993-2999, 1890-1911; `SyncGroup.LateAtomicIgnoresFailure`,
  `SyncGroup.LateWriteIgnoresFailure`). The condition `HeldAgainst` in `SyncGroup.AtomicOnce` is exact.
- **A sync group can end without the completion of its terminating write.** If a write failed, the terminating
  write is already waiting, and the last write to end ends well, the error call made for the terminating
  descriptor takes the branch for writes, which recycles the descriptor and posts nothing (uet_api.c:1914-1925,
  1993-2009; `SyncGroup.CompletionDropped`). That call also counts in the group's table entry, which has just
  been freed (uet_api.c:475-482, 1973-1980); the model takes the entry to be gone. `SyncGroup.WriteImmOnce` gives
  the exact condition under which a completion is posted.
- **The bounds tests on a write are made on sums that can wrap.** The offset of a write plus its length is taken in
  64 bits (uet_api.c:4076, 4131). When the sum wraps, both tests can pass for a place outside the buffer
  (`Reassembly.WrapPassesTests`). `Reassembly.PlacedIff` and `Reassembly.InPlaceIff` show that packets which pass
  go to their own place in the buffer exactly when the sums do not wrap.
- **A packet can be asked after in vain.** Once SACK bits report a packet, the initiator sends ACK requests for it
  and never the packet itself: both callers of the retransmission routine give up first when no retries are left
  (uet_pds.c:2362-2376, 2425-2429, 3595-3600). The target ignores an ACK request for a PSN its window has passed
  (uet_pds.c:3937-3942), and a CLEAR moves the window without an ACK (uet_pds.c:4137-4146). So a packet that was
  delivered can use up its retries and close the PDC in error (`RudRecovery.VainExample`).
  `RudRecovery.CompletesItselfIff` shows that this is the only case in which a packet's own retransmissions cannot
  complete it, and `RudRecovery.NextPacketRescues` that the ACK of the next packet sent does.
- **A dropped packet pins the transmit window.** The window never passes a PSN whose packet was dropped
  (`RudTheorems.HolePinsWindow`); safety holds with such holes, and packets below them are still completed.
- **0-RTT catches an old Start_PSN up to half the PSN space back and no further** (`ZeroRtt.CaughtIff`).

## Model

| member | source | states |
|---|---|---|
| `Psn.OffsetExact` | uet_pds.c:93-95 | the signed 32-bit difference of two PSNs is their true distance if and only if that distance lies in [-2^31, 2^31) |
| `Psn.LaterExact` | uet_pds.c:87-91 | the update macro keeps the later of two PSNs that are less than half the space apart |
| `Psn.WindowExact` | uet_pds.c:297-301 | the window and prior-window macros mean [base, base+128) and [base-128, base) for PSNs that are near |
| `Psn.WireExact` | uet_pds.c:394-402 | a PSN rebuilt from a 16-bit offset is the original if and only if the distance fits 16 bits |
| `TxWindow.ShiftTxSpec` | uet_pds.c:3276-3313 | the transmit window moves over acknowledged packets only, over all it can, and drops nothing else |
| `TxWindow.AckTxSpec` | uet_pds.c:3638-3812 | the whole effect of an acknowledgement on the window: which packets count as acknowledged, which stay, how far the base and the peer limits move |
| `RxWindow.AcceptRxSpec` | uet_pds.c:3165-3274 | the whole effect of an accepted request: the cumulative ACK covers only tracked packets whose guaranteed responses are cleared, and the window follows it |
| `RudInvariant.StepKeeps` | uet_pds.c:3638-3876 | every event of a RUD run keeps the invariant that ties both windows, all packets in flight, SES acceptances and completions together |
| `RudInvariant.AckCovers` | uet_pds.c:3343-3369 | a PSN that an acknowledgement in flight covers was accepted by SES, and if its response is guaranteed it is covered only by its own response |
| `RudTheorems.AtMostOnce` | uet_pds.c:3068-3144 | in every run the target's SES accepts each PSN at most once, and the initiator's SES is told of each PSN at most once |
| `RudTheorems.AcknowledgedWasAccepted` | uet_pds.c:3343-3369 | a PSN is marked acknowledged, explicitly or cumulatively, only if the target's SES accepted it |
| `RudTheorems.GuaranteedResponse` | uet_pds.c:2763-2783 | a PSN accepted with guaranteed delivery completes only through its own stored response, never cumulatively or by a default response |
| `RudTheorems.StoredResponseOutlivesNeed` | uet_pds.c:3241-3274 | the target drops a guaranteed response only after the initiator has processed it |
| `RudTheorems.AcceptedKept` | uet_pds.c:3205-3227 | an acceptance and its gtd_del choice are never revised |
| `RudTheorems.WindowsInStep` | uet_pds.c:3079-3101 | every request sent is below rx_base+128 and every unacknowledged PSN is within 128 of rx_base, so a retransmission is classed new or duplicate and never out of window |
| `RudTheorems.OutOfWindowNackIsStale` | uet_pds.c:3521-3569 | an out-of-window NACK that can be in flight changes nothing at the initiator |
| `RudTheorems.OffsetsFit` | uet_pds.c:2742-2745 | the clear, ACK and SACK offsets of every packet in flight fit their 16-bit fields |
| `RudTheorems.HolePinsWindow` | uet_pds.c:866-876 | a hole left by a dropped packet stays, and the transmit base never passes it |
| `RudTheorems.MethodsApply` | uet_pds.c:79-95 | states and packets of a run of fewer than 2^31 PSNs satisfy what the 32-bit methods require |
| `RudTheorems.AckCrossesWire` | util/uet_util.c:1209-1226 | the header the target builds for an ACK of the run, with its cumulative ACK, PSN and SACK bitmap, is parsed by the initiator as that ACK |
| `RudTheorems.ReqCrossesWire` | uet_pds.c:2198-2219 | the header the initiator builds for a request of the run is read by the target as that request |
| `RudTheorems.SackBaseAllowed` | uet_pds.c:2620-2663 | where the target's methods start a SACK bitmap, the protocol of these theorems allows it |
| `RudProgress.AnsweredInEveryRun` | uet_pds.c:3102-3144 | in every run a request that arrives again after SES accepted it brings, by that very step, an ACK that names it; while its guaranteed response is not processed that ACK is the response and asks to be cleared |
| `RudProgress.NewTaken` | uet_pds.c:3196-3229 | a request SES has not accepted before and now takes is recorded once with its gtd_del, and its ACK carries the response and is sent if and only if one is due or delivery is guaranteed |
| `RudProgress.NewRefused` | uet_pds.c:3196-3239 | a request SES turns away or fails on leaves the target as it was and brings the NACK of that case |
| `RudProgress.FarBackNacked` | uet_pds.c:3091-3101 | a request more than a window back is for a packet that is done; it brings the out-of-window NACK, INVALID_SYN if it carries SYN, and changes nothing |
| `RudProgress.AckReqAnswered` | uet_pds.c:3928-3964 | an ACK request brings an ACK for a packet in the window, a NACK for one that is missing, and nothing for one the window has passed |
| `RudProgress.TakenInEveryRun` | uet_pds.c:3663-3701 | in every run an ACK changes nothing if and only if it names a dropped packet; otherwise its cumulative ACK takes effect, everything up to it is done, and an unacknowledged packet it names is done explicitly |
| `RudProgress.AckTaken` | uet_pds.c:3663-3792 | the same for each state that satisfies the invariant, with one upcall for the packet named and the SACK bits recorded |
| `RudProgress.ClearSent` | uet_pds.c:3763-3792 | the response of an outstanding packet that asks for a CLEAR gets one, up to the new base |
| `RudProgress.SendIff` | uet_pds.c:308-316 | a send takes the next PSN, is tracked and goes out if and only if fewer than 128 PSNs are in use from the base and from the highest cumulative ACK |
| `RudProgress.ResendSends` | uet_pds.c:2362-2447 | the timer sends every outstanding packet it takes up again, or asks after it if it is known to have arrived |
| `RudProgress.NackAnswered` | uet_pds.c:3371-3612 | a NACK for an outstanding packet sends it again, or fails everything outstanding, as its code says |
| `RudProgress.WindowsGoOn` | uet_pds.c:2763-2783 | in every reachable state the cumulative ACK ends at a missing packet or an uncleared guaranteed response, and the transmit base at a packet not acknowledged |
| `RudProgress.RoundTrip` | uet_pds.c:3068-3144 | the arrival of a request for an outstanding packet, and of the ACK it brings, completes the packet, by its own response if that is guaranteed |
| `RudProgress.SackExact` | uet_pds.c:2641-2678 | the SACK bits of an ACK report exactly the accepted PSNs in their range |
| `RudProgress.SackExactOnAccept` | uet_pds.c:2641-2678 | so do those of the ACK of a request just accepted, that request included |
| `MprLimit.NewestCounts` | uet_pds.c:3617-3636 | whatever order ACKs arrive in, the peer range in force is that of the ACK with the highest cumulative ACK, the first to arrive of equals |
| `MprLimit.AckAdvertises` | uet_pds.c:3617-3636 | an ACK that is not refused advertises a range if and only if it has an ACK_CC extension |
| `RudRecovery.Recoverable` | uet_pds.c:2362-2447 | in every reachable state, with everything on the network lost, what the timer sends for an outstanding packet, its arrival and its ACK complete the packet, unless it is asked after in vain |
| `RudRecovery.CompletesItselfIff` | uet_pds.c:3928-3943 | a packet can be completed by its own retransmissions if and only if it was not reported by SACK bits or the target's window has not passed it |
| `RudRecovery.ProbesInVain` | uet_pds.c:3937-3942 | in the other case no sequence of its own retransmissions and arrivals changes either end |
| `RudRecovery.NextPacketRescues` | uet_pds.c:3343-3369 | the ACK of the next packet sent and accepted then completes it |
| `RudRecovery.VainExample` | uet_pds.c:4137-4146 | a concrete run that leads to that case |
| `RudMessage.ReceiveIsTake` | util/uet_util.c:958-984 | over the wire the target's SES gets exactly the packet that was cut from the message |
| `RudMessage.StepKeeps` | uet_pds.c:3814-3876 | in every step SES has taken exactly the packets whose PSNs the target accepted |
| `RudMessage.DeliveredOnce` | uet_api.c:4130-4190 | over a network that loses, repeats and reorders, a completion is posted if and only if every PSN of the message was accepted, then once, with exactly the message in the buffer and nothing else touched |
| `RudMessage.AcknowledgedIsDelivered` | uet_pds.c:3638-3812 | once every packet of a message is acknowledged at the initiator, the message stands in the target's buffer with one completion |
| `TxSide.Initiator.constructor` | uet_pds.c:642-679 | a new initiator stands for the empty window at Start_PSN |
| `TxSide.Initiator.TxPsnAllowed` | uet_pds.c:308-316 | the 32-bit window test agrees with the unbounded one |
| `TxSide.Initiator.TxPkt` | uet_pds.c:2198-2295 | a sent packet is tracked under the next PSN with a header whose clear offset leads back to base-1; a full window changes nothing |
| `TxSide.Initiator.ShiftTxWindow` | uet_pds.c:3276-3313 | the loop leaves the window `ShiftTx` describes |
| `TxSide.Initiator.ProcessMpr` | uet_pds.c:3617-3636 | a newer advertised range replaces the old one |
| `TxSide.Initiator.ProcessCack` | uet_pds.c:3343-3369 | the packets up to the cumulative ACK are marked, and the upcalls name their descriptors in PSN order |
| `TxSide.Initiator.ProcessSackBitmap` | uet_pds.c:3315-3341 | exactly the tracked PSNs reported above the cumulative ACK are marked received |
| `TxSide.Initiator.JudgeAck` | uet_pds.c:3663-3692 | the checks at the head of ACK processing decide rejected, duplicate or fresh as on unbounded PSNs |
| `TxSide.Initiator.ProcessAck` | uet_pds.c:3638-3792 | the new window, the upcalls made, and the CLEAR sent |
| `TxSide.Initiator.DrainTxPkts` | uet_pds.c:821-842 | every unacknowledged packet leaves with one pds_err upcall for its descriptor |
| `TxSide.Initiator.DropTxPkts` | uet_pds.c:848-884 | the descriptor's unacknowledged packets leave, and the result counts them |
| `RxSide.Target.constructor` | uet_pds.c:1188-1198 | a new target stands for the empty window at Start_PSN |
| `RxSide.FollowKeeps` | uet_pds.c:2632-2638 | after an accepted packet the tracked SACK base is at or above the cumulative ACK and within one window of the highest PSN received |
| `SackSpan.ReportedSoon` | uet_pds.c:2620-2639 | a packet accepted above the cumulative ACK is in the range of one of the next three SACK bitmaps of coalesced ACKs |
| `RxSide.ExtractShows` | util/bitmap.c:220-247 | the 64 bits taken from the bitmap report exactly what is below the window or tracked in it |
| `RxSide.Target.CheckDuplicate` | uet_pds.c:3068-3144 | the 32-bit classification agrees with the unbounded one |
| `RxSide.Target.UpdateCack` | uet_pds.c:2763-2783 | the loop finds the first PSN the cumulative ACK cannot cover |
| `RxSide.Target.ShiftRxWindow` | uet_pds.c:3241-3274 | the window moves to the cumulative ACK and forgets exactly what is below it |
| `RxSide.Target.BuildAck` | uet_pds.c:2640-2761 | the ACK fields of every ACK type, with offsets from which the initiator rebuilds the PSN and the SACK base, and a bitmap that reports exactly the PSNs the target has |
| `RxSide.Target.AcceptPkt` | uet_pds.c:3165-3239 | an accepted request is tracked, acknowledged when due, and the window follows |
| `RxSide.Target.ProcessRequest` | uet_pds.c:4228-4371 | the reply and the new state in every class and for every SES verdict |
| `RxSide.Target.ProcessClear` | uet_pds.c:4137-4146 | a CLEAR raises the cleared PSN, the cumulative ACK and the window |
| `RxSide.Target.ProcessAckReq` | uet_pds.c:3928-3964 | an ACK request is answered from the bitmap and changes nothing |
| `Rod.DeliverList` | uet_pds.c:3851-3868 | the reorder loop hands up exactly the consecutive PSNs from the expected one to the first hole or refusal |
| `Rod.ArriveSpec` | uet_pds.c:3849-3871 | SES receives consecutive PSNs from the expected one; the target then expects the next PSN if and only if the call is not an overrun |
| `Rod.ClearKeeps` | uet_pds.c:4137-4146 | a CLEAR never moves a ROD window past the next PSN to hand up |
| `RodOrder.StrictlyIncreasing` | uet_pds.c:3849-3871 | whatever SES answers, it sees sent PSNs in strictly increasing order over the whole run |
| `RodOrder.GaplessIff` | uet_pds.c:3849-3871 | delivery is gapless from Start_PSN if and only if no call of the run was an overrun |
| `RodOrder.SesSeesPrefix` | uet_pds.c:3849-3871 | when SES accepts every packet it sees, once and in order, a prefix of exactly the packets sent |
| `RodOrder.LossExample` | uet_pds.c:2772-2782 | a concrete run in which a PSN is acknowledged and then lost |
| `RodOrder.SendKeeps` | uet_pds.c:2077-2134 | a message starts on a PDC only after the one before ended, and the mismatch error is unreachable |
| `RodOrder.Contiguous` | uet_pds.c:2265-2295 | the packets of a message occupy one unbroken interval of PSNs headed by its SOM packet |
| `RodOrder.Uninterleaved` | uet_pds.c:2316-2327 | SES never sees two messages interleaved, and sees them in send order, refusals or not |
| `RodAnswers.HandedUpExactly` | uet_pds.c:3849-3871 | in every run a new PSN makes the target hand up exactly the packets for which all from the expected PSN on are there and accepted by SES |
| `RodAnswers.EarlyIsHeld` | uet_pds.c:3851-3868 | a new packet other than the expected one is held, nothing is handed up, and nothing held is lost |
| `RodAnswers.AcknowledgedIffAccepted` | uet_pds.c:3108-3140 | in a run without overruns a repeated packet near the window is acknowledged if and only if SES accepted it, and told that SES has yet to see it if and only if it is held |
| `RodAnswers.AcceptedIsAcknowledged` | uet_pds.c:3108-3140 | in every run a packet that SES accepted, at most a window back, is acknowledged when it comes again |
| `GateProgress.SentIff` | uet_pds.c:2066-2134 | in every run a packet is sent if and only if there is room, the transmission succeeds, and it opens a message while none is active or belongs to the active one; otherwise nothing changes |
| `GateProgress.ActiveAfter` | uet_pds.c:2316-2327 | after a packet its message is the active one until its last packet is sent or SES ends it |
| `GateProgress.MessageGoesThrough` | uet_pds.c:2066-2327 | in every run in which no message is active the next one goes out packet by packet on consecutive PSNs and leaves the way free again |
| `RodSide.RodTarget.UpdateCack` | uet_pds.c:2763-2783 | the loop computes the value the model gives, over held packets handed up or not |
| `RodSide.RodTarget.ReorderLoop` | uet_pds.c:3849-3869 | the loop over the bitmap hands up what the specification says, in that order |
| `RodSide.RodTarget.ProcessDataPkt` | uet_pds.c:3814-3876 | the new window and the PSNs handed up |
| `RodSide.RodTarget.ProcessRequest` | uet_pds.c:4228-4371 | only a new PSN changes a ROD window; any other is NACKed as out of window, acknowledged again if it is below the next PSN to hand up, and otherwise NACKed as still with SES |
| `RodSide.MsgGate.TxPkt` | uet_pds.c:2066-2134 | a packet that is sent takes the next PSN, and only the active message may send |
| `RodSide.MsgGate.MsgCmplInd` | uet_pds.c:2577-2618 | SES ends the active message and nothing else |
| `Conservation.AckCount` | uet_pds.c:3343-3369 | an acknowledgement makes exactly as many upcalls for a descriptor as it takes packets of that descriptor out of the window |
| `Conservation.DrainCount` | uet_pds.c:821-842 | so does draining a PDC |
| `Conservation.StepKeeps` | uet_pds.c:753-884 | sending, acknowledging, draining, exhausting retries, flushing, allocating and freeing keep the accounts |
| `Conservation.CounterIsExact` | uet_api.c:5654-5663 | in every run unack_pkts of a descriptor equals the number of tracked unacknowledged packets that name it, over all PDCs |
| `Conservation.LeavesOnce` | uet_pds.c:3698-3701 | each packet taken is outstanding or has left by exactly one of ACK, cumulative ACK, pds_err or drop, and never leaves twice |
| `Conservation.NoUnderflow` | uet_api.c:5113-5129 | no upcall finds the counter at zero |
| `PdcClose.CloseOnlyWhenDrained` | uet_pds.c:1540-1607 | the close command is sent only with no active message and every earlier request PSN acknowledged, failed up to SES or dropped by SES |
| `PdcClose.NothingAfterClose` | uet_pds.c:948-966 | after the close command no request gets a PSN on the PDC, and no second close command is sent |
| `PdcClose.FreedOnce` | uet_pds.c:784-814 | in one life the PDC is freed once at most, with nothing left unsettled |
| `PdcClose.FreedIsInert` | uet_pds.c:784-814 | a PDC freed with nothing unsettled has nothing listed and no message or close pending, keeps its PSNs, and no later event changes it |
| `PdcClose.SlotFreeIffUnalloc` | uet_pds.c:681-814 | over any run of allocations and events on any PDCs a slot is on the free list, once, if and only if its PDC is not in use, and on the allocated list otherwise |
| `PdcClose.IniPdc.Release` | uet_pds.c:784-814 | the slot leaves the allocated list for the tail of the free list, is there if and only if the PDC is not in use, and nothing that arrives later changes the PDC |
| `PdcClose.IniPdc.DiscardPdc` | uet_pds.c:886-902 | a failed PDC fails everything listed up to SES and gives its slot back |
| `PdcClose.IniPdc.AckPkts` | uet_pds.c:3698-3792 | acknowledged PSNs are settled; the ACK of the close command gives the slot back, and the last ACK lets a requested close go ahead |
| `PdcClose.IniPdc.InitiatePdcClose` | uet_pds.c:1540-1607 | the new state in every branch, with the slot given back exactly when the life ends |
| `PdcClose.IniPdc.ClosePdcInError` | uet_pds.c:3424-3450 | everything listed is failed up, then the PDC closes, or is freed and its slot given back if it was closing |
| `PdcClose.IniPdc.MsgCmplInd` | uet_pds.c:2577-2618 | the end of the active message lets a requested close go ahead |
| `PdcClose.PdcPool.AllocPdc` | uet_pds.c:681-698 | the head of the free list moves to the tail of the allocated list, and every slot stays on exactly one list |
| `PdcClose.PdcPool.FreeSlot` | uet_pds.c:810-814 | the slot moves to the tail of the free list, every slot stays on exactly one list, and no other slot changes list |
| `PdcLife.CloseAckEnds` | uet_pds.c:3721-3754 | in every run a closing PDC lists just its close command, and its life ends if and only if that is acknowledged, the PDC fails or it is discarded |
| `PdcLife.CloseAckFreesSlot` | uet_pds.c:784-814 | over any run of the manager the ACK of a slot's close command moves the slot from the allocated list to the end of the free list |
| `PdcLife.FreeSlotIsUsed` | uet_pds.c:681-698 | the slot at the head of the free list is the one the next allocation takes, with a new life in it |
| `PdcLife.CloseGoesAhead` | uet_pds.c:1540-1607 | in every run, once a close is requested and nothing is active or listed, the ACK, message end or close request that finds it so sends the close command under the next PSN, or frees a PDC in the SYN state |
| `PdcLife.RememberedClose` | uet_pds.c:1540-1607 | in every run a close marked on the last packet of a message, or asked for by the target while something is listed, goes out with the ACK of everything listed |
| `PdcLife.ErrorEnds` | uet_pds.c:3424-3450 | a PDC that fails is freed if it was closing or in the SYN state, and otherwise sends its close command at once |
| `PdcLife.DiscardFreesSlot` | uet_pds.c:886-902 | over any run of the manager a PDC that is discarded gives its slot back whatever its state |
| `PdcLife.SendTaken` | uet_pds.c:948-966 | a request gets the next PSN and is listed if and only if the PDC is in use and it opens a message with none active and no close requested, or goes on with the active one |
| `PdcLife.SettledAs` | uet_pds.c:821-884 | an event settles exactly the listed requests it names, as acknowledged, dropped or failed |
| `StartPsn.SynKept` | uet_pds.c:2293-2295 | in the SYN state next_psn - start_psn is syn_offset and every queued packet carries its own distance, over any sends, drops and re-drives |
| `StartPsn.RedriveKeeps` | uet_pds.c:3457-3504 | adopting a Start_PSN makes it the PDC's own and keeps that invariant |
| `StartPsn.RedriveTranslates` | uet_pds.c:3457-3504 | each queued packet keeps its bitmap index and offsets, and its PSN less its SYN offset is the new Start_PSN, inside the PENDING target's window |
| `StartPsn.RedriveComposes` | uet_pds.c:3470-3473 | adopting another Start_PSN first makes no difference, so adopting one twice is adopting it once |
| `StartPsn.SynPdc.TxPkt` | uet_pds.c:2198-2219 | the packet queued in the SYN state and the counters after it |
| `StartPsn.SynPdc.ReestablishStartPsn` | uet_pds.c:3457-3504 | the shifted PDC, and the packets sent again, none when the Start_PSN is already in use |
| `StartPsn.RestampQueue` | uet_pds.c:3484-3501 | the loop moves every queued packet by the same distance |
| `SynQueue.QueuedIffOwed` | uet_pds.c:3457-3504 | in every run in the SYN state packet k is queued, once, at the PSN k past the present Start_PSN and under its own descriptor, if and only if it was sent and not dropped since; the queue is in send order |
| `ZeroRtt.ExpectedMovesOn` | uet_pds.c:4111-4126 | within half the PSN space Expected_PSN never decreases and stays past every cleanly closed Start_PSN |
| `ZeroRtt.OldStartOnlyPending` | uet_pds.c:1163-1219 | a first SYN at or below a closed Start_PSN only gets a PENDING context and a NACK |
| `ZeroRtt.FirstSynExact` | uet_pds.c:1163-1219 | in every run a first SYN is accepted with its own Start_PSN if and only if that is not before Expected_PSN; otherwise a PENDING context and a NACK name Expected_PSN; no other context changes |
| `ZeroRtt.NackedSynGetsIn` | uet_pds.c:1087-1118 | a SYN that starts where the NACK said is accepted |
| `ZeroRtt.CloseAnswers` | uet_pds.c:4111-4133 | in every run the closing ACK names the least PSN that is past the Start_PSN of the closed PDC and not before the old Expected_PSN |
| `ZeroRtt.PendingNeedsItsStart` | uet_pds.c:1087-1118 | a PENDING context is established if and only if a SYN for it starts at the PSN it was given |
| `ZeroRtt.CaughtIff` | uet_pds.c:1181-1184 | a start before Expected_PSN is rejected if and only if it is at most half the PSN space back |
| `ZeroRtt.SecDomain.AssignTgtPdc` | uet_pds.c:1075-1231 | the context created or matched and the answer given |
| `ZeroRtt.SecDomain.CloseCommand` | uet_pds.c:4111-4133 | the new Expected_PSN, returned in the closing ACK |
| `FlatMem.FlatWrite` | uet_api.c:3264-3272 | over disjoint backing, a store along part of an address sequence is a splice of the flattened bytes and touches nothing else |
| `MrCopy.ScatterIov` | uet_api.c:3274-3313 | a scatter stores along the iovec's flattened space and is short exactly when the list ends first |
| `MrCopy.GatherIov` | uet_api.c:3325-3361 | a gather loads along the flattened space and is short exactly when the list ends first |
| `MrCopy.ScatterIsSplice` | uet_api.c:3264-3272 | a scatter into any kind of buffer is a copy on one flat byte sequence that changes nothing outside the range |
| `MrCopy.GatherUndoesScatter` | uet_api.c:3315-3324 | a gather after a scatter at the same place returns what was scattered |
| `MrCopy.ScatterUndoesGather` | uet_api.c:3315-3324 | scattering back what was gathered leaves memory as it was |
| `MrRegion.QuotRem` | uet_api.c:3412-3414 | the page index and offset of the model are the quotient and remainder by the page size |
| `MrRegion.Level2IsLevel1` | uet_api.c:3418-3445 | a two-level page list resolves like a one-level list over the concatenated directories |
| `MrRegion.Resolve` | uet_api.c:3403-3453 | the address of an offset and a run of bytes at consecutive addresses from there |
| `MrRegion.ScatterPbl` | uet_api.c:3460-3487 | the page-by-page copy stores along the flattened space of the page list |
| `MrRegion.GatherPbl` | uet_api.c:3460-3487 | and the copy out loads along it |
| `MrSegment.MrScatter` | uet_api.c:3739-3764 | a region of any kind takes all of the source along its flattened space, or nothing when it is too short at that offset |
| `MrSegment.MrGather` | uet_api.c:3770-3793 | the mirror of the scatter |
| `MrSegment.AddrToOffset` | uet_api.c:3505-3521 | an address converts if and only if the whole range lies in the region |
| `MrSegment.SegValidate` | uet_api.c:3540-3563 | a list passes if and only if it is not empty and every segment is enabled and inside its region |
| `MrSegment.ScatterSeg` | uet_api.c:3577-3620 | a scatter over a segment list stores along the segments end to end, short exactly when the list is too short |
| `MrSegment.GatherSeg` | uet_api.c:3577-3632 | and a gather loads along them |
| `MrSegment.AtomicAddr` | uet_api.c:3675-3728 | an operand resolves if and only if it is in range, in one run and naturally aligned, and then to the bytes a gather would read |
| `MrSegment.AlignedFitsPage` | uet_api.c:3660-3666 | over aligned pages a naturally aligned operand never straddles a page |
| `Reassembly.HeaderExact` | uet_api.c:4971-4979 | the packed offset and length come back if and only if they fit 32 and 14 bits |
| `Reassembly.OnWireExact` | util/uet_util.c:958-984 | a packet is parsed as it was built if and only if its fields fit the header, for first and later packets |
| `Reassembly.PiecesTile` | uet_api.c:5538-5545 | the pieces of a message are consecutive, cover it, and are as long as the limit and the message allow |
| `Reassembly.TxDesc.TxMsg` | uet_api.c:5538-5669 | whatever pauses came before, the packets handed over are the next ones of the message, and it asks to be tried again if and only if some are left |
| `Reassembly.TxDesc.Retx` | uet_api.c:1653-1657 | a restarted message is sent from its first packet |
| `Reassembly.RxDesc.RxReqPkt` | uet_api.c:3898-4190 | the buffer, the byte account and the completion after one packet, with the tests on 64-bit sums; or the error; or that the tests pass for a place outside the buffer |
| `Reassembly.PlacedIff` | uet_api.c:4130-4180 | a packet that is not refused goes into the buffer if and only if the end of its place does not wrap |
| `Reassembly.InPlaceIff` | uet_api.c:4075-4135 | the packets of a message that pass the tests all go to their own places inside the buffer if and only if the end of the message does not wrap |
| `Reassembly.WrapPassesTests` | uet_api.c:4075-4135 | a concrete start and length whose sums wrap and pass both tests |
| `Reassembly.TakeRx` | uet_api.c:4098-4190 | a packet of the message is never refused, lays its bytes and takes them off the account |
| `Reassembly.FreshIff` | uet_pds.c:3068-3144 | the deliveries considered are exactly those in which every packet arrives at most once, in any order |
| `Reassembly.Reassembled` | uet_api.c:4130-4190 | packets delivered once each in any order leave exactly the message in the buffer, with one completion, on the last packet |
| `MessageFits.WholeOrNothing` | uet_api.c:4075-4082 | when all packets of a message have arrived in any order, it stands in the buffer with one completion if it fits, and otherwise not a byte is written, nothing is posted and the descriptor is not taken |
| `MessageFits.TooLongRefused` | uet_api.c:4075-4082 | every packet of a message too long for the buffer is refused before anything is written |
| `SyncGroup.AtomicOnce` | uet_api.c:1872-1911 | in any interleaving the terminating atomic is applied once when all N messages have completed and not before, unless a failed write is held against it |
| `SyncGroup.WriteImmOnce` | uet_api.c:1872-2029 | nothing is posted for a single-packet terminating write before all N messages have completed, and then one completion if and only if no write failed, the terminating write came last, or the last write to end failed; it reports an error in the last case only |
| `SyncGroup.CompletionDropped` | uet_api.c:1914-1925 | a concrete group that completes without any completion |
| `SyncGroup.EntryReclaimed` | uet_api.c:2806-2858 | the table entry exists exactly while the group is under way |
| `SyncGroup.LateAtomicIgnoresFailure` | uet_api.c:2993-2999 | an atomic that arrives last is applied although a write of the group failed |
| `SyncGroup.LateWriteIgnoresFailure` | uet_api.c:1890-1911 | a terminating write that arrives last reports success although a write of the group failed |
| `SyncAnswers.NeverRefused` | uet_api.c:522-597 | no packet of a conforming group is answered with an operation violation, in any order of arrival |
| `SyncAnswers.ExtraRefused` | uet_api.c:522-597 | once the terminating operation has given the count and all writes were seen, a message too many is refused and changes nothing |
| `SyncAnswers.SecondTerminateRefused` | uet_api.c:2806-2858 | a second terminating operation is refused; a write changes nothing, an atomic marks the group as in error and is not applied |
| `SyncAnswers.ShortCountHeld` | uet_api.c:522-597 | a terminating operation that counts fewer messages than were seen is recorded as an error, and an atomic is refused |
| `SyncSide.SyncTarget.GetSyncGrp` | uet_api.c:522-597 | the counts after a packet, and the operation violations |
| `SyncSide.SyncTarget.RxCqPostEntry` | uet_api.c:1872-1956 | what completing a message does to the group, the deferred atomic and the completion queue, with the error call on a waiting terminating write |
| `SyncSide.SyncTarget.RxCqPostErr` | uet_api.c:1959-2029 | what a failed write does to them |
| `SyncSide.SyncTarget.RxAtomicReq` | uet_api.c:2806-2858 | the atomic is applied, deferred or refused |
| `RudiWrite.SuccessMeansWritten` | uet_api.c:3839-3896 | when the initiator reports success the target's region holds the whole message |
| `RudiWrite.CompletesOnce` | uet_pds_rudi.c:503-528 | each packet id completes SES at most once |
| `RudiProgress.Recoverable` | uet_pds_rudi.c:547-610 | in every run, with everything on the network lost, an outstanding packet is completed once by sending it again, its arrival and its response, and its bytes then stand in the region |
| `RudiProgress.WritesOnlyItsPlace` | uet_api.c:3839-3896 | in every run no byte outside the place of the message changes |
| `RudiProgress.FailureCounts` | uet_pds_rudi.c:503-528 | a failure response ends its packet and fails the message |
| `RudiEngine.StepKeeps` | uet_pds_rudi.c:62-73 | every operation keeps the same requests in table and list, and the list in transmit order |
| `RudiEngine.ResponseOnce` | uet_pds_rudi.c:503-528 | a response completes the request its id names and a second one finds nothing |
| `RudiEngine.TimerIsFullScan` | uet_pds_rudi.c:559-607 | stopping at the first fresh entry sends again what a scan of the whole list would, in that order, up to the first request without retries |
| `RudiEngine.TimerExactInEveryRun` | uet_pds_rudi.c:547-610 | after any sequence of sends, responses, drops and timer calls from the empty table, table and list hold the same requests in transmit order, and the timer sends again what a full scan would |
| `RudiEngine.RotateUsesRetry` | uet_pds_rudi.c:595-604 | each retransmission uses up one of the retries left, so the walk ends |
| `RudiRecord.CompletesItsSender` | uet_pds_rudi.c:503-528 | in every run a request is in the table if and only if it was sent and not answered, dropped or given up, and its response completes the descriptor that sent it; any other response completes none |
| `RudiRecord.GivesUpSender` | uet_pds_rudi.c:563-593 | in every run the descriptor the timer gives up on has an outstanding request that has expired and is out of retries |
| `RudiRecord.TimerExact` | uet_pds_rudi.c:547-610 | the timer gives up on the descriptor a look over the whole list would find, removes exactly its requests, and every other request keeps its descriptor |
| `RudiRetries.RetriesExact` | uet_pds_rudi.c:595-604 | in every run the retries held for an outstanding request are the times it was sent again |
| `RudiRetries.GivesUpAfterMax` | uet_pds_rudi.c:575-593 | so a descriptor is given up on only if a request of it was sent again as often as allowed and never answered |
| `RudiRetries.SentAgainIff` | uet_pds_rudi.c:563-573 | in every run a timer call that gives up on nothing sends again exactly the outstanding requests sent a timeout ago or more, and no call sends others |
| `RudiRetries.NotDueAgain` | uet_pds_rudi.c:595-604 | a request sent again is not due before another timeout has passed |
| `RudiEngine.RudiTable.Tx` | uet_pds_rudi.c:348-404 | a sent request joins table and list under a new id |
| `RudiEngine.RudiTable.Rsp` | uet_pds_rudi.c:503-528 | the handle completed, and the request gone from both |
| `RudiEngine.RudiTable.DropTxPkts` | uet_pds_rudi.c:98-118 | the requests of a descriptor leave both, and are counted |
| `RudiEngine.RudiTable.ProgressTx` | uet_pds_rudi.c:547-610 | the walk sends, moves and fails what the specification says, and terminates |
| `TxPool.Ring.Insert` | uet_api.c:1256-1268 | the ring's contents gain one entry at the end |
| `TxPool.Ring.Remove` | uet_api.c:1270-1274 | the ring's contents lose the oldest entry |
| `TxPool.Ring.Rotate` | uet_api.c:1276-1289 | rotation moves the oldest entry to the end and keeps the rest, even in a full ring |
| `TxPool.Ring.EntryCnt` | uet_api.c:1214-1220 | the count is the length of the contents |
| `TxPool.OnePlaceEach` | uet_api.c:1357-1420 | in every run each transmit descriptor is in exactly one of free list, tx ring, buffered-RTR list and send queue |
| `TxPool.QueuesFit` | uet_api.c:7358-7364 | so the send completion queue never holds more than there are descriptors |
| `TxFlow.NothingLost` | uet_api.c:1357-1420 | in every run completions are read in the order posted, none lost or repeated; what was started and has not ended is on the ring; a descriptor is free if and only if it was given back as often as taken |
| `TxFlow.SendIff` | uet_api.c:6227-6433 | in every run a send finds a descriptor if and only if fewer than all are on the ring, buffered or in the queue |
| `TxPool.TxEndpoint.Send` | uet_api.c:6227-6433 | a send moves a free descriptor to the ring, or fails when there is none |
| `TxPool.TxEndpoint.CqPost` | uet_api.c:1580-1626 | the oldest descriptor moves to the queue, which has room, or to the free list |
| `TxPool.TxEndpoint.CqReadEntry` | uet_api.c:1564-1577 | the oldest completion is returned and its descriptor is free again |
| `TxPool.FlushedMore` | uet_api.c:1805-1848 | flushing one more descriptor is completing the oldest one, to the queue if it stands for an operation of the application and to the free list otherwise |
| `TxPool.TxEndpoint.Flush` | uet_api.c:7464-7516 | up to the given number of descriptors leave the ring, oldest first, each to the queue or the free list as its kind says |
| `TxMachine.CompleteMeansDone` | uet_api.c:1693-1732 | a request completes only with all bytes sent, nothing unacknowledged and every read response in |
| `TxMachine.ErrorIsFinal` | uet_api.c:1773-1796 | in every run a descriptor that is in error stays so; `TxOutcome.FailureIsFinal` says which events put it there |
| `TxMachine.RestartsBounded` | uet_api.c:1637-1651 | a finite retransmit limit bounds the restarts |
| `TxMachine.StartsWithNothingOut` | uet_api.c:1733-1772 | a message is started or restarted only with nothing of it outstanding |
| `TxLedger.CountersExact` | uet_api.c:5113-5129 | in every run unack_pkts is the packets PDS took less its reports, and a read waits for the responses it asked for less those it got; a complete descriptor has had a report on every packet |
| `TxOutcome.FailureIsFinal` | uet_api.c:5195-5309 | in every run, after a failure response, a PDS error, a failed send or a read timeout, no later state is Complete |
| `TxOutcome.ErrorOnlyByFailure` | uet_api.c:1637-1651 | only such a failure, or the retransmit limit, puts a descriptor in error |
| `TxOutcome.FailureEnds` | uet_api.c:1773-1796 | a failed descriptor is reported as soon as nothing of it is outstanding, and not before |
| `TxOutcome.CompletesIff` | uet_api.c:1693-1732 | a transition completes a descriptor if and only if all is sent, acknowledged and, for a read, answered |
| `TxOutcome.SuccessCompletes` | uet_api.c:1693-1732 | however a message is cut, sending every packet and having each answered with success completes it |
| `TxOutcome.RetxLeadsToRestart` | uet_api.c:1733-1752 | a message asked for again waits, is started again or ends in error at the limit; it does not complete first |
| `TxOutcome.RestartIff` | uet_api.c:1637-1680 | once nothing is outstanding it is started again from its first byte, or ends in error exactly at the limit |
| `TxOutcome.NoRestartBeforeRtr` | uet_api.c:1753-1772 | a deferred message is neither started again nor completed without a ready-to-restart |
| `TxOutcome.RtrRestarts` | uet_api.c:1753-1772 | with one it is started again once nothing of it is outstanding, or ends at the limit |
| `TxMachine.TxDescriptor.RetxStart` | uet_api.c:1637-1680 | the descriptor restarts from its first byte, or ends in error at the limit |
| `TxMachine.TxDescriptor.StateTransition` | uet_api.c:1693-1802 | the next state in every state, and that PDS is told of the end only with nothing outstanding |
| `RodSes.OneUnderWay` | uet_api.c:5699-5705 | at most one message per destination is under way, and it is the oldest not completed |
| `RodSes.InPostingOrder` | uet_api.c:1602-1604 | completions to a destination, successes and errors, come out in posting order |
| `RodProgress.NextIsOnRing` | uet_api.c:5676-5751 | in every run, while a destination has messages open, the one whose number is next is on the ring |
| `RodProgress.NextCompletes` | uet_api.c:5676-5751 | one pass over the ring reaches it whatever the other visits come to, and finishing it reports its own result as the next completion of that destination |
| `RodProgress.UnderWayIff` | uet_api.c:5689-5750 | a visit starts, continues or stops just the message it works on, and leaves every other under way or not as it was |
| `RodSes.RodEndpoint.Send` | uet_api.c:6367-6437 | a send takes the next sequence number and may start at once only on an empty ring |
| `RodSes.RodEndpoint.SetTxSeqNum` | uet_api.c:869-886 | the next number becomes the lower of the two, so it never rises, and other destinations keep theirs |
| `RodSes.RodEndpoint.TxMsgTry` | uet_api.c:5676-5751 | a pass over the ring is a run of visits |
| `RodSes.RodEndpoint.TryTail` | uet_api.c:5689-5750 | one visit works on the oldest descriptor if its number is next, and rotates it otherwise |

## Left out

- The reverse direction of a PDC: only target PDCs seed the cumulative ACK and the cleared PSN, so window properties are stated for requests.
- Progress: what each event must bring about is proved, not that events come; timers and the network may be idle forever. A dropped packet leaves a hole the window never passes.
- Re-drives inside end-to-end runs: an established PDC does not test Start_PSN again, so the RUD and ROD runs use one Start_PSN; `StartPsn` treats the re-drive itself.
- RudMessage.DeliveredOnce: one message per run, in a contiguous buffer, on consecutive PSNs, which `RodOrder.Contiguous` proves of the send gate; the bounds on message and payload length are those of the SES header.
- RodSide.RodTarget.ProcessRequest: the ACKs and NACKs sent while new packets are handed up are not part of the result.
- RodSide.RodTarget.ProcessDataPkt: PSNs are unbounded here; the 32-bit form of the window is in `RxSide`.
- TxSide.Initiator.DrainTxPkts: walks the bitmap, not the retransmission list, so the order of the pds_err upcalls is not modelled.
- TxSide.Initiator.DropTxPkts: walks the bitmap, not the retransmission list.
- Conservation.StepKeeps: assumes that SES starts a message only with nothing of it outstanding, which `TxMachine.StartsWithNothingOut` proves, and that a PDC is freed only when drained, which `PdcClose.FreedOnce` proves; transmits that fail other than with EAGAIN are outside it.
- PdcClose.SlotFreeIffUnalloc: the lives are those of initiator PDCs; target PDCs, which take slots of the same pool, are not in these runs.
- RodOrder.SendKeeps: an endpoint flush in the middle of a message, which leaves the PDC's active message set, is outside the gate.
- PdcClose.IniPdc.InitiatePdcClose: the close command is taken to be acknowledged by its own ACK; control packets other than CLOSE do not use PSNs of the window.
- MrRegion.Resolve: the DMA translation callback is the identity, so a translation that fails is not modelled.
- Reassembly.RxDesc.RxReqPkt: what a copy to a place outside the buffer does is not modelled beyond saying that it is outside. Contiguous buffers, and the checks on lengths and bounds; key, generation, tag and job checks are not modelled, and the other buffer kinds are in `MrSegment`.
- Writes outside RUDI use raw offsets, that is regions whose base address is 0; immediate data of a message whose first packet does not arrive first is not modelled.
- SyncGroup.WriteImmOnce: the terminating write is a single packet that does not fail itself; the read and increment of a freed entry in the error call has no defined result in C and is modelled as a call without a group.
- uet_rx_sync_grp_age, which drops an idle group and reports an error on a waiting terminating write, is excluded from the sync-group runs.
- RudiEngine.TimerIsFullScan: the clock does not go back and every send reaches its timestamp.
- RudiRecord.CompletesItsSender: the timeout is positive, as it is in the code.
- RudProgress.AnsweredInEveryRun: a request more than a window back, whose packet is done, is NACKed as out of window, which changes nothing.
- RodProgress.NextCompletes: messages that become due in the course of the pass are not counted on.
- RudiWrite.SuccessMeansWritten: one message, no other writer, fewer than 2^32 packet ids.
- RUDI retry exhaustion on messages of several packets is not part of `Conservation`: one pds_err covers several dropped packets.
- TxMachine.CompleteMeansDone: assumes that a read response with data comes only while one is expected; the code counts down without a test.
- TxPool.OnePlaceEach: the tagged and untagged buffered-RTR lists, which the code ages one after the other, are one list here, from which any entry may time out; the timeout of deferred sends, which takes whatever is at the ring's tail, and allocation failures are excluded.
- TxPool.TxEndpoint.CqPost: the rings are held as their contents; `TxPool.Ring` is the ring in place.
- RodSes.OneUnderWay: speaks of descriptors; a send error other than EAGAIN completes a message at once while packets of it may still be unacknowledged in PDS.
- RodSes.InPostingOrder: endpoint flush, which completes descriptors in ring order, is excluded.
- Ready-to-restart requests and read responses as descriptors of their own appear only in `TxPool`.
- gather_iov_to_buffer, which repeats gather_iov_to_flat with an allocated buffer, and uet_seg_total_len: easy members.
- The word-level bitmap, ACK generation thresholds, NACK codes of establishment, memory-region key lookup, id and token allocators, locks and hash table internals.
- Initiator-side sync-group numbers, uet_pds_sng.c and uet_pds_uud.c: weaker protocols than the PDC core.
- NIC, raw socket and XDP access, header building, CRC, checksums and encryption: transmitting is adding a packet to the network.
