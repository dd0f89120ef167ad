# Verified models of a QUIC transport

This project models the state machines at the core of the transport and proves what they
guarantee over every run, under loss, duplication and reordering. There are five parts.

- **Stream reassembly and delivery.** `FrameSorter` keeps the gap list and the chunk map of the
  receiver and is proved against an independent definition of the missing ranges. `SendStream`
  cuts writes into frames, `StreamFrame` and `Packer` cut them again. `BytePipe` puts the two
  ends around an unreliable network and proves that they are a reliable byte pipe.
- **Loss recovery.** `LossRecovery` is the sender's state machine over values with its
  invariant: history, retransmission tree, byte counter, queue. `LossLaws` says what each step does
  without the functions that compute it, and what every run keeps of the packets it was given.
  `AckOrder` says which ACK frames are processed. `SentPacketHistory` and `SentPacketHandler` are the
  classes and loops that take exactly these steps.
- **Acknowledgements.** `ReceivedPackets` is the interval list of the receiver, `AckRanges` the
  two ways of asking whether a packet is acknowledged, `AckFrame` the wire format.
- **Credit between two endpoints.** `FlowControl`, `FlowProtocol` and `FlowLimits` for bytes,
  `StreamCredit` for streams.
- **Packing and the wire format.** `Packer`, `Framer`, `PacketSize`, `Frames`, `Header`,
  `PacketNumber`, `VarInt`, and `WireFormat`, which has the bytes of numbers, frames and headers as a
  table of its own.

## How to read it

State that the source updates in place is a class. Each of its methods is proved to take a step
of a function over values (`View() == Step(old(View()))`), and the properties of whole runs are
lemmas about those functions. Loops of the source are loops, with invariants that relate what is
done to what the specification makes of the rest.

The frame and header formats are defined over a pair of functions that write and read integers
(`VarInt.Codec`). `VarInt.VarIntIsLawful` shows that the integers of the source are such a pair.
"Written before `rest`" means that a function prepends to the bytes that follow, so that each
round trip is stated for any continuation.

## Results that are not as one would expect

- `FrameSorter.Sorter.Push`: a frame that ends at or beyond 2^62 - 1 reaches one of the two
  errors marked as bugs; no other frame does.
- `LossRecovery.HandshakeKeepsExactIff`: completing the handshake forgets packets without taking
  them out of flight. The counter stays exact if and only if those packets are empty, and the
  difference never goes away (`DriftIsPermanent`).
- `AckOrder.PacketZeroForgets`: an ACK frame in packet 0 makes the sender forget which ACK frames it
  has seen, so that earlier ones are processed again. Without such a frame each is processed at most
  once (`TakenUpOnce`).
- `FlowControl.NeverLowersIff`: a controller never takes back an advertised limit if and only if
  the maximum window is at least three quarters of the initial one.
- `FlowLimits.NoErrorIff`: between two endpoints no run ends in an error if and only if that holds
  for the streams, unless the connection starts with no credit at all, and for the connection,
  unless the streams do. For all other windows `UnsafeRun` gives a run in which a sender that keeps
  to its credit is refused.
- `StreamCredit.ZeroLimitIff`: a limit of zero streams is kept if and only if the first stream
  of that kind does not have ID 0. `RaisedIff`: a limit of zero unidirectional streams is given
  to the bidirectional ones.
- `StreamCredit.NoHolesIff`: accepting goes on in a run if and only if every stream that is deleted
  was accepted before. One that was not blocks it and all later streams for good
  (`AcceptWaitsForever`), and such a state is reached in four steps (`HoleIsReached`).
- `StreamFrames.MaxDataLen`: the frame fits if and only if its length field needs at most two
  bytes or is absent.
- `PacketNumbers.InferIff`: a truncated packet number is recovered less than half a window away
  from the expected one, but also at exactly half a window if it lies in another epoch, and
  anywhere ahead within the first epoch.
- `Packer.PackAllIff`: retransmission runs into an empty frame list if and only if a control
  frame is larger than a packet or a packet has no more than 128 bytes for STREAM frames.
- `AckFrames.LimitIsExceeded`: an ACK frame of 495 ranges exceeds its size limit by 8 bytes, because
  the first range and the number of ranges are counted as one byte each. `ExceedsIff` says when,
  `Length` that it is never more, and `ExceedsOnlyIf` that it takes a first range of more than 64
  packets or more than 64 ranges.
- `PacketSizes.TokenFitsIff`: a client's token is added to an Initial packet after the room for its
  frames was computed. A full packet is then refused as too large (`TokenOverruns`). If the packet is
  padded, as the first one with a token is, a header beyond 1200 bytes makes its payload length wrap
  around and the write panic, even where the packet would have fitted (`TokenWrapsAround`).
- `PacketSizes.ArrivesWholeIff`: a padded packet announces what is missing to 1200 bytes, whatever it
  contains. The receiver takes all of it if and only if it is no longer than that and the announced
  length takes as many bytes as the largest one; otherwise it cuts the end off (`PaddedIsCut`).
- `SendStreams.SendStream.Write`: a second call while data waits replaces what waits. Nothing is lost
  if and only if the new data starts with it.
- `AckFrames.OneRangeToSpare`: when ranges are dropped, one more would have fitted.
- `AckFrames.DelayFitsIff`: a delay of -8 microseconds or less cannot be written.
- `AckFrames.ParserCheckIsRedundant`: the check of the ranges after parsing never fails.

## Model

| member | source | states |
|---|---|---|
| FrameSorter.CanonicalUnique | frame_sorter.go:55-134 | two sorted lists of non-touching gaps with the same missing offsets are equal, so the gap list is determined by what was received |
| FrameSorter.CutMembers | frame_sorter.go:55-134 | the reference gap update removes exactly the offsets of the frame from the missing ones |
| FrameSorter.CutParts | frame_sorter.go:83-134 | editing only the first and last gap that a frame meets, and dropping those between, is the reference update |
| FrameSorter.FilledInv | frame_sorter.go:83-143 | after a fill the gaps are the complement of everything pushed, and chunks chain without hole or overlap from the read position and from each gap end |
| FrameSorter.DuplicateInv | frame_sorter.go:45-53 | a frame with only received bytes keeps the invariant with the frame logged |
| FrameSorter.StartsInsideARun | frame_sorter.go:45-60 | after the overlap with the chunk at its own offset is cut off, a frame never begins exactly where a gap ends |
| FrameSorter.QueuedIsReceived | frame_sorter.go:90-99 | every key of the chunk map, also one left over from a superseded run, holds bytes that were received |
| FrameSorter.FindGap | frame_sorter.go:55-71 | the first gap that the frame can touch, or that everything was received, or that there is none |
| FrameSorter.CloseGaps | frame_sorter.go:83-104 | finds the last gap that the frame meets, unless the frame reaches the end of all gaps, drops what lies between and leaves other chunks alone |
| FrameSorter.EditGaps | frame_sorter.go:106-134 | whatever the aliasing of first and last gap, what is left of them is the part before and the part after the frame |
| FrameSorter.Place | frame_sorter.go:73-143 | the new chunk and gap list re-establish the whole invariant; fails exactly if the frame ends at or beyond 2^62 - 1 |
| FrameSorter.PushData | frame_sorter.go:45-148 | reports a duplicate exactly if nothing is new, too many gaps exactly above the limit, and each of the two bug errors exactly for offsets out of range; otherwise the gaps become the reference update and the whole invariant holds |
| FrameSorter.OutcomeIff | frame_sorter.go:45-138 | by the bytes received so far alone: each result of a push of data exactly in its case, and too many gaps if and only if what is then missing is in more than 1000 pieces |
| FrameSorter.DuplicateIff | frame_sorter.go:60-72 | the missing ranges stay the same if and only if every byte of the frame was received before |
| FrameSorter.Sorter.constructor | frame_sorter.go:19-27 | starts valid with nothing received |
| FrameSorter.Sorter.PushImpl | frame_sorter.go:37-148 | the same for the sorter, with the final offset taken from a FIN; a valid sorter has at most 1000 gaps |
| FrameSorter.Sorter.Push | frame_sorter.go:29-35 | the same with duplicates accepted silently |
| FrameSorter.Sorter.Pop | frame_sorter.go:150-159 | returns data exactly if the byte at the read position was received, then only received bytes, and the end exactly at the final offset |
| FrameSorter.NextChunk | frame_sorter.go:150-159 | a chunk is stored at the read position exactly if its first byte has arrived |
| FrameSorter.PoppedInv | frame_sorter.go:150-159 | taking that chunk keeps the invariant at the new read position |
| StreamFrames.MaxDataLen | internal/wire/stream_frame.go:125-143 | no frame with more data fits; the frame with this much fits if and only if its length field takes at most two bytes |
| StreamFrames.MaxDataLenOverrun | internal/wire/stream_frame.go:139-141 | a frame that overruns its budget by two bytes |
| StreamFrames.MaybeSplitOffFrame | internal/wire/stream_frame.go:147-168 | keeps a frame that fits, fails exactly when there is no room for more than the header, and slices out of bounds exactly when all data would fit with a length field of two bytes but not with its own |
| StreamFrames.SplitFits | internal/wire/stream_frame.go:147-168 | both sides of a cut have data and the front fits, exactly if it has no length field |
| StreamFrames.SplitReassembles | internal/wire/stream_frame.go:147-168 | the two pieces reassemble to the frame, with the FIN on the last |
| SendStreams.FramePoppedKeepsInv | send_stream.go:145-184 | a popped frame keeps what was sent a prefix of what was written, and no frame follows the FIN |
| SendStreams.SendStream.Write | send_stream.go:78-133 | hands over all bytes, or none after the stream was closed; bytes of an earlier call that still wait are replaced, which loses none exactly if the new ones start with them |
| SendStreams.SendStream.GetDataForWriting | send_stream.go:193-215 | takes the next bytes, as many as data, frame size and credit allow, and the FIN exactly with the last |
| SendStreams.SendStream.PopStreamFrame | send_stream.go:145-184 | pops a frame exactly if there is room and credit for data or the FIN is due; the frame continues the stream with as many bytes as data, room and credit allow, and fits |
| SendStreams.SendStream.Close | send_stream.go:217-228 | marks the stream finished and changes nothing else |
| BytePipe.NextKeepsInv | send_stream.go:145-215 | every step of writer, network and reader keeps every frame faithful to what was written |
| BytePipe.DeliversPrefix | frame_sorter.go:150-159 | in every run the bytes read are a prefix of the bytes written |
| BytePipe.ReportsFinExactly | frame_sorter.go:150-159 | a read reports the end exactly if the FIN arrived and every byte was delivered, and returns data exactly if the next byte has arrived |
| BytePipe.ReadsDeliverAll | frame_sorter.go:150-159 | once every byte has arrived, as many reads as bytes are left deliver all of them |
| BytePipe.ReadsMakeProgress | frame_sorter.go:150-159 | once every byte has arrived, each read delivers more until all is delivered |
| BytePipe.EndIsFinal | frame_sorter.go:150-159 | after the end was reported nothing is written and nothing more delivered |
| LossRecovery.LostIsPrefix | internal/ackhandler/sent_packet_handler.go:322-371 | the lost packets are a prefix of the history |
| LossRecovery.SentKeepsInv | internal/ackhandler/sent_packet_handler.go:131-182 | sending a packet keeps the invariant |
| LossRecovery.SentAsRetransmissionKeepsInv | internal/ackhandler/sent_packet_handler.go:138-147 | recording retransmissions keeps the tree closed and every packet accounted for |
| LossRecovery.LoseKeepsInv | internal/ackhandler/sent_packet_handler.go:356-369 | declaring the oldest packet lost keeps the invariant |
| LossRecovery.AckKeepsInv | internal/ackhandler/sent_packet_handler.go:424-466 | acknowledging any packet keeps the invariant; what it marks has an acknowledged ancestor |
| LossRecovery.AckAllKeepsInv | internal/ackhandler/sent_packet_handler.go:205-237 | acknowledging a list of packets in order keeps the invariant |
| LossRecovery.AckAllAcks | internal/ackhandler/sent_packet_handler.go:205-237 | and none of them is skipped because another was acknowledged before |
| LossRecovery.DiscardAllKeepsInv | internal/ackhandler/sent_packet_handler.go:109-129 | forgetting the handshake packets keeps the invariant, with their bytes counted as discarded |
| LossRecovery.StepKeepsInv | internal/ackhandler/sent_packet_handler.go:109-609 | every operation of the handler keeps the invariant |
| LossRecovery.TreeIsClosed | internal/ackhandler/sent_packet_handler.go:468-480 | in every run a listed retransmission is a later packet that is in the history and names its original |
| LossRecovery.NothingForgotten | internal/ackhandler/sent_packet_handler.go:356-369 | in every run each retransmittable packet sent is outstanding, acknowledged, was queued, has an acknowledged ancestor, or was discarded |
| LossRecovery.QueuedOnce | internal/ackhandler/sent_packet_handler.go:494-517 | in every run no number enters the queue twice, and what entered waits, was taken or was dropped |
| LossRecovery.BytesAreExact | internal/ackhandler/sent_packet_handler.go:149-182 | in every run bytes in flight are those of the history plus the discarded ones, so no subtraction underflows |
| LossRecovery.HandshakeKeepsExactIff | internal/ackhandler/sent_packet_handler.go:109-129 | completing the handshake keeps the counter exact if and only if the forgotten packets are empty |
| LossRecovery.HandshakeLosesExactness | internal/ackhandler/sent_packet_handler.go:109-129 | a run of two steps after which 1200 bytes are counted and the history is empty |
| LossRecovery.DriftIsPermanent | internal/ackhandler/sent_packet_handler.go:109-129 | that difference never shrinks in the rest of any run |
| LossLaws.LostNumbersAre | internal/ackhandler/sent_packet_handler.go:328-345 | the packets collected are exactly those up to the largest acknowledged one that were sent longer ago than the loss delay |
| LossLaws.DetectLostExactly | internal/ackhandler/sent_packet_handler.go:322-371 | exactly the lost packets leave the history and the counter, those that can be retransmitted are queued in order with their level, and every other packet is unchanged |
| LossLaws.ReceivedAckExactly | internal/ackhandler/sent_packet_handler.go:205-237 | exactly the acknowledged packets leave the history and the counter, exactly the packets that retransmit one of them, directly or not, are marked, and the queue is unchanged |
| LossLaws.SendExactly | internal/ackhandler/sent_packet_handler.go:149-182 | a packet that can be retransmitted is recorded with its length, level and time and counted; any other leaves history and counter alone |
| LossLaws.SentAsRetransmissionExactly | internal/ackhandler/sent_packet_handler.go:138-147 | each new packet is recorded, linked to the original and listed there if that is still in the history; nothing else changes |
| LossLaws.QueueHandshakeExactly | internal/ackhandler/sent_packet_handler.go:583-598 | exactly the outstanding handshake packets are queued, in order, and marked |
| LossLaws.ProbeExactly | internal/ackhandler/sent_packet_handler.go:506-517 | a probe takes the front of the queue, or else the oldest outstanding packet, or nothing exactly if there is neither |
| LossLaws.HandshakeCompleteExactly | internal/ackhandler/sent_packet_handler.go:109-129 | exactly the handshake packets leave the history and the queue, whose order is kept, and the counter is unchanged |
| LossLaws.RunIsHonest | internal/ackhandler/sent_packet_handler.go:131-609 | in every run the history and the queue give each packet the length, level and time with which it was handed over, and the packets accounted for are all that can be retransmitted |
| LossLaws.NothingForgottenInRun | internal/ackhandler/sent_packet_handler.go:131-609 | in every run a packet handed over is outstanding or queued, or an event of the run acknowledged it or its original, took it out of the queue, or completed its handshake |
| AckOrder.IgnoredIff | internal/ackhandler/sent_packet_handler.go:184-200 | in every run a frame is ignored if and only if its packet is not 0 and not later than that of the last frame taken up, and then nothing changes |
| AckOrder.LateFrameIsIgnored | internal/ackhandler/sent_packet_handler.go:190-195 | after a frame was taken up, the next one from the same packet or an earlier one is ignored, whatever other events come between |
| AckOrder.TakenUpOnce | internal/ackhandler/sent_packet_handler.go:190-195 | as long as no frame comes in packet 0, frames are taken up in the order of their packets, and none twice |
| AckOrder.PacketZeroForgets | internal/ackhandler/sent_packet_handler.go:191-195 | after a frame in packet 0, the next one is taken up whatever its packet |
| AckOrder.ProcessedExactly | internal/ackhandler/sent_packet_handler.go:184-237 | a processed frame takes out of the history exactly what it acknowledges and what is lost by then |
| SentPacketHistories.NextOutstanding | internal/ackhandler/sent_packet_history.go:125-131 | walking on from a packet that is no longer outstanding finds the first that is |
| SentPacketHistories.SentPacketHistory.SentPacket | internal/ackhandler/sent_packet_history.go:26-43 | appends the packet and keeps list, map, counters and first outstanding packet in agreement |
| SentPacketHistories.SentPacketHistory.SetRetransmittedAs | internal/ackhandler/sent_packet_history.go:45-64 | records the retransmissions and keeps that agreement |
| SentPacketHistories.SentPacketHistory.CountDown | internal/ackhandler/sent_packet_history.go:105-119 | the counters never drop below zero |
| SentPacketHistories.SentPacketHistory.MarkCannotBeRetransmitted | internal/ackhandler/sent_packet_history.go:99-123 | marks the packet, or reports that it is unknown, and keeps the agreement |
| SentPacketHistories.SentPacketHistory.Remove | internal/ackhandler/sent_packet_history.go:137-160 | removes the packet, or reports that it is unknown, and keeps the agreement |
| SentPacketHandlers.StopRetransmissionsFor | internal/ackhandler/sent_packet_handler.go:468-480 | the recursion ends, marks exactly what descends from the packet, and never misses a packet |
| SentPacketHandlers.NextLossIsEarliest | internal/ackhandler/sent_packet_handler.go:322-345 | the loss time is the earliest time at which a packet at risk will be lost |
| SentPacketHandlers.NextLossIs | internal/ackhandler/sent_packet_handler.go:322-345 | the loss time is that of a packet at risk and no later than any, and there is none exactly if no packet is at risk |
| SentPacketHandlers.CollectLost | internal/ackhandler/sent_packet_handler.go:328-345 | the packets lost at a time, and when the next will be |
| SentPacketHandlers.SentPacketHandler.SentPacket | internal/ackhandler/sent_packet_handler.go:131-136 | takes the sending step |
| SentPacketHandlers.SentPacketHandler.SentPacketsAsRetransmission | internal/ackhandler/sent_packet_handler.go:138-147 | takes the retransmission step |
| SentPacketHandlers.SentPacketHandler.QueuePacketForRetransmission | internal/ackhandler/sent_packet_handler.go:600-609 | takes the queueing step, or refuses and changes nothing exactly if the packet cannot be retransmitted, so also if it was queued before |
| SentPacketHandlers.SentPacketHandler.DequeuePacketForRetransmission | internal/ackhandler/sent_packet_handler.go:494-504 | takes the front of the queue, if any |
| SentPacketHandlers.SentPacketHandler.DequeueProbePacket | internal/ackhandler/sent_packet_handler.go:506-517 | takes the front of the queue, or else the oldest outstanding packet; none exactly if there is neither |
| SentPacketHandlers.SentPacketHandler.DetectLostPackets | internal/ackhandler/sent_packet_handler.go:322-371 | takes the loss step without an error, and leaves the time at which the next packet will be lost |
| SentPacketHandlers.SentPacketHandler.OnPacketAcked | internal/ackhandler/sent_packet_handler.go:424-466 | takes the acknowledgement step without an error, or none for an unknown packet |
| SentPacketHandlers.SentPacketHandler.ReceivedAck | internal/ackhandler/sent_packet_handler.go:184-237 | rejects unsent and skipped numbers, ignores frames from packets not later than the last one, whose number it keeps, and otherwise acknowledges exactly the members of the ranges and detects losses |
| SentPacketHandlers.SentPacketHandler.QueueHandshakePackets | internal/ackhandler/sent_packet_handler.go:583-598 | queues every outstanding handshake packet without an error |
| SentPacketHandlers.SentPacketHandler.SetHandshakeComplete | internal/ackhandler/sent_packet_handler.go:109-129 | takes the step that forgets handshake packets |
| AckRanges.ValidateAckRanges | internal/wire/ack_frame.go:175-203 | the check of neighbours accepts exactly the lists that are descending and non-adjacent throughout |
| AckRanges.SearchRange | internal/wire/ack_frame.go:219-223 | the binary search finds the first range not above the packet |
| AckRanges.AcksPacket | internal/wire/ack_frame.go:215-225 | true exactly for members of the union of the ranges |
| AckRanges.DetermineNewlyAckedPackets | internal/ackhandler/sent_packet_handler.go:243-285 | the side-by-side scan returns exactly the acknowledged packets in order and never reports its bug |
| ReceivedPackets.Insert | internal/ackhandler/received_packet_history.go:28-76 | extending, merging or inserting adds exactly one number and keeps the list sorted and non-adjacent |
| ReceivedPackets.DropBelow | internal/ackhandler/received_packet_history.go:78-97 | keeps exactly the numbers at or above the threshold |
| ReceivedPackets.ReversedIsValid | internal/ackhandler/received_packet_history.go:99-111 | the reversed list is valid in a frame and has the same members |
| ReceivedPackets.ReceivedPacketHistory.ReceivedPacket | internal/ackhandler/received_packet_history.go:28-76 | fails exactly when too many ranges are tracked, and then changes nothing |
| ReceivedPackets.ReceivedPacketHistory.DeleteBelow | internal/ackhandler/received_packet_history.go:78-97 | raises the threshold and forgets what is below, or does nothing |
| ReceivedPackets.ReceivedPacketHistory.GetAckRanges | internal/ackhandler/received_packet_history.go:99-111 | valid ranges with exactly the numbers in the history |
| ReceivedPackets.ReceivedPacketHandler.ReceivedPacket | internal/ackhandler/received_packet_handler.go:71-89 | the history denotes the received numbers at or above the threshold, and the largest of them is kept |
| ReceivedPackets.ReceivedPacketHandler.IgnoreBelow | internal/ackhandler/received_packet_handler.go:91-101 | the threshold only rises, and the same still holds |
| ReceivedPackets.ReceivedPacketHandler.AckRangesToSend | internal/ackhandler/received_packet_handler.go:193-213 | the ranges acknowledge exactly the received numbers that are not ignored |
| AckFrames.DelayFitsIff | internal/wire/ack_frame.go:227-229 | a delay can be written if and only if it is above -8 microseconds |
| AckFrames.DelayRoundTrip | internal/wire/ack_frame.go:41-46 | a delay is rounded down to 8 microseconds |
| AckFrames.NumEncodableAckRanges | internal/wire/ack_frame.go:146-160 | how many ranges the size limit admits |
| AckFrames.EncodableFits | internal/wire/ack_frame.go:146-160 | at least one range is admitted, and those admitted fit, not counting the first |
| AckFrames.OneRangeToSpare | internal/wire/ack_frame.go:146-160 | when ranges are dropped, exactly one more than those kept would have fitted |
| AckFrames.Write | internal/wire/ack_frame.go:104-124 | the loop writes the frame of the specification |
| AckFrames.Length | internal/wire/ack_frame.go:126-144 | equals the bytes written and is at most the limit plus 8 |
| AckFrames.ExceedsIff | internal/wire/ack_frame.go:104-160 | a frame exceeds the limit if and only if the first range and the number of ranges need more than what the counted bytes leave |
| AckFrames.ExceedsOnlyIf | internal/wire/ack_frame.go:104-160 | only a first range of more than 64 packets, or more than 64 ranges of which none is dropped, makes a frame exceed the limit |
| AckFrames.LimitIsExceeded | internal/wire/ack_frame.go:104-160 | a frame of 495 ranges that is 8 bytes above the limit |
| AckFrames.Parse | internal/wire/ack_frame.go:25-102 | the loop parses as the specification does |
| AckFrames.ParserCheckIsRedundant | internal/wire/ack_frame.go:47-89 | whatever passes the arithmetic is a valid list of ranges |
| AckFrames.AckRoundTrip | internal/wire/ack_frame.go:25-124 | a written frame is parsed into its highest ranges, at least one, and the rounded delay |
| FlowControl.NeverLowersIff | internal/flowcontrol/base_flow_controller.go:76-113 | no run takes back an advertised limit if and only if the maximum is at least three quarters of the initial window |
| FlowControl.BoundedIff | internal/flowcontrol/base_flow_controller.go:84-113 | in every run the limit stays within the maximum of what was read if and only if it starts there |
| FlowControl.AcceptsExactly | internal/flowcontrol/stream_flow_controller.go:54-88 | a frame is accepted if and only if it is within both limits and agrees with the end of the stream, and then both totals grow by what is new |
| FlowControl.UpdateExactly | internal/flowcontrol/base_flow_controller.go:70-113 | the limit moves if and only if a quarter of the window is used up, to one window ahead of what was read; the window doubles, up to its maximum, if and only if it was consumed too fast |
| FlowControl.ConnectionFollows | internal/flowcontrol/stream_flow_controller.go:114-131 | when the window of a stream grows, that of the connection is at least one and a half times as large, up to its maximum; otherwise it is left alone |
| FlowControl.BaseFlowController.IsNewlyBlocked | internal/flowcontrol/base_flow_controller.go:36-42 | reports being blocked once for each limit |
| FlowControl.BaseFlowController.GetWindowUpdate | internal/flowcontrol/base_flow_controller.go:76-113 | takes the update step and announces the new limit |
| FlowControl.StreamFlowController.UpdateHighestReceived | internal/flowcontrol/stream_flow_controller.go:54-88 | takes the receiving step of stream and connection, with the same errors |
| FlowControl.StreamFlowController.Credit | internal/flowcontrol/stream_flow_controller.go:100-102 | what may be sent is within both credits, and it is zero only if one is used up |
| FlowControl.StreamFlowController.AddBytesRead | internal/flowcontrol/stream_flow_controller.go:90-93 | counts for the stream and for the connection |
| FlowControl.StreamFlowController.AddBytesSent | internal/flowcontrol/stream_flow_controller.go:95-98 | counts for the stream and for the connection |
| FlowControl.StreamFlowController.GetWindowUpdate | internal/flowcontrol/stream_flow_controller.go:114-131 | takes the update step, and enlarges the connection window with the stream window |
| FlowControl.ConnectionFlowController.IncrementHighestReceived | internal/flowcontrol/connection_flow_controller.go:46-55 | fails exactly if the total exceeds the limit |
| FlowControl.ConnectionFlowController.EnsureMinimumWindowSize | internal/flowcontrol/connection_flow_controller.go:79-87 | takes the enlarging step |
| FlowProtocol.FrameAccepted | internal/flowcontrol/stream_flow_controller.go:54-88 | a frame that was really sent within credit raises no error at the stream and moves the connection total by the same amount |
| FlowProtocol.NextInv | internal/flowcontrol/stream_flow_controller.go:54-131 | every step of sender, network and receiver keeps credit, totals and final offsets consistent and lowers no limit |
| FlowProtocol.NoFlowControlError | internal/flowcontrol/stream_flow_controller.go:54-88 | with windows whose limits are never taken back, no run raises a flow-control or final-offset error |
| FlowProtocol.CreditIsRespected | internal/flowcontrol/connection_flow_controller.go:46-87 | in every run bytes sent are within the credit, that within the receiver's limit, and the totals are the sums over the streams |
| FlowProtocol.LimitsNeverDecrease | internal/flowcontrol/base_flow_controller.go:84-92 | with such windows no limit is lower later in a run |
| FlowProtocol.LimitsBounded | internal/flowcontrol/base_flow_controller.go:84-113 | with initial windows within their maximum every limit stays within it of what was read |
| FlowLimits.NoErrorIff | internal/flowcontrol/stream_flow_controller.go:54-131 | no run raises an error if and only if the maximum is at least three quarters of the initial window, for streams and for the connection, or the other kind of credit is zero |
| FlowLimits.StreamWindowBreaks | internal/flowcontrol/base_flow_controller.go:84-113 | for every stream maximum that is too small, a run in which a sender within its credit is refused |
| FlowLimits.ConnWindowBreaks | internal/flowcontrol/connection_flow_controller.go:46-77 | the same for every connection maximum that is too small |
| FlowLimits.RunStaysSilent | internal/flowcontrol/base_flow_controller.go:76-92 | where one kind of credit starts at zero nothing but empty frames is ever sent |
| FlowLimits.LimitsNeverDecreaseIff | internal/flowcontrol/base_flow_controller.go:84-113 | no step of any run takes back a limit, for the same windows exactly |
| FlowLimits.LimitsBoundedIff | internal/flowcontrol/base_flow_controller.go:84-113 | in every run all limits stay within their maximum of what was read if and only if both initial windows are within it |
| StreamCredit.StreamNumInverse | internal/protocol/stream_id.go:16-67 | a positive number of streams and the highest ID determine each other |
| StreamCredit.RaisedIff | streams_map.go:149-159 | a MAX_STREAMS frame raises its own kind of stream if and only if it is not a zero for unidirectional ones |
| StreamCredit.OpenedInv | streams_map_incoming_generic.go:70-98 | opening a stream and all below it keeps open streams plus credit equal to the maximum; only streams beyond the limit are rejected |
| StreamCredit.OpenedExactly | streams_map_incoming_generic.go:70-98 | a stream within the limit is opened with exactly the lower ones that were not open before, and nothing else changes |
| StreamCredit.DeletedInv | streams_map_incoming_generic.go:100-118 | each deletion raises the limit by exactly one stream |
| StreamCredit.IncomingStreams.GetOrOpenStream | streams_map_incoming_generic.go:70-98 | the loop takes the opening step |
| StreamCredit.IncomingStreams.DeleteStream | streams_map_incoming_generic.go:100-118 | takes the deletion step; fails exactly for unknown streams |
| StreamCredit.IncomingStreams.AcceptStream | streams_map_incoming_generic.go:50-68 | returns the next stream if it is open |
| StreamCredit.OutgoingStreams.OpenStream | streams_map_outgoing_generic.go:69-94 | opens the next stream exactly within the limit, and reports each limit it meets once |
| StreamCredit.OpensInOrder | streams_map_outgoing_generic.go:69-127 | in every run of an opener the streams come in order, each if and only if it is within the highest limit so far, and a limit that stops an open is reported once until it is raised |
| StreamCredit.OutgoingStreams.SetMaxStream | streams_map_outgoing_generic.go:118-127 | the limit only rises |
| StreamCredit.OutgoingStreams.DeleteStream | streams_map_outgoing_generic.go:107-116 | forgets the stream; fails exactly for unknown ones |
| StreamCredit.NextInv | streams_map.go:149-165 | every step of opener, acceptor and network keeps all credit within the acceptor's limit |
| StreamCredit.NeverRejected | streams_map_incoming_generic.go:70-118 | whatever the limit, no run makes the opener use a stream that is rejected |
| StreamCredit.CreditIsExact | streams_map_incoming_generic.go:70-118 | with a positive limit, in every run open streams and unused credit add up to it |
| StreamCredit.NextIsAccepted | streams_map_incoming_generic.go:50-68 | without holes the next stream is accepted exactly if the peer has opened it, and then the one after it is expected |
| StreamCredit.DeletedLeavesNoHoleIff | streams_map_incoming_generic.go:100-118 | deleting a stream leaves no hole if and only if it was accepted |
| StreamCredit.NoHolesIff | streams_map_incoming_generic.go:50-118 | a run from the start, with any positive limit, leaves no hole if and only if it deletes only streams that were accepted |
| StreamCredit.AcceptWaitsForever | streams_map_incoming_generic.go:50-68 | once a stream is gone before it was accepted, neither it nor a later one is accepted in the rest of any run |
| StreamCredit.HoleIsReached | streams_map_incoming_generic.go:50-118 | for every kind of stream and positive limit, a run of four steps to such a state |
| StreamCredit.ZeroLimitIff | internal/protocol/stream_id.go:40-43 | a limit of zero is kept in every run if and only if the kind is not client-initiated bidirectional |
| Packer.FittingIsMaximal | packet_packer.go:201-210 | control frames are taken until the next does not fit |
| Packer.FillIsMaximal | packet_packer.go:212-229 | STREAM frames are left over only if no room is left for another |
| Packer.TakeMakesProgress | packet_packer.go:193-230 | a packet is empty exactly if its first control frame is too large and no STREAM frame may be added; otherwise work decreases |
| Packer.PackAllIff | packet_packer.go:193-245 | packing ends without indexing an empty frame list if and only if every control frame fits and there is room for STREAM frames |
| Packer.PackAllCarries | packet_packer.go:193-245 | all control frames in order, all STREAM frames in order and possibly cut, every packet within its size and only its last frame without a length |
| Packer.CarriesReassembles | packet_packer.go:212-229 | the pieces of each STREAM frame reassemble to it, contiguously and with the FIN only on the last |
| Packer.PartitionIs | packet_packer.go:176-186 | every frame of the lost packet is in its list, at the place that the number of frames of its kind before it gives |
| Packer.RetransmissionCarries | packet_packer.go:170-245 | the packets carry all control frames of the lost packet in order, and pieces that reassemble each of its STREAM frames in order |
| Packer.RetransmissionFailsIff | packet_packer.go:170-245 | retransmission fails if and only if a control frame of the lost packet is too large, or it has a STREAM frame and there is too little room for one |
| Packer.TakeFrame | packet_packer.go:213-228 | cutting a frame never fails |
| Packer.TakeControls | packet_packer.go:201-210 | takes the control frames that fit |
| Packer.TakeStreams | packet_packer.go:212-229 | fills the packet as specified |
| Packer.PackRetransmission | packet_packer.go:170-245 | the nested loops end and produce the specified packets, which carry all frames of the lost packet, each within its room |
| Framer.PollInv | framer.go:76-109 | the active set stays equal to the duplicate-free queue, and a prefix of the queue is polled, so each stream at most once |
| Framer.PollKeepsAll | framer.go:76-109 | every frame handed out is in the packet, and the streams with more data wait behind those not polled |
| Framer.PollTakesFrames | framer.go:76-109 | the streams are polled in turn, each for the room that is left, until too little is left; the packet gets exactly their frames, and the queue keeps those not polled and then those with more |
| Framer.AskedInTurn | framer.go:76-109 | over any run of packets the stream at position k is polled right after the k streams before it |
| Framer.WaitIsBounded | framer.go:76-109 | the stream at position k is polled before k + 1 packets with enough room are filled, after exactly k others |
| Framer.SomeStreamIsAsked | framer.go:81-84 | a packet with enough room polls at least one active stream |
| Framer.AddedInv | framer.go:67-74 | activating a stream keeps the invariant |
| Framer.ControlsAreKept | framer.go:50-65 | no control frame is lost, those taken fit and the next would not |
| Framer.TakeLast | framer.go:53-62 | the loop takes exactly the frames that fit from the end |
| Framer.FrameSource.AppendControlFrames | framer.go:50-65 | takes control frames from the end of the list, last queued first, until the next does not fit |
| Framer.FrameSource.AddActiveStream | framer.go:67-74 | takes the activation step |
| Framer.FrameSource.AppendStreamFrames | framer.go:76-109 | the loop takes the polling round: the frames of the streams asked, in order, and the queue they leave |
| Framer.PollFits | framer.go:76-109 | the STREAM frames of a round fit the room |
| Framer.ComposeNextPacket | packet_packer.go:384-419 | the packet carries the last control frames, the others stay queued and the next would not have fitted, and exactly the frames of the streams asked, in order; despite the extra byte lent to STREAM frames it stays within its budget, with only the last frame without a length |
| PacketSizes.HeaderOnlyShrinks | packet_packer.go:421-472 | the header that is written is no longer than the one the room was computed with, and its payload length can be written unless the packet is padded and the header is longer than 1200 bytes |
| PacketSizes.PacketFits | packet_packer.go:304-343 | frames within the room give a packet that is accepted, padded or not |
| PacketSizes.TokenFitsIff | packet_packer.go:455-500 | an Initial packet with a token is accepted if and only if the token fits what frames and payload length leave and, if it is padded, the header is at most 1200 bytes long |
| PacketSizes.TokenOverruns | packet_packer.go:458-500 | a full Initial packet that a token of 20 bytes makes 20 bytes too long |
| PacketSizes.TokenWrapsAround | packet_packer.go:462-474 | a token of 1190 bytes with 20 bytes of frames fits a packet, but a padded one gets a payload length of 2^64 - 10 |
| PacketSizes.WriteAndSeal | packet_packer.go:447-512 | writes header, frames and zeros up to the minimum size; panics exactly on a payload length that cannot be written, and otherwise refuses exactly what is too large or has an invalid length in its header |
| PacketSizes.ArrivesWholeIff | packet_handler_map.go:198-211 | the receiver finds the header and the sealed bytes after it, and takes all of them if and only if the packet is not padded, or within the padding with a payload length of full width |
| PacketSizes.PaddedIsCut | packet_packer.go:462-464 | a full first packet announces 1181 bytes and has 1233 |
| PacketSizes.RetransmissionsFit | packet_packer.go:193-245 | every packet that a retransmission is packed into is accepted |
| Frames.FieldsRoundTrip | internal/wire/reset_stream_frame.go:17-58 | any list of fields is read back and takes the expected space |
| Frames.SimpleInverse | internal/wire/frame_parser.go:36-77 | the type byte selects the fields that were written, and the frame is rebuilt from them |
| Frames.StreamRoundTrip | internal/wire/stream_frame.go:22-116 | a STREAM frame is read back, to the end of the packet without a length, and its length is exact |
| Frames.FrameRoundTrip | internal/wire/frame_parser.go:26-82 | every frame is read back, ACK frames normalized |
| Frames.LengthIsExact | internal/wire/connection_close_frame.go:59-81 | the length of every frame other than ACK equals its written size |
| Frames.ParseOne | internal/wire/frame_parser.go:26-82 | the dispatch parses as specified |
| Frames.ParseNextFrame | internal/wire/frame_parser.go:13-24 | the loop skips padding and parses the next frame, or finds the end |
| Frames.ParsePayload | packet_unpacker.go:76-95 | the loop parses all frames; an empty payload is an error |
| Frames.PacketRoundTrip | packet_unpacker.go:76-95 | frames with padding anywhere, a STREAM frame without a length only at the end, are read back |
| Frames.PayloadRoundTrip | packet_unpacker.go:76-95 | the same for the integers of the source |
| WireFormat.VarIntBytes | internal/utils/varint.go:69-85 | a number is written big-endian in the shortest of 1, 2, 4 and 8 bytes, with the length in the two top bits |
| WireFormat.ReadVarIntBytes | internal/utils/varint.go:20-67 | reading takes as many bytes as the first one says and drops its two top bits, for any bytes |
| WireFormat.PacketNumberBytes | internal/utils/varint_packetnumber.go:38-50 | a packet number is written as its low 7, 14 or 30 bits, big-endian, with the length in the bits above |
| WireFormat.SimpleBytes | internal/wire/frame_parser.go:36-77 | the type byte and the fields of every frame other than STREAM and ACK, by a table |
| WireFormat.CloseParses | internal/wire/connection_close_frame.go:19-56 | the frame type in a CONNECTION_CLOSE frame may be any number and is ignored |
| WireFormat.UnknownTypes | internal/wire/frame_parser.go:26-82 | a frame of any other type is refused |
| WireFormat.StreamFrameBytes | internal/wire/stream_frame.go:77-104 | the type byte and the fields of a STREAM frame, by a table |
| WireFormat.StreamFrameParses | internal/wire/stream_frame.go:22-75 | such a frame is read with or without its offset field, also if that is 0 |
| WireFormat.StreamBeyondRefused | internal/wire/stream_frame.go:71-73 | data beyond 2^62 - 1 is refused |
| WireFormat.EmptyPayloads | packet_unpacker.go:76-95 | an empty payload is refused, one of padding alone is not |
| WireFormat.BadFrameRefused | packet_unpacker.go:76-95 | a payload whose first frame after the padding is refused is refused with the same error |
| WireFormat.AckBytes | internal/wire/ack_frame.go:104-124 | the fields of an ACK frame in order, with the delay in units of 8 microseconds and each gap and range less what is implied |
| WireFormat.AckParses | internal/wire/ack_frame.go:25-102 | any number of ranges and any delay is read |
| WireFormat.FirstRangeRefused | internal/wire/ack_frame.go:52-58 | a first range that would reach below zero is refused |
| WireFormat.RangeRefused | internal/wire/ack_frame.go:63-82 | so is any further range |
| WireFormat.EcnParses | internal/wire/ack_frame.go:91-99 | with type 3 the three counters after the ranges are skipped |
| Headers.ConnIDLenInverse | internal/wire/header.go:128-160 | lengths 0 and 4 to 18 and the four-bit codes correspond one to one; others are refused |
| Headers.LengthIsExact | internal/wire/header.go:89-102 | the computed length equals the bytes written |
| Headers.LongRoundTrip | internal/wire/header_parser.go:101-153 | an Initial, Handshake or 0-RTT header is read back with the packet number cut |
| Headers.RetryRoundTrip | internal/wire/header_parser.go:109-124 | a Retry header is read back whatever the random bits |
| Headers.ShortRoundTrip | internal/wire/header_parser.go:155-167 | a short header is read back with the packet number cut |
| Headers.PacketNumberThroughHeader | internal/wire/header_parser.go:24-167 | the packet number is recovered through any such header if and only if it is decodable |
| Headers.ChosenLengthArrives | internal/protocol/packet_number.go:45-51 | the length that the sender chooses suffices through any such header |
| WireFormat.LongHeaderBytes | internal/wire/header.go:44-77 | the bytes of Initial, Handshake and 0-RTT headers; an error exactly for a connection ID or packet number of invalid length |
| WireFormat.RetryHeaderBytes | internal/wire/header.go:44-73 | the bytes of a Retry header |
| WireFormat.ShortHeaderBytes | internal/wire/header.go:79-86 | the bytes of a short header |
| WireFormat.ShortHeaderParses | internal/wire/header_parser.go:155-167 | of the type byte of a short header only the key phase counts |
| WireFormat.UnknownHeaders | internal/wire/header_parser.go:101-107 | a long header of another type is refused |
| WireFormat.VersionNegotiationParses | internal/wire/header_parser.go:84-99 | a packet of version 0 lists the versions after its connection IDs, at least one |
| PacketNumbers.InferIff | internal/protocol/packet_number.go:4-42 | inference recovers a truncated number if and only if it is near enough, wrap-around in the first epoch included |
| PacketNumbers.ChosenLengthSuffices | internal/protocol/packet_number.go:45-51 | the chosen length suffices for every receiver with fewer than 2^29 numbers outstanding |
| PacketNumbers.PacketNumberRoundTrip | internal/utils/varint_packetnumber.go:11-50 | a written packet number is read back modulo its window |
| VarInt.VarIntRoundTrip | internal/utils/varint.go:20-85 | a number is read back, whatever follows |
| VarInt.VarIntFits | internal/utils/varint.go:20-67 | whatever is read fits 62 bits |
| VarInt.VarIntIsLawful | internal/utils/varint.go:20-101 | integers are read back, take the announced space, and reading goes forward |

## Left out

- Scheduler, paths, address gathering and the frames of the QED extension.
- TLS, packet protection, cookies and the handshake; sealing only adds a fixed overhead.
- Session, client, server and multiplexer: I/O, channels and timers.
- Blocking, deadlines, cancellation, resets and shutdown of streams: reading is `Pop`, writing an atomic hand-over.
- Congestion control and round-trip times: the loss delay and the auto-tuning decision are parameters.
- Alarm times, the counters of tail loss probes and timeouts, and when an ACK is sent.
- Crypto streams, retransmission of handshake packets and version negotiation packets as written.
- Linked lists are sequences. Elements of the packet history are named by their packet number, so pointer identity is not modelled.
- Readers and buffers are byte sequences that are passed on; frames that the source changes in place are replaced in their sequence.
- Unsigned 64-bit wrap-around, except in packet numbers, ACK delays and the payload length of a padded packet; byte counts stay below 2^62. Fractions of window sizes are exact rather than floating point.
- `GetOrOpenStream` runs in one step; the moment in which the source drops its lock is not modelled. Streams in the stream maps are their IDs.
- Streams answer the framer as functions of their ID and the room, with frames that fit, as `SendStreams.SendStream.PopStreamFrame` guarantees for rooms up to 16384 bytes.
- FrameSorter.Sorter.Push: says nothing about gaps and chunks after an error, because the connection is closed then.
- FrameSorter.Sorter.PushImpl: the same.
- SentPacketHandlers.SentPacketHandler.SentPacket: requires increasing packet numbers and send times that do not decrease, which the packet number generator and the clock provide.
- SentPacketHandlers.SentPacketHandler.SentPacketsAsRetransmission: requires in addition that the packet was taken from the queue, was not retransmitted before, and keeps its encryption level, which the session loop provides.
- SendStreams.SendStream.Write: the loop that waits until the data is gone is left out; `BytePipe` covers writers that wait for it.
- Frames.ParseOne: the type bytes 0xf1 to 0xf3 of the QED extension are unknown here.
- AckFrames.Write: requires valid ranges and a delay that can be written; the source panics on others.
- FlowProtocol.NoFlowControlError: covers data in one direction; the other is the same with the roles exchanged. `FlowLimits.NoErrorIff` has the exact condition on the windows.
- SentPacketHandlers.SentPacketHandler.ReceivedAck: requires valid ranges, which the frame parser guarantees, and leaves out the lowest packet not confirmed as acknowledged.
- Packer.PackAllIff: for packets of one size; `PackableSucceeds` covers sizes that vary.
- PacketSizes.WriteAndSeal: the frames are the bytes they are written as, and there is at least one frame where the source asks for the last one; sealing itself is left out.
