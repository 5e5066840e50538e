# minivpn in Dafny

A model of the protocol core of minivpn, a userspace OpenVPN client, with proofs about it. The
parts are:

* the reliable transport: the sender's in-flight window and ACK set, the receiver's reorder
  buffer, the retransmission timer, and two endpoints talking over a network that loses,
  duplicates and reorders (`Sender`, `Receiver`, `Reorder`, `Transport*`, `TimedSender`,
  `Workers`, `AckBeforeInsert`, `AckLost`);
* the data channel: compression framing, padding, encryption and encoding of a tunnel packet, the
  way back, the packet-id discipline over runs, and the key derivation (`DataFrames`,
  `DataFormats`, `DataTheorems`, `DataRuns`, `DataChannel`, `Padding`, `Prf`);
* the packet codec and the two-byte stream framing (`Bytes`, `Packets`, `Stream`);
* the handshake as interleaved workers sharing the session manager (`Handshake`,
  `HandshakeWorkers`, `Session`, `KeyMaterial`);
* the integer Welford statistics of the ping tool (`Pinger`).

Code that updates state step by step is a class whose methods are proved against functions on
values; whole-run results are proved about those functions. `dafny verify dfyconfig.toml` checks
everything.

## Main results

* **In-order delivery** (`TransportTheorems.FifoSafety`): in every execution what an endpoint hands
  up is a prefix, in order and without repeats, of the control packets its peer created, as far as
  the wire carries them, and the 32-bit subtraction of the delivery loop never wraps. Every arrival
  is what the parser makes of the bytes of a packet that was sent. The payloads handed up are a prefix
  of the TLS records that the peer's control channel was given (`FifoRecords`).
* **ACK soundness** (`TransportTheorems.AckSoundness`): an evicted packet was delivered, is buffered,
  is in the hands of the receive worker, or was refused by a full buffer; exactly, it is delivered or
  buffered if and only if an arrival of it was accepted (`EvictedLandedIffAccepted`). The last two
  cases happen. `AckBeforeInsert.EvictedBeforeInserted` is an execution that evicts a packet its peer
  has announced but not inserted. `AckLost.EvictedAndLost` is one that evicts a packet its peer has
  refused, `AckLost.LostWithoutDuplicates` needs no duplicates for it, and
  `TransportTheorems.LostForever` says that it is lost in every continuation. As long as arrivals fit
  the receive window none of this happens (`TransportTheorems.NoRefusalInWindow`).
* **Eviction** (`Sender.ReliableSender.OnIncomingPacketSeen`): the loop that swaps while ranging over
  the same array, then sorts, keeps exactly the unacknowledged packets, ascending, each bumped once
  for every ACK with a higher id.
* **Reorder buffer** (`Reorder.RunRefinesSet`, `ArrivalOrderIrrelevant`, `NeverRefused`,
  `FullBufferIsFinal`): it refines a set of accepted ids; it never refuses inside a window of twelve;
  once full it is full for good.
* **Timer** (`TimedSender.NeverOversleeps`, `Scheduling.BackoffIdealIff`): no deadline is slept
  through while no packet is retried more than 33 times, and the bound is needed
  (`OversleepsPast33`); the ticker is reset with a delay of zero
  exactly if the earliest deadline is the present instant, which happens
  (`ZeroDelayIff`, `ZeroDelayOccurs`); the backoff is min(2^retries, 60) seconds
  exactly for at most 33 retries and eight lucky values of the wrapped 64-bit product.
* **Data-channel round trips** (`DataTheorems.GcmRoundTrip`, `CbcRoundTrip`, `CbcLzoRoundTripIff`,
  `CbcStubNeverRoundTrips`): GCM returns the payload and up to sixteen bytes of padding; CBC without
  framing returns the payload exactly; CBC with lzo-no framing does if and only if the packet id
  happens to look right; CBC with stub framing never does. The writer frames the plaintext after
  prepending the packet id, so the framing byte comes first, while the reader expects the id first. In an
  uninterrupted run under lzo-no exactly every 256th packet is returned
  (`DataRuns.LzoReturnsEvery256th`).
* **What is accepted** (`DataFormats.CbcAcceptsIff`, `GcmAcceptsIff`, `DataRuns.AcceptedOnceAndAuthentic`):
  of arbitrary packets, whoever made them, exactly those are accepted that carry the right HMAC or tag
  and decrypt to a well-framed payload, in CBC mode with an id above the mark; over any arrivals in CBC
  mode everything accepted is authentic and nothing is accepted twice. What leaves the writer is given
  byte by byte (`GcmFormat`, `CbcFormat`).
* **Packet ids** (`DataRuns.NonceNeverReused`, `IssuingStops`, `NoReplay`, `InOrderAllAccepted`): over
  every sequence of writes through one session manager no two GCM packets share an id or a nonce. Once
  the ids run out a write fails if and only if it is in GCM mode; in CBC mode id 0 goes out
  (`PastExhaustion`, `PastExhaustionRead`). On the CBC read side no sent packet is accepted twice, and
  an in-order subsequence is accepted up to exactly that point. GCM has no replay check
  (`GcmAcceptsReplays`).
* **Codec** (`Packets.RoundTripIffWellFormed`, `Packets.MarshalUnmarshal`, `Stream.StreamRoundTrip`,
  `Stream.FramesDeframe`): parser and printer are inverse on control and ACK packets, also through
  the framed stream; `WireLayout` gives the offset of every field and `ParsesIff` the exact lengths.
* **Handshake** (`Handshake.DataOnlyAfterKeys`, `SetupAlwaysSucceeds`, `KeysNeverChange`,
  `StopsIff`, `NoStopWithoutLateReset`): in every interleaving data reaches the data channel only
  after keys were derived from both key sources and the remote session id; the registered session id is
  the sender's of a server hard reset that arrived (`NothingFromNowhere`); the assertion in
  `SetRemoteSessionID` fails only after a hard reset that starts late.
* **Ping statistics** (`Pinger.StatisticsSound`, `StatisticsExactIff`): average between minimum and
  maximum, drift at most (n - 1) / 2, mean and squared deviations exact without remainders
  (`WelfordExact`), the 64-bit values exact if and only if the true second moment fits 63 bits.

## Assumptions and parameters

AES-GCM, AES-CBC, HMAC and the hash functions are parameters; round trips use only that decryption
undoes encryption and the output lengths (`DataFrames.Lawful`), which can be met
(`DataTheorems.LawfulIsConsistent`). Clocks are integers counting nanoseconds and are passed in, as
are random bytes. A network is the set of everything ever sent on it: any packet of it can arrive,
through serialiser and parser, any number of times, at any time, or never; packets of foreign sessions
can arrive as well. Channels
between workers are queues. A failed assertion or an index out of range is the outcome `Panic`, or
the flag `stopped`. `sort.Sort` is an insertion sort; nothing relies on more than a sorted
permutation.

Where the code and its comments disagree, the model follows the code:

* `nearestDeadlineTo` is said to make the ticker safe to reset; it returns the passed time itself
  when the earliest deadline is that very instant, and `Ticker.Reset` does not tolerate the delay of
  zero that follows, here and after an incoming packet (`TimedSender.ZeroDelayIff`).
* `writePacket` ignores the error of an exhausted packet-id counter in CBC mode and sends id 0
  (`DataRuns.PastExhaustion`).
* `doTLSAuth` ignores the error of `AddRemoteKey`, so a second negotiation keeps the first key source.
* The retry timer of the hard reset can still fire after `Stop`; a hard reset may therefore start at
  any time in the model.

## Model

| member | source | states |
|---|---|---|
| Bytes.Uint32RoundTrip | internal/bytesx/bytesx.go:130-149 | reading back a written 32-bit value gives the value |
| Bytes.Uint32RoundTripBack | internal/bytesx/bytesx.go:130-149 | writing back four read bytes gives the bytes |
| Bytes.PutUint32Injective | internal/bytesx/bytesx.go:145-149 | different values have different encodings |
| Bytes.BigEndian | internal/bytesx/bytesx.go:145-149 | the most significant byte comes first |
| Bytes.Buffer.WriteUint32 | internal/bytesx/bytesx.go:145-149 | appends the big-endian encoding and nothing else |
| Bytes.Buffer.WriteUint24 | internal/bytesx/bytesx.go:155-159 | appends the three low bytes of the encoding |
| Bytes.Buffer.ReadUint32 | internal/bytesx/bytesx.go:132-139 | takes four bytes off the front, or fails on a short buffer |
| Packets.PacketBytes | internal/model/packet.go:297-328 | the buffer built step by step is the serialisation, or fails with too many ACKs |
| Packets.WriteAckArray | internal/model/packet.go:314-316 | the loop appends the encoding of every ACK id in order |
| Packets.WriteTail | internal/model/packet.go:317-323 | remote session id only with ACKs, packet id only for non-ACK packets |
| Packets.ParsePacket | internal/model/packet.go:170-213 | parses every buffer as the parse function says, error cases included |
| Packets.ParseControlOrAckPacket | internal/model/packet.go:236-291 | the cursor-based parser equals the parse by position |
| Packets.ReadAckArray | internal/model/packet.go:262-270 | the loop reads exactly the announced number of ids or reports a short array |
| Packets.ReadTail | internal/model/packet.go:272-290 | remote session id, packet id and payload, each with its own error |
| Packets.IdsRoundTrip | internal/model/packet.go:314-316 | decoding an encoded ACK array gives the array |
| Packets.IdsRoundTripBack | internal/model/packet.go:264-270 | encoding a decoded ACK array gives the bytes |
| Packets.UnmarshalMarshal | internal/model/packet.go:170-328 | parsing a serialised control or ACK packet gives its canonical form |
| Packets.RoundTripIffWellFormed | internal/model/packet.go:170-328 | parsing gives the very packet if and only if it is well-formed: key id below 8 and unused fields zero |
| Packets.CanonicalIffWellFormed | internal/model/packet.go:170-328 | the canonical form is the packet itself exactly for well-formed packets |
| Packets.TransmitIs | internal/model/packet.go:170-328 | a control or ACK packet arrives in canonical form, and unchanged if it is well-formed |
| Packets.MarshalFailsIffTooManyAcks | internal/model/packet.go:309-312 | serialising fails if and only if there are more than 255 ACKs |
| Packets.MarshalUnmarshal | internal/model/packet.go:170-328 | any buffer that parses as control or ACK serialises back to the identical bytes |
| Packets.OpcodesAre | internal/model/packet.go:98-120 | which opcode numbers are control, ACK and data |
| Packets.WireLayout | internal/model/packet.go:297-328 | the offset of every field on the wire, ACK array and both optional parts included |
| Packets.DataLayout | internal/model/packet.go:170-213 | a data packet goes out as it is; unknown opcodes are taken as they come |
| Packets.ParsesIff | internal/model/packet.go:170-291 | a buffer parses if and only if it is as long as its opcode and ACK count ask for |
| Stream.StreamConn.ReadFull | internal/networkio/stream.go:21-28 | all requested bytes or an error |
| Stream.StreamConn.ReadRawPacket | internal/networkio/stream.go:19-30 | returns the first complete frame and leaves the rest, or fails |
| Stream.StreamConn.WriteRawPacket | internal/networkio/stream.go:36-45 | appends one frame, or refuses more than 65535 bytes without writing |
| Stream.FirstOfFrame | internal/networkio/stream.go:19-45 | the first frame read after writing is what was written |
| Stream.FrameOfFirst | internal/networkio/stream.go:19-45 | framing what was read gives the bytes consumed |
| Stream.FrameIs | internal/networkio/stream.go:36-45 | two bytes of length, high byte first, then the packet |
| Stream.DeframeFrames | internal/networkio/stream.go:19-45 | a list of packets is read back one for one, an incomplete frame stays behind |
| Stream.FramesDeframe | internal/networkio/stream.go:19-45 | every stream is the frames read from it and an incomplete rest: no byte is lost |
| Stream.UnmarshalMarshalAll | internal/model/packet.go:170-328 | a list of well-formed packets survives serialising and parsing |
| Stream.StreamRoundTrip | internal/networkio/stream.go:19-45 | a list of well-formed packets survives serialising, framing, concatenation, deframing and parsing |
| Sorting.InsertionSort | internal/reliabletransport/packets.go:93-106 | the array becomes a sorted permutation of itself |
| Sorting.SortedPermutation | internal/reliabletransport/packets.go:103-106 | the strictly sorted permutation is unique, so the choice of sorting algorithm does not show |
| Sorting.Enumerate | internal/reliabletransport/sender.go:279-291 | the elements of a set in ascending order, each once |
| Scheduling.BackoffExact | internal/reliabletransport/packets.go:45-52 | up to 33 retries the 64-bit product is exact and the interval is min(2^retries, 60) s |
| Scheduling.BackoffZero | internal/reliabletransport/packets.go:45-52 | from 55 retries on the interval is zero |
| Scheduling.WrapTableCorrect | internal/reliabletransport/packets.go:46 | the exact wrapped product for 34 to 54 retries |
| Scheduling.BackoffIdealIff | internal/reliabletransport/packets.go:45-52 | the interval is the intended one if and only if retries are at most 33 or one of eight lucky values; otherwise it is zero or negative, and it is negative at 34 |
| Scheduling.BackoffNonDecreasing | internal/reliabletransport/packets.go:39-52 | intervals never shrink along exact retries |
| Session.Manager.constructor | internal/session/manager.go:49-90 | both packet-id counters start at 1, no remote session id, undefined state |
| Session.CountersStart | internal/session/manager.go:49-90 | a session starts with both counters at 1, key 0 and no remote session |
| Session.Manager.NewAckForPacketIds | internal/session/manager.go:119-136 | an ACK with the given ids, or an error without a remote session id |
| Session.IssuedAckIs | internal/session/manager.go:119-136 | opcode 5, exactly the given ids, our session and the remote one; refused if and only if the latter is unknown |
| Session.Manager.NewPacket | internal/session/manager.go:139-162 | the packet of `IssuePacket` and the counters of `AfterIssue` |
| Session.IssuedPacketIs | internal/session/manager.go:139-162 | a packet carries the payload, opcode, next id of its kind and the session ids as far as known; refused if and only if that counter is exhausted |
| Session.IssuingMovesOneCounter | internal/session/manager.go:139-162 | one counter moves by one, the other and the session ids stay |
| Session.RefusalMovesNothing | internal/session/manager.go:191-211 | a refused request changes nothing |
| Session.Manager.NewHardResetPacket | internal/session/manager.go:168-179 | id 0, counters untouched |
| Session.HardResetIs | internal/session/manager.go:168-179 | opcode 7, id 0, no ACKs, no payload, our session id |
| Session.Manager.LocalDataPacketId | internal/session/manager.go:183-199 | hands out the counter and bumps it, or fails at the maximum without moving |
| Session.Manager.LocalControlPacketId | internal/session/manager.go:203-211 | the same for control ids |
| Session.Manager.SetNegotiationState | internal/session/manager.go:221-230 | sets the negotiation state, and signals readiness exactly when keys were generated |
| Session.Manager.InitTunnelInfo | internal/session/manager.go:259-269 | a fresh record: only the MTU survives |
| Session.Manager.UpdateTunnelInfo | internal/session/manager.go:295-307 | everything but the MTU is replaced |
| Session.Manager.SetRemoteSessionId | internal/session/manager.go:244-249 | succeeds once; a second call fails and keeps the first id |
| Session.CounterClosedForm | internal/session/manager.go:191-211 | the counter after any number of requests |
| Session.IdsNeverRepeat | internal/session/manager.go:191-211 | ids are 1, 2, 3, ... without a repeat; after 2^32 - 2 of them every request fails |
| Sender.InFlightPacket.AckForHigherPacket | internal/reliabletransport/packets.go:35-37 | bumps the counter only |
| Sender.InFlightPacket.ScheduleForRetransmission | internal/reliabletransport/packets.go:39-42 | one more retry, deadline at the backoff of the new count |
| Sender.AckSet.MaybeAdd | internal/reliabletransport/sender.go:253-261 | adds an id unless the set is full or there is none |
| Sender.AckSet.NextToAck | internal/reliabletransport/sender.go:264-276 | returns the four lowest ids and removes exactly those |
| Sender.AckSet.Sorted | internal/reliabletransport/sender.go:279-291 | the ids in ascending order whatever order the map iterates in |
| Sender.ReliableSender.TryInsertOutgoingPacket | internal/reliabletransport/sender.go:148-155 | appends an unsent packet, or refuses at six; ascending ids stay ascending |
| Sender.ReliableSender.Visit | internal/reliabletransport/sender.go:178-195 | one iteration of the swap-while-ranging loop |
| Sender.ReliableSender.MarkAndSwap | internal/reliabletransport/sender.go:177-195 | the whole loop: every lower packet bumped, the match swapped out and cut off |
| Sender.ReliableSender.SortInFlight | internal/reliabletransport/sender.go:196 | the sort restores the ascending order of what is left |
| Sender.ReliableSender.MaybeEvictOrMarkWithHigherAck | internal/reliabletransport/sender.go:176-197 | one ACK: the window becomes its survivors, in order |
| Sender.ReliableSender.HandleAcks | internal/reliabletransport/sender.go:168-170 | a whole ACK array: the window becomes the survivors of the array |
| Sender.ReliableSender.OnIncomingPacketSeen | internal/reliabletransport/sender.go:158-171 | the id becomes pending and the window becomes the survivors |
| Sender.ReliableSender.NearestDeadlineTo | internal/reliabletransport/packets.go:60-75 | the minimum over the window, capped and clipped |
| Sender.ReliableSender.ReadyToSend | internal/reliabletransport/packets.go:79-91 | exactly the due packets, in window order |
| Sender.ReliableSender.ShouldWakeupAfterAck | internal/reliabletransport/sender.go:201-218 | when and whether to reset the ticker |
| Sender.ReliableSender.SendOne | internal/reliabletransport/sender.go:80-94 | one transmission takes the next ACKs and reschedules |
| Sender.ReliableSender.SendAll | internal/reliabletransport/sender.go:77-100 | the flush loop updates exactly the due packets and dequeues the ACKs they carry |
| Sender.ReliableSender.BlockOnTryingToSend | internal/reliabletransport/sender.go:62-119 | flush, or a standalone ACK, or nothing; and the armed wake-up |
| SenderSpec.SurvivorsCompose | internal/reliabletransport/sender.go:168-170 | ACK arrays handled one after the other are their concatenation |
| SenderSpec.SurvivorsFrom | internal/reliabletransport/sender.go:176-197 | every survivor is an unacknowledged packet, bumped once per higher ACK |
| SenderSpec.CountAboveIs | internal/reliabletransport/sender.go:182-184 | the bump is the number of positions of the ACK array with a higher id |
| SenderSpec.MarkIs | internal/reliabletransport/sender.go:182-184 | nothing but that counter changes |
| SenderSpec.SurvivorsHas | internal/reliabletransport/sender.go:176-197 | every unacknowledged packet survives |
| SenderSpec.SurvivorsAscending | internal/reliabletransport/sender.go:196 | survivors of an ascending window are ascending and no more than before |
| SenderSpec.SurvivorsIds | internal/reliabletransport/sender.go:176-197 | the surviving ids are the old ids minus the acknowledged ones |
| SenderSpec.RestAcksEnumerates | internal/reliabletransport/sender.go:264-276 | what stays pending is what was not sent, still in order |
| SenderSpec.AddPendingIs | internal/reliabletransport/sender.go:253-261 | an id becomes pending if and only if there is one and fewer than eight are; none is lost |
| SenderSpec.NearestDeadlineMeaning | internal/reliabletransport/packets.go:60-75 | the wake-up lies in [t, t + 60 s], no later than any deadline or t + 1 ns, and is t exactly if the earliest deadline is t |
| SenderSpec.NearestDeadlineExact | internal/reliabletransport/packets.go:60-75 | one nanosecond if a deadline has passed, otherwise exactly the earliest deadline within a minute |
| SenderSpec.WakeupAfterAckIs | internal/reliabletransport/sender.go:201-218 | no reset with nothing pending, at once with two, and with one the next deadline or the full 20 ms |
| SenderSpec.ReadyIndices | internal/reliabletransport/packets.go:79-91 | the indices of the due packets: all of them, only them, in order |
| SenderSpec.FlushByIndices | internal/reliabletransport/sender.go:79-98 | sending the due packets one by one is the flush of the window |
| SenderSpec.FlushConservesAcks | internal/reliabletransport/sender.go:77-100 | the ACK arrays of k packets, concatenated, are the lowest min(pending, 4k) ids; the others stay pending |
| SenderSpec.FlushAcksDisjoint | internal/reliabletransport/sender.go:77-100 | two packets of one flush never carry the same ACK |
| SenderSpec.FlushSendsDuePackets | internal/reliabletransport/sender.go:77-100 | what leaves is the due packets in window order, changed in their ACKs only, and the window remembers them so |
| SenderSpec.StandaloneAck | internal/reliabletransport/sender.go:102-119 | nothing due, ids owed, remote session known: exactly one ACK packet with the lowest four at most; the rest stay owed and the packets in flight are left alone |
| SenderSpec.FlushIdle | internal/reliabletransport/sender.go:102-105 | nothing due and nothing owed: nothing happens |
| Receiver.IncomingSanityChecks | internal/reliabletransport/receiver.go:88-116 | true exactly for packets of the known remote session that, with ACKs, are addressed to us |
| Receiver.SeenIs | internal/reliabletransport/receiver.go:183-193 | the sender learns the ACKs of every packet and the id of every packet but an ACK |
| Receiver.ReliableReceiver.MaybeInsertIncoming | internal/reliabletransport/receiver.go:147-157 | appends, or refuses at twelve |
| Receiver.ReliableReceiver.NextIncomingSequence | internal/reliabletransport/receiver.go:159-181 | delivers exactly the run of ids after the mark and keeps exactly what lies beyond the gap, with multiplicity |
| Receiver.ReliableReceiver.Scan | internal/reliabletransport/receiver.go:160-177 | the loop over the sorted buffer with 32-bit subtraction |
| Receiver.ReliableReceiver.KeepFrom | internal/reliabletransport/receiver.go:174-179 | the kept packets are copied into a new array |
| Receiver.SortedDelivery | internal/reliabletransport/receiver.go:159-181 | whatever order equal ids were sorted in, the scan is a delivery; the one case in which the arithmetic wraps is exactly characterised |
| Reorder.ArriveKeeps | internal/reliabletransport/receiver.go:147-181 | insert and delivery keep the refinement of the set of accepted ids |
| Reorder.RunRefinesSet | internal/reliabletransport/receiver.go:147-181 | after every run the mark is the largest n with 1..n accepted, and the buffered ids are the accepted ids above it |
| Reorder.ArrivalOrderIrrelevant | internal/reliabletransport/receiver.go:147-181 | two arrival orders with the same accepted ids end with the same delivered and the same buffered ids |
| Reorder.Pigeonhole | internal/reliabletransport/receiver.go:147-157 | n consecutive ids hold at most n distinct packets |
| Reorder.NeverRefused | internal/reliabletransport/constants.go:8-10 | if every arriving id is at most twelve beyond the mark and not yet buffered, no insert is ever refused |
| Reorder.AcceptedBelowCapacity | internal/reliabletransport/receiver.go:147-157 | in every run an arrival is accepted exactly below twelve buffered packets; a refusal changes nothing |
| Reorder.FullBufferIsFinal | internal/reliabletransport/receiver.go:147-157 | with twelve packets buffered every later arrival is refused and nothing is delivered again |
| Reorder.DuplicatesFillBuffer | internal/reliabletransport/receiver.go:147-181 | a run in which twelve copies of packet 2 keep packet 1 out |
| SenderRuns.ActionKeepsTx | internal/reliabletransport/sender.go:36-60 | every action keeps numbering, queue, window and accounting on the sending side |
| TransportSafety.ActionKeepsNet | internal/reliabletransport/sender.go:62-119 | everything on the network is a control packet, hard reset or ACK of its sender |
| TransportSafety.ArrivesFromSender | internal/packetmuxer/service.go:218-241 | whatever is parsed from the bytes of a sent packet is still a packet of its sender, with its id and ACKs |
| TransportSafety.ReceiverKeepsRx | internal/reliabletransport/receiver.go:33-80 | what is held, buffered or delivered was created by the peer |
| TransportSafety.ActionKeepsOwes | internal/reliabletransport/receiver.go:45-52 | every id owed was announced, and an announcement implies a known remote session |
| TransportSafety.AckerKeepsAck | internal/reliabletransport/receiver.go:45-80 | whatever was acknowledged stays received |
| TransportTheorems.ExecutionInv | internal/reliabletransport/sender.go:36-60 | the whole invariant holds in every state of every execution |
| TransportTheorems.FifoSafety | internal/reliabletransport/receiver.go:159-181 | through serialiser and parser, delivered packets are a prefix, in order and without repeats, of those created, as far as the wire carries them; ids stay below 2^32 - 1 and the subtraction never wraps |
| TransportTheorems.FifoRecords | internal/controlchannel/controlchannel.go:145-163 | in every execution the delivered payloads are a prefix of the TLS records handed to the peer's control channel |
| TransportTheorems.LearnsThePeer | internal/packetmuxer/service.go:268-273 | in every execution the session id an endpoint has learned is its peer's |
| TransportTheorems.LearnIs | internal/packetmuxer/service.go:268-270 | the sender of the hard reset is registered, nothing else changes |
| TransportTheorems.TakeIs | internal/reliabletransport/sender.go:148-155 | a packet goes to the end of the window, due at once, or is dropped with six in flight |
| TransportTheorems.ForeignPacketIgnored | internal/reliabletransport/receiver.go:45-48 | packets of another session, or with ACKs for another session, change nothing |
| TransportTheorems.ArrivalTakesEffect | internal/reliabletransport/receiver.go:45-59 | any other packet evicts what its ACKs acknowledge, control packets included; its id is owed unless it is an ACK; only control packets go on to the buffer |
| TransportTheorems.AckSoundness | internal/reliabletransport/receiver.go:45-80 | an evicted packet was delivered, is buffered, is held by the receive worker, or was refused |
| TransportTheorems.AckSoundnessWithoutRefusal | internal/reliabletransport/receiver.go:45-80 | an evicted packet that was neither refused nor is still held by the receive worker is delivered or buffered |
| TransportTheorems.EvictedLandedIffAccepted | internal/reliabletransport/receiver.go:45-80 | an evicted packet is delivered or buffered if and only if one of its arrivals was accepted |
| TransportTheorems.LostForever | internal/reliabletransport/receiver.go:147-157 | in every execution a full buffer is final: nothing more is delivered, and a packet evicted before it was accepted is lost for good |
| TransportTheorems.LostForeverBack | internal/reliabletransport/receiver.go:147-157 | the same for the other direction |
| TransportTheorems.NoRefusalInWindow | internal/reliabletransport/receiver.go:147-181 | in every execution whose arrivals fit the receive window nothing is refused, and an evicted packet is delivered, buffered or held |
| TransportTheorems.SenderConservation | internal/reliabletransport/sender.go:148-197 | at most six packets in flight, strictly ascending; every id handed over is in flight, evicted or dropped, exactly one of them |
| TransportTheorems.AckConservation | internal/reliabletransport/sender.go:253-291 | at most eight ids owed, four to a packet; every id owed, acknowledged on the network or evicted was the id of a packet the peer had sent and this side had accepted at an earlier point of the run |
| TransportTheorems.AckConservationBack | internal/reliabletransport/sender.go:253-291 | the same for the other direction |
| TransportTheorems.StandaloneAckNeverFails | internal/reliabletransport/sender.go:102-118 | owing an ACK implies a known remote session; the ACK can be built, survives the wire and passes the peer's checks |
| AckBeforeInsert.EvictedBeforeInserted | internal/reliabletransport/receiver.go:50-61 | for any sessions and payload an execution evicts a packet that the peer has neither delivered nor buffered, though it refused none |
| AckLost.EvictedAndLost | internal/reliabletransport/receiver.go:50-70 | for any sessions and payload an execution acknowledges and evicts packet 1, which a buffer full of duplicates of packet 2 refuses |
| AckLost.LostWithoutDuplicates | internal/reliabletransport/sender.go:148-197 | the same with no packet arriving twice: ACKs free the window of six while packet 1 is missing, and packets 2 to 13 fill the buffer |
| AckLost.LostInEveryContinuation | internal/reliabletransport/receiver.go:147-157 | whatever happens after that, packet 1 stays evicted and undelivered |
| TimedSender.ZeroDelayIff | internal/reliabletransport/sender.go:45-72 | the exact conditions under which each of the two resets gets a delay that is not positive: the earliest deadline is this instant and, after an incoming packet, exactly one ACK is pending |
| TimedSender.ZeroDelayOccurs | internal/reliabletransport/sender.go:62-72 | a run that resets the ticker with a delay of zero |
| TimedSender.FlushSendsWhatIsDue | internal/reliabletransport/sender.go:70-100 | sent are exactly the packets with a deadline before t or at least three higher ACKs; they get the next retry and deadline t plus its backoff, the others stay as they are |
| TimedSender.OutgoingIs | internal/reliabletransport/sender.go:36-43 | a packet to send is due at the next tick, one nanosecond later; with six in flight it is dropped and the ticker stays |
| TimedSender.RescheduleLater | internal/reliabletransport/packets.go:39-52 | rescheduling never brings a deadline forward |
| TimedSender.NeverOversleeps | internal/reliabletransport/sender.go:36-100 | in every run with at most 33 retries the ticker fires no later than each deadline or one nanosecond after its reset |
| TimedSender.OversleepsPast33 | internal/reliabletransport/packets.go:39-75 | a run in which the 34th retry gets a deadline in the past while the ticker is set a minute ahead |
| TimedSender.FastRetransmitDelay | internal/reliabletransport/sender.go:201-218 | after an incoming packet the ticker is brought forward only for ACKs owed: one nanosecond for two, the next deadline or exactly 20 ms for one, not at all for none |
| TimedSender.FastRetransmitWaits | internal/reliabletransport/sender.go:45-51 | a run in which a packet due by three higher ACKs still waits for its deadline |
| Workers.WorkersState.CreateControlPacket | internal/controlchannel/controlchannel.go:145-163 | a TLS record becomes the next control packet of the session |
| Workers.WorkersState.OnControlPacket | internal/reliabletransport/sender.go:39-43 | the worker code is the take-outgoing action of the system |
| Workers.WorkersState.OnSeen | internal/reliabletransport/sender.go:45-51 | the worker code is the handle-seen action of the system |
| Workers.WorkersState.OnTick | internal/reliabletransport/sender.go:53-54 | the worker code is the flush action of the system |
| Workers.WorkersState.OnIncoming | internal/reliabletransport/receiver.go:33-59 | the worker code is the receive action: check, announce, hold control packets |
| Workers.WorkersState.OnInsert | internal/reliabletransport/receiver.go:61-80 | the worker code is the insert action of the system |
| Padding.PadLength | internal/bytesx/bytesx.go:125 | between one byte and a block, up to a whole number of blocks |
| Padding.UnpadPad | internal/bytesx/bytesx.go:90-128 | padding always adds something, fills whole blocks and is undone by unpadding |
| Padding.UnpadIff | internal/bytesx/bytesx.go:90-113 | when exactly unpadding succeeds, with what, and when the program stops |
| Padding.PadUnpadIff | internal/bytesx/bytesx.go:90-128 | padding an unpadded buffer gives it back if and only if all its padding bytes agree and it was whole blocks |
| Prf.PHash | internal/datachannel/crypto.go:329-345 | any buffer is filled with exactly the start of the P_hash stream of section 5 of RFC 2246; the loop ends because no block is empty |
| Prf.PHashFromBlocks | internal/datachannel/crypto.go:329-345 | the bytes do not depend on how many blocks were generated |
| Prf.PHashFirstBlocks | internal/datachannel/crypto.go:329-345 | the first two blocks written out in HMAC calls |
| Prf.PHashPrefix | internal/datachannel/crypto.go:329-345 | a shorter request is a prefix of a longer one |
| Prf.HalvesOverlap | internal/datachannel/crypto.go:320-325 | the halves are equally long and share the middle byte of an odd secret, as in section 5 of RFC 4346 |
| Prf.Prf10 | internal/datachannel/crypto.go:300-316 | the result is the bytewise combination of the two P_hash streams over the two halves |
| Prf.XorByteMeaning | internal/datachannel/crypto.go:312-314 | each of the eight bits is one if and only if the operands differ there; a byte with itself gives 0; a second time undoes the first |
| Prf.PrfBits | internal/datachannel/crypto.go:300-325 | each bit of the output is one if and only if P_MD5 over the first half of the secret and P_SHA1 over the last differ there |
| Prf.DeriveKey | internal/datachannel/crypto.go:284-294 | the PRF over the label, both seeds and both session ids |
| Prf.PrfPrefix | internal/datachannel/crypto.go:300-316 | outputs for the same inputs are prefixes of one another |
| DataFrames.PadBlock | internal/datachannel/write.go:149-153 | AES padding never fails and yields whole blocks |
| DataTheorems.DataWire | internal/model/packet.go:185-212 | a data packet arrives without its four header bytes |
| DataTheorems.GcmUnframes | internal/datachannel/read.go:122-171 | whatever the framing, unframing the padded plaintext gives payload and tail |
| DataTheorems.AeadWire | internal/datachannel/write.go:21-66 | the peer decodes nonce, ciphertext with tag, and header as they were encoded |
| DataTheorems.GcmRoundTrip | internal/datachannel/controller.go:141-239 | GCM, every framing, every non-empty payload and id: the peer reads the payload and at most 16 bytes of padding |
| DataTheorems.GcmEmptyPayload | internal/datachannel/controller.go:152-165 | an empty payload fails without framing, stops the program with stub, goes through with lzo-no |
| DataTheorems.CbcWire | internal/datachannel/write.go:72-106 | the peer checks the HMAC and recovers vector and ciphertext |
| DataTheorems.CbcRead | internal/datachannel/read.go:68-172 | what reading makes of any written CBC packet |
| DataTheorems.CbcRoundTrip | internal/datachannel/controller.go:141-239 | CBC without framing returns exactly the payload for a fresh id, and fails without moving the mark otherwise |
| DataTheorems.CbcLzoRoundTripIff | internal/datachannel/read.go:133-171 | with lzo-no framing CBC round-trips if and only if the shifted id is fresh and the low id byte is a harmless marker |
| DataTheorems.CbcStubNeverRoundTrips | internal/datachannel/read.go:133-171 | with stub framing CBC never returns the payload |
| DataFormats.PlaintextIs | internal/datachannel/write.go:113-154 | what is encrypted: the framing byte, the payload and the padding, written out for each framing |
| DataFormats.GcmFormat | internal/datachannel/write.go:21-66 | every byte of a GCM packet: header, id, tag, ciphertext, and key, nonce and authenticated data of the seal |
| DataFormats.CbcFormat | internal/datachannel/write.go:72-106 | every byte of a CBC packet: header, HMAC over all that follows, vector, ciphertext; id 0 if none is left |
| DataFormats.UsesPacketIdIff | internal/datachannel/controller.go:141-173 | a write takes an id unless it is a GCM write of nothing that is not framed as lzo-no |
| DataFormats.WriteSucceedsIff | internal/datachannel/controller.go:141-197 | a write succeeds if and only if key and vector fit and, in GCM mode, there is an id and something to encrypt |
| DataFormats.DeframedIff | internal/datachannel/read.go:154-171 | what the framing byte 0xfb, 0xfa or 0x00 makes of the bytes behind it |
| DataFormats.GcmAcceptsIff | internal/datachannel/read.go:22-64 | whoever made it: a GCM packet is accepted if and only if it opens with the remote keys, the header and its id |
| DataFormats.CbcAcceptsIff | internal/datachannel/read.go:68-172 | whoever made it: a CBC packet is accepted as x with id i if and only if its HMAC matches, it decrypts to i and a framed x, and i is above the mark |
| DataFormats.CbcRejectsForged | internal/datachannel/read.go:85-93 | a packet whose HMAC does not match is not accepted and does not move the mark |
| DataRuns.CounterGrows | internal/session/manager.go:191-199 | the counter never falls over a run of writes and rises with every write that takes an id |
| DataRuns.GcmWritten | internal/datachannel/write.go:21-66 | a successful GCM write had an id, used it up and put it behind the header |
| DataRuns.NonceReadIs | internal/datachannel/read.go:39-61 | the peer opens a GCM packet with the nonce made of its id and the writer's key |
| DataRuns.NoncesDiffer | internal/datachannel/write.go:36-40 | different ids give different GCM nonces under any keys |
| DataRuns.NonceNeverReused | internal/datachannel/controller.go:141-173 | over any sequence of writes through one session manager, in any modes and under any keys, no two GCM packets share an id on the wire or a nonce |
| DataRuns.PastExhaustion | internal/datachannel/controller.go:146-150 | with the ids exhausted a write fails if and only if it is in GCM mode; in CBC mode it is the write of id 0 |
| DataRuns.PastExhaustionRead | internal/datachannel/read.go:133-151 | such a packet is never accepted without framing, never returned with stub, and with lzo-no returned exactly while the mark is below 0xfa000000 |
| DataRuns.IssuingStops | internal/session/manager.go:191-199 | over a run the exhausted counter stays exhausted: no GCM packet is written again, and every CBC packet carries id 0 |
| DataRuns.AcceptedIff | internal/datachannel/read.go:133-142 | in any arrival order, with damaged or foreign packets in between, a packet is accepted, and returned exactly, if and only if the peer wrote it and its id exceeds all accepted before |
| DataRuns.AcceptedIncrease | internal/datachannel/read.go:133-142 | accepted ids strictly increase |
| DataRuns.NoReplay | internal/datachannel/read.go:133-142 | of whatever arrives - packets of any run of writes, in any order and number, and noise - two accepted ones were both written by the peer, the later one later; so none is accepted twice |
| DataRuns.ForgedIsNoise | internal/datachannel/read.go:85-93 | every packet whose HMAC does not match counts as noise |
| DataRuns.ReadMoves | internal/datachannel/read.go:133-142 | the mark never falls, and an accepted packet moves it to the id it holds |
| DataRuns.AcceptedOnceAndAuthentic | internal/datachannel/read.go:68-142 | CBC, any framing, any packets whoever made them: what is accepted is authentic, and of two accepted packets the later holds the higher id |
| DataRuns.InOrderAllAccepted | internal/datachannel/read.go:133-142 | any in-order subsequence of a run of writes, with noise in between, is accepted and returned exactly up to the exhaustion of ids, and not beyond |
| DataRuns.LzoRead | internal/datachannel/read.go:133-171 | under lzo-no the mark moves to the shifted id before the marker is looked at |
| DataRuns.LzoReturnsEvery256th | internal/datachannel/controller.go:141-173 | in an uninterrupted in-order run of CBC writes under lzo-no exactly the packets whose id is a multiple of 256 are returned |
| DataRuns.GcmAcceptsReplays | internal/datachannel/read.go:122-132 | in GCM mode every written packet is accepted as often as it arrives, in any order |
| DataRuns.GcmAcceptsTwice | internal/datachannel/read.go:122-132 | in particular the same packet twice |
| DataTheorems.LawfulIsConsistent | internal/datachannel/crypto.go:125-225 | some primitives meet the laws that are asked of them |
| DataChannel.Compress | internal/datachannel/write.go:113-125 | the in-place framing, first byte moved to the end under stub |
| DataChannel.PadPlaintext | internal/datachannel/write.go:133-154 | pads, with the stub's trailing byte in the last padding byte |
| DataChannel.PrependPacketId | internal/datachannel/write.go:158-165 | the id comes first |
| DataChannel.DataChannelState.SetRemotePacketId | internal/datachannel/state.go:38-42 | stores the id and nothing else |
| DataChannel.DataChannelState.RemotePacketId | internal/datachannel/state.go:47-56 | the stored id, or an error at the maximum |
| DataChannel.DataChannel.WritePacket | internal/datachannel/controller.go:141-173 | writes the packet of the next id and says exactly when the id counter moves |
| DataChannel.DataChannel.EncryptAndEncodePayload | internal/datachannel/controller.go:178-197 | pads and encodes; in AEAD mode the id is taken here and only for a non-empty plaintext |
| DataChannel.DataChannel.EncryptAndEncodePayloadAead | internal/datachannel/write.go:21-66 | header, id, tag and ciphertext in this order, nonce from id and key; the id is used up also on failure |
| DataChannel.DataChannel.EncryptAndEncodePayloadNonAead | internal/datachannel/write.go:72-106 | header, HMAC over vector and ciphertext, vector, ciphertext |
| DataChannel.DataChannel.ReadPacket | internal/datachannel/controller.go:203-216 | the outcome and the new remote packet id for every packet |
| DataChannel.DataChannel.DecryptPayload | internal/datachannel/controller.go:218-239 | decode, then decrypt with the remote key |
| DataChannel.DataChannel.DecodePayloadAead | internal/datachannel/read.go:22-64 | reorders tag and ciphertext, rebuilds nonce and header |
| DataChannel.DataChannel.DecodePayloadNonAead | internal/datachannel/read.go:68-101 | splits and checks the HMAC, as `DecodeCbc` |
| DataChannel.DataChannel.MaybeDecompress | internal/datachannel/read.go:108-172 | replay check, mark update and unframing, in this order, also for a slice shorter than the packet id |
| DataChannel.DataChannel.SetupKeys | internal/datachannel/controller.go:91-135 | the four slots are the 256 bytes of the key expansion of the master secret; fails exactly if the key is not ready |
| DataChannel.SlotsAre | internal/datachannel/controller.go:96-122 | the derivation determines the keys: the four slots are the four quarters of the expansion, in this order |
| KeyMaterial.DataChannelKey.AddRemoteKey | internal/session/datachannelkey.go:43-52 | the remote source can be set once and makes the key ready |
| KeyMaterial.DataChannelKey.AddLocalKey | internal/session/datachannelkey.go:55-60 | sets the local source |
| Handshake.RunKeepsInv | internal/packetmuxer/service.go:198-294 | every interleaving keeps the invariant of session ids, key sources, gates and inputs |
| Handshake.DataOnlyAfterKeys | internal/datachannel/service.go:96-199 | whatever hands a packet to the data channel, reads one or writes one comes after a successful key setup, and the run splits there |
| Handshake.SetupAlwaysSucceeds | internal/datachannel/service.go:183-195 | every key setup finds both key sources and the remote session id |
| Handshake.KeysNeverChange | internal/tlssession/tlssession.go:189-191 | all key setups of a run derive from the same inputs, also after resets |
| Handshake.NothingFromNowhere | internal/packetmuxer/service.go:218-294 | in every interleaving the registered session id is the sender of a server hard reset that arrived, the remote key came from TLS, and what the data channel reads has arrived and is neither control nor ACK |
| Handshake.DataInOrder | internal/datachannel/service.go:148-154 | the data channel reads packets in the order of handing over, none lost or twice |
| Handshake.RegistersSender | internal/packetmuxer/service.go:268-294 | the whole state after the server's answer: its own session id registered, state 3, one notice to TLS |
| Handshake.RoutesPacket | internal/packetmuxer/service.go:234-262 | the whole state after any other packet |
| Handshake.StopsIff | internal/packetmuxer/service.go:218-276 | handling a packet fails the assertion exactly for a server hard reset after a late hard reset |
| Handshake.NoStopWithoutLateReset | internal/session/manager.go:244-249 | the remote session id is registered at most once unless a hard reset starts after it is known |
| Handshake.LateResetStops | internal/packetmuxer/service.go:140-151 | from every state with a known remote session id a late hard reset and a repeated answer fail the assertion |
| Handshake.LateResetOccurs | internal/packetmuxer/service.go:140-151 | a run from the start that fails the assertion, whatever the key and the session id of the server |
| Handshake.HandlePacketIsRun | internal/packetmuxer/service.go:218-294 | handling a packet without interruption is one of the interleavings |
| HandshakeWorkers.Workers.StartHardReset | internal/packetmuxer/service.go:198-215 | back to the pre-start state, a hard reset with id 0 |
| HandshakeWorkers.Workers.HandleRawPacket | internal/packetmuxer/service.go:218-265 | routes every raw packet: finish the handshake, pass up, drop, or hand to the data channel |
| HandshakeWorkers.Workers.FinishThreeWayHandshake | internal/packetmuxer/service.go:268-294 | registers the session, advances the state, notifies TLS |
| HandshakeWorkers.ExchangeIsRun | internal/tlssession/tlssession.go:145-214 | the authentication exchange, wherever it breaks off, is a run of the interleaved state machine |
| HandshakeWorkers.Workers.DoTlsAuth | internal/tlssession/tlssession.go:145-214 | the session updates leave exactly the state of that run, and the tunnel record, wherever the exchange breaks off |
| HandshakeWorkers.TunnelAfterIs | internal/session/manager.go:259-307 | the MTU of the server's options with everything else pushed |
| HandshakeWorkers.Workers.OnSoftReset | internal/controlchannel/controlchannel.go:89-116 | ignored before keys exist, otherwise back to initial with a notification |
| HandshakeWorkers.Workers.HandleKey | internal/datachannel/service.go:183-199 | derives the keys, announces them once, opens the gate; skips a key that is not ready and stops exactly on a missing local source or an oversized hash |
| Pinger.Pinger.UpdateStatistics | extras/ping/ping.go:267-300 | one reply updates all counters and the deviation with 64-bit arithmetic and records the reply if asked to |
| Pinger.AverageEnclosed | extras/ping/ping.go:283-296 | minimum and maximum are those of the sequence and enclose the average |
| Pinger.AverageDrift | extras/ping/ping.go:291-296 | n times the average differs from the sum by at most n (n - 1) / 2 |
| Pinger.SecondMomentGrows | extras/ping/ping.go:295-298 | the second moment is never negative, never decreases and is at most n times the squared bound |
| Pinger.WelfordExact | extras/ping/ping.go:295-298 | without remainders the average is the mean and the second moment the sum of the squared deviations from it |
| Pinger.WrapsOnlySecondMoment | extras/ping/ping.go:291-298 | no other counter overflows, whatever the times |
| Pinger.StatisticsExactIff | extras/ping/ping.go:291-298 | the statistics are exact if and only if the true second moment fits 63 bits |
| Pinger.SecondMomentNonNegativeIff | extras/ping/ping.go:298-300 | the computed second moment is not negative if and only if the true one fits 63 bits modulo 2^64 |
| Pinger.StatisticsSound | extras/ping/ping.go:267-300 | all of the above for the 64-bit statistics of every sequence |
| Pinger.SecondMomentOverflows | extras/ping/ping.go:298 | two replies after 0 s and 5 s turn the second moment negative |

## Left out

- Sockets, TUN device, routing, obfs4, logging, tracing and the command line: input and output only.
- AES, GCM, CBC, HMAC, MD5, SHA and the TLS handshake itself: parameters of the model.
- Configuration files, certificates and push options: string handling with shallow properties.
- Shutdown of the workers, and liveness: channels are queues that never block for good.
- Sharing of packets and byte slices between workers: packets are values copied when sent, so the effect of a later retransmission on a packet still in a channel is not modelled.
- Square roots in floating point: the root that the ping tool takes of its second moment is a parameter.
- Pinger.Pinger.UpdateStatistics: the number of replies is unbounded, because 2^63 replies do not arrive.
- Sender.InFlightPacket.AckForHigherPacket: the counters of higher ACKs and of retries are unbounded, because they count events of one connection.
- DataChannel.DataChannel.WritePacket: does not model that the stub framing may overwrite the first byte of the caller's buffer, because buffers are values.
- HandshakeWorkers.Workers.DoTlsAuth: the exchange with the server is a parameter that says how far it gets and what it brings; the messages themselves are not modelled.
- Session.Manager.InitTunnelInfo: the MTU is a parameter, because finding it is splitting of an option string.
- TransportTheorems.AckSoundness: hard resets injected by a third party with the peer's session id are not part of the network; a session id is learnt only from the peer.
- Parsing and printing of P_DATA_V1 and unknown opcodes are modelled but not part of the round trips, because the source does not treat them symmetrically.
