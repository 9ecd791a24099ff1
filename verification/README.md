# Reliable message transport over UDP: a verified model

The program sends messages of up to 10 MiB over UDP. This project models its transport stack, from the bytes of a
datagram to the emission of a complete file, and proves what the stack keeps in every run over a network that may
lose, duplicate and reorder datagrams, and corrupt them in ways that the checksum detects.

| module | what it models |
|---|---|
| `BufferUtils`, `Crc` | chunking; the table-driven CRC-32 of section 8 of RFC 1952, its bit-by-bit form, and what it detects |
| `Polynomials` | the division of polynomials over the two-element field that the CRC is the remainder of |
| `MessageBuffer` | the 21-byte header, construction and decoding of datagrams |
| `Errors`, `Missed` | exactly which errors the checksum misses, and what one that it misses can do |
| `Receiver` | reassembly of up to 64 interleaved messages, byte cap, duplicates, acks, eviction by age |
| `Arrivals` | what an arrival does to the table, and what keeps an entry in it, from the arrivals alone |
| `Sender` | transmissions: ack map, acked prefix, sliding window of 20, resend timer and pass; their registry |
| `Passes` | exactly what a new transmission and a resend pass send |
| `Protocol` | both ends and the network as one step system; the invariant of every run and the safety theorems |
| `Completion` | that a transmission can always still be completed, and the exact size thresholds |
| `Progress` | that a transmission finishes within as many rounds as it has datagrams |
| `Eviction` | when exactly a sender can finish with a message that was never delivered |
| `Redelivery` | how often a message can be delivered |
| `FileChunks` | the second split and reassembly: hex, 1-based chunk numbers, files collected by name |
| `Pipeline` | the two layers composed: a file sent over the network comes out as it was |
| `FileRuns` | exactly which files can be sent |
| `Handshake` | sessions of any number of transceivers, HELLO / HELLO_ACK, the retry countdown, the session limit |
| `Relay` | the relay's table of pending requests and its matches |

Code that changes state is modelled by classes with the program's own fields and loops (`Receiver.ConnectedBehavior`,
`Sender.Transmission`, `Sender.DataSender`, `FileChunks.ConnectedToPeer`, `Handshake.Session`,
`Handshake.TransceiverIPv4`, `Relay.SimpleRelay`) and by methods over arrays (`Crc`, `MessageBuffer`). Each method is
proved to do to the abstract state what a specification function says; the runs are runs of these functions.

## Results of note

* Finished implies delivered (`Protocol.FinishedImpliesDelivered`) holds for a uid that was never evicted and a payload
  of at most 10 MiB, and both conditions are needed. What evictions cost is exact: a sender can finish with a payload
  that has not been delivered if and only if the payload has more than one part, up to the part limit
  (`Eviction.UndeliveredThreshold`). For a payload of one datagram finished implies delivered whatever is evicted
  (`Eviction.FinishedSmallIsDelivered`).
* `MAX_MESSAGE_PARTS` parts hold 640 bytes more than 10 MiB; for those sizes the sender can finish, without any
  eviction, although no run delivers the message (`Completion.FinishedButNeverDelivered`).
* Acks are not range-checked by the sender. A single ack for the number after the last datagram would stall a
  transmission for good (`Sender.StrayAckStalls`); that none ever arrives is a property of the whole protocol
  (`Protocol.AcksInRange`).
* `transmitted` is emitted on the first ack, not on completion (`Sender.TransmittedOnFirstAck`).
* Delivery is not exactly-once: every payload of 1 byte to 10 MiB can be handed over any number of times, and no other
  can be even once (`Redelivery.DeliveredAnyNumberOfTimes`). What holds instead is that a message is handed over at most
  as often as each of its parts arrives (`Receiver.DeliveredAtMostAsArrived`), and that bound is attained
  (`Redelivery.BoundIsAttained`).
* An empty payload yields no datagrams and never finishes; the thresholds in `Completion` start at one byte.
* Whether an error in a valid datagram is detected depends on the error alone, and the condition is exact
  (`Errors.RejectedIffDetectable`). The checksum lies inside the datagram, so that a burst of 32 bits that straddles the
  edge of its field can be missed: `Missed.StraddlingBurstIsMissed` gives one, for any payload of three bytes. Statements
  about runs cover detectable errors only, and must: for every payload of one datagram there is an undetectable error
  within five bytes after which the sender finishes with nothing delivered and nothing evicted
  (`Missed.FinishedByMissedError`).
* A file, too, can be emitted any number of times (`FileChunks.EmissionBoundIsAttained`), but at most as often as any one
  of its chunks arrives (`FileChunks.EmittedAtMostAsArrived`).
* Statements about every run hold for arbitrary time stamps. Runs that are shown to exist have time stamps that never
  decrease.
* A connected session never answers a HELLO. When the last HELLO_ACK is lost, one side is connected and the other can
  no longer connect to it (`Handshake.HalfOpenStuck`, `Handshake.HalfOpenReachable`);
  `Handshake.ConnectsIffAnswerUnderWay` is the exact condition.

## Model

| member | source | states |
|---|---|---|
| BufferUtils.ChunkBuffer | src/utils/bufferUtils.ts:1-6 | the loop cuts the buffer into its consecutive chunks |
| BufferUtils.ConcatChunks | src/utils/bufferUtils.ts:1-6 | the chunks laid end to end are the buffer |
| BufferUtils.ChunkCount | src/utils/bufferUtils.ts:1-6 | there are as many chunks as the length over the size, rounded up |
| Crc.FillCrcTable | src/utils/bufferUtils.ts:8-15 | entry i of the table is i after eight steps of the shift register |
| Crc.Crc32 | src/utils/bufferUtils.ts:17-24 | the table-driven loop computes the register that takes eight single steps a byte |
| Crc.TableStep | src/utils/bufferUtils.ts:21 | one look-up and shift equals eight steps, since the step map is linear |
| Crc.RegisterDivides | src/utils/bufferUtils.ts:17-24 | at every byte boundary the register is the remainder of bit-by-bit division by the CRC polynomial |
| Crc.CrcIsPolynomialDivision | src/utils/bufferUtils.ts:17-24 | the checksum is what bit-by-bit division leaves of the whole message, complemented before and after |
| Polynomials.GeneratorWord | src/utils/bufferUtils.ts:12 | the constant is the CRC-32 polynomial without its highest term |
| Polynomials.DivisionIdentity | src/utils/bufferUtils.ts:17-24 | after any number of bits: message times x^32, plus the initial register in front, equals quotient times the polynomial plus the register |
| Polynomials.CrcIsRemainder | src/utils/bufferUtils.ts:17-24 | the checksum is the CRC-32 of section 8 of RFC 1952: the complement of the remainder of that division, and of no other word |
| Crc.CrcDetectsBurst | src/utils/bufferUtils.ts:17-24 | two equally long buffers that differ, and only within 32 consecutive bits wherever they start, have different checksums |
| Crc.FourBytesAreBits | src/utils/bufferUtils.ts:17-24 | buffers that differ only within four consecutive bytes are such a pair |
| MessageBuffer.DecodeBuffer | src/transport/messageBuffer.ts:53-97 | reads what the format says or rejects, and leaves the buffer with its checksum bytes zeroed |
| MessageBuffer.ConstructBuffers | src/transport/messageBuffer.ts:99-142 | the datagrams of a message, with defaults for what is left undefined |
| MessageBuffer.DecodeDatagram | src/transport/messageBuffer.ts:53-97 | every datagram that can be built decodes to exactly the fields it was built from |
| MessageBuffer.DecodedIsDatagram | src/transport/messageBuffer.ts:53-97 | only built datagrams are accepted: an accepted buffer is the datagram of the message it decodes to |
| MessageBuffer.DecodeInjective | src/transport/messageBuffer.ts:53-97 | two different accepted buffers never decode to the same message |
| MessageBuffer.ConstructRoundTrip | src/transport/messageBuffer.ts:99-142 | decoding buffer i gives back type, uid, ack, total, sequence number i and chunk i, of at most 800 bytes |
| MessageBuffer.ConstructLosesNothing | src/transport/messageBuffer.ts:107-142 | the payloads read back, laid end to end, are the payload; their number is its length over 800, rounded up |
| MessageBuffer.BurstRejected | src/transport/messageBuffer.ts:58-65 | a valid datagram with a burst within 32 consecutive bits, not in the checksum field and elsewhere at once, is rejected |
| MessageBuffer.FourBytesAreBurst | src/transport/messageBuffer.ts:58-65 | four changed consecutive bytes wholly before, inside or after the checksum field are such a burst |
| Errors.RejectedIffDetectable | src/transport/messageBuffer.ts:58-65 | a valid datagram with any error of its length added is rejected if and only if the error's checksum field differs from the register of its other bytes |
| Errors.BurstIsDetectable | src/transport/messageBuffer.ts:58-65 | every burst within 32 bits that does not straddle the checksum field is such an error |
| Missed.StraddlingBurstIsMissed | src/transport/messageBuffer.ts:58-65 | a burst of four consecutive bytes across the edge of the checksum field that is accepted, with a total of 24 for 1, for any payload of three bytes |
| Missed.FinishedByMissedError | src/transport/session/behaviors/connected.ts:85-135 | for every payload of one datagram: after an undetectable error within five bytes the sender finishes, and nothing is delivered or evicted |
| MessageBuffer.DatagramLayout | src/transport/messageBuffer.ts:113-135 | the fields are big-endian numbers at bytes 0, 1, 5, 9, 13 and 17, the payload starts at byte 21, and the checksum is of the datagram with zeros in its place |
| Receiver.ConnectedBehavior.CollectDataMessagePart | src/transport/session/behaviors/connected.ts:85-135 | ties the new collector, the ack and the `receive` event of one arrival to the four ways it can go |
| Receiver.ConnectedBehavior.RemoveExpiredMessages | src/transport/session/behaviors/connected.ts:68-74 | the loop removes exactly the entries whose age has reached the limit |
| Arrivals.ArrivalExact | src/transport/session/behaviors/connected.ts:51-135 | who is taken in, acked, handed over or dropped, and what the entry is afterwards, from the table before and the message alone; other entries are untouched |
| Arrivals.LastActivity | src/transport/session/behaviors/connected.ts:103 | an entry was last active when the latest arrival for it was taken in, a repetition too |
| Arrivals.SurvivesCleanupIff | src/transport/session/behaviors/connected.ts:68-74 | an entry survives a clean-up, as it is, if and only if its latest arrival was taken in less than 30 seconds before |
| Receiver.Pigeonhole | src/transport/session/behaviors/connected.ts:121-128 | as many parts as the total, all numbered below it: exactly then none is missing |
| Receiver.CollectMeaning | src/transport/session/behaviors/connected.ts:110-135 | the event fires exactly when the stored part is the last one missing, and carries all parts in order, neither cut nor filled |
| Receiver.HandleKeepsInv | src/transport/session/behaviors/connected.ts:51-66 | every arrival, valid or not, keeps the collector invariant |
| Receiver.RunInv | src/transport/session/behaviors/connected.ts:68-135 | in every reachable state: at most 64 entries, each with parts in range, fewer than its total, byte count right and within 10 MiB |
| Receiver.DeliveriesArePaidFor | src/transport/session/behaviors/connected.ts:89-135 | over any run, a message is handed over at most as often as any one of its parts was newly stored |
| Receiver.DeliveredAtMostAsArrived | src/transport/session/behaviors/connected.ts:89-135 | hence at most as often as any one of its parts arrived: at most once if some part arrived only once |
| Sender.Transmission.CollectDataAck | src/transport/session/behaviors/connected.ts:310-326 | ties ack map, prefix, timer, flags and registry after an ack to the state before |
| Sender.Transmission.OnResendTimer | src/transport/session/behaviors/connected.ts:239-264 | the timer is disarmed and a pass starts unless one runs or the transmission is stopped |
| Sender.Transmission.ContinueResend | src/transport/session/behaviors/connected.ts:262-287 | after its pause the pass sends the next unacked number in the window, or ends and re-arms the timer |
| Sender.DataSender.RegisterNewTransmission | src/transport/session/behaviors/connected.ts:201-208 | a new transmission with the datagrams of the payload, its first window sent, entered in the registry |
| Sender.DataSender.CollectDataAck | src/transport/session/behaviors/connected.ts:194-199 | an ack reaches the registered transmission of its uid and nothing else changes |
| Sender.DataSender.DisposeAll | src/transport/session/behaviors/connected.ts:214-221 | cancels exactly the registered transmissions and empties the registry |
| Sender.AckMeaning | src/transport/session/behaviors/connected.ts:310-326 | the prefix number stays the largest g with all of 0..g acked and never falls; when exactly an ack finishes a transmission |
| Sender.FinMeansAllAcked | src/transport/session/behaviors/connected.ts:318-323 | with acks in range, finished means every datagram is acked, and nothing less |
| Sender.StrayAckStalls | src/transport/session/behaviors/connected.ts:313-323 | after one ack for the number after the last datagram no events whatever finish a transmission |
| Sender.EverySendInWindow | src/transport/session/behaviors/connected.ts:262-307 | in every run, what is sent is below the total, at most 20 beyond the acked prefix, and not acked yet |
| Passes.FirstWindowIsSent | src/transport/session/behaviors/connected.ts:298-308 | a new transmission sends its first 20 datagrams at once, or all if there are fewer, and arms its timer |
| Passes.AckArmsTimer | src/transport/session/behaviors/connected.ts:318-323 | an ack arms the timer of a transmission that goes on, and disarms that of one it finishes |
| Passes.UnackedMeaning | src/transport/session/behaviors/connected.ts:262-281 | the list in the next row holds exactly the unacked numbers of the interval, once each, ascending |
| Passes.PassCoversWindow | src/transport/session/behaviors/connected.ts:253-287 | with no ack in between, a pass of a live transmission lasts as long as its window, and sends exactly the unacked numbers after the prefix up to 20 beyond it or the last |
| Passes.TurnExact | src/transport/session/behaviors/connected.ts:262-281 | with anything in between: a number is sent when its turn comes if and only if it is in the window and unacked; nothing but a turn sends or ends a pass, and a timer that goes off does not restart it |
| Passes.PassMissesNothing | src/transport/session/behaviors/connected.ts:253-287 | when a pass is over, every number from the gap at its start to the end of the window by then that is still unacked was sent, once, in order, whatever came in between |
| Sender.ResendStartsAtGap | src/transport/session/behaviors/connected.ts:253-281 | every resend pass of a live transmission starts by sending the datagram after the acked prefix, which is unacked |
| Sender.GapAcksFinish | src/transport/session/behaviors/connected.ts:253-326 | progress: n acks of gap datagrams finish a transmission of n datagrams, whatever else happens in between |
| Sender.RunInv | src/transport/session/behaviors/connected.ts:188-333 | in every reachable state the registry holds exactly the live transmissions; a live one has its timer armed or a pass running, a stopped one no timer |
| Sender.TransmittedOnFirstAck | src/transport/session/behaviors/connected.ts:194-199 | `transmitted` is emitted once for each uid that has been acked, on its first ack, and never otherwise |
| Protocol.ArrivalMeaning | src/transport/session/behaviors/connected.ts:85-135 | what an arriving part of a registered payload does: what it keeps, acks, delivers or, above 10 MiB only, drops |
| Protocol.ReachedInv | src/transport/session/behaviors/connected.ts:85-333 | in every run: each ack in flight or in an ack map names a part the receiver holds, has delivered, or was allowed to lose |
| Protocol.CorruptionIsHarmless | src/transport/messageBuffer.ts:58-65 | a datagram of the network that comes in with a detectable error changes nothing at either end, so that statements about runs cover such errors, and no others |
| Protocol.AckIsConstructed | src/transport/session/behaviors/connected.ts:76-83 | the ack of the step system is the only buffer that is constructed for it |
| Protocol.DeliveryIntegrity | src/transport/session/behaviors/connected.ts:85-135 | in every run, each buffer handed over is, byte for byte, the payload registered under its uid |
| Protocol.FinishedImpliesDelivered | src/transport/session/behaviors/connected.ts:310-326 | in every run, a finished transmission of 1 byte to 10 MiB whose uid was never evicted has been delivered |
| Protocol.NeverAllHeld | src/transport/session/behaviors/connected.ts:121-135 | the receiver never keeps all parts of a message |
| Protocol.AcksInRange | src/transport/session/behaviors/connected.ts:76-83 | in every run, every ack the sender has seen is for one of its datagrams |
| Completion.CompletesWithRoom | src/transport/session/behaviors/connected.ts:253-326 | with room at the receiver, a live transmission can finish by its timers, acks and unacked parts alone, all at one time |
| Completion.CompletionStaysPossible | src/transport/session/behaviors/connected.ts:253-326 | every run that reaches a live transmission of 1 byte up to the part limit extends, onwards in time, to one in which it finishes without its own eviction |
| Completion.DeliveryThreshold | src/transport/session/behaviors/connected.ts:13-66 | a payload can be delivered in some run if and only if it has 1 byte to 10 MiB |
| Completion.FinishThreshold | src/transport/session/behaviors/connected.ts:17-62 | a sender can finish with a payload, evicted or not, only if it has 1 byte up to the part limit, and then it can without an eviction |
| Completion.FinishedButNeverDelivered | src/transport/session/behaviors/connected.ts:110-115 | between the two limits a sender finishes with what no run delivers |
| Progress.RoundCloses | src/transport/session/behaviors/connected.ts:253-326 | a part of a run in which an ack for the datagram missing at its beginning comes in brings the acked prefix further, or the transmission has stopped |
| Progress.RoundsFinish | src/transport/session/behaviors/connected.ts:253-326 | from any state of any run, as many such rounds as there are datagrams after the acked prefix finish a live transmission, whatever else happens, unless the sender is disposed of |
| Eviction.RunKeepsSeveral | src/transport/session/behaviors/connected.ts:68-135 | in every run only messages of at least two parts are kept waiting or evicted |
| Eviction.FinishedSmallIsDelivered | src/transport/session/behaviors/connected.ts:68-135 | in every run, a finished transmission of one datagram has been delivered, whatever was evicted |
| Eviction.LosingRun | src/transport/session/behaviors/connected.ts:68-74 | a run, for every payload of several parts, that finishes undelivered: its first part is acked and then evicted |
| Eviction.UndeliveredThreshold | src/transport/session/behaviors/connected.ts:68-135 | a sender can finish with a payload that has not been delivered if and only if it has more than 800 bytes, up to the part limit |
| Redelivery.RunKeepsSent | src/transport/session/behaviors/connected.ts:76-83 | in every run, every part that is acked, or whose ack is in flight, has been put on the network |
| Redelivery.DeliverFrom | src/transport/session/behaviors/connected.ts:85-135 | the parts of a message, arriving in order, deliver it once more and leave the receiver ready for the next time |
| Redelivery.DeliveredAnyNumberOfTimes | src/transport/session/behaviors/connected.ts:89-98 | for each n above 0: some run delivers a payload exactly n times if and only if it has 1 byte to 10 MiB |
| Redelivery.BoundIsAttained | src/transport/session/behaviors/connected.ts:85-135 | for every message within the limits and every n, arrivals in which each part arrives n times deliver it n times |
| FileChunks.HexRoundTrip | src/simple/simplePeer/behaviors/connectedToPeer.ts:119 | hex decoding inverts hex encoding (section 8 of RFC 4648) |
| FileChunks.HexIsLowerCase | src/simple/simpleUtils.ts:76 | a byte is written as two lower-case digits, the high half first |
| FileChunks.ChunkPeerToPeerMessages | src/simple/simpleUtils.ts:63-101 | the loop produces the chunk messages of the file, 1-based, at least one |
| FileChunks.ConnectedToPeer.AddToChunkCollector | src/simple/simplePeer/behaviors/connectedToPeer.ts:36-69 | ties the collector and the full message to the collector before and the chunk |
| FileChunks.SortEntries | src/simple/simplePeer/behaviors/connectedToPeer.ts:58-62 | the payloads in ascending order of their chunk numbers |
| FileChunks.AddExact | src/simple/simplePeer/behaviors/connectedToPeer.ts:36-69 | what any chunk does, genuine or not: kept under its number; emitted, in ascending order of the numbers, and forgotten exactly when as many numbers are held as it says; other files untouched |
| FileChunks.MessagesAreGenuine | src/simple/simpleUtils.ts:69-99 | every message cut from a file is received as the chunk with its number and payload |
| FileChunks.FullMessagesAreFiles | src/simple/simplePeer/behaviors/connectedToPeer.ts:54-68 | for any order, repeats and other files interleaved, a full message is the original payload |
| FileChunks.EmittedIffAllArrived | src/simple/simplePeer/behaviors/connectedToPeer.ts:36-69 | a file is emitted once every one of its chunks has arrived, and not before |
| FileChunks.EmittedAtMostAsArrived | src/simple/simplePeer/behaviors/connectedToPeer.ts:36-69 | over any run a file is emitted at most as often as any one of its chunks arrives |
| FileChunks.EmissionBoundIsAttained | src/simple/simplePeer/behaviors/connectedToPeer.ts:36-69 | for every file and every n, arrivals in which each chunk arrives n times emit it n times |
| Pipeline.EmittedIsTheFile | src/simple/simplePeer/behaviors/connectedToPeer.ts:36-123 | over every run of the transport, each full message emitted is, byte for byte, the file of its name |
| Pipeline.EmittedIffChunksDelivered | src/simple/simplePeer/behaviors/connectedToPeer.ts:71-123 | over every run, a file is emitted if and only if the transport has handed over each of its chunks |
| Pipeline.FinishedFileIsEmitted | src/simple/simplePeer/behaviors/connectedToPeer.ts:80-123 | once the sender has finished every chunk message, none evicted or over 10 MiB, the file has been emitted |
| FileRuns.RunKeepsDelivered | src/transport/session/behaviors/connected.ts:130-134 | what has been delivered stays delivered |
| FileRuns.EmittingRun | src/simple/simplePeer/behaviors/connectedToPeer.ts:71-90 | a run that sends the chunk messages of a file one after the other and emits it |
| FileRuns.FileThreshold | src/simple/simplePeer/behaviors/connectedToPeer.ts:71-123 | a file can be emitted in some run if and only if each of its serialized chunk messages has 1 byte to 10 MiB |
| Handshake.Session.HandleMessage | src/transport/session/behaviors/connecting.ts:27-41 | the answers and shifts of a session, by its state and the type of the message |
| Handshake.Session.OnRetryInterval | src/transport/session/behaviors/connecting.ts:16-25 | a HELLO, one retry less, and closing when none is left |
| Handshake.Session.OnClosingTurn | src/transport/session/behaviors/closing.ts:14-28 | one of five FINs, or the shift to closed |
| Handshake.TransceiverIPv4.OnRawMessage | src/transport/transceiver.ts:231-260 | what does not decode is dropped; known types only, a new session only for a HELLO and below the limit |
| Handshake.SentIsReceived | src/transport/session/session.ts:42-48 | the one datagram a session sends for a message type is received as that type |
| Handshake.TransceiverIPv4.CreateSession | src/transport/transceiver.ts:198-229 | refused exactly if the session exists or the limit is reached |
| Handshake.HandshakeSound | src/transport/session/behaviors/connecting.ts:27-41 | in every run, a is connected to b only if a has received an answer of b, b what it answered, and one of them a HELLO |
| Handshake.TalkAfterHandshake | src/transport/session/session.ts:50-53 | no data, ack or keep-alive is ever on the network before datagrams got through in both directions |
| Handshake.DeliveryToSession | src/transport/session/behaviors/connecting.ts:27-41 | in a run: what each message does to a session and what it answers, by the session's state; no other session is affected |
| Handshake.ConnectedUntilFin | src/transport/session/behaviors/connected.ts:159-174 | in a run: a connected session stays so on every message but a FIN, on which it is closing |
| Handshake.DeliveryToStranger | src/transport/transceiver.ts:231-260 | in a run: a peer without a session gets one, connecting, if and only if it says HELLO and there are fewer than 1,024; the others are untouched |
| Handshake.TwoCanConnect | src/transport/session/behaviors/connecting.ts:16-41 | from any state, two transceivers with room and no session with each other can both become connected |
| Handshake.FinsRunOut | src/transport/session/behaviors/closing.ts:14-28 | a session that closes sends exactly five FINs and is then closed |
| Handshake.ClosingEnds | src/transport/transceiver.ts:213-221 | in a run: it stays in the map for its FINs and is out of it once closed |
| Handshake.SessionsBounded | src/transport/transceiver.ts:249-256 | in every run no transceiver has more than 1,024 sessions, and none is kept idle or closed |
| Handshake.StepFollowsGraph | src/transport/session/sessionMeta.ts:18-25 | every step moves sessions along the transition graph; they leave the map only from closing |
| Handshake.RetriesRunOut | src/transport/session/behaviors/connecting.ts:16-25 | an unanswered session sends exactly 10 HELLOs and is then closing |
| Handshake.HalfOpenStuck | src/transport/session/behaviors/connecting.ts:31-40 | once a is connected and its answers are lost, b cannot connect as long as a stays connected |
| Handshake.HalfOpenReachable | src/transport/session/behaviors/connecting.ts:31-40 | a run that leads there |
| Handshake.ConnectsIffAnswerUnderWay | src/transport/session/behaviors/connecting.ts:31-40 | with a connected and b connecting, b can join a that stays if and only if an answer of a is under way |
| Relay.ParsedIff | src/simple/simpleRelay.ts:15-77 | a request is accepted from exactly the messages of 1 to 1,024 bytes that say it, with two different well-formed tags, and a key if encrypted |
| Relay.SimpleRelay.OnReceiveFromPeer | src/simple/simpleRelay.ts:168-181 | a message that is not an acceptable request changes nothing, any other is processed |
| Relay.SimpleRelay.ProcessSessionRequest | src/simple/simpleRelay.ts:183-282 | the table and the two introductions after a request: matched with a fresh reverse request, else stored if there is room |
| Relay.SimpleRelay.RemoveExpiredRequest | src/simple/simpleRelay.ts:153-158 | one turn of the clean-up loop: what it deletes and which session it closes |
| Relay.SimpleRelay.OnSessionClosed | src/simple/simpleRelay.ts:161-166 | the loop removes exactly the requests of that peer |
| Relay.StoredIff | src/simple/simpleRelay.ts:192-221 | a request is pending after it was asked if and only if no fresh reverse one is and its key was pending or fewer than 10,000 others were; the reverse one is gone, the rest untouched |
| Relay.TwoPeersMeet | src/simple/simpleRelay.ts:183-282 | a stored request followed by the reverse one while fresh is matched with it, both peers are told of each other, and neither stays pending |
| Relay.TwoPeersMeetAtOnce | src/simple/simpleRelay.ts:183-282 | so any two peers with sessions and reverse requests less than the limit apart are introduced |
| Relay.AskKeepsUsedOnce | src/simple/simpleRelay.ts:204-224 | no request is used in two matches, and none still pending in one |
| Relay.NewMatchOk | src/simple/simpleRelay.ts:245-281 | a match joins two requests for each other, the stored one younger than the limit; each peer is told the other's tag, address, encryption and key, with the same salt and verdict |
| Relay.RunInv | src/simple/simpleRelay.ts:148-282 | after any events: never a request and its reverse pending, at most 10,000 pending, each peer still with its session, no request used twice, every match as above |
| Relay.PendingMeaning | src/simple/simpleRelay.ts:148-221 | what is pending is what the history says: stored by its event, and neither repeated, matched, expired nor closed since |
| Relay.MatchedIff | src/simple/simpleRelay.ts:192-224 | a request is matched with an earlier one exactly when that one asked the reverse, is still pending and is younger than the limit |

## Left out

- UDP sockets, binding, socket errors and promises: I/O. The network is the set of datagrams ever sent in `Protocol`, and a set that can also shrink in `Handshake`. An exception thrown by a send is not modelled.
- The state machine library: shifts of a session's state are atomic. Only whether a new session has entered `connecting` when it handles its first message is left open.
- Clocks and timers: times are inputs, a timer may go off at any step. When keep-alives are sent and time out is not modelled; a time-out is a close at any step.
- Encryption, key derivation and random generation: the plaintext path is modelled; uids, salts and generated file names are inputs. Uids are taken to be distinct; in runs, registering a uid a second time does nothing.
- JSON: messages are records, and what `JSON.parse` makes of a request is an input of the relay. In `Pipeline`, `serialize` and `parse` are parameters of which only "parsing gives back the message" and "no serialization is empty" are assumed.
- Relay proxies, closing the relay, key files, command line programs, logging, progress events and the life of a `SimplePeer`: glue.
- Protocol: one direction of data in one session, after the handshake; the other direction is the same code with the roles exchanged.
- Protocol.CorruptionIsHarmless: covers detectable errors that keep the length of a datagram; undetectable ones break the theorems on runs, as `Missed.FinishedByMissedError` shows.
- FileRuns.FileThreshold: files have at most 2^32 chunks, since no uid is used twice in the runs.
- MessageBuffer.ConstructBuffers: asks for fewer than 2^32 chunks, since larger totals do not fit the header (the program's write would throw); a string payload is taken as its bytes.
- Sender.Transmission: is created with its datagrams (`register` is part of its constructor), and the asynchronous resend loop is cut at its pauses into `OnResendTimer` and `ContinueResend`, with the loop variable as a field.
- Relay.SimpleRelay.RemoveExpiredRequest: is one turn of the clean-up loop, because other events come between the turns; the order in which the map is traversed is not modelled.
- FileChunks: chunk numbers and totals are integers, and chunks in the theorems are those of known files, each name standing for one file with one chunk length.
