# A verified model of the sponge TCP/IP stack

The project models the protocol core of the network stack in `libsponge` and proves what
it is for: that a byte stream written at one end of a TCP connection comes out unchanged,
in order and exactly once at the other end, over a network that loses, repeats, reorders
and delays packets; that an endpoint which considers itself finished is right; that a
routing trie answers like a linear scan; that an ARP queue neither loses nor invents
datagrams; and that the wire formats can be read back.

## How the model is built

Each stateful class of the program is a Dafny class with the program's own fields and
loops, and each of its methods is proved equal to a step of a value model (`View()` of the
new state is a function of `View()` of the old one). The theorems are about the value
models, so they hold of every sequence of calls.

| layer | value model and theorems | program |
|---|---|---|
| sequence numbers | `WrappingIntegers` | |
| byte stream | `ByteStreams` | `ByteStreams.ByteStream` |
| reassembler | `Reassembly` | `StreamReassemblers` (a ring buffer) |
| receiver | `Receivers` | `Receivers.TCPReceiver` |
| sender, timer, Reno | `SenderModel`, `SenderInvariants`, `SenderRuns`, `SenderHistory`, `SenderEffects` | `Senders` |
| connection | `ConnectionModel` | `Connections` |
| two connections and a network | `Links`, `Endpoints`, `TwoEndpoints` (safety), `Recency`, `Progress`, `NetworkCopies`, `Completion` (progress), `EndpointHistories`, `Answers`, `ConnectionEffects` (exact effects) | |
| reachable examples | `Witnesses` | |
| longest-prefix match | `RoutingTries` | `RoutingTries.RoutingTrie` (linked nodes) |
| ARP | `ArpModel`, `ArpExchanges` | `NetworkInterfaces` |
| wire formats | `Checksums`, `NetParsers`, `TcpWire`, `Ipv4Wire`, `WireLayouts` | the same modules |

The main theorems are `TwoEndpoints.EndToEnd`, `Completion.DeliveryIsAlwaysPossible`,
`Completion.ClosingIsAlwaysPossible`, `EndpointHistories.EndpointsHaveHistories`,
`ConnectionEffects.WindowNeverShrinks`, `ConnectionEffects.GivesUpOnTime`,
`ConnectionEffects.LingersLongEnough`, `ConnectionEffects.NeverHoldsBack`,
`SenderHistory.RunKeepsInv`, `Reassembly.RunAssemblesWhatWasReceived`,
`StreamReassemblers.StreamReassembler.PushSubstring`, `RoutingTries.LookupEqualsScan`,
`ArpModel.RunKeepsInv`, `ArpExchanges.Resolution`, `WrappingIntegers.UnwrapExact`,
`Ipv4Wire.TcpInIpRoundTrip` and `WireLayouts.SegmentAcceptedIff`.

In the two-endpoint world either endpoint may at any time connect, write, end its stream,
read, let time pass, put its queued packets on the network, or receive any packet that was
ever put on the network. The network is the set of all packets sent, so a packet may arrive
never, once or often, in any order. Three conditions limit a run:

- A delivered packet does no harm if its 32-bit numbers are misread. A sequence number is
  read correctly, or stands for a place outside the receive window in a packet without a
  FIN. An acknowledgment number stands for something not yet sent, which the sender ignores,
  or for something that the peer does have. `WrappingIntegers.UnwrapExact` says exactly when a
  number is read back; `TwoEndpoints.FreshIsHarmless` covers all packets that are read
  correctly. `TwoEndpoints.EndToEndShort` has no condition on packets, for streams shorter
  than 2^31 - 2 bytes, and `Recency.AnswersAreFresh` proves that every answer is read
  correctly at the moment it is queued, however long the streams are.
- A stream stays shorter than 2^64 - 4 bytes, so that 64-bit counters do not overflow.
- No byte is accepted from the application after the FIN has been sent. The byte stream
  does accept writes after its end: `TwoEndpoints.LateWriteIsLost` shows that this is exactly
  when the peer's finished output is no longer what was written, and
  `Witnesses.TooLateReached` that it can happen.

## Where the code differs from its documentation or tests

The model follows the code.

- `unwrap` adds and subtracts `1 << 31`, a negative number, so its two candidates come in
  the opposite order of their names. Of two equally near numbers it returns the larger; the
  documentation leaves that open.
- Slow start adds the number of acknowledged sequence numbers, so the acknowledgment of the
  SYN adds one byte (`SenderHistory.SlowStartAddsWhatIsAcked`; `Witnesses.OneSegmentOut` reaches
  the window of 1001 bytes), where `tests/send_congestion.cc:74` expects a whole segment.
- On leaving fast recovery the window is set to the threshold and then grows in the same
  call, so it ends at the threshold only for small acknowledgments
  (`SenderHistory.RecoveryExit`); `Witnesses.RecoveryExitReached` runs a new sender with one
  full segment outstanding into recovery and ends above the threshold, where
  `tests/send_congestion.cc:166`, with two segments, expects the threshold.
- An old acknowledgment still replaces the window (`SenderRuns.AckKeeps`) and the last
  acknowledgment number (`SenderHistory.AcknowledgeEffect`), although the comment at
  `libsponge/tcp_sender.cc:107` says it is ignored.
- The check that suppresses an empty acknowledgment looks at the connection's queue, which
  at that point holds no new segment; so packets queued earlier suppress it. And an endpoint
  that closes passively does not answer the segment it closes on. `Answers.UnansweredSegment`
  says exactly which segments get no answer, and `Witnesses.UnansweredReached` gives a
  reachable one.
- `TCPSegment::parse` and `IPv4Datagram::parse` drop the verdict of the header parser and
  look only at the parser's own error flag, so a TCP data offset below five or a bad IPv4
  header checksum is accepted (`TcpWire.SegmentAccepted` with `TcpWire.ShortOffsetExample`,
  `Ipv4Wire.DatagramAccepted` with `Ipv4Wire.BadChecksumExample`).

## Model

| member | source | states |
|---|---|---|
| `TwoEndpoints.EndToEnd` | libsponge/tcp_connection.cc:23-175 | In every run of two fresh endpoints over a losing, repeating, reordering network whose packets are not misread with harm: no exception is thrown, each side's output is a prefix of what the other wrote, an ended output is the whole finished stream, a sender in FIN_ACKED and a clean shutdown mean full delivery |
| `TwoEndpoints.EndToEndShort` | libsponge/tcp_connection.cc:23-175 | The same without any assumption about the network, when each side writes less than 2^31 - 2 bytes: any packet ever sent may arrive at any time |
| `TwoEndpoints.DeliveryIsSafe` | libsponge/tcp_connection.cc:23-135 | In every reachable world both outputs are prefixes of the peer's input, and end only with it |
| `TwoEndpoints.CloseAgreement` | libsponge/tcp_helpers/tcp_state.cc:94-110 | A sender whose summary is FIN_ACKED has been delivered whole, and the receiver has seen the end |
| `TwoEndpoints.CleanShutdownIsComplete` | libsponge/tcp_connection.cc:57-69 | If either endpoint is inactive without an error, both streams are delivered whole in both directions |
| `TwoEndpoints.PassiveCloseIsSafe` | libsponge/tcp_connection.cc:63-69 | An endpoint that closes without lingering does so only when the peer's own stream, FIN included, has been acknowledged to the peer |
| `TwoEndpoints.StepKeepsInv` | libsponge/tcp_connection.cc:23-175 | The world invariant survives every operation of either endpoint, and the reassembler never throws |
| `TwoEndpoints.RunKeepsInv` | libsponge/tcp_connection.cc:23-175 | The invariant holds after any legal run |
| `TwoEndpoints.RunNeverThrows` | libsponge/stream_reassembler.cc:26-36 | Neither exception of the reassembler is reachable between two endpoints of this program |
| `TwoEndpoints.Start` | libsponge/tcp_connection.hh:13-28 | Two fresh endpoints with any settings satisfy the invariant |
| `TwoEndpoints.DeliverKeepsInv` | libsponge/tcp_connection.cc:23-84 | Receiving any harmless packet ever sent, reset or not, keeps the invariant |
| `TwoEndpoints.DeliverData` | libsponge/tcp_connection.cc:35-84 | The same for a segment that is not a reset, for both directions at once |
| `TwoEndpoints.TakeAckKeepsLink` | libsponge/tcp_connection.cc:42-44 | After an acknowledgment that is ignored or taken for a number the peer has, the sender has still released only what the peer's receiver acknowledged; one for everything releases everything |
| `TwoEndpoints.AckDecodes` | libsponge/tcp_sender.cc:79-80 | A fresh acknowledgment number is decoded to the number the receiver meant, and is never rejected |
| `TwoEndpoints.FreshIsHarmless` | libsponge/wrapping_integers.cc:30-38 | Every packet whose numbers are read correctly is harmless |
| `TwoEndpoints.LateWriteIsLost` | libsponge/byte_stream.cc:18-23 | Once the peer has seen the end, a write leaves its output equal to what was written if and only if it adds no byte after the sent FIN |
| `TwoEndpoints.OwnStep` | libsponge/tcp_connection.cc:88-135 | Any operation that evolves one endpoint in the permitted way keeps the invariant of both directions |
| `TwoEndpoints.ShortStreamsAreFresh` | libsponge/wrapping_integers.cc:30-38 | While both streams are shorter than 2^31 - 2 bytes, every packet ever sent is fresh |
| `TwoEndpoints.LooseIsLegal` | libsponge/wrapping_integers.cc:30-38 | With short streams every delivery is a legal step, and the streams stay short |
| `TwoEndpoints.StreamStep` | libsponge/byte_stream.cc:18-23 | Only a write makes the outbound stream longer |
| `EndpointHistories.EndpointsHaveHistories` | libsponge/tcp_connection.cc:23-162 | In every run the sender of either endpoint is in a state of some sender run that started with it, with the same silence; so sequence space, back-off, recovery and first transmissions hold of endpoints |
| `EndpointHistories.StepFollows` | libsponge/tcp_connection.cc:23-162 | Every endpoint operation is a sequence of sender operations, and resets the silence exactly when an acknowledgment releases something |
| `EndpointHistories.ResetMeansSilence` | libsponge/tcp_connection.cc:96-109 | In every run an active endpoint that resets on a tick has seen at least 511 initial timeouts of ticks since an acknowledgment last released anything |
| `Recency.StepSettles` | libsponge/tcp_connection.cc:23-175 | Between operations at most one 16-bit window is in flight, everything sent has been handed over, and an active endpoint that does not linger still waits for an acknowledgment |
| `Recency.AnswersAreFresh` | libsponge/tcp_connection.cc:50-84 | Every answer to a segment is fresh for the peer when it is queued, whatever the lengths of the streams |
| `Recency.RecentSeqIsFresh` | libsponge/tcp_receiver.cc:19-21 | A number not yet acknowledged is decoded correctly by the receiver |
| `Recency.NewestAckIsFresh` | libsponge/tcp_sender.cc:79 | The current acknowledgment number is decoded correctly by the sender |
| `Recency.AckBounds` | libsponge/tcp_sender.cc:78-126 | What an acknowledgment makes the sender send is outstanding, and stays within one window |
| `Completion.DeliveryIsAlwaysPossible` | libsponge/tcp_connection.cc:23-135 | After any run, if one side has finished writing and has not failed and the other is active, some continuation delivers the whole stream, of any length, and brings the sender to FIN_ACKED |
| `Completion.ClosingIsAlwaysPossible` | libsponge/tcp_connection.cc:57-122 | After any run, if both sides are active and have finished writing, some continuation delivers both streams whole and makes both endpoints inactive without an error |
| `Completion.LingerEnds` | libsponge/tcp_connection.cc:114-121 | With both streams acknowledged an endpoint that is still active lingers, and stops after ten timeouts |
| `Completion.UsableCopy` | libsponge/tcp_sender.cc:60-68 | While something is outstanding, a copy of the oldest segment of one side or the other exists that its receiver takes without harm |
| `Completion.Advance` | libsponge/tcp_connection.cc:23-84 | So one of the two directions always moves on, and what is left of both together shrinks |
| `Completion.RunKeepsAcked` | libsponge/tcp_sender.cc:85-95 | A stream acknowledged whole stays so in every run |
| `Completion.Completes` | libsponge/tcp_connection.cc:23-135 | The schedule exists: round after round the unacknowledged rest of both streams shrinks until the one is done, without a failure |
| `Completion.OneRound` | libsponge/tcp_connection.cc:23-84 | Draining the queues, reading the input and delivering the oldest segment and its acknowledgment strictly shrinks the rest of that stream and leaves the other no worse |
| `Completion.FillOrDone` | libsponge/tcp_sender.cc:32-74 | Filling the window of a finished stream leaves something outstanding unless everything is acknowledged |
| `NetworkCopies.RunKeepsWorld` | libsponge/tcp_connection.cc:164-175 | In every run each outstanding segment of an endpoint that has not failed has an equal copy queued or on the network, and fits the peer's buffer |
| `NetworkCopies.StepKeepsWorld` | libsponge/tcp_connection.cc:23-175 | One step of that invariant |
| `NetworkCopies.StepKeepsTimely` | libsponge/tcp_connection.cc:164-175 | Of two outstanding segments, one from either side, one always has a copy that acknowledges all but the last window before the other |
| `NetworkCopies.TimelyAfter` | libsponge/tcp_sender.cc:60-72 | Because a segment sent for the first time carries the acknowledgment of the moment, and no older copy of it exists |
| `NetworkCopies.FillSendsOnly` | libsponge/tcp_sender.cc:60-68 | Filling makes nothing outstanding that it does not also send, and no payload exceeds the peer's buffer |
| `NetworkCopies.FlushKeepsCopies` | libsponge/tcp_connection.cc:164-175 | Moving segments to the connection's queue loses none of them |
| `Progress.OldestIsAcknowledged` | libsponge/tcp_connection.cc:23-84 | A delivered segment that covers the oldest unacknowledged number and fits is answered by an acknowledgment for all of it |
| `Progress.OldestIsReleased` | libsponge/tcp_sender.cc:78-126 | That acknowledgment, delivered, releases the oldest segment, strictly shrinks the rest to be acknowledged and clears the count of retransmissions |
| `Progress.RoundTrip` | libsponge/tcp_connection.cc:23-84 | The two together: one round trip, whose answer is always fresh, advances the sender |
| `Progress.NeverStuck` | libsponge/tcp_sender.cc:78-126 | After an acceptable acknowledgment either something is outstanding, so the timer runs, or everything written has been sent and a finished stream acknowledged |
| `ConnectionEffects.ResetTakesEffect` | libsponge/tcp_connection.cc:30-33 | A segment with RST fails both streams, deactivates and stops lingering in every state; it is not answered and costs or adds no byte |
| `ConnectionEffects.FailsIff` | libsponge/tcp_connection.cc:23-135 | In every reachable world a step fails its endpoint if and only if it delivers a reset or is the tick that gives up |
| `ConnectionEffects.GivesUpIff` | libsponge/tcp_connection.cc:96-109 | A tick fails an endpoint if and only if the timer expires with something outstanding, an open window and eight retransmissions behind it; then exactly one packet is queued, an empty reset with the next number |
| `ConnectionEffects.GivesUpOnTime` | libsponge/tcp_connection.cc:96-109 | Ticking millisecond by millisecond without an answer, an endpoint has given up after n of them if and only if n is at least 511 initial timeouts |
| `ConnectionEffects.ProbesNeverGiveUp` | libsponge/tcp_sender.cc:143-147 | With the peer's window closed no series of ticks fails the endpoint or counts as an attempt |
| `ConnectionEffects.ExceptionLeavesTheRest` | libsponge/tcp_connection.cc:35-44 | A segment throws if and only if it contradicts what was received; then no acknowledgment is taken, no flag changes, nothing is queued and the output is as before |
| `ConnectionEffects.ApplicationTakesEffect` | libsponge/tcp_connection.cc:88-135 | A write appends what fits the buffer, the end is noted, a read takes what there is, and opening changes no byte |
| `ConnectionEffects.StepIsPrompt` | libsponge/tcp_connection.cc:23-135 | No step of an opened endpoint leaves it with something unsent while both windows have room |
| `ConnectionEffects.NeverHoldsBack` | libsponge/tcp_connection.cc:23-135 | So in every run: whatever an endpoint that sent its SYN has not sent waits for the peer's window or the congestion window |
| `ConnectionEffects.FlushInOrder` | libsponge/tcp_connection.cc:164-175 | Segments are queued in the order the sender made them, behind earlier ones, unchanged but for acknowledgment and window |
| `ConnectionEffects.WindowNeverShrinks` | libsponge/tcp_connection.cc:168-172 | In every run a newly queued packet acknowledges at least as much as any packet before it, and its window reaches at least as far |
| `Endpoints.StampIsNew` | libsponge/tcp_connection.cc:168-172 | A stamped segment carries the current acknowledgment number, and as its window the free room of the receive buffer or 65535 if that is less |
| `ConnectionEffects.SegmentFlags` | libsponge/tcp_connection.cc:25-69 | What a segment does to the flags, both ways: lingering ends exactly if the peer's end is in before the own FIN is out; an endpoint that does not linger stops exactly if it now has everything acknowledged; the clock restarts |
| `ConnectionEffects.StopsIff` | libsponge/tcp_connection.cc:114-121 | A tick ends an active endpoint without an error if and only if it lingers, both streams are done, and ten initial timeouts have passed since the last segment |
| `ConnectionEffects.RunCountsTime` | libsponge/tcp_connection.cc:25-97 | In every run the time since the last segment is the sum of the ticks since the last delivery to that endpoint |
| `ConnectionEffects.LingersLongEnough` | libsponge/tcp_connection.cc:114-121 | In every run an active endpoint goes in peace on a tick if and only if it lingers with both streams done and its ticks since the last delivery add up to ten initial timeouts |
| `Answers.UnansweredSegment` | libsponge/tcp_connection.cc:23-84 | A segment that occupies sequence numbers gets no answer if and only if it is a reset, contradicts earlier data, ends a passive close, or has an acknowledgment that makes the sender send nothing while packets are queued and no handshake starts |
| `Answers.EmptySegmentAnswered` | libsponge/tcp_connection.cc:35-84 | An empty segment never throws, and is answered if and only if it does not end a passive close and makes the sender send, starts a handshake, finds the sender's queue not empty, or repeats the number before the one expected |
| `Answers.SummariesMean` | libsponge/tcp_helpers/tcp_state.cc:82-110 | The three pairs of summaries that a connection looks at, in terms of the flags and counters behind them |
| `Answers.AckSendsIff` | libsponge/tcp_sender.cc:78-126 | An acknowledgment makes the sender send if and only if it is acceptable and is the third duplicate or leaves room for something not yet sent |
| `Answers.FillSendsIff` | libsponge/tcp_sender.cc:36-58 | Filling sends if and only if there is room and something to send, be it a SYN, bytes or a FIN |
| `Answers.PopLeaves` | libsponge/tcp_sender.cc:85-95 | What stays in flight after releasing from the front are exactly the segments that end after the acknowledged number |
| `Answers.RoomAfter` | libsponge/tcp_sender.cc:85-124 | The room left by an acknowledgment, in the counters before it |
| `Answers.FinishesIff` | libsponge/tcp_sender.cc:85-95 | A segment leaves the stream acknowledged whole if and only if it was before or the segment acknowledges the next number after a sent FIN |
| `Witnesses.UnansweredReached` | libsponge/tcp_connection.cc:46-47 | For any settings a run exists after which the peer's SYN, legally delivered, gets no answer and nothing queued acknowledges it |
| `Witnesses.RecoveryExitReached` | tests/send_congestion.cc:163-166 | A run of a new sender enters recovery with a threshold of 2000, and its next acknowledgment leaves a window of 2500 |
| `Witnesses.OneSegmentOut` | tests/send_congestion.cc:73-74 | A run of a new sender through the handshake leaves a window of 1001 bytes |
| `Witnesses.TooLateReached` | libsponge/byte_stream.cc:18-23 | For any settings a run of a new sender exists after which a write breaks the sequence space |
| `Links.LinkBounds` | libsponge/tcp_receiver.cc:25-30 | The receiver acknowledges at most what was sent; its output is a prefix of the sender's stream; it has ended exactly when a sent FIN is acknowledged |
| `Links.LinkReceive` | libsponge/tcp_receiver.cc:13-23 | A truthful segment that is read correctly or ignored, even before the SYN or a duplicate, is accepted without an exception and keeps sender and receiver in agreement |
| `Links.OutsideIsIgnored` | libsponge/stream_reassembler.cc:24-48 | A segment without a FIN whose number stands for a place outside the window changes nothing at all |
| `Links.ReceivePlaces` | libsponge/tcp_receiver.cc:19-22 | The stream index computed from 32 bits is the position the sender cut the payload from |
| `Links.ReceiveCompletes` | libsponge/tcp_receiver.cc:13-30 | A segment that starts at or before the acknowledged number and fits the window is acknowledged to its end |
| `Links.SenderMoves` | libsponge/tcp_sender.cc:32-152 | Whatever the sender does in its own space keeps the agreement with the receiver |
| `Endpoints.FlushEvolves` | libsponge/tcp_connection.cc:164-175 | Every queued packet tells the truth about the sender's stream and acknowledges what the receiver has at that moment |
| `Endpoints.TickEvolves` | libsponge/tcp_connection.cc:96-122 | A clock tick keeps what was sent truthful and the flags consistent, whether it retransmits, gives up or stops lingering |
| `Endpoints.RespondEvolves` | libsponge/tcp_connection.cc:50-84 | The response to a segment does the same, and makes the endpoint inactive only on a finished passive close |
| `Endpoints.TakeAckEvolves` | libsponge/tcp_connection.cc:42-48 | An acknowledgment only moves the sender forward and takes over the advertised window or leaves it |
| `Endpoints.WriteEvolves` | libsponge/tcp_connection.cc:88-93 | A write that does not add bytes after a sent FIN extends the stream and queues only truthful packets |
| `Endpoints.EndEvolves` | libsponge/tcp_connection.cc:124-129 | Ending the stream changes none of its bytes and queues only truthful packets |
| `Endpoints.ConnectEvolves` | libsponge/tcp_connection.cc:131-135 | Connecting queues only truthful packets |
| `Endpoints.ResetEvolves` | libsponge/tcp_connection.cc:150-162 | A reset fails both streams and leaves the sequence space sound |
| `Endpoints.AllAckedStays` | libsponge/tcp_sender.cc:85-95 | A stream acknowledged whole stays so |
| `ConnectionModel.SummaryMeaning` | libsponge/tcp_helpers/tcp_state.cc:94-110 | Each sender summary, computed from counters, holds exactly when the SYN or FIN it names was sent or acknowledged |
| `Connections.TCPConnection.constructor` | libsponge/tcp_connection.hh:13-28 | A new connection is the initial state of the model, and owns its parts |
| `Connections.TCPConnection.OnSegment` | libsponge/tcp_connection.cc:23-84 | Receiving a segment is the model's step, including the exception of the reassembler; a reset deactivates, fails both streams and queues nothing. What the step does to flags, streams and queue: `ConnectionEffects.ResetTakesEffect`, `ConnectionEffects.SegmentFlags`, `Answers.UnansweredSegment`, `Answers.EmptySegmentAnswered` |
| `Connections.TCPConnection.TakeAckOf` | libsponge/tcp_connection.cc:42-44 | The acknowledgment part of it |
| `Connections.TCPConnection.RespondTo` | libsponge/tcp_connection.cc:50-84 | The handshake, closing and answering part of it |
| `Connections.TCPConnection.CloseOrAnswerTo` | libsponge/tcp_connection.cc:57-84 | Passive close, or an answer |
| `Connections.TCPConnection.CheckEmptyAck` | libsponge/tcp_connection.cc:39-75 | When an empty acknowledgment is called for |
| `Connections.TCPConnection.Answer` | libsponge/tcp_connection.cc:77-83 | Sends it and everything the sender has queued |
| `Connections.TCPConnection.Write` | libsponge/tcp_connection.cc:88-93 | For every write the stream takes as much as fits, returns how much, and the window is filled; the invariant survives unless bytes were added after a sent FIN |
| `Connections.TCPConnection.FillAndFlush` | libsponge/tcp_connection.cc:131-135 | Filling and flushing from any state at all are the model's |
| `Connections.TCPConnection.Read` | libsponge/tcp_connection.hh:58 | Reading the inbound stream is the model's read, and returns the bytes it removes |
| `Connections.TCPConnection.TakeSegments` | libsponge/tcp_connection.hh:87 | The owner gets the whole queue in order, and it is empty afterwards |
| `Connections.TCPConnection.Tick` | libsponge/tcp_connection.cc:96-122 | Time passes as in the model: retransmission, giving up, or the end of lingering |
| `Connections.TCPConnection.GiveUp` | libsponge/tcp_connection.cc:103-109 | The pending retransmission is discarded and a reset queued instead |
| `Connections.TCPConnection.StopLingering` | libsponge/tcp_connection.cc:114-121 | Ends an active close exactly when both streams are done and ten timeouts have passed |
| `Connections.TCPConnection.CheckBothDone` | libsponge/tcp_connection.cc:115-117 | Both summaries are final |
| `Connections.TCPConnection.EndInputStreamNow` | libsponge/tcp_connection.cc:124-129 | Ends the stream and fills the window |
| `Connections.TCPConnection.ConnectNow` | libsponge/tcp_connection.cc:131-135 | Fills the window for the first time |
| `Connections.TCPConnection.SetRstState` | libsponge/tcp_connection.cc:150-162 | Fails both streams, deactivates, and queues a reset if asked to |
| `Connections.TCPConnection.AddAcknoAndWindowToSend` | libsponge/tcp_connection.cc:164-175 | Moves all segments in order (`ConnectionEffects.FlushInOrder`), each stamped with the current acknowledgment and window (`Endpoints.StampIsNew`) |
| `Connections.TCPConnection.StampOne` | libsponge/tcp_connection.cc:168-172 | Stamps one segment; its window is the free room of the receive buffer, or 65535 if that is less |
| `Connections.TCPConnection.ReceiverSummaryOf` | libsponge/tcp_helpers/tcp_state.cc:82-92 | The receiver's summary |
| `Connections.TCPConnection.SenderSummaryOf` | libsponge/tcp_helpers/tcp_state.cc:94-110 | The sender's summary |
| `SenderEffects.InFlightBound` | libsponge/tcp_sender.cc:165-172 | Filling never has more in flight than the peer's window, one if it is closed, and with congestion control never more than the congestion window |
| `SenderEffects.FullSegments` | libsponge/tcp_sender.cc:44-48 | Every segment that filling sends has 1000 bytes of payload, except perhaps the last |
| `SenderEffects.ProbesKeepPace` | libsponge/tcp_sender.cc:129-151 | With a closed window the oldest segment is repeated in n milliseconds exactly as often as the unchanged timeout fits into them, and no attempt is counted |
| `SenderEffects.BackoffSchedule` | libsponge/tcp_sender.cc:129-151 | With an open window, n milliseconds without an acknowledgment are the initial timeout times 2^k - 1 plus the clock, k being the number of times the oldest segment was repeated; the timeout is then 2^k times the initial one |
| `SenderEffects.SlowStartAfterTimeout` | libsponge/tcp_sender.cc:222-228 | After a timeout the threshold is half the window, at least 2000, recovery is off, and acknowledgments up to the threshold leave the window at 1000 plus all they acknowledge |
| `SenderEffects.SlowStartFromNew` | libsponge/tcp_sender.hh:83-93 | A new sender's window is 1000 plus everything acknowledged, as far as 64 bits go |
| `SenderEffects.AvoidanceStep` | libsponge/tcp_sender.cc:186-191 | From the threshold on the window grows by the largest whole d with d times the window at most 1000 times the bytes acknowledged |
| `SenderEffects.ThirdDuplicateHalves` | libsponge/tcp_sender.cc:206-214 | The third duplicate sets the threshold to half the window, at least 2000, and the window to 3000 more, and queues the oldest segment before anything new |
| `SenderHistory.RunKeepsInv` | libsponge/tcp_sender.cc:32-161 | In every run of a sender: outstanding segments tile the unacknowledged numbers, every segment carries the excerpt its number stands for, first transmissions cover the stream once and in order, the timer runs exactly while something is outstanding with a timeout doubled per retransmission, and fast recovery is on exactly from the third duplicate on |
| `SenderHistory.StepKeepsInv` | libsponge/tcp_sender.cc:32-161 | One step of it; the stream, what was sent and the flags only grow |
| `SenderHistory.Start` | libsponge/tcp_sender.cc:22-28 | A new sender satisfies the invariant |
| `SenderHistory.StepKeepsFirst` | libsponge/tcp_sender.cc:32-126 | First transmissions join up to exactly the bytes read from the stream; what is outstanding is their tail |
| `SenderHistory.StepOutput` | libsponge/tcp_sender.cc:60-152 | Every step outputs at most one copy of the then oldest segment, followed by new segments only |
| `SenderHistory.FastRetransmitOnThirdDuplicate` | libsponge/tcp_sender.cc:198-219 | An acknowledgment makes the sender repeat a segment at once if and only if it is the third duplicate |
| `SenderHistory.DupAckRecovery` | libsponge/tcp_sender.cc:198-219 | A counted duplicate keeps the window at the threshold plus one segment per duplicate during recovery, until the 32-bit count wraps |
| `SenderHistory.StepKeepsRecovery` | libsponge/tcp_sender.cc:97-109 | The same over every operation of the sender |
| `SenderHistory.AcknowledgeEffect` | libsponge/tcp_sender.cc:82-121 | Which of the four outcomes (new, duplicate, old, congestion control off) an acknowledgment has for timer, counters and window |
| `SenderHistory.AckEffect` | libsponge/tcp_sender.cc:111-125 | Filling afterwards only starts a stopped timer |
| `SenderHistory.StepKeepsQuiet` | libsponge/tcp_sender.cc:129-152 | The silence since the last progress is at least the sum of all timeouts so far and the time on the timer |
| `SenderHistory.GivingUpTakesTime` | libsponge/tcp_sender.cc:129-152 | A ninth consecutive retransmission comes after at least 511 initial timeouts without progress |
| `SenderHistory.TimeoutIsExact` | libsponge/tcp_sender.cc:143-147 | Up to sixteen retransmissions the 32-bit timeout has not overflowed |
| `SenderHistory.SlowStartAddsWhatIsAcked` | libsponge/tcp_sender.cc:182-186 | Over any series of acknowledgments below the threshold the window grows by exactly the sequence numbers acknowledged |
| `SenderHistory.AvoidanceAddsOneSegment` | libsponge/tcp_sender.cc:186-191 | Any series of acknowledgments that together cover at most one window raises the window by at most one maximal segment, also when it leaves recovery |
| `SenderHistory.SeriesGrowth` | libsponge/tcp_sender.cc:175-191 | The bound for any series, and the window stays at or above the threshold |
| `SenderHistory.RecoveryExit` | libsponge/tcp_sender.cc:175-191 | The first new acknowledgment in recovery leaves the window at the threshold if and only if 1000 times the bytes it acknowledges is less than the threshold |
| `SenderInvariants.FillKeeps` | libsponge/tcp_sender.cc:32-74 | Filling keeps the sequence space sound, touches nothing acknowledged, and starts the timer only if it was stopped and something was sent |
| `SenderInvariants.FillSendsNext` | libsponge/tcp_sender.cc:36-73 | The new segments go to both queues and their payloads join up to the next bytes of the stream, each once |
| `SenderInvariants.FillUsesWindow` | libsponge/tcp_sender.cc:36-73 | The bytes in flight never exceed the larger of their old number and the window, and filling stops only when the window is full or nothing is left to send, FIN included |
| `SenderInvariants.FillCutsWell` | libsponge/tcp_sender.cc:44-58 | Only the last new segment can have a FIN, exactly when the FIN is sent now; nothing follows a FIN; no payload exceeds a maximal segment or the window |
| `SenderInvariants.NextIsTrue` | libsponge/tcp_sender.cc:36-58 | The next segment fits the window and tells the truth about the stream |
| `SenderInvariants.EmitKeeps` | libsponge/tcp_sender.cc:60-72 | Sending it keeps the invariant and leaves the timer running |
| `SenderInvariants.ChainAppend` | libsponge/tcp_sender.cc:67-72 | A segment that starts at the next number extends the tiling |
| `SenderInvariants.ChainLength` | libsponge/tcp_sender.cc:71-72 | The lengths of outstanding segments add up to the bytes in flight |
| `SenderRuns.AckKeeps` | libsponge/tcp_sender.cc:78-126 | An acknowledgment of anything keeps all sender invariants; one for unsent data changes nothing |
| `SenderRuns.AcknowledgeKeeps` | libsponge/tcp_sender.cc:82-124 | The same for everything before the window is filled again |
| `SenderRuns.PopKeeps` | libsponge/tcp_sender.cc:85-95 | Exactly the segments acknowledged whole are released |
| `SenderRuns.RenoKeeps` | libsponge/tcp_sender.cc:175-228 | The window never falls below one maximal segment, nor the threshold below two |
| `SenderRuns.TickKeeps` | libsponge/tcp_sender.cc:129-152 | Time keeps all sender invariants |
| `SenderRuns.DoubledTimeout` | libsponge/tcp_sender.cc:146 | Doubling in 32 bits stays the power of two times the initial timeout, modulo 2^32 |
| `SenderRuns.FillKeepsAll` | libsponge/tcp_sender.cc:32-74 | Filling keeps all sender invariants |
| `SenderRuns.WriteKeeps` | libsponge/byte_stream.cc:18-23 | So does writing before the FIN has been sent |
| `SenderRuns.WriteIsSoundUnlessTooLate` | libsponge/byte_stream.cc:18-23 | A write keeps the invariants if and only if it does not add bytes after the FIN has been sent |
| `SenderRuns.EndKeeps` | libsponge/byte_stream.cc:65 | So does ending the stream |
| `SenderRuns.SendEmptyKeeps` | libsponge/tcp_sender.cc:156-161 | So does an empty segment, which occupies no numbers |
| `SenderRuns.ErrorKeeps` | libsponge/byte_stream.hh:47 | So does failing the stream |
| `SenderRuns.DropOutput` | libsponge/tcp_connection.cc:105 | So does discarding what is queued |
| `Senders.TCPSender.constructor` | libsponge/tcp_sender.cc:22-28 | A new sender is the initial state of the model |
| `Senders.TCPSender.FillWindow` | libsponge/tcp_sender.cc:32-74 | The loop reaches the model's filled state |
| `Senders.TCPSender.SendNext` | libsponge/tcp_sender.cc:37-72 | One round of the loop sends the model's next segment, or nothing if it is empty |
| `Senders.TCPSender.BuildNext` | libsponge/tcp_sender.cc:37-54 | The segment is cut from the stream, with SYN and FIN as in the model |
| `Senders.TCPSender.AckReceived` | libsponge/tcp_sender.cc:78-126 | The model's acknowledgment step |
| `Senders.TCPSender.HandleAck` | libsponge/tcp_sender.cc:82-124 | Everything of it before the window is filled |
| `Senders.TCPSender.PopOutstanding` | libsponge/tcp_sender.cc:85-95 | The loop releases what the model releases, and counts it |
| `Senders.TCPSender.UpdateCongestion` | libsponge/tcp_sender.cc:97-109 | Congestion control reacts as in the model |
| `Senders.TCPSender.UpdateTimer` | libsponge/tcp_sender.cc:111-121 | So does the timer |
| `Senders.TCPSender.TickClock` | libsponge/tcp_sender.cc:129-152 | The model's clock step |
| `Senders.TCPSender.Retransmit` | libsponge/tcp_sender.cc:134-151 | The oldest segment is sent again; with a closed window neither count nor timeout changes, with an open one they rise by one and double. Over time: `SenderEffects.ProbesKeepPace`, `SenderEffects.BackoffSchedule` |
| `Senders.TCPSender.SendEmptySegment` | libsponge/tcp_sender.cc:156-161 | An empty segment with the next number |
| `Senders.TCPSender.EffectiveWindowSize` | libsponge/tcp_sender.cc:165-172 | The model's window: at least one, at most the congestion window |
| `Senders.TCPSender.OnNewAck` | libsponge/tcp_sender.cc:175-195 | The model's growth |
| `Senders.TCPSender.OnDupAck` | libsponge/tcp_sender.cc:198-219 | The model's duplicate step, with the oldest segment queued on entering recovery |
| `Senders.TCPSender.OnCongestionTimeout` | libsponge/tcp_sender.cc:222-228 | The model's reaction to a timeout, which is back to one segment: `SenderEffects.SlowStartAfterTimeout` |
| `Senders.RetransmissionTimer.Tick` | libsponge/tcp_sender.hh:30-33 | Only a running timer counts, modulo 2^32 |
| `Senders.RetransmissionTimer.Restart` | libsponge/tcp_sender.hh:29 | Running from zero |
| `Receivers.RightEdgeNeverRetreats` | libsponge/tcp_receiver.cc:13-34 | Over any run of segments and reads, whatever they carry, neither the acknowledgment number nor the right edge of the window moves back |
| `Receivers.StepAdvances` | libsponge/tcp_receiver.cc:13-34 | One step of it; the initial number never changes once known |
| `Receivers.PushOnlyAppends` | libsponge/stream_reassembler.cc:23-49 | No push, not even one that throws, removes or reorders assembled bytes |
| `Receivers.TCPReceiver.constructor` | libsponge/tcp_receiver.hh:32 | A new receiver is the initial state of the model |
| `Receivers.TCPReceiver.SegmentReceived` | libsponge/tcp_receiver.cc:13-23 | The model's step, exception included |
| `Receivers.TCPReceiver.Read` | libsponge/tcp_receiver.hh:65 | Reading the assembled stream is the model's read |
| `Receivers.TCPReceiver.GetAckno` | libsponge/tcp_receiver.cc:25-30 | The model's acknowledgment number, none before the SYN |
| `Receivers.TCPReceiver.GetWindowSize` | libsponge/tcp_receiver.cc:32-34 | The model's window |
| `Receivers.ThrowsIff` | libsponge/stream_reassembler.cc:24-40 | Receiving throws if and only if the segment names another end than the known one or brings another byte for a stored index inside the window |
| `Reassembly.RunAssemblesWhatWasReceived` | libsponge/stream_reassembler.cc:23-49 | For any sequence of excerpts of one stream and reads: the output is a prefix of the stream, and an index is known if and only if some push offered it inside the window of that moment |
| `Reassembly.PushLearns` | libsponge/stream_reassembler.cc:23-49 | A truthful excerpt never throws, teaches exactly its indices inside the window, and changes no other byte |
| `Reassembly.StepLearns` | libsponge/stream_reassembler.cc:23-49 | One step of the run, push or read |
| `Reassembly.StoreLearns` | libsponge/stream_reassembler.cc:31-40 | The stored bytes are exactly the old ones and the excerpt clipped to the window |
| `Reassembly.NoConflict` | libsponge/stream_reassembler.cc:33-36 | Truthful excerpts never contradict each other |
| `Reassembly.AssembleAgrees` | libsponge/stream_reassembler.cc:41-48 | Assembling moves bytes but knows neither more nor fewer; the output ends exactly at the end index |
| `Reassembly.ReadKeepsAgreement` | libsponge/byte_stream.cc:42-54 | Reading the output only moves the window forward |
| `Reassembly.WithinCapacity` | libsponge/stream_reassembler.cc:25-46 | Buffered and unassembled bytes together never exceed the capacity |
| `Reassembly.PushKeepsWf` | libsponge/stream_reassembler.cc:23-49 | Every push, truthful or not, keeps pending bytes inside the window |
| `Reassembly.AssembleKeepsWf` | libsponge/stream_reassembler.cc:41-48 | Assembling keeps them there, and appends exactly the contiguous run |
| `Reassembly.ConflictLeavesPrefix` | libsponge/stream_reassembler.cc:31-40 | A push that throws over contradicting bytes has stored exactly what came before the first contradiction, and changed no other byte and no output |
| `Reassembly.FirstConflictSpec` | libsponge/stream_reassembler.cc:31-36 | The first index that contradicts a stored byte |
| `Reassembly.TakeRunSpec` | libsponge/stream_reassembler.cc:41-46 | The run is the longest contiguous one below the end index, and only it is removed |
| `Reassembly.StoreSpec` | libsponge/stream_reassembler.cc:31-40 | Where the excerpt covers, its bytes; elsewhere the old ones |
| `Reassembly.StoredByte` | libsponge/stream_reassembler.cc:31-40 | The same for one index |
| `Reassembly.EndIndex` | libsponge/stream_reassembler.cc:25-28 | The end of the excerpt, wrapped at 64 bits only if it does not fit |
| `Reassembly.NewAgrees` | libsponge/stream_reassembler.cc:15-18 | A new reassembler agrees with every stream and knows nothing of it |
| `StreamReassemblers.StreamReassembler.constructor` | libsponge/stream_reassembler.cc:15-18 | The empty ring is the empty sparse map |
| `StreamReassemblers.StreamReassembler.PushSubstring` | libsponge/stream_reassembler.cc:23-49 | The ring buffer does what the sparse map does, for every index, length, overlap and end, exceptions and the state they leave included |
| `StreamReassemblers.StreamReassembler.Read` | libsponge/stream_reassembler.hh:47 | Reading the output is the model's read: the window moves on and the ring stays in place |
| `StreamReassemblers.StreamReassembler.PushInRange` | libsponge/stream_reassembler.cc:31-48 | The same once the range is clipped |
| `StreamReassemblers.StreamReassembler.StoreRange` | libsponge/stream_reassembler.cc:31-40 | The storing loop stops at the first conflict, having stored everything before it |
| `StreamReassemblers.StreamReassembler.StoreByte` | libsponge/stream_reassembler.cc:32-39 | One slot: a conflict, or the byte is there afterwards |
| `StreamReassemblers.StreamReassembler.Find` | libsponge/stream_reassembler.cc:32-34 | The slot of an index inside the window is occupied exactly by that index |
| `StreamReassemblers.StreamReassembler.CollectRun` | libsponge/stream_reassembler.cc:41-46 | The loop takes the model's run and advances the index by its length |
| `StreamReassemblers.StreamReassembler.Take` | libsponge/stream_reassembler.cc:43-45 | One byte leaves the ring |
| `StreamReassemblers.StreamReassembler.AssembleRun` | libsponge/stream_reassembler.cc:41-48 | The run is written out, and the output ends at the end index |
| `StreamReassemblers.StreamReassembler.UnassembledBytes` | libsponge/stream_reassembler.cc:51 | The running count is the number of pending indices |
| `StreamReassemblers.FillSlot` | libsponge/stream_reassembler.cc:37-38 | Filling a slot disturbs no other index of the window |
| `StreamReassemblers.ClearSlot` | libsponge/stream_reassembler.cc:44-45 | A cleared slot is ready for the index one turn later |
| `ByteStreams.RunIsFifo` | libsponge/byte_stream.cc:18-63 | Over any sequence of writes and reads, what was read followed by what is buffered is what was buffered followed by what was accepted; the buffer never exceeds the capacity |
| `ByteStreams.ByteStream.constructor` | libsponge/byte_stream.cc:15-16 | An empty stream |
| `ByteStreams.ByteStream.WriteBytes` | libsponge/byte_stream.cc:18-23 | Accepts the longest prefix that fits and returns its length |
| `ByteStreams.ByteStream.PeekOutput` | libsponge/byte_stream.cc:26-39 | The loop over chunks returns the first bytes of their concatenation |
| `ByteStreams.ByteStream.PopOutput` | libsponge/byte_stream.cc:42-54 | Removes exactly them |
| `ByteStreams.ByteStream.ReadBytes` | libsponge/byte_stream.cc:59-63 | The bytes returned followed by the rest are the old contents |
| `ByteStreams.ByteStream.End` | libsponge/byte_stream.cc:65 | Only the end flag changes |
| `ByteStreams.ByteStream.Fail` | libsponge/byte_stream.hh:47 | Only the error flag changes |
| `ByteStreams.ByteStream.BufferSize` | libsponge/byte_stream.cc:69 | The difference of the counters is the total size of the chunks |
| `ByteStreams.ByteStream.RemainingCapacity` | libsponge/byte_stream.cc:79 | The room left |
| `WrappingIntegers.UnwrapIsNearest` | libsponge/wrapping_integers.cc:30-38 | The result wraps to the given number and no 64-bit number that does is nearer to the checkpoint; of two equally near ones it is the larger |
| `WrappingIntegers.UnwrapExact` | libsponge/wrapping_integers.cc:16-38 | A number survives wrapping and unwrapping if and only if it is at most 2^31 above and less than 2^31 below the checkpoint, or has no neighbour nearer by in 64 bits |
| `WrappingIntegers.UnwrapInvertsWrap` | libsponge/wrapping_integers.cc:16-38 | Less than 2^31 away it always does |
| `WrappingIntegers.UnwrapWraps` | libsponge/wrapping_integers.cc:16-38 | Wrapping inverts unwrapping for every checkpoint |
| `RoutingTries.LookupEqualsScan` | libsponge/router.hh:107-121 | For any list of inserted routes the longest prefix in the table is the answer of a linear scan in which a later route of the same length wins |
| `RoutingTries.ScanFindsBest` | libsponge/router.hh:105-106 | The scan finds a matching route of the greatest length, the last inserted among those, or nothing exactly when nothing matches |
| `RoutingTries.InsertIsScanStep` | libsponge/router.hh:101-103 | Inserting changes the answer exactly when the new route matches and is at least as long |
| `RoutingTries.SameBits` | libsponge/router.hh:90 | Two addresses share a path of n bits exactly when they agree after shifting the rest out |
| `RoutingTries.NothingBelow` | libsponge/router.hh:113-115 | Where the walk falls off the trie no longer prefix is stored |
| `RoutingTries.RoutingTrie.constructor` | libsponge/router.hh:82 | A new trie is empty |
| `RoutingTries.RoutingTrie.Navigate` | libsponge/router.hh:86-97 | Walks to the node of the prefix, adding nodes but no routes |
| `RoutingTries.RoutingTrie.Descend` | libsponge/router.hh:90-94 | One step of the walk reaches the node of the path one bit longer |
| `RoutingTries.RoutingTrie.AddChild` | libsponge/router.hh:91-93 | A new node keeps the shape of the trie and all routes |
| `RoutingTries.RoutingTrie.Attach` | libsponge/router.hh:92 | Exactly one new node, without a route, and the tree stays a tree |
| `RoutingTries.RoutingTrie.Insert` | libsponge/router.hh:101-103 | The trie then stands for the old list of routes with the new one at its end |
| `RoutingTries.RoutingTrie.LongestPrefixMatch` | libsponge/router.hh:107-121 | The walk returns the answer of the linear scan over all routes ever inserted |
| `ArpModel.RunKeepsInv` | libsponge/network_interface.cc:41-143 | In every run: per next hop the datagrams given are those sent, those dropped and those waiting, in order; a datagram waits only while a request is pending and the address unknown; requests last 5000 ms and mappings 30000 ms exactly |
| `ArpModel.StepKeepsInv` | libsponge/network_interface.cc:41-143 | One step of it |
| `ArpModel.StepKeepsMaps` | libsponge/network_interface.cc:41-143 | The timing part for one address |
| `ArpModel.StepKeepsFates` | libsponge/network_interface.cc:41-143 | The conservation part for one next hop |
| `ArpModel.StepKeepsFrames` | libsponge/network_interface.cc:29-116 | The IPv4 frames on the queue are exactly the datagrams recorded as sent, in order and with their addresses |
| `ArpModel.RequestsAreSpaced` | libsponge/network_interface.cc:49-63 | A send broadcasts a request if and only if the address is unknown and the last request is at least 5000 ms old |
| `ArpModel.OnlyFreshMappingsAreUsed` | libsponge/network_interface.cc:45-48 | A datagram is sent at once if and only if the address was learned less than 30000 ms ago, and then to the address learned last |
| `ArpExchanges.Resolution` | libsponge/network_interface.cc:41-116 | Two interfaces: datagrams for an unknown neighbour cause one request, the neighbour's reply makes the sender put out exactly those datagrams, and the neighbour hands up each one unchanged and in order; both then know each other |
| `ArpExchanges.HandsUpWhatIsAddressed` | libsponge/network_interface.cc:71-82 | In every run the datagrams handed up are those in frames to this interface or to all, each once and in order |
| `ArpExchanges.HandsUpIff` | libsponge/network_interface.cc:71-82 | A frame yields a datagram if and only if it is addressed here or to all and carries that datagram whole; only an ARP message addressed so changes anything |
| `ArpExchanges.RepliesIff` | libsponge/network_interface.cc:84-113 | A frame is answered with a reply to its sender if and only if it asks for this address; the reply comes first, and all else it sets free are datagrams |
| `ArpExchanges.SpeaksForItself` | libsponge/network_interface.cc:29-63 | In every run each queued frame has the interface's own addresses, requests go to all and replies to the one that asked |
| `ArpExchanges.OneRequestForAll` | libsponge/network_interface.cc:49-66 | Any number of datagrams for an unknown address wait in order behind a single request |
| `ArpModel.StartInv` | libsponge/network_interface.cc:23-27 | A new interface satisfies the invariant |
| `NetworkInterfaces.NetworkInterface.constructor` | libsponge/network_interface.cc:23-27 | A new interface knows and asks nothing |
| `NetworkInterfaces.NetworkInterface.SendDatagramTo` | libsponge/network_interface.cc:41-68 | The model's send |
| `NetworkInterfaces.NetworkInterface.RecvFrame` | libsponge/network_interface.cc:71-116 | The model's reception: a datagram is returned if and only if it came whole in a frame for this interface or for all; learning and replies as in `ArpExchanges.RepliesIff` |
| `NetworkInterfaces.NetworkInterface.Learn` | libsponge/network_interface.cc:88-113 | Replies to a request for this interface, learns the sender, and sends what waited for it |
| `NetworkInterfaces.NetworkInterface.SendAllTo` | libsponge/network_interface.cc:108-111 | One frame per waiting datagram, in order |
| `NetworkInterfaces.NetworkInterface.TickClock` | libsponge/network_interface.cc:119-143 | The model's clock step |
| `NetworkInterfaces.NetworkInterface.ExpireTable` | libsponge/network_interface.cc:121-128 | Erasing while iterating, in any order, ages every entry once |
| `NetworkInterfaces.NetworkInterface.ExpireRequests` | libsponge/network_interface.cc:130-142 | The same for requests; with an expired request its waiting datagrams are dropped |
| `Checksums.InsertedChecksumVerifies` | libsponge/util/util.cc:89-108 | The checksum computed with a zero field and then put into that field makes the whole verify to zero |
| `Checksums.AddInPieces` | libsponge/util/util.cc:89-98 | Adding in pieces of any length, odd ones included, is adding the whole |
| `Checksums.SumIsTotal` | libsponge/util/util.cc:89-98 | Without overflow the 32-bit sum is the sum of the 16-bit words |
| `Checksums.NoOverflow` | libsponge/util/util.cc:89-98 | A buffer of at most 65535 bytes does not overflow it |
| `Checksums.FoldSpec` | libsponge/util/util.cc:100-105 | Folding keeps the remainder modulo 65535, and is zero only for zero |
| `Checksums.ZeroValue` | libsponge/util/util.cc:100-108 | The value is zero exactly for positive multiples of 65535 |
| `Checksums.InternetChecksum.Add` | libsponge/util/util.cc:89-98 | The loop adds as in the model, the parity carried over |
| `Checksums.InternetChecksum.GetValue` | libsponge/util/util.cc:100-108 | The folding loop computes the model's value |
| `NetParsers.BytesRoundTrip` | libsponge/util/parser.cc:26-60 | An integer written in any number of bytes that can hold it is read back |
| `NetParsers.ReadBack` | libsponge/util/parser.cc:26-60 | The same through the parser, which is left at the following byte |
| `NetParsers.FromBytesBound` | libsponge/util/parser.cc:34-38 | What is read fits its width |
| `NetParsers.NetParser.ParseInt` | libsponge/util/parser.cc:26-43 | The loop reads big-endian, or sets the error and consumes nothing |
| `NetParsers.NetParser.RemovePrefix` | libsponge/util/parser.cc:45-51 | Skips, or sets the error and consumes nothing |
| `NetParsers.UnparseInt` | libsponge/util/parser.cc:53-60 | The loop appends the big-endian bytes |
| `TcpWire.HeaderRoundTrip` | libsponge/tcp_helpers/tcp_header.cc:17-78 | Every header with a representable data offset is read back field by field, options skipped |
| `TcpWire.SegmentRoundTrip` | libsponge/tcp_helpers/tcp_segment.cc:12-45 | A written segment verifies and comes back with its payload and every field, the checksum field holding the computed one |
| `TcpWire.SegmentAccepted` | libsponge/tcp_helpers/tcp_segment.cc:12-23 | A buffer is accepted if and only if its checksum verifies, it holds a header, and its data offset is below five or within the buffer |
| `TcpWire.ShortOffsetExample` | libsponge/tcp_helpers/tcp_segment.cc:12-23 | A buffer with a data offset of zero that the header parser rejects and the segment parser accepts |
| `TcpWire.ParseTcpHeader` | libsponge/tcp_helpers/tcp_header.cc:17-48 | Reads the model's header |
| `TcpWire.SerializeTcpHeader` | libsponge/tcp_helpers/tcp_header.cc:51-78 | Writes the model's bytes, or refuses a data offset below five |
| `TcpWire.ParseTcpSegment` | libsponge/tcp_helpers/tcp_segment.cc:12-23 | Reads the model's segment |
| `TcpWire.SerializeTcpSegment` | libsponge/tcp_helpers/tcp_segment.cc:30-45 | Writes the model's bytes |
| `Ipv4Wire.TcpInIpRoundTrip` | libsponge/tcp_helpers/tcp_over_ip.cc:26-90 | A TCP segment wrapped in an IPv4 datagram comes back through both parsers, pseudo-header included |
| `Ipv4Wire.DatagramRoundTrip` | libsponge/tcp_helpers/ipv4_datagram.cc:11-41 | A well-formed datagram is read back whole, with the checksum filled in |
| `Ipv4Wire.FieldsRoundTrip` | libsponge/tcp_helpers/ipv4_header.cc:23-110 | Every field, packed ones included, is read back |
| `Ipv4Wire.StampedVerifies` | libsponge/tcp_helpers/ipv4_datagram.cc:28-38 | The written header checksum verifies |
| `Ipv4Wire.HeaderAccepted` | libsponge/tcp_helpers/ipv4_header.cc:23-75 | The header parser accepts exactly version four with a fitting header length, a total length equal to the buffer, and a checksum that verifies |
| `Ipv4Wire.DatagramAccepted` | libsponge/tcp_helpers/ipv4_datagram.cc:11-21 | A buffer is accepted as a datagram if and only if its header is right apart from the checksum, or the bytes left after the fields read happen to match the lengths in the header |
| `Ipv4Wire.DatagramIgnoresChecksum` | libsponge/tcp_helpers/ipv4_datagram.cc:11-21 | A datagram whose header has a bad checksum is accepted all the same |
| `Ipv4Wire.BadChecksumExample` | libsponge/tcp_helpers/ipv4_datagram.cc:11-21 | A buffer with a bad header checksum that the header parser rejects and the datagram parser accepts |
| `WireLayouts.PseudoIsTotal` | libsponge/tcp_helpers/ipv4_header.cc:114-132 | The start value of a TCP checksum is the sum of the 16-bit words of the twelve-byte pseudo-header: both addresses, a zero, the protocol, the payload length |
| `WireLayouts.ChecksumCoversPseudoHeader` | libsponge/tcp_helpers/tcp_segment.cc:12-18 | So checking a segment is checking the pseudo-header and the segment as one sequence of bytes |
| `WireLayouts.SegmentAcceptedIff` | libsponge/tcp_helpers/tcp_segment.cc:12-24 | A segment is accepted if and only if the words of pseudo-header and segment sum to a multiple of 65535 other than zero and it is as long as its offset says |
| `WireLayouts.TcpFieldsRead` | libsponge/tcp_helpers/tcp_header.cc:17-50 | From any bytes, every TCP field is taken from its place in the standard, and the payload starts at the data offset |
| `WireLayouts.TcpFieldsWritten` | libsponge/tcp_helpers/tcp_header.cc:53-85 | A written TCP header has every field at its place and zeros elsewhere |
| `WireLayouts.IpFieldsRead` | libsponge/tcp_helpers/ipv4_header.cc:31-48 | From any bytes, every IPv4 field is taken from its place in the standard |
| `WireLayouts.IpFieldsWritten` | libsponge/tcp_helpers/ipv4_header.cc:78-110 | A written IPv4 header has every field at its place and zeros elsewhere |
| `Ipv4Wire.PseudoBound` | libsponge/tcp_helpers/ipv4_header.cc:125-132 | The pseudo-header sum, which `WireLayouts.PseudoIsTotal` ties to the pseudo-header's bytes, leaves room for a whole datagram in 32 bits |
| `Ipv4Wire.ReadIpFields` | libsponge/tcp_helpers/ipv4_header.cc:31-47 | Reads the model's fields |
| `Ipv4Wire.ParseIpHeader` | libsponge/tcp_helpers/ipv4_header.cc:23-75 | Reads the model's header with its verdict |
| `Ipv4Wire.SerializeIpHeader` | libsponge/tcp_helpers/ipv4_header.cc:78-110 | Writes the model's bytes, or refuses a wrong version or length |
| `Ipv4Wire.ParseIpDatagram` | libsponge/tcp_helpers/ipv4_datagram.cc:11-21 | Reads the model's datagram |
| `Ipv4Wire.SerializeIpDatagram` | libsponge/tcp_helpers/ipv4_datagram.cc:23-41 | Writes the model's bytes, or refuses a payload of the wrong size |

## Left out

- Completion.DeliveryIsAlwaysPossible: states that a completing continuation exists; that a fair network takes it is not modelled, because the network makes no promises.
- Completion.ClosingIsAlwaysPossible: the same.
- TwoEndpoints.EndToEnd: excludes packets that are misread with harm, streams of 2^64 - 4 bytes or more and bytes written after the FIN, as explained above.
- TwoEndpoints.EndToEndShort: streams of 2^31 - 2 bytes or more are left to EndToEnd; bytes written after the FIN are excluded as above.
- Endpoints.WriteEvolves: excludes bytes written after the FIN, as above.
- Senders.TCPSender.TickClock: the count of consecutive retransmissions is unbounded, where the program's wraps at 2^32; a connection gives up at nine.
- RoutingTries.RoutingTrie.Insert: prefix lengths are at most 32; the program would shift by a negative amount beyond.
- RoutingTries.RoutingTrie.Navigate: the two children of a node are a map from bit to node.
- NetworkInterfaces.NetworkInterface.ExpireTable: the iteration order of the hash table is an arbitrary choice of the next key.
- Queued segments and packets carry the absolute numbers they were made from, for use in statements; the program's carry only the 32-bit ones.
- 64-bit counters (sequence numbers, window, time since the last segment) are unbounded numbers; 16- and 32-bit ones wrap as in the program.
- The random initial sequence number is a parameter.
- `Router::route_one_datagram` with its ICMP replies: dispatch over the modelled lookup, which would only add easy members.
- The ARP and Ethernet codecs: frames carry ARP messages and datagrams as values; a payload that does not parse is a value of its own.
- Shared `Buffer` and `BufferList` storage: byte sequences are values.
- Sockets, file descriptors, the event loop, the TUN and TAP adapters, the adapter's port and address filters, addresses and name resolution, the applications, and the test programs.
- The official-state constructor of `TCPState`, the textual summaries and debugging output.
- The destructor's reset of an active connection, which is `SetRstState` with a packet.
