# A model of the sponge TCP stack, with proofs

The repository is a user-space TCP implementation: wrapping sequence numbers, a byte
stream, a stream reassembler, a receiver, a retransmitting sliding-window sender, and the
connection that joins them; below it, the TCP and IPv4 wire formats and a network
interface that resolves addresses with ARP. This project models that data path in Dafny
and proves what it is for.

Each component appears twice. As a value: a datatype and functions that say what each
operation does, with lemmas about them. And in the program's own imperative form: a class
with the program's fields, whose methods have its loops and branches and are proved to
compute the functions. The protocol results are about the values: two endpoints and a
network form a state machine, and theorems speak of every state of every run.

| files | what they hold |
|---|---|
| Types, WrappingIntegers, ByteStream, Segments | machine integers, wrap and unwrap, the bounded FIFO, headers and segments |
| Reassembler, ReassemblerProofs, ReassemblerBytes, ReassemblerRuns, StreamReassembler | interval merging under a capacity; capacity and exact accounting; which byte is held where; whole runs; the class |
| Sender, SenderProofs, SenderRuns, TcpSender | the sender and its timer; its books after every call; all sequences of calls and how long it keeps trying; the classes |
| Receiver, TcpReceiver | from sequence numbers to stream indices and back |
| Connection, TcpConnection, Endpoint, Emission | the connection; the class; what every event does to one endpoint, and exactly which segments it sends |
| System, Flow, Progress, Completion, Traffic | two endpoints and a network: safety, tiling, no wedge, delivery; runs with their events, from what one application writes to what the other reads |
| Closing, Finishing, Exhaustion | what closing means, that it can be reached, and when an endpoint gives up |
| Checksum, Parser, TcpFormat, Ipv4Format, TcpOverIp, Stack | one's-complement sums, parsing and serializing, encapsulation, and the protocol over bytes |
| Arp, NetworkInterface | address resolution over every run; the class |

## Reading the system

A state of the system is two connections and, for each direction, the set of all packets
ever sent. A step is any event at either end: `connect`, `write`, `end_input_stream`,
`tick`, a read by the application, destruction, or the delivery of any packet ever sent by
the peer. Packets are never removed, so loss, delay, repetition and reordering are all
runs of this machine. A packet carries, beside its segment, the absolute numbers it was
sent with; these label it for the proofs and no endpoint looks at them.

Two conditions bound the runs. Fewer than 2^62 bytes are written to a stream. And a
delivered packet's numbers lie within half a turn (2^31) of what the endpoint compares
them with, as a bound on packet lifetime ensures; `Systems.ShortStreamsTimely` shows that
streams shorter than 2^31 − 2 bytes need no such bound.

## Where the code falls short

Some properties one would expect are false of the code. The model keeps the code as it
is; each such property has a concrete counterexample and an exact condition.

- Accounting in the reassembler: `stream_reassembler.cc:42` lets a push that starts
  exactly at the window's right edge through. It stores an empty entry, and later inserts
  at that key are counted and then refused by the map. `ReassemblyProofs.PushExactIff` is
  the condition; `ReassemblyRuns.EdgePushesWedge` and `ReassemblyRuns.WedgedForever` show
  that honest excerpts can wedge it for ever. Segments of this stack's own sender never do
  (`Flows.RunFlowing`).
- Completeness of a push: the second operand of `min` at `stream_reassembler.cc:55` drops
  an in-window tail when stored bytes overlap the push. `ReassemblyRuns.KeepsWindowIff`,
  `ReassemblyRuns.WindowBytesLost`; again not for the sender's tiles
  (`Progressing.NoTileCut`).
- `unwrap` promises the number closest to the checkpoint. Near 2^64 it overflows:
  `WrappingIntegers.UnwrapNearestIff`, `WrappingIntegers.UnwrapOverflows`.
- `TCPSegment::parse` and `IPv4Datagram::parse` discard what the header parsers return, so
  the errors their documentation lists can be lost: a TCP data offset below 5
  (`TcpFormats.HeaderErrorLostIff`, `TcpFormats.ShortHeaderAccepted`), and any IPv4 header
  error including a bad checksum (`Ipv4Formats.IpErrorLostIff`,
  `Ipv4Formats.BadChecksumAccepted`).

## Model

| member | source | states |
|---|---|---|
| `Systems.PrefixSafety` | libsponge/tcp_sender.cc:64-106 | on every run of two endpoints over a network that loses, repeats and reorders: what either application can read is a prefix of what the other wrote, and the inbound stream ends only when it is the whole of an ended stream |
| `Traffic.WrittenArrives` | libsponge/tcp_connection.cc:27-139 | the same from application to application, on every run with its events: what one has read, and all that waits for it, is a prefix of the bytes the other has written (of each write, what was accepted, in order), and the inbound stream ends only when it is all of them and the other called end_input_stream |
| `Traffic.HistoryWritten` | libsponge/tcp_connection.cc:83-90 | on every run: an outbound stream is exactly the accepted prefixes of its application's writes, one after the other, and is ended if and only if end_input_stream was called; nothing else adds to it or ends it |
| `Traffic.HistoryRead` | libsponge/byte_stream.cc:39-59 | on every run: what an application has read is exactly its inbound stream up to the reader's mark |
| `Traffic.BehaviourLabelled` | libsponge/tcp_connection.cc:27-153 | every run has such events, so these hold of every run |
| `Traffic.ServedArrives` | libsponge/tcp_connection.cc:27-139 | a run served as `Completing.RoundsComplete` asks has brought the peer everything the application wrote, and the end exactly if it called end_input_stream |
| `Traffic.ClosedExchanged` | libsponge/tcp_connection.cc:94-134 | on every run: when an endpoint is inactive without error, each end holds exactly what the other's application wrote, and both called end_input_stream |
| `Traffic.RunAdvertises` | libsponge/tcp_connection.cc:156-171 | on every run: every segment put on the network carries win = min(65535, bytes_read + capacity − bytes_written) of its sender's inbound stream, and advertises 0 exactly when that buffer is full |
| `Traffic.NoChatter` | libsponge/tcp_connection.cc:62-78 | on every run: delivering a segment that takes no sequence numbers, is no keep-alive and releases no new data puts nothing on the network, so bare acknowledgements are not acknowledged |
| `Systems.AckSafety` | libsponge/tcp_sender.cc:110-137 | on every run: last accepted acknowledgement ≤ what the peer has assembled ≤ next_seqno, and no acknowledgement in the network exceeds what its sender has assembled |
| `Systems.AckSafetyPop` | libsponge/tcp_sender.cc:124-137 | on every run: an event that removes a segment from the outstanding queue finds its payload, byte for byte, in the peer's assembled stream, and the peer's input ended if the segment carries FIN |
| `Systems.RunSafe` | libsponge/tcp_connection.cc:27-79 | the inductive invariant behind these, in every state of every run: balanced sender books at both ends, only genuine tiles and honest acknowledgements in the network, each receiver an assembly of what its peer sent |
| `Systems.StepSafe` | libsponge/tcp_connection.cc:27-139 | every event at an endpoint (connect, write, end_input_stream, tick, read, destruction, delivery) keeps that invariant |
| `Systems.MirroredBehaviour` | libsponge/tcp_connection.cc:27-139 | the two endpoints are interchangeable, so every result stated for one holds for the other |
| `Systems.ShortStreamsTimely` | libsponge/tcp_receiver.cc:36-42 | in every safe state with both streams shorter than 2^31 − 2 bytes every packet is timely, so the assumption on packet lifetime is then no assumption |
| `Flows.RunFlowing` | libsponge/tcp_sender.cc:28-106 | in every state of every run: sent segments are fixed tiles that coincide or are disjoint, each fits the window the peer can still honour or probes a closed one, each outstanding segment is in the network, and the peer's accounting is exact |
| `Flows.DeliveredFlow` | libsponge/stream_reassembler.cc:41-73 | delivering any genuine packet keeps that tiling and takes the packet's bytes whole, unless it probes a full receiver |
| `Flows.TileUncut` | libsponge/stream_reassembler.cc:52-55 | for such a tile neither operand of the min at line 55 cuts anything that is not already held |
| `Progressing.NoTileCut` | libsponge/stream_reassembler.cc:41-73 | on every run: a delivered segment with payload is held whole afterwards unless it is a one-byte probe of a full receiver, in which case nothing changes |
| `Progressing.ReachedDelivered` | libsponge/tcp_receiver.cc:19-65 | delivering any tile that the assembled prefix has reached, a bare FIN included, moves the receiver's acknowledgement past it, unless it is a one-byte probe that the receiver, its buffer full, has not taken |
| `Progressing.ReachedAcknowledged` | libsponge/tcp_receiver.cc:19-65 | the same on every run, for every segment that starts at or before the acknowledged number, the oldest outstanding one or a later one |
| `Progressing.RoundTrip` | libsponge/tcp_connection.cc:27-79 | no wedge: on every run with both ends active, delivering a copy of the oldest outstanding segment makes the peer answer, and every one of its answers is deliverable and moves the sender past that segment; the one exception is a one-byte probe that the peer, its buffer full, has not taken |
| `Progressing.NothingStuck` | libsponge/tcp_sender.cc:28-106 | on every run: while a written byte or the end of input is unacknowledged after SYN was sent, something is outstanding, the timer runs, and a copy is in the network |
| `Progressing.RetransmitTimely` | libsponge/tcp_sender.cc:155-174 | on every run: when the timer expires, unless the retry limit of the connection is thereby passed, a copy of the oldest outstanding segment leaves with current numbers and is timely for the peer, whether the window is open or closed |
| `Progressing.DeliverPlain` | libsponge/tcp_connection.cc:27-79 | no answer to a segment is a reset |
| `Completing.CanComplete` | libsponge/tcp_connection.cc:27-79 | no deadlock: every run that reaches a state with both ends active, the sender open, a receive buffer of non-zero capacity and streams shorter than 2^31 − 2 bytes can be continued, without anyone writing more, until the peer's inbound stream equals what was written and has ended if that has |
| `Completing.RoundsComplete` | libsponge/tcp_connection.cc:27-79 | for every run, however segments are cut and whatever else happens in it: if SYN has been sent, nothing more is written, and from then on the run is served once per byte, SYN and FIN (each time a trip is made, a copy of the oldest outstanding segment to the peer and an answer back, or there is nothing to send), the peer's inbound stream equals what was written and has ended if that has |
| `Completing.CanServe` | libsponge/tcp_connection.cc:27-79 | such service is always possible: from every state with both ends active, the sender open, a receive buffer and short streams, any number of times, without anyone writing more |
| `Completing.TripAdvances` | libsponge/tcp_sender.cc:110-137 | each such trip, with anything in between, raises the last accepted acknowledgement |
| `Completing.Exchange` | libsponge/tcp_connection.cc:27-79 | the step of that: one read, one delivery of a packet already in the network and one answer acknowledge strictly more |
| `Finishing.CanClose` | libsponge/tcp_connection.cc:94-128 | a clean close is reachable: every run that reaches a state with both ends active, both inputs ended, receive buffers of non-zero capacity and streams shorter than 2^31 − 2 bytes can be continued until both ends are inactive without error |
| `Finishing.CanCross` | libsponge/tcp_connection.cc:27-79 | before that, until both streams have been received whole and acknowledged whole |
| `Finishing.RunSound` | libsponge/tcp_connection.cc:173-179 | on every run: an active endpoint has met no error, and one that has seen SYN has sent its own |
| `Closing.CleanClose` | libsponge/tcp_connection.cc:94-128 | on every run: an endpoint inactive without error has received all its peer wrote, the peer has received all it wrote, and all four ends have ended |
| `Closing.NoLingerSafe` | libsponge/tcp_connection.cc:56-60 | on every run: when an endpoint that was excused from lingering has closed cleanly, its peer has every byte and FIN acknowledged and nothing outstanding |
| `Closing.LingersLongEnough` | libsponge/tcp_connection.cc:114-127 | from construction, over any events: an endpoint that must linger closes cleanly only after 10 · rt_timeout ms in which no segment arrived |
| `Closing.TickClosesIff` | libsponge/tcp_connection.cc:94-128 | a tick closes an active endpoint if and only if retransmissions are exhausted or both streams are done and lingering is over; only the former sets the error |
| `Closing.RunForward` | libsponge/tcp_helpers/tcp_state.cc:82-110 | on every run: the state summaries of sender and receiver never move backwards, ERROR is absorbing, and active never returns to true |
| `Closing.SummariesForward` | libsponge/tcp_helpers/tcp_state.cc:82-110 | the same for one event with any segment at all, forged ones included |
| `Closing.FinAckedIff` | libsponge/tcp_helpers/tcp_state.cc:94-110 | FIN_ACKED holds if and only if SYN, every byte and FIN are acknowledged and no error is set |
| `Closing.SenderSummaryMeans` | libsponge/tcp_helpers/tcp_state.cc:94-110 | without error: CLOSED iff SYN was not sent, SYN_SENT iff SYN was sent and is outstanding, SYN_ACKED iff SYN is acknowledged and FIN not sent, FIN_SENT iff FIN was sent and something is outstanding, FIN_ACKED iff FIN was sent and nothing is |
| `Closing.ReceiverSummaryMeans` | libsponge/tcp_helpers/tcp_state.cc:82-92 | ERROR, LISTEN, SYN_RECV and FIN_RECV exactly by the error, SYN seen and the end of the inbound stream |
| `Closing.LingerExcusedIff` | libsponge/tcp_connection.cc:56-60 | an endpoint stops having to linger if and only if, at a segment it heeds, its inbound stream has ended while its SYN is acknowledged and its FIN not sent |
| `SendingRuns.LedgerAlways` | libsponge/tcp_sender.cc:64-174 | after any calls with any acknowledgements: the outstanding queue tiles [next − in flight, next), in flight is the sum of its lengths and at most 65535, next_seqno = SYN + bytes read + FIN, the last acknowledgement lies in the front segment or equals next_seqno, and the timer runs exactly when the queue is non-empty with timeout initial · 2^count |
| `SendingRuns.ApplyLedger` | libsponge/tcp_sender.cc:28-174 | each call keeps those books, and no call but a tick moves the timer of what stays outstanding |
| `SendingRuns.ExhaustionTiming` | libsponge/tcp_sender.cc:155-174 | from construction, over any calls: the ninth retransmission has not come before something has been outstanding for 511 · RTO with nothing new acknowledged; under ticks of at most g with an open window it has come once that has lasted longer than 511 · RTO + 8 · g |
| `SendingRuns.WaitedBounds` | libsponge/tcp_sender.cc:155-174 | the same for any sequence of sender states that ticks and timeless steps lead through |
| `Exhausting.GivesUpLate` | libsponge/tcp_connection.cc:99-109 | from construction, over any events: an endpoint that fails by exhaustion has had something outstanding and nothing new acknowledged for at least 511 · rt_timeout |
| `Exhausting.GivesUpInTime` | libsponge/tcp_connection.cc:99-109 | an endpoint that has waited so, under ticks of at most g with an open window, for more than 511 · rt_timeout + 8 · g has given up: at an earlier tick a reset left, and it is inactive with both streams failed |
| `Exhausting.OpenUntilAcked` | libsponge/tcp_sender.hh:87 | until an acknowledgement arrives the window is the initial one, 1, so the clock counts |
| `Exhausting.UnansweredGivesUp` | libsponge/tcp_connection.cc:94-139 | an endpoint that connected and was sent no acknowledgement has, under ticks of at most g, sent a reset and failed once more than 511 · rt_timeout + 8 · g have passed, whatever else it was asked to do |
| `SendingProofs.AckPaced` | libsponge/tcp_sender.cc:119-152 | after any acknowledgement the clock of what is outstanding goes on as it was if nothing new was acknowledged, and starts afresh if something was or nothing was outstanding |
| `SendingProofs.FillPaced` | libsponge/tcp_sender.cc:93-98 | sending leaves a running timer alone and starts an idle one afresh |
| `SendingProofs.FillWindowLedger` | libsponge/tcp_sender.cc:28-62 | fill_window keeps the books, never has more in flight than max(window, 1), and stops only when the window is full or the stream with FIN is exhausted |
| `SendingProofs.FillWindowReach` | libsponge/tcp_sender.cc:28-62 | new segments end at or before ackno + max(window, 1) |
| `SendingProofs.PushSegmentLedger` | libsponge/tcp_sender.cc:64-106 | one push takes no more than its share of the window and sends nothing only if there is no room or nothing left |
| `SendingProofs.NextSegmentTile` | libsponge/tcp_sender.cc:75-95 | the segment built next is the next tile of the stream: its bytes, SYN and FIN are where the numbers say |
| `SendingProofs.SegmentFull` | libsponge/tcp_sender.cc:75-91 | it is as large as it may be: at most 1000 bytes, cut shorter only by the window or for want of data, and carries FIN if and only if the stream ended, this is the last of it and the window has room for FIN |
| `SendingProofs.AcknowledgeLedger` | libsponge/tcp_sender.cc:119-150 | an accepted acknowledgement drops exactly the front segments it covers; timeout, elapsed time and retransmission count are reset if it dropped one and unchanged if not; nothing else but the window changes |
| `SendingProofs.AckReceivedLedger` | libsponge/tcp_sender.cc:110-152 | an acknowledgement outside [last accepted, next] changes nothing; any other is recorded, and what is sent then is outstanding and inside the new window |
| `SendingProofs.FrontPosition` | libsponge/tcp_sender.cc:127 | the sender's unwrap of its own front segment is exact, by the 65535 bound on its flight |
| `SendingProofs.OutstandingTile` | libsponge/tcp_sender.cc:127 | so is its unwrap of every outstanding segment |
| `SendingProofs.TickLedger` | libsponge/tcp_sender.cc:155-174 | a tick resends at most the front segment and keeps the books |
| `TcpSenders.TcpSender.constructor` | libsponge/tcp_sender.cc:19-23 | the object starts as the specification's new sender |
| `TcpSenders.TcpSender.FillWindow` | libsponge/tcp_sender.cc:28-62 | the two loops compute Sending.FillWindow on the whole state; they terminate |
| `TcpSenders.TcpSender.PushSegment` | libsponge/tcp_sender.cc:64-106 | new state and result are those of Sending.PushSegment |
| `TcpSenders.TcpSender.AckReceived` | libsponge/tcp_sender.cc:110-152 | new state is that of Sending.AckReceived for any acknowledgement |
| `TcpSenders.TcpSender.PopAcknowledged` | libsponge/tcp_sender.cc:124-137 | the popping loop removes what Sending.PopAcked removes, and reports whether it removed anything |
| `TcpSenders.TcpSender.Tick` | libsponge/tcp_sender.cc:155-174 | new state is that of Sending.Tick |
| `TcpSenders.TcpSender.SendEmptySegment` | libsponge/tcp_sender.cc:179-183 | queues one segment that occupies no sequence numbers |
| `TcpSenders.TcpSender.SendFlaggedSegment` | libsponge/tcp_sender.cc:185-198 | queues an empty segment with the given flags; SYN and FIN are marked as sent and numbered |
| `SendingProofs.FlaggedLedgerIff` | libsponge/tcp_sender.cc:185-198 | the sender's books survive such a segment if and only if it carries neither SYN nor FIN |
| `TcpSenders.RetransmissionTimer.Start` | libsponge/tcp_sender.hh:25-28 | elapsed time is zero and the timer runs |
| `TcpSenders.RetransmissionTimer.Tick` | libsponge/tcp_sender.hh:40-44 | time counts only while the timer runs |
| `TcpSenders.RetransmissionTimer.CheckExpired` | libsponge/tcp_sender.hh:47 | true exactly when running with elapsed time at least the current timeout |
| `Receiving.SegmentPlaced` | libsponge/tcp_receiver.cc:19-49 | a genuine segment within half a turn of the checkpoint is pushed at its own stream index |
| `Receiving.SegmentReceives` | libsponge/tcp_receiver.cc:19-49 | genuine segments in any order and number keep the receiver an assembly of what the peer sent; its acknowledgement never decreases |
| `Receiving.AckBounded` | libsponge/tcp_receiver.cc:51-65 | the receiver acknowledges no more than was sent and ends only with the peer's FIN |
| `Receiving.BareIgnored` | libsponge/tcp_receiver.cc:19-49 | a segment that occupies no numbers leaves the receiver unchanged |
| `TcpReceivers.TcpReceiver.SegmentReceived` | libsponge/tcp_receiver.cc:19-49 | new state is that of Receiving.SegmentReceived |
| `TcpReceivers.TcpReceiver.Ackno` | libsponge/tcp_receiver.cc:51-65 | the wrapped count of SYN, assembled bytes and, once ended, FIN; nothing before SYN |
| `TcpReceivers.TcpReceiver.WindowSize` | libsponge/tcp_receiver.cc:67 | capacity − buffered bytes, on the fields themselves |
| `TcpConnections.TcpConnection.constructor` | libsponge/tcp_connection.hh:12-28 | the object starts as the specification's new connection |
| `TcpConnections.TcpConnection.SegmentReceived` | libsponge/tcp_connection.cc:27-79 | new state of both halves, flags and queue is that of Connecting.SegmentReceived, whose answers `Emitting.AnswersExactly` fixes |
| `TcpConnections.TcpConnection.Write` | libsponge/tcp_connection.cc:83-90 | appends exactly data[..len] to the outbound stream, where the returned len is 0 after the end of input and otherwise min(size, room); the rest of the new state is that of Connecting.Write |
| `TcpConnections.TcpConnection.Tick` | libsponge/tcp_connection.cc:94-128 | new state is that of Connecting.TickConnection, reset and closing included |
| `TcpConnections.TcpConnection.EndInputStream` | libsponge/tcp_connection.cc:130-134 | new state is that of Connecting.EndInputStream |
| `TcpConnections.TcpConnection.Connect` | libsponge/tcp_connection.cc:136-139 | new state is that of Connecting.Connect |
| `TcpConnections.TcpConnection.Destroy` | libsponge/tcp_connection.cc:141-153 | an active connection is failed and resets its peer; an inactive one is left alone; see `Emitting.AbortResets` |
| `TcpConnections.TcpConnection.SegmentAssembleSend` | libsponge/tcp_connection.cc:156-171 | the draining loop moves every queued segment out in order, stamped with the receiver's acknowledgement and window |
| `TcpConnections.TcpConnection.SetShutdown` | libsponge/tcp_connection.cc:173-179 | inactive, and both streams failed unless clean |
| `TcpConnections.TcpConnection.SendRstSegment` | libsponge/tcp_connection.cc:182-185 | one stamped reset is appended to what leaves |
| `TcpConnections.TcpConnection.ReceiverStateSummary` | libsponge/tcp_helpers/tcp_state.cc:82-92 | the summary of the receiver half |
| `TcpConnections.TcpConnection.SenderStateSummary` | libsponge/tcp_helpers/tcp_state.cc:94-110 | the summary of the sender half |
| `Endpoints.HandleMoves` | libsponge/tcp_connection.cc:27-185 | every event, with any segment whatever, keeps the books, moves numbers only forward, never reactivates, emits only outstanding or bare segments carrying the current acknowledgement, and extends the outbound stream by exactly what it writes |
| `Endpoints.HandleLocal` | libsponge/tcp_connection.cc:27-153 | any event but a heeded segment leaves what was received, acknowledged and is outstanding, the window and lingering as they were; only time and failure end activity |
| `Endpoints.WriteReturns` | libsponge/tcp_connection.cc:83-90 | write returns 0 after the end of input and otherwise min(size, room), and appends exactly that many bytes of the data |
| `Emitting.HandleEmits` | libsponge/tcp_connection.cc:27-185 | exactly what every event makes an endpoint send: the segments that become outstanding, in order, then at most one other: the oldest outstanding one if its timer ran out, a reset on giving up or on destruction, an empty segment if a segment that took numbers would otherwise go unacknowledged or for a keep-alive; all stamped with the receiver's state |
| `Emitting.AnswersExactly` | libsponge/tcp_connection.cc:62-78 | when a heeded segment releases no new data: one empty segment with the current number if it took sequence numbers or is a keep-alive, and otherwise nothing |
| `Emitting.StampAt` | libsponge/tcp_connection.cc:156-171 | a stamped segment keeps numbers, flags and payload, acknowledges exactly if SYN was seen, SYN, assembled bytes and end, and advertises min(65535, room) |
| `Emitting.AdvertisesRoom` | libsponge/tcp_receiver.cc:67 | every segment that leaves at any event advertises exactly the room of its endpoint, 0 exactly when the buffer is full, and has ACK set exactly if SYN was seen |
| `Emitting.AbortResets` | libsponge/tcp_connection.cc:141-153 | destroying an active endpoint sends exactly one segment, a reset, and fails both streams |
| `ReassemblyProofs.CapacityOverRuns` | libsponge/stream_reassembler.cc:27-133 | after any pushes and reads of any data: buffered + counted ≤ capacity, counter ≥ stored bytes, every entry above the unassembled index and inside bytes_read + capacity, and any two ordered and disjoint |
| `ReassemblyProofs.RangeTestUnwrapped` | libsponge/stream_reassembler.cc:41-44 | the test of line 42 decides the same in 64-bit and in unbounded arithmetic while bytes_read + capacity + length < 2^64 |
| `ReassemblyProofs.PushInv` | libsponge/stream_reassembler.cc:27-79 | each push keeps that; the subtractions are on naturals, so none goes below zero; assembled bytes only grow |
| `ReassemblyProofs.PushExactIff` | libsponge/stream_reassembler.cc:41-44 | from exact accounting, a push keeps it exact if and only if it is not a non-empty push at the right window edge before the end of the stream |
| `ReassemblyProofs.ExactOverRuns` | libsponge/stream_reassembler.cc:27-133 | after any pushes and reads without such an edge push, accounting is exact: counter equals stored bytes and no entry is empty |
| `ReassemblyProofs.ExactCounts` | libsponge/stream_reassembler.cc:135 | then unassembled_bytes() is the number of distinct stored indices |
| `ReassemblyProofs.StoreExact` | libsponge/stream_reassembler.cc:125-132 | then the second limit at line 129 never binds: the window alone cuts what is inserted |
| `ReassemblyProofs.PushProgress` | libsponge/stream_reassembler.cc:49-73 | then a push of the next byte, with room in the buffer and the input not ended, writes at least that byte |
| `ReassemblyProofs.PushHeld` | libsponge/stream_reassembler.cc:41-79 | a push adds to the held indices exactly the part of its range below its limit |
| `ReassemblyProofs.NextMissing` | libsponge/stream_reassembler.cc:59-73 | the assembled bytes are the longest prefix of what is held |
| `ReassemblyBytes.PushBytes` | libsponge/stream_reassembler.cc:41-133 | what a push leaves at every index, for any data, even data that contradicts what is held: the new byte where it arrived below its limit, unless that byte was already assembled or one stored entry reaches over the whole push, and the old byte everywhere else |
| `ReassemblyBytes.MergeBytes` | libsponge/stream_reassembler.cc:81-123 | the scan drops a substring that an entry reaches over, and from any other gathers the new bytes and the old ones around them |
| `ReassemblyBytes.DrainBytes` | libsponge/stream_reassembler.cc:61-73 | draining changes no held byte |
| `ReassemblyBytes.PushEnds` | libsponge/stream_reassembler.cc:27-79 | the output is ended by a push if and only if the assembled bytes have then reached the end index; a push past the end changes nothing else |
| `ReassemblyBytes.ContentHeld` | libsponge/stream_reassembler.cc:27-133 | a byte is held at exactly the held indices |
| `Reassembly.MergeSound` | libsponge/stream_reassembler.cc:81-133 | although st and ed never move, the scan leaves ordered disjoint entries; either nothing remains to insert and no entry went, or no entry left reaches into the grown substring |
| `Reassembly.MergeHolds` | libsponge/stream_reassembler.cc:81-133 | the scan loses no index and invents none |
| `Reassembly.SizeBound` | libsponge/stream_reassembler.cc:129 | pigeonhole: disjoint entries in [lo, hi) hold at most hi − lo bytes |
| `ReassemblyRuns.PushFollows` | libsponge/stream_reassembler.cc:27-79 | pushing excerpts of a stream keeps every stored and assembled byte equal to the stream's, and ends the output exactly with the whole of a completed stream |
| `ReassemblyRuns.RunHeld` | libsponge/stream_reassembler.cc:27-133 | with capacity at least twice the stream, after any excerpts in any order and overlap and any reads: the held indices are exactly the union of the offered ranges |
| `ReassemblyRuns.RunPrefix` | libsponge/stream_reassembler.cc:27-133 | bytes_written is then the longest prefix of that union |
| `ReassemblyRuns.RunOrderIrrelevant` | libsponge/stream_reassembler.cc:27-133 | runs that offer the same indices assemble the same bytes |
| `ReassemblyRuns.KeepsWindowIff` | libsponge/stream_reassembler.cc:52-55 | a push keeps all its in-window bytes if and only if it starts above the prefix or what the counter crowds out is already held |
| `ReassemblyRuns.WindowBytesLost` | libsponge/stream_reassembler.cc:52-55 | a concrete push whose in-window tail is dropped |
| `ReassemblyRuns.EdgePushesWedge` | libsponge/stream_reassembler.cc:125-132 | a concrete run of honest pushes, two at the window edge, that reaches a state with nothing buffered or stored and no room |
| `ReassemblyRuns.WedgedForever` | libsponge/stream_reassembler.cc:27-79 | from such a state no sequence of pushes and reads ever assembles another byte |
| `StreamReassemblers.StreamReassembler.constructor` | libsponge/stream_reassembler.cc:15-22 | empty map, zero counter, no end index |
| `StreamReassemblers.StreamReassembler.PushSubstring` | libsponge/stream_reassembler.cc:27-79 | new state is that of Reassembly.Push; the end index is the sum in 64 bits |
| `StreamReassemblers.StreamReassembler.AppendString` | libsponge/stream_reassembler.cc:49-73 | the cut, the write and the draining compute Reassembly.Append |
| `StreamReassemblers.StreamReassembler.DrainEntries` | libsponge/stream_reassembler.cc:61-73 | the loop moves reached entries to the output as Reassembly.Drain does, keeping counter and entries in step |
| `StreamReassemblers.StreamReassembler.MergeString` | libsponge/stream_reassembler.cc:81-133 | new state is that of Reassembly.Store |
| `StreamReassemblers.StreamReassembler.MergeEntries` | libsponge/stream_reassembler.cc:85-123 | the erase-while-iterating loop computes Reassembly.Merge, keeping counter and entries in step |
| `ByteStreams.ByteStream.constructor` | libsponge/byte_stream.cc:19-25 | an empty stream of the given capacity |
| `ByteStreams.ByteStream.Write` | libsponge/byte_stream.cc:28-36 | accepts min(len, room) bytes at the end, none after the end of input |
| `ByteStreams.ByteStream.PeekOutput` | libsponge/byte_stream.cc:39-43 | the oldest min(len, size) buffered bytes |
| `ByteStreams.ByteStream.PopOutput` | libsponge/byte_stream.cc:46-50 | removes exactly those |
| `ByteStreams.ByteStream.Read` | libsponge/byte_stream.cc:55-59 | what is read continues, without gap or repetition, what was read before |
| `ByteStreams.ByteStream.EndInput` | libsponge/byte_stream.cc:61 | the input is ended, nothing else changes |
| `ByteStreams.ByteStream.Eof` | libsponge/byte_stream.cc:69 | ended and nothing buffered |
| `ByteStreams.ByteStream.RemainingCapacity` | libsponge/byte_stream.cc:75 | room up to bytes_read + capacity |
| `WrappingIntegers.UnwrapNearestIff` | libsponge/wrapping_integers.cc:33-51 | unwrap returns the number nearest the checkpoint, ties upward, if and only if adding half a turn does not overflow 64 bits |
| `WrappingIntegers.UnwrapWrapIff` | libsponge/wrapping_integers.cc:16-51 | for checkpoints below 2^64 − 2^31, unwrap inverts wrap exactly for checkpoint − 2^31 < v ≤ checkpoint + 2^31, or v above that but below 2^32 |
| `WrappingIntegers.UnwrapWrap` | libsponge/wrapping_integers.cc:16-51 | the direction the protocol uses |
| `WrappingIntegers.UnwrapOverflows` | libsponge/wrapping_integers.cc:42 | a concrete checkpoint near 2^64 for which unwrap is a whole range off |
| `WrappingIntegers.WrapInjective` | libsponge/wrapping_integers.cc:16-21 | numbers less than 2^32 apart wrap differently |
| `Checksums.AddConcat` | libsponge/util/util.cc:89-98 | splitting the input into pieces of any length and parity does not change the result |
| `Checksums.NoOverflow` | libsponge/util/util.cc:89-98 | over at most 65535 bytes, with an initial sum below 2^31, the 32-bit sum does not wrap |
| `Checksums.FoldStep` | libsponge/util/util.cc:100-108 | one fold keeps the residue modulo 65535 with its zero representative, and shrinks |
| `Checksums.ValueZeroIff` | libsponge/util/util.cc:100-108 | verification yields 0 if and only if the sum is a positive multiple of 65535 |
| `Checksums.ChecksumVerifies` | libsponge/util/util.cc:100-108 | adding a sum's checksum to it makes it verify |
| `Checksums.FilledFieldVerifies` | libsponge/tcp_helpers/tcp_segment.cc:30-45 | filling a zeroed field at an even offset makes the whole packet verify |
| `Checksums.CorruptedWordIff` | libsponge/util/util.cc:89-108 | after one aligned word changes, a verified packet still verifies if and only if the word went between 0x0000 and 0xffff and the packet did not become all zero |
| `Checksums.InternetChecksum.Add` | libsponge/util/util.cc:89-98 | the byte loop adds the words that the bytes spell, modulo 2^32, from the current parity |
| `Checksums.InternetChecksum.Value` | libsponge/util/util.cc:100-108 | the folding loop yields the complement of the sum's residue modulo 65535 |
| `Parsing.DecodeEncode` | libsponge/util/parser.cc:26-60 | parsing a written integer returns it, for any width it fits |
| `Parsing.EncodeDecode` | libsponge/util/parser.cc:26-60 | writing a parsed integer returns its bytes |
| `Parsing.EncodeAt` | libsponge/util/parser.cc:53-60 | each byte written is the shifted and masked value |
| `Parsing.NetParser.CheckSize` | libsponge/util/parser.cc:20-24 | too little data sets PacketTooShort |
| `Parsing.NetParser.ParseInt` | libsponge/util/parser.cc:26-43 | the loop reads the big-endian number and removes it; after an error it yields 0 and removes nothing |
| `Parsing.NetParser.RemovePrefix` | libsponge/util/parser.cc:45-51 | removes n bytes, or reports that there are not that many |
| `Parsing.UnparseInt` | libsponge/util/parser.cc:53-60 | the loop appends the big-endian bytes |
| `TcpFormats.HeaderRoundTrip` | libsponge/tcp_helpers/tcp_header.cc:17-78 | parsing a serialized header returns every field and leaves exactly what followed, for every data offset 5 to 15 |
| `TcpFormats.TcpLayout` | libsponge/tcp_helpers/tcp_header.cc:51-78 | the bytes are the header of section 3.1 of RFC 793: every field big-endian at its offset, each flag its bit, zeros up to the advertised length |
| `TcpFormats.TcpFieldsAt` | libsponge/tcp_helpers/tcp_header.cc:17-37 | of any twenty bytes, each field is the big-endian number at its offset and each flag its bit |
| `TcpFormats.TcpReserialized` | libsponge/tcp_helpers/tcp_header.cc:17-78 | serializing a parsed header returns its bytes if and only if the bits without a field and the options are zero |
| `TcpFormats.TcpResult` | libsponge/tcp_helpers/tcp_header.cc:17-48 | the result for every buffer: HeaderTooShort iff the data offset is missing or below 5, else PacketTooShort iff there are fewer than 20 or than 4 · doff bytes, else NoError |
| `TcpFormats.SegmentRoundTrip` | libsponge/tcp_helpers/tcp_segment.cc:12-45 | parsing a serialized segment with the same pseudo-sum returns it with its checksum filled in |
| `TcpFormats.AlteredSegmentRejected` | libsponge/tcp_helpers/tcp_segment.cc:12-45 | altering one aligned word of a serialized segment yields BadChecksum if and only if the word did not go between the two forms of zero |
| `TcpFormats.SegmentAcceptedIff` | libsponge/tcp_helpers/tcp_segment.cc:12-23 | parse accepts a buffer if and only if it verifies, has 20 bytes and has 4 · doff bytes |
| `TcpFormats.HeaderErrorLostIff` | libsponge/tcp_helpers/tcp_segment.cc:19-22 | exactly when an error of the header parser is lost: a verified buffer of 20 bytes or more with doff below 5 |
| `TcpFormats.ShortHeaderAccepted` | libsponge/tcp_helpers/tcp_segment.cc:19-22 | a concrete such buffer |
| `TcpFormats.SerializeTcpHeader` | libsponge/tcp_helpers/tcp_header.cc:51-78 | the bytes of all fields, padded to 4 · doff; an error if doff < 5 |
| `TcpFormats.ParseTcp` | libsponge/tcp_helpers/tcp_header.cc:17-48 | fields, result and remaining parser are those of ParseTcpHeader, short buffers included |
| `TcpFormats.SerializeSegment` | libsponge/tcp_helpers/tcp_segment.cc:30-45 | header with checksum filled in, then payload; an error if doff < 5 |
| `TcpFormats.ParseTcpSegment` | libsponge/tcp_helpers/tcp_segment.cc:12-23 | segment and result are those of ParseSegment |
| `Ipv4Formats.DatagramRoundTrip` | libsponge/tcp_helpers/ipv4_datagram.cc:11-41 | parsing a serialized datagram returns it with its checksum filled in, thirteen bits of its offset and no header error, for header lengths 5 to 15 |
| `Ipv4Formats.IpLayout` | libsponge/tcp_helpers/ipv4_header.cc:78-110 | the bytes are the header of section 3.1 of RFC 791: every field big-endian at its offset, flags and thirteen bits of offset in one word, zeros up to the advertised length |
| `Ipv4Formats.IpFieldsAt` | libsponge/tcp_helpers/ipv4_header.cc:31-50 | of any twenty bytes, each field is the big-endian number at its offset, the short ones their bits |
| `Ipv4Formats.IpReserialized` | libsponge/tcp_helpers/ipv4_header.cc:23-110 | serializing a parsed header returns its bytes if and only if the reserved bit and the options are zero |
| `Ipv4Formats.IpResult` | libsponge/tcp_helpers/ipv4_header.cc:23-75 | the result for every buffer, from its bytes: too short, version, header length, total length, checksum, in this order |
| `Ipv4Formats.PseudoSumWords` | libsponge/tcp_helpers/ipv4_header.cc:112-131 | pseudo_cksum is the sum of the 16-bit words of the twelve-byte pseudo-header: both addresses, zero and protocol, payload length |
| `Ipv4Formats.MisaddressedRejected` | libsponge/tcp_helpers/ipv4_header.cc:112-131 | a segment that arrives under a header whose pseudo-header differs in one word, such as half of either address, yields BadChecksum if and only if that word did not go between the two forms of zero |
| `Ipv4Formats.PlainRoundTrip` | libsponge/tcp_helpers/ipv4_datagram.cc:11-41 | without options, whatever serialize accepts comes back with its checksum filled in, thirteen bits of its offset and datagram result NoError, even with a total length past the 16-bit field, where the header parser reports TruncatedPacket and the report is lost |
| `Ipv4Formats.DatagramAcceptedIff` | libsponge/tcp_helpers/ipv4_datagram.cc:11-21 | what parse accepts: a well-formed datagram whatever its checksum, or one whose bytes after the first 20 number what its length fields say |
| `Ipv4Formats.IpErrorLostIff` | libsponge/tcp_helpers/ipv4_datagram.cc:11-21 | exactly when an error of the header parser is lost |
| `Ipv4Formats.BadChecksumAccepted` | libsponge/tcp_helpers/ipv4_datagram.cc:11-21 | any serialized datagram is still accepted with any other header checksum |
| `Ipv4Formats.SealedVerifies` | libsponge/tcp_helpers/ipv4_datagram.cc:28-35 | the filled-in header checksum verifies |
| `Ipv4Formats.SerializeIpHeader` | libsponge/tcp_helpers/ipv4_header.cc:78-110 | the bytes of all fields, padded to 4 · hlen; an error for another version or a short header |
| `Ipv4Formats.ParseIp` | libsponge/tcp_helpers/ipv4_header.cc:23-75 | fields, result in the source's order of checks, and remaining parser are those of ParseIpHeader |
| `Ipv4Formats.SerializeDatagram` | libsponge/tcp_helpers/ipv4_datagram.cc:23-41 | header with checksum filled in, then payload; an error if the payload length disagrees |
| `Ipv4Formats.ParseIpDatagram` | libsponge/tcp_helpers/ipv4_datagram.cc:11-21 | datagram and result are those of ParseDatagram |
| `Encapsulation.EncapsulationRoundTrip` | libsponge/tcp_helpers/tcp_over_ip.cc:26-90 | wrapping, serializing, parsing and unwrapping at a mirrored connected peer, or at a listening one for an opening SYN, returns the segment with ports and checksum filled in and leaves the peer connected to the sender |
| `Encapsulation.OversizeRefusedIff` | libsponge/tcp_helpers/tcp_over_ip.cc:80-87 | the datagram fails to serialize if and only if the segment exceeds 65535 bytes |
| `Encapsulation.UnwrapSafe` | libsponge/tcp_helpers/tcp_over_ip.cc:26-71 | a returned segment travelled between exactly the two addresses and ports the adapter then stands connected to; otherwise the adapter is unchanged |
| `Encapsulation.UnwrapIff` | libsponge/tcp_helpers/tcp_over_ip.cc:26-71 | a segment is returned if and only if the datagram carries TCP that parses and is for the port, and, connected, comes from the peer to this address, or, listening, has SYN without RST; it is then the parsed one |
| `Encapsulation.WrappedHeader` | libsponge/tcp_helpers/tcp_over_ip.cc:75-90 | the datagram's header field by field: version 4, no options, do not fragment, TTL 128, protocol 6, the two addresses, total length 20 + 4 · doff + payload in 16 bits |
| `Encapsulation.TcpOverIpv4Adapter.UnwrapTcpInIp` | libsponge/tcp_helpers/tcp_over_ip.cc:26-71 | result and new configuration are those of Adapter.Unwrap |
| `Encapsulation.TcpOverIpv4Adapter.WrapTcpInIp` | libsponge/tcp_helpers/tcp_over_ip.cc:75-90 | the datagram is that of Adapter.Wrap, with the header of `WrappedHeader` and a checksum over the pseudo-header of `PseudoSumWords`; the segment gets the connection's ports |
| `Stacks.EmittedCarriable` | libsponge/tcp_sender.cc:64-106 | on every run: whatever an endpoint emits fits the wire format |
| `Stacks.WireTransparent` | libsponge/tcp_helpers/tcp_over_ip.cc:26-90 | on every run: any packet sent through the adapters as bytes comes out as a segment to which the peer reacts exactly as to the original |
| `Stacks.RelabelReceived` | libsponge/tcp_connection.cc:27-79 | a connection's reaction depends on neither ports nor checksum |
| `ArpInterfaces.RunInv` | libsponge/network_interface.cc:31-140 | on every run, at every address: a mapping is younger than 30 s, a request younger than 5 s and never younger than a coexisting mapping, and datagrams wait, at least one, exactly where a request is pending and no mapping known |
| `ArpInterfaces.RequestsSpaced` | libsponge/network_interface.cc:43-56 | from any state: two requests for one address are at least 5000 ms apart |
| `ArpInterfaces.AsksIff` | libsponge/network_interface.cc:36-62 | a request is broadcast exactly on a send with neither mapping nor pending request |
| `ArpInterfaces.RequestSays` | libsponge/network_interface.cc:43-56 | a send with neither mapping nor pending request queues exactly one frame, a broadcast request that names the asker |
| `ArpInterfaces.RepliesExactly` | libsponge/network_interface.cc:83-102 | a received frame is answered with one ARP reply, to the asker and naming this station, if and only if it is addressed here or broadcast and is a request for this address; no other ARP frame leaves |
| `ArpInterfaces.PassesUpExactly` | libsponge/network_interface.cc:66-81 | a datagram is passed up if and only if a frame addressed here or broadcast carries it |
| `ArpInterfaces.ResolvesAndDelivers` | libsponge/network_interface.cc:31-114 | two interfaces: a datagram for an address not yet asked for is queued and asked for, the asked one replies, the reply releases exactly that datagram, and the other passes it up |
| `ArpInterfaces.MappingLasts` | libsponge/network_interface.cc:117-127 | a mapping that is not announced again stays cached, with its station, until 30 s have passed |
| `ArpInterfaces.FramedAt` | libsponge/network_interface.cc:105-111 | each waiting datagram leaves in its own frame, in its place |
| `ArpInterfaces.MappingAnnounced` | libsponge/network_interface.cc:83-90 | on every run: a cached mapping was announced by its address exactly its age ago, under 30 s |
| `ArpInterfaces.RequestMade` | libsponge/network_interface.cc:43-56 | on every run: a pending request was made exactly its age ago, and while unresolved its address has been silent since |
| `ArpInterfaces.ResolvedInOrder` | libsponge/network_interface.cc:31-140 | on every run, per next hop: datagrams forwarded or dropped, in the order this happened, then those queued, are exactly those handed in, in order |
| `ArpInterfaces.ForwardedExactly` | libsponge/network_interface.cc:31-113 | the datagram frames a step queues are exactly the forwarded ones, in order, to the station cached for that hop with age under 30 s |
| `ArpInterfaces.DropJustified` | libsponge/network_interface.cc:128-139 | on every run: datagrams are dropped only when their hop was asked for at least 5000 ms before and has been silent since |
| `ArpInterfaces.Appends` | libsponge/network_interface.cc:143-150 | steps only append to the output queue |
| `NetworkInterfaces.NetworkInterface.constructor` | libsponge/network_interface.cc:22-26 | empty maps and queue |
| `NetworkInterfaces.NetworkInterface.SendDatagram` | libsponge/network_interface.cc:31-62 | new state is that of ArpInterfaces.SendDatagram |
| `NetworkInterfaces.NetworkInterface.RecvFrame` | libsponge/network_interface.cc:66-114 | new state is that of ReceiveFrame and the result that of PassedUp; what they reply, release and pass up is fixed by `RepliesExactly`, `ForwardedExactly` and `PassesUpExactly` |
| `NetworkInterfaces.NetworkInterface.Tick` | libsponge/network_interface.cc:117-140 | new state is that of Elapse |
| `NetworkInterfaces.NetworkInterface.AgeTable` | libsponge/network_interface.cc:120-127 | the erase-while-iterating loop ages every mapping and keeps those under 30 s |
| `NetworkInterfaces.NetworkInterface.AgeRequests` | libsponge/network_interface.cc:129-139 | the loop ages every request, keeps those under 5 s and drops what waited for the others |
| `NetworkInterfaces.NetworkInterface.Flush` | libsponge/network_interface.cc:105-111 | what waited leaves in order |

## Left out

- 64-bit counters (stream indices, absolute sequence numbers, ages, times) are unbounded naturals; `unwrap`, the receiver's subtraction of one and the reassembler's end index are the exceptions, modelled modulo 2^64.
- Receiving.SegmentPlaced: covers genuine segments; the index that wraps to 2^64 − 1, for a forged non-SYN segment carrying the initial sequence number, is modelled (its bytes fall outside the window; a FIN on it moves the end index, whose sum is taken in 64 bits) but not characterised further.
- StreamReassemblers.StreamReassembler.PushSubstring: the sums of index and length other than the end index are unbounded; by `ReassemblyProofs.RangeTestUnwrapped` this makes no difference while bytes_read + capacity + length < 2^64.
- Systems.PrefixSafety: assumes that delivered segments were sent by the peer and are timely, as RFC 793 does; segments forged by a third party are outside it.
- Completing.RoundsComplete: that the network delivers is a condition on the run (it is served often enough); runs are finite, so there is no statement about infinite runs under fairness.
- `std::map` in the reassembler is a sequence of entries in key order; `_unaccepted_index` is recomputed where it is read, as the program does before each use.
- `Buffer` and `BufferList` are sequences of bytes; sharing and reference counts are not modelled.
- Headers, segments and datagrams are values: a parse method returns the new header instead of assigning its fields one by one.
- Exceptions thrown by `serialize` are a missing result; the network interface frames datagrams as values, so an exception from serializing a malformed one there is not modelled.
- ARP messages and Ethernet headers as bytes: fixed-size fields that would repeat the integer round trip; a frame that does not parse is one case of the datatype.
- Addresses are a 32-bit number and a port; name resolution and the textual detour through `inet_ntoa` are not modelled.
- `Router`: a longest-prefix scan, easy beside the rest.
- Sockets, file descriptors, the event loop, TUN and TAP devices, threads, lossy adapters, applications, printing and random numbers; the initial sequence number is an arbitrary parameter.
