# Verified model of the sponge TCP/IP stack

A Dafny model of the protocol logic of sponge: the byte stream, the reassembler, the TCP receiver, sender and
connection, the wire formats with the Internet checksum, the ARP interface and the longest-prefix router.
`dafny verify dfyconfig.toml` checks all of it.

## How it is laid out

Every part the source changes in place comes twice. A *value model* (`StreamModel`, `ReassemblerModel`,
`ReceiverModel`, `SenderModel`, `ConnectionModel`, `Checksums`, `Parsing`, `TcpWire`, `Ipv4Wire`, `ArpModel`,
`AdapterModel`, `RouterModel`) defines each operation as a function on values, and the properties are proved about
those. A *class* (`ByteStream`, `StreamReassembler`, `TCPReceiver`, `TCPSender`, `TCPConnection`, `InternetChecksum`,
`NetParser`, `NetworkInterface`, `TCPOverIPv4Adapter`, `Router`) does what the source does, loop by loop and field by
field, and each of its methods is proved to take the old value to the one its function gives.

`Reassembler64` is the reassembler in the source's 64-bit arithmetic, where sums of positions wrap; the class and
everything above it use that one, and it is proved equal to `ReassemblerModel` wherever nothing wraps. Sequence numbers
are unwrapped in 64-bit arithmetic throughout.

On top of the value models:

- `SenderRuns` follows one sender through every run of calls: tiling of the retransmission queue, window obedience,
  the timer.
- `Link` joins one sender, the receiver at the other end, and every packet ever put on the network between them. Nothing
  is ever taken out of the two sets of packets, so loss, repetition and reordering are all included.
- `Duplex` joins two connections that way and shows that every call on either, and every delivery, keeps the joint
  invariant. `EndToEnd` draws the safety conclusions over every run, `Progress` says what a delivery achieves,
  `Delivery` that no reachable state is stuck, `Quiescence` that deliveries come to an end, and `GivingUp` follows a
  connection nobody answers. `Calls` says what each call on a connection sends and leaves behind, and `Shutdown` exactly
  when an endpoint closes.
- `WireLayout` says where each field is on the wire, what the checksums cover and exactly what is accepted.
- `InterfaceRuns` compares the network interface with an ideal one that keeps times instead of ages and forgets nothing.

## Main results

1. **End to end** (`EndToEndSafety`, `NothingLost`, `MemoryBound`, `NothingCut`): each side outputs a prefix of what the
   other wrote, and all of it when it reports the end; unassembled bytes stay in the retransmission queue; the capacity
   is never exceeded although nothing in the reassembler sees to it.
2. **Closing** (`CloseIsExact`, `PassiveCloseIsPrompt`, `CleanCloseMeansDelivered`, `NoLingerIsSafe`,
   `InactiveForever`, `ClosesWhenDone`): an endpoint is open exactly as long as it may not close, and a closed one has
   delivered everything.
3. **Reassembly** (`PushRefinesSet`, `RunRefinesSet`, `OrderIndependent`): the interval map is a set of positions.
4. **Progress and quiescence** (`AlwaysDeliverable`, `RoundTripProgress`, `DeliveriesEnd`): from every reachable state
   with both ends open, finitely many calls and deliveries complete the stream; with no more calls, deliveries end.
5. **Sender** (`QueueTiles`, `EveryNumberSent`, `WindowObeyed`, `TimerDiscipline`, `RetransmitsOnTime`,
   `GivesUpOnNinthExpiry`).
6. **Calls** (`EveryCallSpeaks`, `WindowTravels`, `WindowIsUsed`, `AnswersOnce`, `CallsDrain`, `FailsExactly`): every
   packet says what has been assembled and how much room is left, the peer uses that room, every delivery is answered
   once, and a connection fails exactly so.
7. **Wire** (`TcpAccepts`, `TcpOnTheWire`, `DatagramAccepts`, `IpOnTheWire`, `SegmentRoundTrip`, `AnyByteNoticed`,
   `DatagramRoundTrip`, `StackRoundTrip`, `PeerHears`).
8. **ARP and routing** (`FramesExact`, `WaitsForReply`, `ArpPacing`, `FreshAddress`, `SafeTicksExact`, `LookupIsBest`,
   `LongestPrefixMatch`, `TimeToLive`).

## What the runs assume

- 64-bit counters stay below 2^64 - 2^32 (`Duplex.Enabled`, for writes).
- A packet is delivered within its lifetime (section 3.3 of RFC 793): its numbers are less than 2^31 from what the
  other side has reached (`Link.Recent`). Resets may arrive at any time.
- The two endpoints talk only to each other; packets are not forged or altered.

## Where the code does not do what one might expect

The model follows the code; each of these is a lemma.

- `unassembled_bytes` drifts upwards when a push straddles the mark or is cut (`CounterDrifts`, exactly how much in
  `PushCounter`).
- Bytes pushed at the mark after the end of the stream move the mark and not the output (`MarkOverrunsOutput`; a push
  keeps the two together exactly unless it does that, `PushKeeps`). Order, disjointness and the counter survive every
  push (`PushOrders`).
- The header of the reassembler promises to stay within its capacity; the code alone does not (`StorageUnbounded`,
  exactly when it does in `HeldWithinIff`). In the joined system it always holds (`MemoryBound`).
- Bytes at the number of the SYN that are not a SYN are pushed at an underflowed index, and a FIN with them can end
  input early (`EarlyEnd`, `ClaimedSynEnds`; exactly which segments in `IndexWrapsIff`). No sender here sends one.
- An acknowledgment that pops nothing resets the count of retransmissions but not the timeout, so a network that
  repeats one defeats the limit (`RepeatedAckDefeatsLimit`; without one the connection gives up,
  `GivesUpOnNinthExpiry`, and the timeout bound holds, `TimeoutWithin512`, exactly up to nine doublings, `RtoBound`).
- Nothing in the sender itself limits doubling, and 32 bits overflow to zero (`TimeoutCollapses`).
- `unwrap` near 2^64 cannot return the nearest number (`Unwrap64Overflows`, exact condition in `Unwrap64Agrees`).
- `IPv4Datagram::parse` does not look at what the header's own parse returned, so a bad header checksum is not noticed
  (`ChecksumIgnored`; exactly what is accepted in `DatagramAccepts`).
- Long ticks overflow the 32-bit ages of ARP mappings, and a datagram then goes to a stale address
  (`UnsafeTickGoesStale`; exactly which ticks in `SafeTicksExact`).
- A default route must be written with prefix zero (`MisfiledDefault`, exact condition in `FindableIff`).

## Model

| member | source | states |
|---|---|---|
| `WrappingIntegers.Unwrap` | libsponge/wrapping_integers.cc:32-47 | whatever the checkpoint, the result wraps back to the number that was unwrapped |
| `WrappingIntegers.UnwrapClosest` | libsponge/wrapping_integers.cc:32-47 | of all absolute numbers with the given wire form the result is the nearest to the checkpoint, the lower of two equally near |
| `WrappingIntegers.ClosestUnique` | libsponge/wrapping_integers.cc:22-47 | "nearest, ties downward" picks one number, so the previous row determines the result |
| `WrappingIntegers.UnwrapWrap` | libsponge/wrapping_integers.cc:16-47 | the round trip gives the number back if and only if it is at most 2^31 below and less than 2^31 above the checkpoint (or below 2^32 with nothing lower to choose) |
| `WrappingIntegers.Unwrap64Agrees` | libsponge/wrapping_integers.cc:32-47 | the truncating 64-bit computation returns the nearest number if and only if the checkpoint is not in the last 2^32 with a wire number more than 2^31 below it; otherwise that number modulo 2^64 |
| `WrappingIntegers.Unwrap64Wrap` | libsponge/wrapping_integers.cc:16-47 | the round trip in 64 bits, for every number within half a period of a checkpoint below 2^64 - 2^32 |
| `WrappingIntegers.Unwrap64Overflows` | libsponge/wrapping_integers.cc:32-47 | an input at the top of the 64-bit range for which the nearest number is not returned |
| `WrappingIntegers.WrapInjectiveNear` | libsponge/wrapping_integers.cc:16-20 | numbers less than 2^32 apart have the same wire form only if they are equal |
| `StreamModel.FifoOverRuns` | libsponge/byte_stream.cc:19-98 | over every run of writes, reads and ends: what was read is exactly what was accepted, in order and once each; nothing accepted changes; nothing is accepted after the end |
| `StreamModel.NothingHeldBack` | libsponge/byte_stream.cc:19-98 | a write is accepted whole unless it fills the buffer or comes after the end, a read gets what it asked for unless it empties the buffer, and each flag is set by its own call only |
| `ByteStreams.ByteStream.Write` | libsponge/byte_stream.cc:19-34 | the byte-by-byte loop appends exactly the part of the data that fits, none after the end, and returns its length |
| `ByteStreams.ByteStream.PeekOutput` | libsponge/byte_stream.cc:37-41 | the oldest unread bytes, as many as asked for or as there are, the stream unchanged |
| `ByteStreams.ByteStream.PopOutput` | libsponge/byte_stream.cc:44-53 | the loop drops the oldest bytes and stops at an empty buffer |
| `ByteStreams.ByteStream.Read` | libsponge/byte_stream.cc:58-66 | what is returned is what is removed |
| `ReassemblerModel.InsertSorted` | libsponge/stream_reassembler.cc:24-68 | merge and insert keep entries in key order, disjoint, and an empty one never inside another |
| `ReassemblerModel.InsertCovers` | libsponge/stream_reassembler.cc:24-68 | merge and insert lose no stored position and invent none: afterwards exactly the old positions and the pushed ones are covered |
| `ReassemblerModel.InsertAll` | libsponge/stream_reassembler.cc:24-68 | whatever holds of every stored entry and of every part of the substring holds of every entry afterwards, so bytes stay at the position they arrived for |
| `ReassemblerModel.AssembleKeeps` | libsponge/stream_reassembler.cc:70-94 | whatever the state of the output, assembling leaves only entries beyond the mark, in order and counted, and only appends; while input is open it stops at the least uncovered position or at a full output |
| `ReassemblerModel.NextMissingIsLeast` | libsponge/stream_reassembler.cc:24-113 | the mark a push aims at is the least position neither held nor pushed |
| `ReassemblerModel.PushOrders` | libsponge/stream_reassembler.cc:24-113 | every push, also after the end, keeps entries sorted, disjoint and beyond the mark, never lets the counter fall below what is stored, and appends only; input ends exactly when the mark reaches the announced end |
| `ReassemblerModel.PushKeeps` | libsponge/stream_reassembler.cc:99-113 | a push keeps the mark equal to the bytes written if and only if it does not bring new bytes to the mark after the end with room left; then the mark moves to the next missing position or to a full output |
| `ReassemblerModel.MarkOverrunsOutput` | libsponge/stream_reassembler.cc:70-113 | a push after the end that moves the mark past the output |
| `ReassemblerModel.PushRefinesSet` | libsponge/stream_reassembler.cc:24-113 | a push adds its positions to the set held and changes nothing else if and only if no byte is cut |
| `ReassemblerModel.NothingCutIff` | libsponge/stream_reassembler.cc:80-89 | no byte is cut if and only if the output has room up to the next missing position |
| `ReassemblerModel.PushCounter` | libsponge/stream_reassembler.cc:62-94 | for every push the byte counter comes to overstate by exactly the already assembled part of the push and the bytes that are cut |
| `ReassemblerModel.CounterDrifts` | libsponge/stream_reassembler.cc:80-89 | for all bytes pushed once and then again with more: all are delivered, nothing is stored, and the counter still counts the first ones |
| `ReassemblerModel.StorageUnbounded` | libsponge/stream_reassembler.cc:62-68 | with one byte of capacity any amount is stored out of order |
| `ReassemblerModel.PushBytes` | libsponge/stream_reassembler.cc:24-113 | for every push the mark and the bytes stored together grow by exactly the pushed positions not held before, less the bytes cut |
| `ReassemblerModel.HeldWithinIff` | libsponge/stream_reassembler.cc:24-113 | while input is open, bytes held (unread and stored) grow by the new positions less the bytes cut, so they stay within the capacity if and only if that sum does |
| `ReassemblerModel.StorageBoundedIff` | libsponge/stream_reassembler.cc:62-94 | what is stored ends within the reach of the capacity after a push if and only if the push ends there or reaches back to the mark (a statement about positions) |
| `ReassemblerModel.PushSlices` | libsponge/stream_reassembler.cc:24-113 | pushing slices of one stream keeps all that is stored and delivered slices of it |
| `ReassemblerModel.RunRefinesSet` | libsponge/stream_reassembler.cc:24-113 | over every run of slices of one stream that fit: the mark is the least position never pushed, the map covers the other pushed positions, the output is the stream up to the mark, and input has ended exactly when the end was announced and reached |
| `ReassemblerModel.OrderIndependent` | libsponge/stream_reassembler.cc:24-113 | two runs that push the same positions, in any order and any number of times, end with the same mark, output, end and covered positions |
| `Reassembler64.Push64Keeps` | libsponge/stream_reassembler.cc:24-113 | with sums wrapping at 64 bits, every push keeps the keys in order and every stored byte counted |
| `Reassembler64.Push64Grows` | libsponge/stream_reassembler.cc:24-113 | with sums wrapping at 64 bits, every push only appends to the output |
| `Reassembler64.Push64IsPush` | libsponge/stream_reassembler.cc:24-113 | a push that ends below 2^64, on entries that do, is the push of the unbounded model, erasing loop and trimming included |
| `Reassembler64.Run64IsRun` | libsponge/stream_reassembler.cc:24-113 | over every run of fitting slices of one stream at 64-bit indices, the wrapping reassembler is the unbounded one, so the run results above hold of it |
| `Reassemblers.StreamReassembler.EraseSwallowed` | libsponge/stream_reassembler.cc:24-37 | the erasing loop removes exactly the run of entries that end inside the substring, with wrapping ends, and takes their bytes off the counter |
| `Reassemblers.StreamReassembler.Merge` | libsponge/stream_reassembler.cc:24-60 | the in-place loop erases the swallowed entries and returns the part that fits the gap, or nothing, with wrapping sums |
| `Reassemblers.StreamReassembler.Insert` | libsponge/stream_reassembler.cc:62-68 | the map afterwards is the specified insertion, and the counter moved with the bytes stored |
| `Reassemblers.StreamReassembler.SendToBytestream` | libsponge/stream_reassembler.cc:70-94 | the loop writes and erases from the front until a gap |
| `Reassemblers.StreamReassembler.PushSubstring` | libsponge/stream_reassembler.cc:99-113 | a push acts as the 64-bit specification, for which the rows above hold |
| `ReceiverModel.StepKeepsPromise` | libsponge/tcp_receiver.cc:13-50 | no segment, well formed or not, and no read lowers the acknowledgment number or moves the advertised right edge left |
| `ReceiverModel.NeverRetracts` | libsponge/tcp_receiver.cc:13-50 | the same over every run, for the window as capped on segments (section 4.2.2.16 of RFC 1122) |
| `ReceiverModel.FirstSegment` | libsponge/tcp_receiver.cc:13-35 | a SYN fixes the initial number, and the bytes and FIN it carries are taken, as many as there is capacity for |
| `ReceiverModel.IndexWrapsIff` | libsponge/tcp_receiver.cc:32-34 | the end of a push wraps at 64 bits if and only if the segment carries bytes at the number of the SYN without being one |
| `ReceiverModel.ClaimedSynEnds` | libsponge/tcp_receiver.cc:13-35 | the FIN of such a segment ends input exactly if one byte fewer than its payload has been assembled, and delivers nothing |
| `ReceiverModel.EarlyEnd` | libsponge/tcp_receiver.cc:13-35 | one such byte right after the handshake ends input with nothing delivered |
| `Receivers.TCPReceiver.SegmentReceived` | libsponge/tcp_receiver.cc:13-35 | the receiver acts as the specification in 64-bit arithmetic: SYN first, window test, and a non-SYN segment at number zero pushed at the underflowed index with its wrapped end |
| `Receivers.TCPReceiver.Ackno` | libsponge/tcp_receiver.cc:37-46 | nothing before a SYN, then the wire form of SYN, bytes assembled and FIN counted together |
| `Receivers.TCPReceiver.Window` | libsponge/tcp_receiver.cc:48-50 | the room left in the output, unread bytes counted against it |
| `SenderModel.TilesUnique` | libsponge/tcp_sender.cc:29-107 | tiling means each number in range belongs to exactly one segment |
| `SenderModel.TransmitKeeps` | libsponge/tcp_sender.cc:53-78 | each turn sends the next slice of the stream inside the window, with FIN exactly at the end of an ended stream, and keeps the queue tiled |
| `SenderModel.FillLoopExtends` | libsponge/tcp_sender.cc:46-79 | one filling queues, for sending and for retransmission alike, segments that tile the numbers from the old next to the new, and touches no timer |
| `SenderModel.FillLoopKeeps` | libsponge/tcp_sender.cc:46-79 | the filling loop ends, keeps the invariant and stays inside the window |
| `SenderModel.FillIsMaximal` | libsponge/tcp_sender.cc:46-79 | after filling, an open window is full, or every byte is read and the stream has not ended; and a FIN is sent only at the end of the stream |
| `SenderModel.FillsFullSegments` | libsponge/tcp_sender.cc:53-78 | of the segments of one filling all but the last are of the maximal size and without FIN, and none is empty unless nothing was unread: the FIN travels with the last bytes |
| `SenderModel.PopKeeps` | libsponge/tcp_sender.cc:95-107 | popping retires exactly the segments that end at or below the acknowledgment: the oldest left reaches past it, or nothing is left |
| `SenderModel.TakeAckKeeps` | libsponge/tcp_sender.cc:83-112 | an accepted acknowledgment, partial or stale, keeps the queue tiled, and empties it exactly if it acknowledges everything |
| `SenderModel.AckKeeps` | libsponge/tcp_sender.cc:83-118 | every acknowledgment, accepted or not, keeps the invariant |
| `SenderModel.AckIsUsed` | libsponge/tcp_sender.cc:83-118 | after an accepted acknowledgment the new window is used: it is full, or there is nothing left to send |
| `SenderModel.TickKeeps` | libsponge/tcp_sender.cc:121-139 | every tick keeps the invariant |
| `SenderModel.RetransmitsOldest` | libsponge/tcp_sender.cc:121-139 | an expiry sends exactly one segment, the one that starts at the oldest unacknowledged number |
| `SenderRuns.QueueTiles` | libsponge/tcp_sender.cc:29-107 | in every run: a number is unacknowledged if and only if an outstanding segment contains it, and then only one does; payloads are the stream's slices; the counters say how far the stream was read |
| `SenderRuns.WindowObeyed` | libsponge/tcp_sender.cc:46-112 | in every run, each number sent for the first time after the SYN is below the last accepted acknowledgment plus its window, zero counting as one |
| `SenderRuns.EveryNumberSent` | libsponge/tcp_sender.cc:29-79 | in every run each number below the next one, SYN and FIN included, was queued for sending in some segment |
| `SenderRuns.TimerDiscipline` | libsponge/tcp_sender.cc:95-139 | in every run the elapsed time is the true time, in 32 bits, since the last pop or expiry or since nothing was outstanding; the timeout is the initial one doubled per expiry at an open window since a segment was last popped (in 32 bits); and after a tick the elapsed time is below the timeout exactly unless before it the timeout was zero or, at 2^31 and about to be doubled, overflows |
| `SenderRuns.RetransmitsOnTime` | libsponge/tcp_sender.cc:121-139 | in every run a tick queues the oldest outstanding segment if and only if the true time, in 32 bits, has then reached the timeout, and otherwise queues nothing |
| `SenderRuns.RtoBound` | libsponge/tcp_sender.cc:95-139 | as long as doubling has not overflowed 32 bits, the timeout is within 512 times its initial value if and only if there were at most nine doublings |
| `SenderRuns.TimeoutCollapses` | libsponge/tcp_sender.cc:121-139 | from 1000 ms, any 29 or more unanswered expiries bring the 32-bit timeout to zero, and then every tick retransmits |
| `Senders.TCPSender.SendSynSegment` | libsponge/tcp_sender.cc:29-44 | the SYN is queued once for sending and once for retransmission, and the alarm runs |
| `Senders.TCPSender.FillWindow` | libsponge/tcp_sender.cc:46-79 | the loop does what the specification says, for which the rows above hold |
| `Senders.TCPSender.PopOutstanding` | libsponge/tcp_sender.cc:95-107 | the popping loop retires what the specification retires and resets the timer only if it popped |
| `Senders.TCPSender.AckReceived` | libsponge/tcp_sender.cc:83-118 | rejects, pops, leaves SYN_SENT and refills as specified |
| `Senders.TCPSender.Tick` | libsponge/tcp_sender.cc:121-139 | counts time, doubles and retransmits as the specification does, for which the rows above hold over every run |
| `Senders.TCPSender.SendEmptySegment` | libsponge/tcp_sender.cc:143-147 | an empty segment at the next number is queued and not kept for retransmission |
| `TcpState.SummaryTellsPhase` | libsponge/tcp_helpers/tcp_state.cc:94-110 | the summary computed from counters names the sender's own phase, the last one split by whether anything is outstanding |
| `TcpState.SummaryOverRuns` | libsponge/tcp_helpers/tcp_state.cc:94-110 | the same, as an equivalence for each state, in every reachable error-free sender |
| `TcpState.ReceiverSummaryOverRuns` | libsponge/tcp_helpers/tcp_state.cc:82-92 | in every run a receiver is listening exactly until a SYN has arrived, and has received the FIN exactly when its output has ended |
| `Connections.TCPConnection.TryCleanShutdown` | libsponge/tcp_connection.cc:75-86 | stops lingering or closes as the specification does, which by the rows on closing below is exactly when it may |
| `Connections.TCPConnection.KillConnection` | libsponge/tcp_connection.cc:33-38 | both streams in error, inactive, no lingering |
| `Connections.TCPConnection.FetchSegment` | libsponge/tcp_connection.cc:88-101 | the draining loop hands over every queued segment, in order, stamped by the specification, which the rows on calls below tie to the room left in the receiver |
| `Connections.TCPConnection.SendRstSegment` | libsponge/tcp_connection.cc:188-202 | the segment at the head of the queue goes out as the reset |
| `Connections.TCPConnection.SegmentReceived` | libsponge/tcp_connection.cc:108-145 | reset, digest, shutdown test, reply, keep-alive answer and second shutdown test as specified |
| `Connections.TCPConnection.Tick` | libsponge/tcp_connection.cc:157-177 | time in 32-bit signed arithmetic, giving up after too many retransmissions, otherwise retransmission and shutdown test |
| `Connections.TCPConnection.Write` | libsponge/tcp_connection.cc:149-154 | accepts what fits and sends what the window allows |
| `Connections.TCPConnection.EndInputStream` | libsponge/tcp_connection.cc:179-182 | ends the stream and sends what the window allows |
| `Connections.TCPConnection.Connect` | libsponge/tcp_connection.cc:184-186 | sends the SYN if nothing was sent |
| `Connections.TCPConnection.Destroy` | libsponge/tcp_connection.cc:204-215 | a reset and an unclean end if still active |
| `Link.AckBetween` | libsponge/tcp_receiver.cc:37-46 | oldest unacknowledged number <= the receiver's acknowledgment number <= next number to send |
| `Link.ArrivalRead` | libsponge/tcp_receiver.cc:13-35 | in 64-bit arithmetic a packet delivered within its lifetime is read as the number it was sent with, and nothing wraps |
| `Link.LinkReceive` | libsponge/tcp_receiver.cc:13-35 | delivering any packet ever sent, within its lifetime, however often and in whatever order, keeps the joint invariant of sender and receiver |
| `Link.LinkAck` | libsponge/tcp_sender.cc:83-118 | delivering any acknowledgment ever sent, within its lifetime, keeps the joint invariant, and its number is read as the one that was meant |
| `Duplex.MoveKeeps` | libsponge/tcp_connection.cc:33-215 | every call on either connection and every delivery between them keeps the invariant of the two-connection system |
| `EndToEnd.EndToEndSafety` | libsponge/tcp_connection.cc:88-215 | over every run of two connections and a network that loses, repeats and reorders: what each side outputs is a prefix of what the other wrote, and all of it once the end is reported |
| `EndToEnd.NothingLost` | libsponge/tcp_sender.cc:29-118 | in every such run each sent byte not yet assembled is in an outstanding segment at its place, and nothing unsent is acknowledged |
| `EndToEnd.MemoryBound` | libsponge/stream_reassembler.cc:83-85 | in every such run unread and out-of-order bytes together stay within the receiver's capacity, which the reassembler alone does not enforce |
| `EndToEnd.NothingCut` | libsponge/stream_reassembler.cc:80-89 | in every such run a delivered packet adds exactly its payload's positions, or nothing if beyond the window: the capacity cut never discards a byte |
| `EndToEnd.CleanCloseMeansDelivered` | libsponge/tcp_connection.cc:75-177 | in every such run an inactive endpoint without error has the peer's whole stream, the peer has its whole stream, and it either need not linger or really waited ten timeouts |
| `EndToEnd.NoLingerIsSafe` | libsponge/tcp_connection.cc:75-86 | an endpoint that closed without lingering leaves a peer with nothing to retransmit, and every FIN it sent acknowledged the peer's |
| `EndToEnd.InactiveForever` | libsponge/tcp_connection.cc:108-215 | once inactive always inactive, and a clean close never becomes an error |
| `EndToEnd.ExecWaits` | libsponge/tcp_connection.cc:108-177 | in every run the time an endpoint counts is the time truly waited since it last processed a segment, in signed 32 bits |
| `Shutdown.CloseIsExact` | libsponge/tcp_connection.cc:75-177 | in every run an endpoint without error is open if and only if one of its directions is unfinished or it lingers and has not waited ten timeouts; and while open it never means to linger if its peer ended first |
| `Shutdown.NeverLingersAgain` | libsponge/tcp_connection.cc:75-86 | the decision not to linger is never undone |
| `Shutdown.PassiveCloseIsPrompt` | libsponge/tcp_connection.cc:75-145 | in every run an endpoint whose peer ended first is closed by the very segment that acknowledges its FIN, without waiting |
| `Calls.FetchHandsOver` | libsponge/tcp_connection.cc:88-101 | everything queued leaves once, in order, with its number, flags and payload, acknowledging exactly what is assembled and offering exactly the capacity less the unread bytes, at most 65535 |
| `Calls.EveryCallSpeaks` | libsponge/tcp_connection.cc:88-186 | whatever is called or arrives, every packet that goes out then, resets apart, says that of the receiver as it is after the call |
| `Calls.ReadingReopens` | libsponge/tcp_receiver.cc:48-50 | once all is read, the window offered is the whole capacity, at most 65535 |
| `Calls.WindowIsUsed` | libsponge/tcp_connection.cc:108-145 | in every run an accepted acknowledgment sets the window it carries, and then at least that many numbers are in flight unless there is nothing left to send |
| `Calls.WindowTravels` | libsponge/tcp_connection.cc:88-145 | in every run the window a sender works with after accepting a packet is the room that was left at its peer when that packet was sent, however late it arrives |
| `Calls.CallsDrain` | libsponge/tcp_connection.cc:103-186 | after connecting, writing, ending and every processed segment nothing stays queued and the window is used |
| `Calls.ListenIsSilent` | libsponge/tcp_connection.cc:126-128 | before a SYN a segment is neither answered nor recorded |
| `Calls.AnswersOnce` | libsponge/tcp_connection.cc:129-144 | a processed segment brings back exactly the new numbers it lets out, each once and in order, and one empty segment exactly if it occupies numbers and nothing else acknowledges them, or is a keep-alive probe |
| `Calls.ProbeIsAnswered` | libsponge/tcp_connection.cc:137-142 | an empty segment one below the acknowledgment number is answered with that acknowledgment number |
| `Calls.OwnersEnds` | libsponge/tcp_connection.cc:108-215 | only a write extends the outbound stream, by what fits; only an end ends it; only a read takes from the inbound one |
| `Calls.FailsExactly` | libsponge/tcp_connection.cc:33-215 | an open connection fails if and only if a reset arrives, the ninth retransmission is counted or it is destroyed; then both streams are in error, it is closed and does not linger, and exactly one well-numbered reset goes out unless the peer sent one |
| `Progress.RoundTripProgress` | libsponge/tcp_sender.cc:83-139 | in every reachable state, one delivered copy of the oldest outstanding segment within the window is acknowledged in full, and that acknowledgment, delivered, retires it |
| `Delivery.AlwaysDeliverable` | libsponge/tcp_connection.cc:88-182 | from every reachable state with both ends open, a retransmission left (or nothing outstanding, or a recent copy of the oldest segment in the network) and a receive buffer, finitely many further calls and deliveries bring all that was written, and its end, to the other side |
| `Progress.ClosesWhenDone` | libsponge/tcp_connection.cc:75-86 | in every reachable state with both streams ended and acknowledged, the next tick that completes the wait, in true time, closes the connection |
| `Quiescence.EmptyIsNoProbe` | libsponge/tcp_connection.cc:131-143 | a pure acknowledgment never passes the peer's keep-alive test |
| `Quiescence.EmptyKeepsAckno` | libsponge/tcp_receiver.cc:13-46 | a segment that occupies no numbers leaves the acknowledgment number as it is |
| `Quiescence.StepGoesDown` | libsponge/tcp_connection.cc:108-145 | every delivery or loss lowers unsent numbers, then occupying segments in transit, then empty segments the peer would answer, then empty segments |
| `Quiescence.FallsSilent` | libsponge/tcp_connection.cc:108-145 | there is no infinite run of deliveries and losses from a sound state |
| `Quiescence.DeliveriesEnd` | libsponge/tcp_connection.cc:108-145 | wherever a run has got to, with no more calls and no ticks deliveries come to an end, in any order and with any losses |
| `GivingUp.LimitAlways` | libsponge/tcp_connection.cc:157-177 | at every moment of every life an open connection has at most eight retransmissions counted |
| `GivingUp.GivesUpOnNinthExpiry` | libsponge/tcp_connection.cc:157-177 | from any moment of any life, whatever the timeout has got to: without an accepted acknowledgment every expiry is counted, and the connection is closed when the count reaches nine |
| `GivingUp.TimeoutWithin512` | libsponge/tcp_sender.cc:95-139 | until an acknowledgment is accepted the timeout stays within 512 times the initial one, from any state where it was doubled at most once per expiry counted |
| `GivingUp.RepeatedAckDefeatsLimit` | libsponge/tcp_sender.cc:83-112 | a network that repeats the acknowledgment of the handshake after every eight or fewer expiries keeps a connection open through any number of rounds, its timeout doubled at every expiry (65536 times the initial one after sixteen), because an acknowledgment that pops nothing resets the count and not the timeout |
| `Checksums.FoldMeaning` | libsponge/util/util.cc:100-108 | folding keeps the residue modulo 65535 and gives zero only for zero |
| `Checksums.CheckMeaning` | libsponge/util/util.cc:100-108 | a sum checks if and only if it is a positive multiple of 65535 |
| `Checksums.ChecksumCompletes` | libsponge/util/util.cc:100-108 | adding its own checksum makes any sum check |
| `Checksums.AccumulatorCompletes` | libsponge/util/util.cc:87-108 | completing a sum never overflows the 32-bit accumulator, so the completed sum checks for data of any length |
| `Checksums.WordSumConcat` | libsponge/util/util.cc:89-98 | adding in pieces of any length, parity carried over, is adding the whole |
| `Checksums.NearbySumsDiffer` | libsponge/util/util.cc:87-108 | two sums that differ by less than 65535 do not both check |
| `Checksums.NearbyAccumulatorsDiffer` | libsponge/util/util.cc:87-108 | the same in the 32-bit accumulator, wherever it wraps |
| `Checksums.InternetChecksum.Add` | libsponge/util/util.cc:89-98 | the byte loop adds the word sum and carries the parity, in 32 bits |
| `Checksums.InternetChecksum.Value` | libsponge/util/util.cc:100-108 | the folding loop gives the complement of the folded sum |
| `Parsing.BigEndianUnparse` | libsponge/util/parser.cc:26-60 | reading back the bytes written for a value gives the value truncated to their number |
| `Parsing.UnparseBigEndian` | libsponge/util/parser.cc:26-60 | writing the value read from bytes gives the bytes |
| `Parsing.ParseUnparse` | libsponge/util/parser.cc:26-60 | parsing what was written, whatever follows, gives the value and leaves what follows |
| `Parsing.NetParser.ParseInt` | libsponge/util/parser.cc:26-43 | the loop reads a big-endian number, or zero and an error on too few bytes, after which nothing is consumed |
| `Parsing.NetParser.RemovePrefix` | libsponge/util/parser.cc:45-51 | consumes the prefix, or records the error and consumes nothing |
| `Parsing.UnparseInt` | libsponge/util/parser.cc:53-60 | the loop appends exactly the big-endian bytes |
| `TcpWire.HeaderRoundTrip` | libsponge/tcp_helpers/tcp_header.cc:17-78 | every header with data offset 5 to 15 parses back field by field, and the options are skipped |
| `TcpWire.SegmentRoundTrip` | libsponge/tcp_helpers/tcp_segment.cc:12-45 | every segment with data offset 5 to 15, of any length, is accepted after serialization and comes back with every field, payload byte and its checksum |
| `TcpWire.OneByteNoticed` | libsponge/tcp_helpers/tcp_segment.cc:12-23 | changing any one byte of anything accepted, of any length and with any pseudo-header sum, gets it refused and leaves the segment object alone |
| `TcpWire.ParserNeverBad` | libsponge/tcp_helpers/tcp_segment.cc:12-23 | a bad checksum is reported if and only if the bytes do not check: the header's own result is never that |
| `Ipv4Wire.IpHeaderRoundTrip` | libsponge/tcp_helpers/ipv4_header.cc:23-110 | every header of 5 to 15 words that is consistent with its bytes is accepted and comes back field by field |
| `Ipv4Wire.DatagramRoundTrip` | libsponge/tcp_helpers/ipv4_datagram.cc:11-41 | every well-formed datagram survives serialization and parsing with every field and byte, its header verified |
| `Ipv4Wire.StackRoundTrip` | libsponge/tcp_helpers/tcp_over_ip.cc:75-90 | a segment wrapped in a datagram, serialized and parsed through both layers, comes back with the same fields and payload, in a datagram with every header field it was sent with, its addresses and the TCP protocol number among them |
| `WireLayout.TcpAccepts` | libsponge/tcp_helpers/tcp_segment.cc:12-23 | bytes are accepted if and only if they check, are at least 20 and reach to the data offset; every field is the big-endian number at its place in the diagram of RFC 793 and the payload starts at the data offset |
| `WireLayout.TcpOnTheWire` | libsponge/tcp_helpers/tcp_segment.cc:30-45 | a serialized segment has every field at its place in that diagram, zeros for options, and then the payload |
| `WireLayout.HeaderAccepts` | libsponge/tcp_helpers/ipv4_header.cc:23-75 | a header is accepted if and only if its version, lengths and checksum are right, and every field is the big-endian number at its place in the diagram of RFC 791 |
| `WireLayout.DatagramAccepts` | libsponge/tcp_helpers/ipv4_datagram.cc:11-21 | a datagram is accepted if and only if what is left after the header is as long as its length fields say |
| `WireLayout.ChecksumIgnored` | libsponge/tcp_helpers/ipv4_datagram.cc:11-21 | so a datagram whose header fits its bytes is accepted whether or not its header checks |
| `WireLayout.IpOnTheWire` | libsponge/tcp_helpers/ipv4_datagram.cc:23-41 | a serialized datagram has every field at its place, a header that checks, zeros for options, and then the payload |
| `WireLayout.PseudoSumCovers` | libsponge/tcp_helpers/ipv4_header.cc:125-131 | the sum a segment checksum starts from is that of the pseudo-header of RFC 793: both addresses, zero, protocol and length |
| `WireLayout.ChecksTogether` | libsponge/tcp_helpers/tcp_segment.cc:12-23 | a segment checks if and only if pseudo-header and segment together do |
| `WireLayout.AnyByteNoticed` | libsponge/tcp_helpers/tcp_segment.cc:12-23 | changing any one byte of the segment, of either address, of the protocol or of the length gets an accepted segment refused |
| `WireLayout.WrongAddressRefused` | libsponge/tcp_helpers/ipv4_header.cc:125-131 | a segment is refused under any other source or destination address whose halves add up to a different sum less than 65535 away |
| `AdapterModel.PeerHears` | libsponge/tcp_helpers/tcp_over_ip.cc:26-90 | what one adapter wraps, serialized and parsed, is unwrapped by a connected adapter to that segment with the ports of the connection if and only if the two are each other's peers, and is ignored otherwise |
| `AdapterModel.ListenerAdopts` | libsponge/tcp_helpers/tcp_over_ip.cc:26-90 | a listening adapter takes up exactly a SYN without a reset for its port, and from then on it and the sender hear each other |
| `AdapterModel.OnePeer` | libsponge/tcp_helpers/tcp_over_ip.cc:26-71 | over every run, whatever arrives: the port is kept, a connected adapter keeps its peer, and a segment handed up came from the peer's address and port to ours |
| `Adapters.TCPOverIPv4Adapter.UnwrapTcpInIp` | libsponge/tcp_helpers/tcp_over_ip.cc:26-71 | the tests in their order hand up, ignore or adopt as specified |
| `Adapters.TCPOverIPv4Adapter.WrapTcpInIp` | libsponge/tcp_helpers/tcp_over_ip.cc:75-90 | sets ports, addresses and the length in 16 bits, and checksums over the pseudo-header, as specified |
| `Codec.SerializeSegment` | libsponge/tcp_helpers/tcp_segment.cc:30-45 | serializing with the checksum object gives the specified bytes, or nothing where the source throws |
| `Codec.ParseSegment` | libsponge/tcp_helpers/tcp_segment.cc:12-23 | parsing with the parser and checksum objects gives the specified result and segment |
| `Codec.SerializeTcpHeader` | libsponge/tcp_helpers/tcp_header.cc:51-78 | appending field after field and padding gives the specified header bytes |
| `Codec.ParseTcpHeader` | libsponge/tcp_helpers/tcp_header.cc:17-48 | reading field after field gives the specified header and leaves the parser where specified |
| `Codec.SerializeIp` | libsponge/tcp_helpers/ipv4_datagram.cc:23-41 | serializing gives the specified bytes, or nothing where the source throws |
| `Codec.ParseIp` | libsponge/tcp_helpers/ipv4_header.cc:23-75 | the tests in their order give the specified result, header and rest |
| `Codec.ParseIpDatagram` | libsponge/tcp_helpers/ipv4_datagram.cc:11-21 | the header's own result is not looked at |
| `ArpModel.AsksAreSent` | libsponge/network_interface.cc:28-174 | frames are only appended, and the requests among the new ones are exactly those a step is said to make |
| `ArpModel.ArpPacing` | libsponge/network_interface.cc:46-174 | in every run, whatever arrives and however long the ticks, two requests for one address are at least 5000 ms apart |
| `ArpModel.SafeTickIff` | libsponge/network_interface.cc:146-174 | exactly which tick lengths cannot leave a mapping in place past its lifetime, given 32-bit signed ages |
| `ArpModel.FreshAddress` | libsponge/network_interface.cc:46-174 | in every run of such ticks, each IPv4 frame carries a datagram that was handed over for some next hop, and goes to the address last learned for that hop, learned at most 30000 ms earlier |
| `ArpModel.UnsafeTickGoesStale` | libsponge/network_interface.cc:146-174 | for every other tick length, a named run after which a datagram goes to a stale address |
| `ArpModel.SafeTicksExact` | libsponge/network_interface.cc:46-174 | a tick length may be allowed beside the safe ones if and only if it is one of them |
| `InterfaceRuns.FramesExact` | libsponge/network_interface.cc:28-174 | in every run of safe ticks the frames put out are exactly, and in order, those of an ideal interface that keeps the true time of everything heard and asked: at once to an address heard from in the last 30000 ms, otherwise one question unless asked less than 5000 ms ago, the waiting datagram on a reply, an answer to each question for us, and each question again after more than 5000 ms; and a call throws exactly when the ideal one says |
| `InterfaceRuns.StepRefines` | libsponge/network_interface.cc:28-174 | each call keeps the agreement with the ideal interface: the table holds exactly what was heard in the last 30000 ms, the requests exactly what is waiting, each as old as it says |
| `InterfaceRuns.ReplyReleases` | libsponge/network_interface.cc:106-126 | a reply for us from an address a datagram waits for adds exactly one frame, that datagram to the sender of the reply, forgets the request, learns the address and throws nothing |
| `InterfaceRuns.WaitsForReply` | libsponge/network_interface.cc:46-174 | a datagram that has to wait goes out with the first reply from its next hop, after any run without another datagram for that hop |
| `InterfaceRuns.HandsUp` | libsponge/network_interface.cc:80-92 | a frame for us or for everyone that carries a serialized well-formed datagram hands that datagram up; exactly frames with acceptable IPv4 bytes for us hand anything up |
| `NetworkInterfaces.NetworkInterface.SendDatagram` | libsponge/network_interface.cc:46-77 | sends, queues and asks as specified, and throws where serializing throws |
| `NetworkInterfaces.NetworkInterface.RecvFrame` | libsponge/network_interface.cc:80-143 | learns, answers, releases what waited and hands IPv4 up as the specification does, for which the rows above give every frame |
| `NetworkInterfaces.NetworkInterface.Tick` | libsponge/network_interface.cc:146-174 | the two ageing loops expire, repeat and age exactly the entries specified, in some order |
| `RouterModel.BestIsLongest` | libsponge/router.cc:40-78 | the reference scan returns a matching route that no matching route exceeds in length and no later one equals, or nothing exactly if none matches |
| `RouterModel.FindableIff` | libsponge/router.cc:25-37 | a route is filed under the key that its addresses are looked up by if and only if its length is positive or its prefix zero |
| `RouterModel.LookupIsBest` | libsponge/router.cc:25-78 | for every list of routes the descending lookup agrees with the scan over the routes that can be found |
| `RouterModel.LongestPrefixMatch` | libsponge/router.cc:25-78 | with default routes given as prefix zero, a datagram is dropped exactly if its time to live is below two or no route with an interface matches, and otherwise goes where the longest, latest match says (section 5.2.4.3 of RFC 1812) |
| `RouterModel.MisfiledDefault` | libsponge/router.hh:55-57 | a default route given with any other prefix matches every address and is never found |
| `RouterModel.TimeToLive` | libsponge/router.cc:40-49 | along any path of routers at most one fewer than the time to live forward a datagram, and exactly the first so many if all of them have a way for it |
| `Routers.Router.AddRoute` | libsponge/router.cc:25-37 | the array slot of the prefix length is overwritten in place under the shifted prefix |
| `Routers.Router.RouteOneDatagram` | libsponge/router.cc:40-78 | the shifting loop decides as specified and counts the time to live down in eight bits |

## Left out

- Sockets, event loop, file descriptors, TUN devices, threads, the applications and all printing: plumbing around the
  logic, with nothing to prove that the logic does not decide.
- Reference-counted buffers and buffer lists: byte sequences here.
- Ethernet and ARP byte codecs: fixed fields without a checksum, easier than the ones modelled; frames and messages are
  datatypes.
- The named table of whole-connection states and equality of `TCPState`: a fixed enumeration.
- Random initial sequence numbers: a parameter. The receiver's unset number before a SYN is a parameter too.
- Exceptions: an empty result or a flag, with the state the source leaves behind.
- `AsyncNetworkInterface` and `route`: queues around `route_one_datagram`.
- Prefix lengths above 32: the source indexes past its table.
- A shift by 32 for a prefix of length zero is undefined in C++; it is taken as a shift by zero, as common processors do.
- `interface_num` and `i` in the router's loop are read as one variable.
- What a caller does with an exception: an unsolicited ARP reply makes the interface serialize a default datagram, which
  throws; the model has the throw and the state left by it.
- The element order of the ARP hash maps: any order.
- Popping the retransmission just queued when the queue is empty, undefined in C++, cannot happen (the tick that exceeds
  the limit has queued one); the model guards it.
- RoundTripProgress: asks that the oldest outstanding segment starts inside the receiver's window; with the window closed
  the code rejects the segment, as it should.
- AlwaysDeliverable: asks for a receive buffer of at least one byte and, when the last allowed retransmission has been
  made, for a copy of the oldest segment after which at most 2^30 bytes were received. An older copy may be past its
  lifetime, and then only an expiry, which closes the connection, is left.
- The reassembler's byte counter is not truncated to 64 bits: it is only ever reported.
