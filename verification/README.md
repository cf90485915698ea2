# A model of the sponge TCP/IP stack

The project models a user-space TCP/IP stack in Dafny: the TCP endpoint (byte stream,
reassembler, receiver, sender, connection, 32-bit sequence numbers), the wire format
(TCP and IPv4 headers, the Internet checksum), and the layers below (an interface that
resolves next hops by ARP, a longest-prefix-match router). `dafny verify dfyconfig.toml`
checks all of it.

Every stateful component appears twice. A datatype with total functions says what each call
does to a value; a class with the original's fields and loops has methods whose contracts tie
the new value to that function of the old one. The theorems are lemmas about the functions,
most of them over every run of calls, and so hold of the classes.

| files | contents |
|---|---|
| `Words`, `Results`, `WrappingIntegers`, `TCPSegment` | machine words, sequence numbers, segments |
| `ByteStream`, `StreamReassembler`, `ReassemblerRuns`, `ReassemblerSlices` | the inbound stream |
| `SenderModel`, `TCPSender`, `SenderAccounting`, `SenderRuns`, `SenderAcks`, `SenderTimer`, `SenderWindow`, `SenderOutput`, `SenderWatch` | the sender and its runs |
| `TCPReceiver`, `ReceiverFin` | the receiver, and FINs in the wrong place |
| `ConnectionModel`, `TCPConnection`, `ConnectionRuns`, `ConnectionOutput`, `ConnectionEvents`, `ConnectionShutdown`, `ConnectionReset`, `TCPState` | one endpoint and its runs |
| `TwoEndpoints`, `NetworkRuns`, `WindowRuns`, `AckRuns`, `StreamEnds`, `EndToEnd` | two endpoints and a network that drops, duplicates and reorders |
| `Checksum`, `Parser`, `TCPWire`, `IPv4`, `TCPOverIP` | bytes on the wire |
| `ARP`, `NetworkInterface`, `InterfaceRuns`, `InterfaceFrames`, `Resolution` | the link layer |
| `Prefixes`, `Router`, `RouterRuns`, `RouterFrames` | routing |

## Main results

- `EndToEnd.TransportIsSafe`: in every state of every run of two endpoints, what one side has
  received is a prefix of what the other accepted, and all it has assembled while its stream is
  open; everything no longer outstanding was assembled; every acknowledgement under way is, as an
  absolute number, that of some moment of the run, and no more than was sent; nothing but a SYN
  is under way before the peer has one. The one assumption is that nothing arrives 2^31 or more
  away from where the endpoint is; `EndToEnd.ShortTransportIsSafe` drops it for streams
  under 2^31 - 2 bytes.
- `WindowRuns.WindowNeverRetreats`: between any two moments of such a run, acknowledgements
  and advertised right edges only grow.
- `StreamEnds.EndsWholeExactly`: in such a run outputs end only with the peer's whole stream in
  them, if and only if no endpoint ever has the FIN while nothing waits and part is missing.
- `ReassemblerRuns.RunRefines`, `OrderIndependent`, `EndIsExact`: the reassembler is a set of
  received indices; order, overlap and duplication do not matter; its output ends only with
  the whole stream in it, if and only if the end is never announced over a silent gap.
- `SenderRuns.RunLogged`, `SenderAcks.LargestAckDecides`, `SenderTimer.BackoffTakesTime`,
  `ConnectionRuns.GivingUpTakesTime`, `ConnectionShutdown.CleanClose`: sender accounting,
  cumulative acknowledgement, back-off, giving up and closing, over every run of calls.
- `SenderOutput.RunEmits`, `SenderWatch.TickExactly`: over every run of a sender, what goes out is
  the new segments, each once and in order, between retransmissions and empty segments; a tick
  retransmits if and only if the time since the timer last started reaches the backed-off timeout.
- `ConnectionEvents.SenderRun`: in every run of an endpoint its sender is a sender after a run of
  its own calls, so the sender theorems hold inside every endpoint; `ConnectionOutput.SendsQueued`,
  `NumbersAnswered`, `OthersAnswered`: nothing queued is lost, whatever takes sequence numbers is
  answered with the acknowledgement as it then is, and when anything else is.
- `TCPOverIP.WireRoundTrip`: wrapping, serializing, parsing and unwrapping give the segment
  back; `TCPWire.SingleByteErrorCaught`: no error in one byte goes unnoticed.
- `InterfaceRuns.RunKeeps`, `InterfaceFrames.RunFrames`: over every run of an interface, the
  cache is a timestamped log, every frame is accounted for, and each datagram queued for a hop
  was framed once and in order, or lost to a reply that names the broadcast address, or waits.
- `Resolution.Resolves`: the exchange for an unknown hop delivers the oldest waiting datagram.
- `Routers.ScanIsLongest`, `RouterRuns.TTLBoundsTheChain`: the scan is the longest match, and
  across routers in any states, waits for ARP included, forwarding is bounded by the TTL.
- `RouterFrames.RoutedExactly`: routing a queue puts on every link exactly the frames and the
  waiting datagrams due there, once each and in the order of the queue.

## What the code does that a reader might not expect

Each point is what the code does; the lemma named says exactly when.

- A bare or truncated end announcement ahead of missing data ends the stream early, and bytes
  that arrive later are dropped while the next index still advances
  (`ReassemblerRuns.EarlyEnd`, `EndIsExact`). So a bare FIN that overtakes the data loses it,
  although all of it is acknowledged (`ReceiverFin.FinOvertakesData`, `LostExactly`); this is why
  the safety theorem promises a prefix, and all that is acknowledged only while the stream is open;
  `StreamEnds.EndsWholeExactly` says when an output that ends is whole.
- `unwrap` is nearest to its checkpoint exactly when its 64-bit addition does not wrap
  (`WrappingIntegers.UnwrapIsNearest`).
- The SYN segment may carry a full window of payload and so overshoot by one
  (`SenderWindow.SynOvershoots`; `EarlyWriteOvershoots` for every early write).
- The right edge can retreat when bytes past a latched FIN arrive; never from a peer that
  speaks the protocol (`TCPReceivers.WindowMoves`, `ReceiverFin.DataPassesFin`,
  `WindowRuns.HeardAdvances`).
- The reset sent on giving up is the front of the sender's queue. The first one of a run is always
  the segment just retransmitted, and the empty segment made for it stays queued
  (`ConnectionReset.FirstReset`); a reset is the empty segment made for it exactly when nothing
  was queued and the timer does not expire (`ResetSent`, `LaterReset`).
- `IPv4Datagram::parse` and `TCPSegment::parse` drop the header parser's result: a wrong IPv4
  checksum is accepted, and so are some malformed headers and a data offset below five
  (`IPv4.ParseDatagramExact`, `BadChecksumAccepted`, `TCPWire.ParseSegmentExact`). The comment
  above the header parsers lists these as errors to check for.
- A datagram sent while its hop is being asked for is dropped, and a reply releases one waiting
  datagram, not all (`InterfaceRuns.SendByLog`, `ReleaseOldest`).
- A reply that names the broadcast address makes the datagram that it releases vanish: it is
  erased from the queue and never framed (`InterfaceFrames.LostToBroadcast`, `NoneLost`).
- When an older datagram still waits for a hop, resolving the hop for a new one delivers the older
  one (`Resolution.Resolves`).
- A route whose prefix has bits below its length matches nothing (`Prefixes.MaskIsPrefix`).

## Model

| member | source | states |
|---|---|---|
| `WrappingIntegers.UnwrapIsNearest` | libsponge/wrapping_integers.cc:31-51 | the result is the non-negative number congruent to the offset that is nearest the checkpoint, ties going down, if and only if the 64-bit addition does not wrap |
| `WrappingIntegers.UnwrapWrap` | libsponge/wrapping_integers.cc:16-51 | unwrapping a wrapped number gives it back if and only if it is a 64-bit number within 2^31 of the checkpoint, or at or above it within 32 bits, or one the 64-bit addition wraps round to |
| `WrappingIntegers.UnwrapCases` | libsponge/wrapping_integers.cc:36-50 | past the first branch the result is the one candidate in the 2^32 numbers around the checkpoint, or that one less 2^64 |
| `WrappingIntegers.OffsetOfWrap` | libsponge/wrapping_integers.cc:16-19 | subtracting the ISN undoes adding it, modulo 2^32 |
| `WrappingIntegers.PlusWrap` | libsponge/wrapping_integers.hh:59-62 | steps past a wrapped number are steps past the number |
| `ByteStreams.FirstInFirstOut` | libsponge/byte_stream.cc:18-63 | bytes leave in the order they came, each once, and a write only appends |
| `ByteStreams.WriteTakesLongest` | libsponge/byte_stream.cc:18-29 | a write appends a prefix of the data, no shorter than any prefix that fits the room, and nothing after the end |
| `ByteStreams.ByteStream.constructor` | libsponge/byte_stream.cc:15-16 | an empty stream of the given capacity, below 2^31 as the narrowing to int needs |
| `ByteStreams.ByteStream.Write` | libsponge/byte_stream.cc:18-29 | the loop appends the longest prefix that fits and returns its length; nothing after the input ended |
| `ByteStreams.ByteStream.PeekOutput` | libsponge/byte_stream.cc:32-43 | returns the next bytes, at most as many as are buffered |
| `ByteStreams.ByteStream.PopOutput` | libsponge/byte_stream.cc:46-54 | takes the next bytes |
| `ByteStreams.ByteStream.Read` | libsponge/byte_stream.cc:59-63 | hands out exactly the bytes it takes |
| `ByteStreams.ByteStream.EndInput` | libsponge/byte_stream.cc:65-65 | ends the input and nothing else |
| `ByteStreams.ByteStream.SetError` | libsponge/byte_stream.hh:47-47 | marks the error and nothing else |
| `ByteStreams.ByteStream.RemainingCapacity` | libsponge/byte_stream.cc:79-79 | the room that the value's history and count of taken bytes leave |
| `StreamReassemblers.InsertKeys` | libsponge/stream_reassembler.cc:53-60 | inserting adds only keys of the piece and stops once the map exceeds the capacity |
| `StreamReassemblers.UsefulExactly` | libsponge/stream_reassembler.cc:28-51 | byte by byte: kept if and only if not assembled before, the piece starts inside the window, and the room reaches that far from its useful start |
| `StreamReassemblers.RunIs` | libsponge/stream_reassembler.cc:65-78 | the run that assembly takes is the longest contiguous one at the next index that the room allows |
| `StreamReassemblers.BytesAt` | libsponge/stream_reassembler.cc:70-70 | the assembled string holds the map's bytes in index order |
| `StreamReassemblers.WithoutAll` | libsponge/stream_reassembler.cc:74-74 | assembly erases exactly the run |
| `StreamReassemblers.PushKeepsValid` | libsponge/stream_reassembler.cc:22-84 | for any push whatever, keys stay at or above the next index and the map stays within capacity + 1 |
| `StreamReassemblers.PushExtends` | libsponge/stream_reassembler.cc:28-78 | said before the push: the next index moves if and only if the output has room and its byte is stored already, or is in the piece and the map takes one more |
| `StreamReassemblers.StreamReassembler.constructor` | libsponge/stream_reassembler.cc:16-17 | an empty reassembler |
| `StreamReassemblers.StreamReassembler.PushSubstring` | libsponge/stream_reassembler.cc:22-84 | slice, insert, assemble and end, as the value function says; the byte counter equals the map's size |
| `StreamReassemblers.StreamReassembler.Slice` | libsponge/stream_reassembler.cc:28-51 | the front is cut at the next index and the tail to the room in the output |
| `StreamReassemblers.StreamReassembler.InsertAll` | libsponge/stream_reassembler.cc:53-60 | the insertion loop, byte by byte, counter included |
| `StreamReassemblers.StreamReassembler.TakeRun` | libsponge/stream_reassembler.cc:62-78 | the pass over the map in key order takes exactly the run at the next index |
| `StreamReassemblers.StreamReassembler.Assemble` | libsponge/stream_reassembler.cc:62-83 | the run is written to the output, which ends once the end is known and nothing is left |
| `ReassemblerRuns.RunRefines` | libsponge/stream_reassembler.cc:22-84 | over every run of in-window slices of one stream and reads: the next index is the least never received, the map holds exactly the received ones above it with the stream's bytes, the output is the stream up to it and has ended exactly when everything is known |
| `ReassemblerRuns.EndIsExact` | libsponge/stream_reassembler.cc:23-25 | the output only ever ends with the whole stream in it if and only if the end is never announced while nothing waits and part of the stream is missing |
| `ReassemblerRuns.EarlyEnd` | libsponge/stream_reassembler.cc:82-83 | the bare end of any stream, arriving first, ends the output empty |
| `ReassemblerRuns.PrematureEndsShort` | libsponge/stream_reassembler.cc:82-83 | the push that first announces the end over a gap ends the output short |
| `ReassemblerRuns.CarefulEnds` | libsponge/stream_reassembler.cc:23-25 | an end announced with the last byte, or once all before it is assembled, is never premature |
| `ReassemblerRuns.OrderIndependent` | libsponge/stream_reassembler.cc:29-80 | two runs that received the same indices and read equally much end in one state, whatever the order, overlap and duplication |
| `ReassemblerRuns.WithinCapacity` | libsponge/stream_reassembler.cc:30-60 | bytes waiting plus bytes buffered stay within the capacity |
| `ReassemblerSlices.PushSlices` | libsponge/stream_reassembler.cc:22-84 | any slices of one stream, in the window or not, with any end announcements, leave a prefix of it in the output |
| `TCPSegments.TotalLengthAppend` | libsponge/tcp_helpers/tcp_segment.cc:25-27 | the sequence numbers of a queue add up |
| `SenderAccounting.SendOccupies` | libsponge/tcp_sender.cc:38-50 | a new segment holds exactly what the sequence space has at its position: SYN at 0, stream bytes from 1, FIN after the last |
| `SenderAccounting.FillWindowKeeps` | libsponge/tcp_sender.cc:36-63 | next number = SYN + bytes read + FIN; the queue is contiguous up to it; bytes in flight are its length; the timer runs exactly when it is not empty |
| `SenderAccounting.AckReceivedKeeps` | libsponge/tcp_sender.cc:67-99 | the same for every acknowledgement value, old, new or impossible |
| `SenderAccounting.TickKeeps` | libsponge/tcp_sender.cc:102-119 | the same for every tick, so that an expired timer always finds a segment |
| `SenderAccounting.SendEmptyKeeps` | libsponge/tcp_sender.cc:123-129 | an empty segment takes no sequence number |
| `SenderAccounting.NewAccounted` | libsponge/tcp_sender.cc:21-32 | a new sender is accounted |
| `SenderRuns.RunLogged` | libsponge/tcp_sender.cc:36-129 | over every run of calls: the segments sent cover the sequence space from 0, their payloads concatenated are the stream read so far, and the outstanding queue is their tail |
| `SenderAcks.PopAckedExact` | libsponge/tcp_sender.cc:77-93 | popping from the front keeps exactly the segments that end past the acknowledgement |
| `SenderAcks.AckExact` | libsponge/tcp_sender.cc:67-99 | one acknowledgement, queue within 2^31: exactly the segments it does not cover stay, and one of something never sent removes nothing |
| `SenderAcks.LargestAckDecides` | libsponge/tcp_sender.cc:75-95 | over a run the queue is what the largest acceptable acknowledgement leaves of everything sent |
| `SenderTimer.BackoffTakesTime` | libsponge/tcp_sender.cc:102-119 | over every run: the timer runs exactly when something is outstanding, the timeout is initial * 2^k after k counted retransmissions, for k up to 16, and they took at least initial * (2^k - 1) ms since the last newly acknowledged segment, for k up to 17 |
| `SenderTimer.NinthRetransmission` | libsponge/tcp_sender.cc:112-115 | more than eight in a row come no sooner than 511 timeouts |
| `SenderTimer.RetransmitTimed` | libsponge/tcp_sender.cc:108-118 | one retransmission doubles the timeout as a 32-bit word and the time bound with it |
| `SenderTimer.AckTimer` | libsponge/tcp_sender.cc:83-98 | a pop restarts timeout and count; without one they stay |
| `SenderWindow.FillWindowFits` | libsponge/tcp_sender.cc:36-63 | every segment sent carries at most 1000 bytes and ends inside the window, the SYN at most one past it |
| `SenderWindow.SynOvershoots` | libsponge/tcp_sender.cc:39-46 | the SYN segment overshoots if and only if its payload takes the whole window |
| `SenderWindow.EarlyWriteOvershoots` | libsponge/tcp_sender.cc:36-46 | every sender that is given bytes before it connects sends a SYN of length 2 into its window of 1 |
| `SenderWindow.FillWindowIsMaximal` | libsponge/tcp_sender.cc:36-63 | on return the window is full, or the stream is drained and still open or closed with a FIN |
| `SenderWindow.FillWindowCuts` | libsponge/tcp_sender.cc:36-63 | each new segment carries as many bytes as stream, window and 1000 allow, the SYN if it is the first, and the FIN if and only if the stream is drained and ended and the window has one more place |
| `SenderWindow.NothingAfterFin` | libsponge/tcp_sender.cc:47-53 | nothing new is sent after the FIN |
| `SenderOutput.FillOut` | libsponge/tcp_sender.cc:55-56 | the segments that filling makes outstanding are, in order, those it queues for sending |
| `SenderOutput.RunEmits` | libsponge/tcp_sender.cc:36-129 | over every run: of all that was taken from the outbound queue and is still in it, the segments of window filling are exactly the log, each once and in order; those of ticks were sent before; the others are empty |
| `SenderWatch.TickExactly` | libsponge/tcp_sender.cc:102-119 | over every run, by an observer of the calls: a tick queues the oldest outstanding segment, and nothing else, if and only if something is outstanding and the time since the timer last started, as a 32-bit word, reaches timeout * 2^k after k counted retransmissions |
| `SenderWatch.WindowIsLast` | libsponge/tcp_sender.cc:68-73 | over every run: the window is that of the last acknowledgement, at least 1, and the flag says that some acknowledgement had window 0 |
| `TCPSenders.Timer.constructor` | libsponge/tcp_sender.cc:137-137 | a stopped timer |
| `TCPSenders.Timer.Stop` | libsponge/tcp_sender.cc:139-142 | stops and clears |
| `TCPSenders.Timer.Start` | libsponge/tcp_sender.cc:144-147 | starts from zero |
| `TCPSenders.Timer.Increment` | libsponge/tcp_sender.cc:149-153 | adds modulo 2^32 while running |
| `TCPSenders.TCPSender.constructor` | libsponge/tcp_sender.cc:21-32 | a new sender with the given ISN |
| `TCPSenders.TCPSender.FillWindow` | libsponge/tcp_sender.cc:36-63 | the loop refines the value function that `SenderOutput.FillOut`, `SenderWindow.FillWindowCuts` and `SenderWindow.FillWindowIsMaximal` characterise |
| `TCPSenders.TCPSender.MakeSegment` | libsponge/tcp_sender.cc:38-50 | the next segment: payload, number and flags |
| `TCPSenders.TCPSender.SendNext` | libsponge/tcp_sender.cc:37-62 | one turn of the loop, which stops at an empty segment |
| `TCPSenders.TCPSender.AckReceived` | libsponge/tcp_sender.cc:67-99 | window, pops, remembered acknowledgement and timer |
| `TCPSenders.TCPSender.PopAll` | libsponge/tcp_sender.cc:77-93 | the popping loop refines the value function |
| `TCPSenders.TCPSender.Tick` | libsponge/tcp_sender.cc:102-119 | time and retransmission, as the value function that `SenderWatch.TickExactly` characterises |
| `TCPSenders.TCPSender.SendEmptySegment` | libsponge/tcp_sender.cc:123-129 | an empty segment with the next number |
| `TCPReceivers.SegmentReceivedKeepsValid` | libsponge/tcp_receiver.cc:15-42 | any segment keeps the reassembler's invariants |
| `TCPReceivers.WindowMoves` | libsponge/tcp_receiver.cc:15-57 | for any segment the acknowledgement does not decrease, and the advertised right edge retreats if and only if, before the call, the FIN lies at the next index, the segment brings the byte there, and the stream is open with a window that fits 16 bits |
| `TCPReceivers.AssemblesExactly` | libsponge/tcp_receiver.cc:15-42 | said before the call: a segment moves the next index if and only if it takes sequence numbers, a SYN is known, and its payload extends the stream |
| `TCPReceivers.StoreMoves` | libsponge/tcp_receiver.cc:30-42 | the next index moves within the window and the window shrinks by what was assembled, unless the stream has ended |
| `TCPReceivers.TCPReceiver.constructor` | libsponge/tcp_receiver.hh:37-46 | a receiver that has heard nothing |
| `TCPReceivers.TCPReceiver.SegmentReceived` | libsponge/tcp_receiver.cc:15-42 | SYN and FIN are latched once, the payload pushed at its unwrapped index, the checkpoint moved |
| `TCPReceivers.TCPReceiver.Ackno` | libsponge/tcp_receiver.cc:44-55 | nothing before the SYN; then the wrapped number of the first thing missing, the FIN counted once it is next |
| `TCPReceivers.TCPReceiver.WindowSize` | libsponge/tcp_receiver.cc:57-57 | the room in the output |
| `ReceiverFin.FinOvertakesData` | libsponge/stream_reassembler.cc:80-83 | for every stream of one segment: SYN, FIN, data leaves everything acknowledged, the output ended and empty |
| `ReceiverFin.FinFollowsData` | libsponge/tcp_receiver.cc:15-55 | SYN, data, FIN leaves the same acknowledgement and the data delivered |
| `ReceiverFin.LostExactly` | libsponge/tcp_receiver.cc:15-42 | for any segment, assembled bytes fail to be delivered if and only if, before the call, the output has ended and the segment brings the byte at the next index |
| `ReceiverFin.DataPassesFin` | libsponge/tcp_receiver.cc:25-57 | SYN, a byte at index 2, a FIN at the start, then the byte there: for every ISN, bytes and capacity of 3 to 65535 the right edge retreats |
| `ConnectionModel.SegmentReceivedKeeps` | libsponge/tcp_connection.cc:23-60 | any segment keeps the endpoint valid |
| `ConnectionModel.TickKeepsValid` | libsponge/tcp_connection.cc:76-109 | any tick keeps the endpoint valid |
| `ConnectionModel.WriteKeeps` | libsponge/tcp_connection.cc:64-73 | any write keeps the endpoint valid |
| `TCPConnections.TCPConnection.constructor` | libsponge/tcp_connection.hh:12-25 | a new, active, lingering endpoint |
| `TCPConnections.TCPConnection.SegmentReceived` | libsponge/tcp_connection.cc:23-60 | the whole reaction to a segment refines the value function that `ConnectionEvents.ReceiveSends` and `ConnectionOutput.NumbersAnswered` characterise |
| `TCPConnections.TCPConnection.Digest` | libsponge/tcp_connection.cc:24-39 | reset, receiver, acknowledgement, window |
| `TCPConnections.TCPConnection.TakeAck` | libsponge/tcp_connection.cc:34-39 | the sender learns of acknowledgement and window, and fills it once a SYN was sent |
| `TCPConnections.TCPConnection.Answer` | libsponge/tcp_connection.cc:41-46 | what takes sequence numbers is answered |
| `TCPConnections.TCPConnection.AnswerKeepAlive` | libsponge/tcp_connection.cc:48-52 | a keep-alive is answered |
| `TCPConnections.TCPConnection.Respond` | libsponge/tcp_connection.cc:41-59 | answers, lingering, quiet time, sending |
| `TCPConnections.TCPConnection.Write` | libsponge/tcp_connection.cc:64-73 | returns how much was accepted and sends what the window allows |
| `TCPConnections.TCPConnection.Tick` | libsponge/tcp_connection.cc:76-109 | time, retransmission, giving up, closing |
| `TCPConnections.TCPConnection.GiveUp` | libsponge/tcp_connection.cc:81-97 | both streams marked, the front of the sender's queue sent as a reset |
| `TCPConnections.TCPConnection.Finished` | libsponge/tcp_connection.cc:98-100 | the six conditions of a clean close |
| `TCPConnections.TCPConnection.EndInputStream` | libsponge/tcp_connection.cc:111-116 | ends the outbound stream and sends |
| `TCPConnections.TCPConnection.Connect` | libsponge/tcp_connection.cc:118-124 | sends a SYN if still active |
| `TCPConnections.TCPConnection.SendSegments` | libsponge/tcp_connection.cc:126-139 | drains the sender's queue in order, each segment stamped with acknowledgement and window |
| `TCPConnections.TCPConnection.StampSegment` | libsponge/tcp_connection.cc:130-134 | nothing before a SYN was received; the window cut to 16 bits |
| `ConnectionRuns.ActiveTimeout` | libsponge/tcp_connection.cc:76-97 | in every run, while active: at most eight counted retransmissions and a timeout of exactly rt_timeout * 2^k |
| `ConnectionRuns.GivingUpTakesTime` | libsponge/tcp_connection.cc:80-97 | in every run, giving up comes no sooner than 511 * rt_timeout ms after the last newly acknowledged segment |
| `ConnectionRuns.AckStart` | libsponge/tcp_sender.cc:75-93 | whether the start of the queue moved says whether something was newly acknowledged |
| `ConnectionReset.ResetSent` | libsponge/tcp_connection.cc:80-97 | the reset is the front of what was queued, the segment this tick retransmits and the empty segment; it is the empty one if and only if nothing was queued and the timer does not expire |
| `ConnectionReset.FirstReset` | libsponge/tcp_connection.cc:86-97 | in every run the first reset is the segment just retransmitted, which takes sequence numbers, and the empty segment stays queued |
| `ConnectionReset.LaterReset` | libsponge/tcp_connection.cc:86-97 | in every run, what a reset after the first is |
| `ConnectionReset.RunDrained` | libsponge/tcp_connection.cc:126-139 | between calls the sender's queue is empty unless the connection has given up |
| `ConnectionOutput.SendsQueued` | libsponge/tcp_connection.cc:126-139 | every queued segment goes out, in order, unchanged but for acknowledgement flag, number and window, which are the receiver's once it has a SYN; the queue is then empty |
| `ConnectionOutput.ConnectSends` | libsponge/tcp_connection.cc:118-124 | an active endpoint sends what becomes outstanding and leaves nothing to send; an inactive one does nothing |
| `ConnectionOutput.WriteSends` | libsponge/tcp_connection.cc:64-73 | the longest prefix that fits is accepted, what becomes outstanding is sent, and the window is left full or the stream drained; no data, no effect |
| `ConnectionOutput.EndInputSends` | libsponge/tcp_connection.cc:111-116 | the stream ends, what becomes outstanding is sent, and the window is left full or the FIN sent |
| `ConnectionOutput.TickSends` | libsponge/tcp_connection.cc:76-109 | a tick that does not give up sends all that the sender's tick queued |
| `ConnectionOutput.NumbersAnswered` | libsponge/tcp_connection.cc:41-59 | what takes sequence numbers is answered: the last segment sent has the acknowledgement and window as they are then; a first SYN is answered with a SYN, all else with an empty segment |
| `ConnectionOutput.OthersAnswered` | libsponge/tcp_connection.cc:34-59 | what takes none is answered if and only if it is a keep-alive, its acknowledgement releases new segments, or giving up had left something queued |
| `ConnectionOutput.AckFills` | libsponge/tcp_connection.cc:34-39 | after any acknowledgement an endpoint past its SYN has sent all that the window allows |
| `ConnectionEvents.ReceiveSends` | libsponge/tcp_connection.cc:23-60 | what goes out for a segment is all that abort, acknowledgement, filling and answer queue in the sender, in that order |
| `ConnectionEvents.DoPlays` | libsponge/tcp_connection.cc:23-124 | every call of the endpoint changes its sender by the named calls of the sender, ending with an emptied queue |
| `ConnectionEvents.SenderRun` | libsponge/tcp_connection.cc:23-139 | in every run of an endpoint its sender is a sender after that run of calls |
| `ConnectionEvents.TickResends` | libsponge/tcp_connection.cc:76-109 | in every run a tick that does not give up sends the oldest outstanding segment again if and only if that is due, and besides it only what an earlier giving up left queued |
| `TCPStates.SummariesMoveForward` | libsponge/tcp_helpers/tcp_state.cc:82-110 | along every run of calls and any segments, both summaries move only forward, and an error stays |
| `TCPStates.SummaryMeans` | libsponge/tcp_helpers/tcp_state.cc:94-110 | the sender's summary, computed from counters, means: nothing sent, the SYN first in the queue, past the SYN without a FIN, FIN sent and something outstanding, FIN sent and nothing outstanding; each if and only if |
| `TCPStates.ReceiverMeans` | libsponge/tcp_helpers/tcp_state.cc:82-92 | each receiver summary if and only if: marked with an error; no SYN; a SYN and an open stream; a SYN and an ended stream |
| `TCPStates.SummaryForward` | libsponge/tcp_helpers/tcp_state.cc:94-110 | a sender whose numbers and flags moved forward has a summary no earlier |
| `TCPStates.CallForward` | libsponge/tcp_helpers/tcp_state.cc:82-110 | every single call moves both summaries forward |
| `ConnectionShutdown.ActiveCloserLingers` | libsponge/tcp_connection.cc:54-56 | if the FIN was sent while the peer's stream was open, the endpoint lingers for the rest of the run |
| `ConnectionShutdown.LingerUntilEnd` | libsponge/tcp_connection.cc:54-56 | lingering is turned off only once the peer's stream has ended |
| `ConnectionShutdown.CleanClose` | libsponge/tcp_connection.cc:98-106 | in every run, a close without an error has stream and FIN acknowledged and the peer's stream ended, and if lingering at least 10 * rt_timeout ms since the last segment |
| `ConnectionShutdown.ClosesExactly` | libsponge/tcp_connection.cc:98-106 | a tick leaves an endpoint active if and only if it was, does not give up, and is not done with both streams while it need not linger or heard nothing for 10 * rt_timeout ms |
| `ConnectionShutdown.FinishedIsDone` | libsponge/tcp_connection.cc:98-100 | the six counters' conditions hold if and only if stream and FIN are sent and acknowledged, nothing is outstanding, and the peer's stream has ended with nothing waiting |
| `ConnectionShutdown.LingerExactly` | libsponge/tcp_connection.cc:54-56 | after a segment the endpoint lingers if and only if it did and its FIN is sent or the peer's stream is open |
| `ConnectionShutdown.ErrorsExactly` | libsponge/tcp_connection.cc:24-84 | every call marks both streams if and only if it receives a reset or gives up, and nothing takes a mark away |
| `ConnectionShutdown.QuietIs` | libsponge/tcp_connection.cc:58-77 | the quiet time is what was ticked since the last segment |
| `ConnectionShutdown.ResetMarks` | libsponge/tcp_connection.cc:24-30 | of all segments exactly a reset takes the endpoint down, with an error on both streams |
| `TwoEndpoints.FillHalf` | libsponge/tcp_sender.cc:36-63 | filling the window keeps one direction of the two-endpoint invariant |
| `TwoEndpoints.AckHalf` | libsponge/tcp_sender.cc:67-99 | a truthful acknowledgement clears only what the peer has assembled |
| `TwoEndpoints.SegmentHears` | libsponge/tcp_receiver.cc:15-42 | a segment of the peer's sequence space is unwrapped to its place and stored as the peer's bytes |
| `TwoEndpoints.ReceiveHalf` | libsponge/tcp_receiver.cc:15-55 | receiving keeps the direction, and acknowledgements already sent stay truthful |
| `TwoEndpoints.SendSegmentsSound` | libsponge/tcp_connection.cc:126-139 | stamped segments say no more than the receiver has received |
| `NetworkRuns.DeliverSound` | libsponge/tcp_connection.cc:23-60 | delivering any segment of the network keeps both directions sound |
| `NetworkRuns.TickSound` | libsponge/tcp_connection.cc:76-109 | ticking, with retransmission and reset, keeps both directions sound |
| `NetworkRuns.GiveUpSound` | libsponge/tcp_connection.cc:81-97 | the reset keeps both directions sound |
| `NetworkRuns.RunSound` | libsponge/tcp_helpers/lossy_fd_adapter.hh:42-57 | every state of every run over a network that drops, duplicates and reorders is sound |
| `EndToEnd.TransportIsSafe` | libsponge/tcp_connection.cc:23-139 | delivery of a prefix, and of all that was assembled while the stream is open; confirmation only of what was assembled, acknowledgements that are those of a moment of the run, and SYN first, in both directions, in every state of every run without 2^31-stale arrivals |
| `EndToEnd.ShortTransportIsSafe` | libsponge/tcp_connection.cc:23-139 | the same of every run whatever, for streams under 2^31 - 2 bytes |
| `EndToEnd.ShortStepIsFresh` | libsponge/wrapping_integers.cc:31-51 | for short streams every arrival is near enough to unwrap to its place |
| `EndToEnd.ShortWindowNeverRetreats` | libsponge/tcp_receiver.cc:15-57 | for such streams windows never retreat, in every run whatever |
| `EndToEnd.ShortEndsWholeExactly` | libsponge/stream_reassembler.cc:82-83 | for such streams outputs end whole if and only if no FIN is over a gap, in every run whatever |
| `AckRuns.AcksAreTruthful` | libsponge/tcp_connection.cc:126-139 | in every state of every run, each acknowledgement and window under way is that of its sender at some moment, and that much had been sent |
| `AckRuns.SendSegmentsSays` | libsponge/tcp_connection.cc:126-139 | what is sent carries the receiver's acknowledgement and window as they are |
| `AckRuns.GiveUpSays` | libsponge/tcp_connection.cc:86-97 | so does the reset |
| `StreamEnds.EndsWholeExactly` | libsponge/stream_reassembler.cc:82-83 | in every run, outputs end only with the peer's whole stream in them, if and only if there is no moment at which one has the FIN, nothing waits, and part of the stream has not arrived |
| `StreamEnds.FollowsEnding` | libsponge/stream_reassembler.cc:80-83 | an output that ends holds all that was assembled and nothing waits; one that has ended takes nothing more |
| `StreamEnds.StepHistory` | libsponge/tcp_sender.cc:36-129 | an outbound stream that has ended does not grow, whatever is called |
| `WindowRuns.WindowNeverRetreats` | libsponge/tcp_receiver.cc:15-57 | between any two moments of a run acknowledgement and advertised right edge never decrease and a SYN received stays, under any mix of arrivals, reads and calls |
| `WindowRuns.HeardAdvances` | libsponge/tcp_receiver.cc:25-42 | a receiver that hears what its peer said never assembles past the FIN, so its right edge does not retreat |
| `Checksums.ChunksAdd` | libsponge/util/util.cc:89-98 | the sum does not depend on how the data is cut into chunks, odd lengths included |
| `Checksums.InsertedChecksum` | libsponge/util/util.cc:100-108 | the complement inserted where there was zero makes the complement zero, and of all words only it does, but for the two zeros |
| `Checksums.ByteErrorShows` | libsponge/util/util.cc:89-108 | one changed byte in a datagram's worth of data always spoils a correct sum |
| `Checksums.SumFits` | libsponge/util/util.cc:89-98 | a datagram's worth of data does not overflow the 32-bit sum |
| `Checksums.InternetChecksum.constructor` | libsponge/util/util.cc:87-87 | starts from the given sum at even parity |
| `Checksums.InternetChecksum.Add` | libsponge/util/util.cc:89-98 | adds the 16-bit words modulo 2^32, whatever the parity |
| `Checksums.InternetChecksum.Value` | libsponge/util/util.cc:100-108 | the folding loop computes the one's complement of the one's-complement sum |
| `Parsers.DecodeEncode` | libsponge/util/parser.cc:26-60 | parsing undoes writing, for every width |
| `Parsers.EncodeDecode` | libsponge/util/parser.cc:26-60 | writing undoes parsing |
| `Parsers.NetParser.constructor` | libsponge/util/parser.hh:38-38 | the whole buffer, no error |
| `Parsers.NetParser.CheckSize` | libsponge/util/parser.cc:20-24 | too few bytes set the error |
| `Parsers.NetParser.ParseInt` | libsponge/util/parser.cc:26-43 | the big-endian value of the next bytes, which are consumed; 0 and nothing consumed after an error |
| `Parsers.NetParser.U8` | libsponge/util/parser.cc:66-66 | one byte |
| `Parsers.NetParser.U16` | libsponge/util/parser.cc:64-64 | two bytes |
| `Parsers.NetParser.U32` | libsponge/util/parser.cc:62-62 | four bytes |
| `Parsers.NetParser.RemovePrefix` | libsponge/util/parser.cc:45-51 | drops bytes, or sets the error |
| `Parsers.UnparseInt` | libsponge/util/parser.cc:53-60 | appends the bytes, highest first |
| `Parsers.SkipAt` | libsponge/util/parser.cc:20-51 | a parser that was asked for k bytes stands at byte k or reports the packet too short, for good |
| `TCPWire.FlagBits` | libsponge/tcp_helpers/tcp_header.cc:24-64 | the six flags are read from the bits they are written to |
| `TCPWire.SerializeHeader` | libsponge/tcp_helpers/tcp_header.cc:51-78 | the header's bytes, padded to its length; a data offset below five throws |
| `TCPWire.ParseHeaderFrom` | libsponge/tcp_helpers/tcp_header.cc:17-48 | the fields in order, the options skipped |
| `TCPWire.ParseHeaderExact` | libsponge/tcp_helpers/tcp_header.cc:17-48 | from twenty bytes on, the fields at the offsets of section 3.1 of RFC 793, and where the payload starts; below, an error |
| `TCPWire.HeaderRoundTrip` | libsponge/tcp_helpers/tcp_header.cc:17-78 | parsing a serialized header gives it back, but for a data offset above four bits |
| `TCPWire.SerializeSegment` | libsponge/tcp_helpers/tcp_segment.cc:30-45 | header and payload, the checksum over both filled in |
| `TCPWire.SumSegment` | libsponge/tcp_helpers/tcp_segment.cc:34-38 | adding header and payload one after the other sums their concatenation |
| `TCPWire.ParseSegmentFrom` | libsponge/tcp_helpers/tcp_segment.cc:12-23 | checksum first, then the header, whose result is dropped |
| `TCPWire.ParseSegmentExact` | libsponge/tcp_helpers/tcp_segment.cc:12-23 | accepted if and only if the checksum holds and the bytes reach the payload's start, where a data offset below five counts as five |
| `TCPWire.ChecksumInPlace` | libsponge/tcp_helpers/tcp_segment.cc:31-38 | filling in a checksum adds it to the sum |
| `TCPWire.SegmentRoundTrip` | libsponge/tcp_helpers/tcp_segment.cc:12-45 | parsing a serialized segment gives it back if and only if the data offset fits four bits and adding the checksum does not carry out of the 32-bit sum |
| `TCPWire.SingleByteErrorCaught` | libsponge/tcp_helpers/tcp_segment.cc:13-17 | every error in one byte of an accepted segment is rejected |
| `IPv4.FragmentBits` | libsponge/tcp_helpers/ipv4_header.cc:37-97 | the fragmentation flags and offset are read from the bits they are written to |
| `IPv4.SerializeHeader` | libsponge/tcp_helpers/ipv4_header.cc:78-110 | the header's bytes, padded to its length; a wrong version or length throws |
| `IPv4.ParseFieldsFrom` | libsponge/tcp_helpers/ipv4_header.cc:31-46 | the fields in order |
| `IPv4.CheckFieldsFrom` | libsponge/tcp_helpers/ipv4_header.cc:48-74 | the checks in order, options skipped, checksum last |
| `IPv4.ParseHeaderFrom` | libsponge/tcp_helpers/ipv4_header.cc:23-75 | the whole header; a short buffer is left untouched |
| `IPv4.ParseHeaderExact` | libsponge/tcp_helpers/ipv4_header.cc:23-75 | no error if and only if version, length fields and checksum hold; the fields at the offsets of section 3.1 of RFC 791 |
| `IPv4.SerializeDatagram` | libsponge/tcp_helpers/ipv4_datagram.cc:23-41 | header with its checksum, then payload; a wrong length throws |
| `IPv4.ParseDatagramFrom` | libsponge/tcp_helpers/ipv4_datagram.cc:11-21 | header, whose result is dropped, and payload |
| `IPv4.ParseDatagramExact` | libsponge/tcp_helpers/ipv4_datagram.cc:11-21 | exactly which bytes are accepted, and as which datagram: well-formed headers with any checksum, and malformed ones whose length happens to fit |
| `IPv4.BadChecksumAccepted` | libsponge/tcp_helpers/ipv4_datagram.cc:13-20 | every datagram with a correct header is still accepted, same payload, after a byte of its checksum is changed, although the header's parser notices |
| `IPv4.HeaderRoundTrip` | libsponge/tcp_helpers/ipv4_header.cc:23-110 | parsing a serialized header gives it back, but for lengths and offsets too wide for their fields |
| `IPv4.CheckedChecks` | libsponge/tcp_helpers/ipv4_datagram.cc:28-35 | the checksum that is sent checks |
| `IPv4.SerializedHeaderChecks` | libsponge/tcp_helpers/ipv4_header.cc:48-74 | what was serialized passes all of the header parser's checks |
| `IPv4.DatagramRoundTrip` | libsponge/tcp_helpers/ipv4_datagram.cc:11-41 | parsing a serialized datagram gives it back if and only if header length and offset fit and the 16-bit length did not wrap under options |
| `IPv4.PseudoHeaderSum` | libsponge/tcp_helpers/ipv4_header.cc:112-131 | the sum computed from the fields is the word sum of the pseudo-header's bytes |
| `TCPOverIP.TCPOverIPv4Adapter.constructor` | libsponge/tcp_helpers/fd_adapter.hh:16-39 | the configuration and the listening flag |
| `TCPOverIP.TCPOverIPv4Adapter.UnwrapTCPInIP` | libsponge/tcp_helpers/tcp_over_ip.cc:26-71 | the chain of checks, for listening and connected adapters |
| `TCPOverIP.TCPOverIPv4Adapter.AcceptSegment` | libsponge/tcp_helpers/tcp_over_ip.cc:50-70 | ports checked, addresses learned from a SYN |
| `TCPOverIP.TCPOverIPv4Adapter.WrapTCPInIP` | libsponge/tcp_helpers/tcp_over_ip.cc:75-90 | ports, addresses and 16-bit length set, the segment serialized |
| `TCPOverIP.WireRoundTrip` | libsponge/tcp_helpers/tcp_over_ip.cc:26-90 | for every segment with data offset 5 to 15 and total length up to 65535: wrapped, serialized, parsed and unwrapped at the mirrored peer it comes back, ports and checksum filled in |
| `TCPOverIP.ListenerLearns` | libsponge/tcp_helpers/tcp_over_ip.cc:54-63 | a listener takes such a segment if and only if it is a SYN without reset, and is then the mirrored peer |
| `TCPOverIP.TakesOnlyItsOwn` | libsponge/tcp_helpers/tcp_over_ip.cc:26-71 | a connected adapter keeps its state, and takes a datagram if and only if both addresses, the protocol, both ports and the segment are right |
| `TCPOverIP.OnlyOtherEnd` | libsponge/tcp_helpers/tcp_over_ip.cc:26-90 | what one end sends, a connected adapter takes if and only if it is the mirrored end |
| `TCPOverIP.ListenerRefuses` | libsponge/tcp_helpers/tcp_over_ip.cc:49-52 | a listener on another port takes nothing and goes on listening |
| `ARP.Serialize` | libsponge/tcp_helpers/arp_message.cc:47-73 | the 28 bytes; unsupported fields throw |
| `ARP.ParseFrom` | libsponge/tcp_helpers/arp_message.cc:9-38 | length, then fixed fields, then addresses |
| `ARP.MessageRoundTrip` | libsponge/tcp_helpers/arp_message.cc:9-73 | parsing the bytes of a message gives it back if and only if it is supported |
| `ARP.MessageLayout` | libsponge/tcp_helpers/arp_message.cc:53-70 | the fields at the offsets of RFC 826, most significant byte first |
| `NetworkInterfaces.NetworkInterface.constructor` | libsponge/network_interface.cc:23-27 | nothing cached, queued or sent |
| `NetworkInterfaces.NetworkInterface.SendDatagram` | libsponge/network_interface.cc:32-75 | frame, request or nothing, as the cache says; throws exactly when a frame is built from a datagram that does not serialize |
| `NetworkInterfaces.NetworkInterface.RecvFrame` | libsponge/network_interface.cc:78-132 | frames for others ignored, datagrams handed up, ARP messages taken |
| `NetworkInterfaces.NetworkInterface.TakeMessage` | libsponge/network_interface.cc:94-127 | the sender is learned; a request for us is answered, a reply releases |
| `NetworkInterfaces.NetworkInterface.FlushOne` | libsponge/network_interface.cc:119-126 | the loop releases the first datagram that waits for the hop and stops |
| `NetworkInterfaces.NetworkInterface.Release` | libsponge/network_interface.cc:121-123 | send, then erase; nothing erased if sending throws |
| `NetworkInterfaces.NetworkInterface.Tick` | libsponge/network_interface.cc:135-150 | the loop ages every entry and erases exactly the expired ones |
| `InterfaceRuns.StepAgrees` | libsponge/network_interface.cc:32-150 | every call keeps the cache equal to what the timestamped log says: the last note for a hop, while younger than 5000 ms for a request and 30000 ms for a mapping |
| `InterfaceRuns.RunKeeps` | libsponge/network_interface.cc:32-150 | over every run: cache equals log, requests for one hop are at least 5000 ms apart, and per hop the datagrams queued are those that left the queue, in order, followed by those waiting |
| `InterfaceRuns.StepIsInterface` | libsponge/network_interface.cc:32-150 | the interface in a history is the interface under the calls |
| `InterfaceFrames.ReplyFrames` | libsponge/network_interface.cc:116-127 | the frames a reply makes: the released datagram to the address it names, and none if it releases none or names the broadcast address |
| `InterfaceFrames.StepSends` | libsponge/network_interface.cc:32-132 | each call appends at most one frame, and which |
| `InterfaceFrames.RunFrames` | libsponge/network_interface.cc:32-132 | over every run: every frame pushed is the request, answer or datagram that the history tells, the requests are those of the log, and per hop the datagrams queued are an interleaving, in order, of those framed after waiting and those lost, followed by those waiting |
| `InterfaceFrames.NoneLost` | libsponge/network_interface.cc:119-126 | none was lost for a hop if and only if all queued for it were framed or wait |
| `InterfaceFrames.LostToBroadcast` | libsponge/network_interface.cc:38-41 | the oldest datagram is lost if and only if the reply names the broadcast address: erased, and no frame |
| `InterfaceFrames.OthersIgnored` | libsponge/network_interface.cc:79-80 | a frame for another interface changes nothing, hands up nothing and throws nothing |
| `InterfaceFrames.FramesSay` | libsponge/network_interface.cc:56-110 | addresses, type and every parsed field of a request and of a reply |
| `InterfaceFrames.DataFrameSays` | libsponge/network_interface.cc:45-49 | addresses and type of a data frame; its payload parses to the datagram if and only if the header's lengths and offset fit |
| `InterfaceRuns.SendByLog` | libsponge/network_interface.cc:36-74 | what sending does, in terms of the log alone |
| `InterfaceFrames.FramesGoWhereLearned` | libsponge/network_interface.cc:44-124 | every IPv4 frame goes to the address last learned for its hop, less than 30000 ms ago, and carries that call's datagram, or the oldest that waited for the hop, which leaves the queue |
| `InterfaceRuns.FlushOnlySends` | libsponge/network_interface.cc:116-127 | the resend for a reply never asks: cache unchanged, the queue not extended |
| `InterfaceRuns.ReleaseOldest` | libsponge/network_interface.cc:119-125 | releasing takes the oldest datagram of its hop and leaves those of other hops |
| `Resolution.RequestAnswered` | libsponge/network_interface.cc:96-114 | the owner of an address answers a request, to the one who asked, and learns who that is |
| `Resolution.RequestIgnored` | libsponge/network_interface.cc:98-98 | everyone else stays silent |
| `Resolution.ReplyReleases` | libsponge/network_interface.cc:116-126 | the answer is learned, and the oldest datagram that waits for the owner goes to its address; it stays if it does not serialize and is lost if the owner's address is broadcast |
| `Resolution.Resolves` | libsponge/network_interface.cc:32-132 | ask, answer, release, deliver: the exchange for an unknown hop delivers the oldest datagram that waits for it, the new one if and only if none waited before |
| `Prefixes.MaskIsPrefix` | libsponge/router.cc:48-66 | comparing under the mask is comparing dst / 2^(32-len) with prefix / 2^(32-len), for prefixes without lower bits; others never match |
| `Prefixes.AndMask` | libsponge/router.cc:52-66 | masking clears exactly the low bits |
| `Routers.ScanIsLongest` | libsponge/router.cc:45-77 | the scan finds the first added of the longest matching routes, or nothing if none matches |
| `Routers.LongestIsUnique` | libsponge/router.cc:45-77 | a route is that one if and only if the scan finds it |
| `Routers.Router.constructor` | libsponge/router.hh:44-50 | no interfaces, no routes |
| `Routers.Router.AddInterface` | libsponge/router.hh:61-64 | appended; its index returned |
| `Routers.Router.AddRoute` | libsponge/router.cc:25-34 | appended |
| `Routers.Router.RecvFrame` | libsponge/router.hh:31-36 | the interface's reaction; a datagram it hands up is queued; throws when the interface does |
| `Routers.Router.FindRoute` | libsponge/router.cc:45-73 | the loop refines the scan |
| `Routers.Router.RouteOneDatagram` | libsponge/router.cc:37-90 | TTL, route and next hop; throws when the interface does not exist |
| `Routers.Router.RouteQueue` | libsponge/router.cc:95-99 | one interface's queue, in order, to the end or to the first throw |
| `Routers.Router.Route` | libsponge/router.cc:92-101 | ends with every queue empty, having routed the datagrams of all interfaces one by one in order, each once; on a throw the rest stays queued |
| `RouterRuns.RoutedByLongestPrefix` | libsponge/router.cc:37-90 | a datagram is dropped when it expires or has no route, and otherwise sent once, TTL one less, over the interface and to the hop of the longest prefix |
| `RouterRuns.RoutesAll` | libsponge/router.cc:92-101 | with interfaces that exist and datagrams that serialize, routing never throws |
| `RouterFrames.RoutedExactly` | libsponge/router.cc:92-101 | on every link, in the order of the queue and once each: datagrams led there by the longest prefix go out in frames if the hop is known, the first for each unknown hop is queued behind a request, and nothing else is done |
| `RouterFrames.KnownSent` | libsponge/router.cc:92-101 | with all hops known, the new frames on a link are exactly those of the datagrams with TTL above 1 whose longest prefix leads there, in order, TTL one less, to the known address; nothing is queued |
| `RouterFrames.ThrowStops` | libsponge/router.cc:92-101 | a throw leaves what routing the datagrams before it leaves; the rest stays queued, the one that threw already aged |
| `RouterFrames.AllCosts` | libsponge/router.cc:92-101 | over all links frames and queued datagrams grow by nothing per dropped datagram, at most two per one whose hop is asked for, at most one otherwise |
| `RouterRuns.RoutingSendsOlder` | libsponge/router.cc:39-89 | every frame sent or datagram queued for a routed one is it with its TTL one less |
| `RouterRuns.HopAges` | libsponge/router.cc:39-89 | a frame that routing a datagram sends, at once or when a reply releases the entry it queued, is the datagram with its TTL one less, and was sent only if that was positive; so the next interface hands it up |
| `RouterRuns.HopHappens` | libsponge/router.cc:37-90 | a router with a route and a known hop does carry the datagram on |
| `RouterRuns.CarriesOlder` | libsponge/router.cc:39-89 | the bytes of such a frame are those of the datagram one hop older |
| `RouterRuns.TTLBoundsTheChain` | libsponge/router.cc:38-42 | across any chain of such hops, through routers in any states and after any waits, a datagram is forwarded fewer times than its TTL |

## Left out

- File descriptors, sockets, TUN and TAP devices, address resolution and the event loop: system-call wrappers. An address is a 32-bit number and a port.
- `TCPSpongeSocket`, its thread and the applications: plumbing around `TCPConnection`.
- The UDP adapter, `to_string`, `summary` and `hexdump`: no property beyond their text.
- The constructor of `TCPState` from a named state and its comparison: a table of constants; the two summaries it is made of are modelled as enumerations.
- The random ISN and the random loss of the lossy adapter: the ISN is a parameter, loss is a segment that never arrives.
- Sharing inside `Buffer` and `BufferList`: they are byte sequences.
- Liveness (eventual delivery, eventual close): the overwritten acknowledgement, the sticky zero-window flag and the full map mean it holds only under many assumptions about the peer.
- The destructor of `TCPConnection`: it repeats the reset of `tick`.
- The framing bytes of Ethernet: a frame is a record of two addresses, a type and a payload. The padding that Ethernet may add is not modelled.
- Overflow of 64-bit counters (bytes written, next index, ages in milliseconds, quiet time) is not modelled, except in `unwrap` and in the subtraction that gives the stream index, where it is written out. The 32-bit timer, timeout and retransmission count wrap as they do in the code.
- ByteStreams.ByteStream.constructor: requires a capacity below 2^31, because the code narrows lengths to `int`; so do the constructors of the reassembler, receiver, sender and connection that own a stream.
- EndToEnd.TransportIsSafe: requires that no segment arrives 2^31 or more away from where the endpoint is, because 32-bit numbers are ambiguous beyond; streams under 2^31 - 2 bytes need no such assumption.
- Routers.Router.AddRoute: takes prefix lengths up to 32, because the shift of the code is undefined beyond; for length 1 the code's signed arithmetic overflows and two's complement is taken.
- Routers.Router.RouteOneDatagram: the interfaces of a router are values in a sequence that the methods reassign, not objects, so aliasing between them is not modelled; an interface object is `NetworkInterfaces.NetworkInterface`.
- NetworkInterfaces.NetworkInterface.Tick: the order in which the cache is walked is left open, because the result does not depend on it.
