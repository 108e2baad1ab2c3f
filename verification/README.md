# TAPS: the receive path and the UDP demultiplexer, verified

A Dafny model of the parts of the C++ library *TAPS* (Transport Services API) that hold its
state: how the bytes of a TCP stream become Messages without a copy, and how one UDP socket
serves many Connections. The modules follow the source files.

**From socket bytes to Messages.** Reference-counted blocks (`Blocks`), runs of block ranges as
values (`Ranges`) and the deque of ranges with its inline storage, compaction and doubling
(`BlockChain`); the policy by which several reads share one block (`ReadWindow`); the cursor and
the other readers of a chain (`Readers`), the length field (`LengthCodec`), the framers
(`Framing`); one `receive()` on values (`Receive`), what the calls made while it is pending come to
(`LocalCalls`), what successive ones mean for whole streams, framed or not (`Streams`,
`FramedStream`, `PlainStream`), class `TCPConnection` over real blocks, whole sessions of it
(`Sessions`), also from one Connection to another (`Transfer`), and receives that are cut short
(`Interrupted`); framers with a state of their own (`StatefulFramer`); every operation in any order
(`Lifecycle`); `Message`s, the buffers of a write and `send()` (`Messages`, `BufferSequence`,
`Sending`). `PoolCounter` has the counter of live blocks under concurrent use.

**The UDP demultiplexer.** The queue of a Connection as a ring (`Mailbox`), what receivers make of it
(`UDPReception`) and all runs of it and its receivers (`MailboxRuns`); the steps of the
demultiplexer on values (`Demux`) and what holds of its table (`DemuxTable`); the same with a
list, a hash index and the Mailbox objects (`MailboxTable`, `UDPDemux`), which the Connections
share (`UDPConnection`); the Listener with all its Connections and its accept queue
(`UdpSystem`), what follows over all its runs (`UdpRuns`), what the peers' datagrams come to in them
(`UdpDelivery`), and why a Mailbox may be named by its address (`AddressReuse`).

The main results:

- **Framing.** However the wire bytes are cut into reads, and whatever attempts fail for lack of a
  block in between, successive receives return the Messages in order, then the end, then refusals
  (`FramedRoundTrip`), and a stream cut at any byte is classified exactly
  (`TruncationIsClassified`). Class `TCPConnection` does this with real blocks (`ReceiveStream`,
  `ReceiveAll`, `ReceiveCut`), and every Message handed out still says at the end what it said at
  first. What one Connection sends, another one receives (`Transfer`). Without a framer, and with
  the Passthrough framer, the stream comes in parts or as a whole (`UnframedStream`,
  `PassthroughStream`).
- **Ends.** How a pending send or receive ends when the application closes or aborts the Connection
  meanwhile, and what the Connection is then, in closed form (`CallsComeTo`, `FramedReadFails`,
  `WriteEnds`, `ReceiveInterrupted`); what makes a Connection unusable, over its whole life
  (`EstablishedIff`, `RefusedAfterClose`).
- **Sharing.** The socket never writes bytes that a Message or the Connection holds, and the count
  of every live block is the number of handles to it.
- **The demultiplexer.** In every run the table is sorted, bounded and free of duplicates, a
  Mailbox is open exactly while it is listed, the socket is closed exactly when nothing can use
  it, no wakeup is lost, Connections are accepted in order, and a release that comes late is
  harmless as long as addresses are not reused too early. Every Mailbox takes exactly the datagrams
  of its source, each of which is received, dropped for newer ones or still there
  (`EveryDatagram`), and an error tells what took the source out of the table (`ErrorTellsWhy`).

Sizes are `nat`; where the source computes in `std::size_t` and the result can wrap, the wrap is
written out (`SizeAdd`, the encoder's truncation). `dafny verify dfyconfig.toml` checks everything.

## Model

| member | source | states |
|---|---|---|
| `LengthCodec.DecodeEncode` | src/message_framer.cpp:15-86 | decoding an encoded length gives it modulo 256^width, for every width and byte order |
| `LengthCodec.EncodeDecode` | src/message_framer.cpp:52-86 | encoding a decoded field gives its bytes back |
| `LengthCodec.LengthSurvives` | src/message_framer.cpp:52-86 | a length survives the field if and only if it is below 256^width |
| `LengthCodec.SwapChangesOrder` | src/message_framer.cpp:20-37 | reading in the machine's order and swapping the bytes is reading in the other order |
| `LengthCodec.DecodeLength` | src/message_framer.cpp:18-50 | the swapping path for widths 2, 4, 8 and the shifting loops for the others all read the field's value |
| `LengthCodec.EncodeLength` | src/message_framer.cpp:53-86 | both paths write the same digits, and nothing behind the field |
| `Framing.MakeLengthPrefixed` | src/message_framer.cpp:140-143 | the width is clamped to 1..8, and the byte order kept |
| `Framing.ParseIsIdealUnlessOverflow` | src/message_framer.cpp:145-167 | `parse` decides as for unbounded sizes if and only if the announced record size fits `std::size_t` |
| `Framing.NarrowFieldsNeverOverflow` | src/message_framer.cpp:154 | only an 8-byte field can announce a size that does not fit |
| `Framing.OverflowExample` | src/message_framer.cpp:154-166 | nine bytes announcing 2^64 - 1 are taken for a whole record |
| `Framing.RecordBytes` | src/message_framer.cpp:52-86 | the bytes of a record: the size in base 256, most significant digit first for big-endian and last for little-endian, then the Message |
| `Framing.AnnouncedByRecord` | src/message_framer.cpp:169-173 | a record announces its Message's size modulo 256^width, so the size itself exactly when it fits |
| `Receive.LoopConserves` | src/TCPConnection.cpp:255-311 | one framed receive loses no byte: what was buffered and read is dropped framing, the body, the buffer and the unread rest, in order |
| `Receive.FailureKeepsBytes` | src/TCPConnection.cpp:258-294 | a receive that fails, also by refusing an Emit, drops bytes if and only if it comes to the end of the stream with bytes left over; otherwise all are still there |
| `Receive.EmitIsExact` | src/TCPConnection.cpp:258-277 | an Emit cuts out exactly the record the framer names; one that consumes nothing or more than there is is refused with `DEFRAMING_FAILED` and keeps the Connection and all bytes |
| `Receive.EmptyReadsStall` | src/TCPConnection.cpp:255-311 | reads of 0 bytes get the loop nowhere, however many there are |
| `LocalCalls.CallsComeTo` | src/TCPConnection.cpp:84-144 | the Connection after any calls made while an operation is pending, in closed form: closed if one of them closes it, else closing if `close()` was called, and aborted only by `abort()` |
| `LocalCalls.FramedReadFails` | src/TCPConnection.cpp:300-353 | a framed receive whose read fails, after any reads and calls: `LOCAL_ABORT` if aborted before or meanwhile, `INVALID_STATE` if cancelled without an abort, else the reason; the Connection after it, and no byte lost |
| `LocalCalls.UnframedReadFails` | src/TCPConnection.cpp:321-353 | the same without a framer |
| `LocalCalls.WriteEnds` | src/TCPConnection.cpp:84-92 | how a write ends, and the Connection after it: unchanged if it succeeds or was cancelled without an abort, closed otherwise |
| `LocalCalls.FramedLeaves` | src/TCPConnection.cpp:248-353 | after any framed receive the Connection is closed if it reports a `CONNECTION_ERROR`, and else where the calls it met have left it |
| `LocalCalls.UnframedLeaves` | src/TCPConnection.cpp:314-353 | the same without a framer |
| `StatefulFramer.LoopOfStateless` | src/TCPConnection.cpp:255-311 | the loop with a framer that keeps a state, for one that keeps none, is the loop of `Receive` |
| `StatefulFramer.CallsConserve` | include/taps/message_framer.h:67-90 | whatever a framer answers, in whatever state of its own: over any number of receives all bytes are consumed in order or still there |
| `StatefulFramer.EofDrains` | include/taps/message_framer.h:67-90 | and after the end at most buffered bytes + 1 receives finish |
| `FramedStream.CallAdvances` | src/TCPConnection.cpp:248-312 | one receive returns the next result the stream has by the reference, or fails for lack of a block and changes nothing |
| `FramedStream.FragmentationDoesNotMatter` | src/TCPConnection.cpp:248-312 | n receives return the reference's results in order and then refusals, for every cutting into reads and every failed attempt between them |
| `FramedStream.WireReferenceIsDelivered` | src/message_framer.cpp:145-173 | the wire bytes of Messages that fit mean these Messages and a clean end |
| `FramedStream.RoundTripIffWritable` | src/message_framer.cpp:169-173 | and only theirs do: the stream means what was sent if and only if every Message fits the length field |
| `FramedStream.FramedRoundTrip` | src/TCPConnection.cpp:248-312 | the round trip: whatever the fragmentation, the Messages, each complete, then one end of stream, then refusals |
| `FramedStream.CutWireReference` | src/message_framer.cpp:145-167 | the first k wire bytes mean the complete records, the part of the last body, and the error |
| `FramedStream.OneErrorUnlessAtBoundary` | src/TCPConnection.cpp:280-294 | `DEFRAMING_FAILED` comes once if and only if the cut is not between two records |
| `FramedStream.TruncationIsClassified` | src/TCPConnection.cpp:248-312 | both of these for every fragmentation of a truncated stream |
| `FramedStream.MeaningKeptIff` | src/message_framer.cpp:154 | a stream means the same to the code as by the reference, in every fragmentation, if and only if no record of it announces a size beyond `std::size_t` |
| `FramedStream.FragmentationMatters` | src/TCPConnection.cpp:258-276 | with such a record two fragmentations of the same bytes give different first results |
| `PlainStream.UnframedStream` | src/TCPConnection.cpp:314-338 | without a framer n receives return the reads as parts of one Message, in order, then its end or the error, once, then refusals; the parts are the stream |
| `PlainStream.PassthroughStream` | include/taps/message_framer.h:106-136 | with the Passthrough framer the stream is one complete Message in every fragmentation, then one empty end, then refusals |
| `Blocks.MessageBlockPool.Acquire` | src/buffer/message_block_pool.cpp:42-59 | a fresh block of count 1, or, exactly at the cap, an empty handle |
| `Blocks.MessageBlockPool.Release` | src/buffer/block.h:52-55 | a count one lower; the last release, and no other, destroys the block |
| `Blocks.Reset` | src/buffer/block.h:121-127 | the handle is empty and only its own reference is gone |
| `Blocks.CopyAssign` | src/buffer/block.h:100-109 | copy assignment, also onto itself and between handles of one block, keeps counts equal to handles |
| `Blocks.MoveAssign` | src/buffer/block.h:110-118 | move assignment hands the reference over |
| `Blocks.CountsAreExact` | src/buffer/block.h:84-127 | each live block's count is the number of handles to it, and no handle names a destroyed block |
| `Ranges.AppendedIsConcat` | src/buffer/block_chain.cpp:102-114 | appending concatenates the bytes, and no two neighbouring entries could be one |
| `Ranges.DroppedIsSuffix` | src/buffer/block_chain.cpp:116-134 | consuming drops a prefix, clamped |
| `Ranges.TakenIsPrefix` | src/buffer/block_chain.cpp:136-149 | `first` is the clamped prefix, on the same blocks |
| `BlockChains.BlockChain.Grow` | src/buffer/block_chain.cpp:74-93 | room for one more entry: by compaction if the front is free, else by doubling, with the same entries and counts |
| `BlockChains.BlockChain.Append` | src/buffer/block_chain.cpp:95-114 | the entries are `Appended`, empty handles are ignored, every reference is accounted for |
| `BlockChains.BlockChain.ConsumeFront` | src/buffer/block_chain.cpp:116-134 | the entries are `Dropped`, and consumed blocks are given up |
| `BlockChains.BlockChain.First` | src/buffer/block_chain.cpp:136-149 | a new chain of `Taken`, which holds references of its own |
| `BlockChains.BlockChain.CopyFrom` | src/buffer/block_chain.cpp:10-14 | the copy has the same entries, each with a reference more |
| `BlockChains.BlockChain.AssignFrom` | src/buffer/block_chain.cpp:20-26 | copy assignment, also onto itself |
| `BlockChains.BlockChain.MoveFrom` | src/buffer/block_chain.cpp:28-48 | move assignment, also onto itself, with inline and with external storage; another source is empty after it |
| `BlockChains.BlockChain.Clear` | src/buffer/block_chain.cpp:50-59 | all references are given up |
| `ReadWindow.WindowNeverEmptyIff` | src/TCPConnection.cpp:214-246 | the window `StartRead` hands out has room, however full the block was, if and only if the block size is at least 4 |
| `ReadWindow.StartRead` | src/TCPConnection.cpp:214-225 | the current block is kept exactly when at least the threshold of it is left, else a fresh one or none because of the cap; the window is behind all ranges anybody holds |
| `ReadWindow.FinishRead` | src/TCPConnection.cpp:239-245 | a handle to the bytes read, also to none, and the window behind them, given up exactly when less than the threshold is left |
| `ReadWindow.FillSmallBlock` | src/TCPConnection.cpp:214-246 | for block sizes 1 to 3: a filled block is kept, and the next read brings nothing and leaves the window as it was |
| `ReadWindow.StoredOnlyInWindow` | src/TCPConnection.cpp:223-242 | what the socket writes changes no range that ends at or before the window |
| `Readers.CopyOut` | src/message_framer.cpp:97-117 | the asked bytes as far as there are any, and nothing else is written |
| `Readers.TryContiguous` | src/message_framer.cpp:119-135 | a view of the asked bytes, and none exactly when they are not all in one block, as long as the sum fits `std::size_t`; where it wraps, a view may come although the bytes are not there |
| `Readers.CopyTo` | src/buffer/block_chain.cpp:151-160 | all bytes of the chain, and how many they are |
| `Readers.ParseRecordAt` | src/message_framer.cpp:145-167 | `parse` over a header spread over blocks decides as on the plain bytes |
| `Messages.Message.AsBytes` | src/Message.cpp:15-49 | the payload in one piece, copied once at most and only when it lies in several blocks |
| `Messages.Message.SegmentsArePayload` | src/Message.cpp:51-63 | the segments one after the other are the payload |
| `Messages.Message.Blocks` | src/Message.cpp:51-63 | walking the segments by number and count gives all of them, and the payload |
| `Messages.Gather` | src/Message.cpp:65-73 | the payload in the caller's buffer, and nothing behind it |
| `BufferSequence.Position.Advance` | src/transport/const_buffer_sequence.h:47-75 | the iterator goes on by exactly the buffer it stood at, and nearer to its end |
| `BufferSequence.Position.Buffer` | src/transport/const_buffer_sequence.h:42-46 | a buffer that is not empty |
| `BufferSequence.Written` | src/transport/const_buffer_sequence.h:42-83 | a write consumes header and payload, through non-empty buffers, and ends |
| `Sending.WriteHeader` | src/TCPConnection.cpp:75-81 | the header makes the payload the record of the framer's width and byte order; none without a framer and for Passthrough |
| `TCPConnections.TCPConnection.Store` | src/TCPConnection.cpp:223-242 | the arriving bytes are in the window; the buffer and everything handed out read as before |
| `TCPConnections.TCPConnection.ReceiveFramed` | src/TCPConnection.cpp:248-312 | does what `Receive.ReceiveFramed` says of the events it met, and it met no other; the buffer, the flags, the references and the Message handed out are exact |
| `TCPConnections.TCPConnection.ReceiveUnframed` | src/TCPConnection.cpp:314-338 | the same of `Receive.ReceiveUnframed` |
| `TCPConnections.TCPConnection.Receive` | src/TCPConnection.cpp:95-107 | the mode is the framer's, if there is one; refused with `INVALID_STATE` unless established and not at the end, which changes nothing; a Message is copied into one piece exactly if Passthrough asks for it and it lies in several blocks |
| `TCPConnections.TCPConnection.Fail` | src/TCPConnection.cpp:340-353 | a cancelled operation without an abort is `INVALID_STATE`, any other failure is reported as it is; a `CONNECTION_ERROR` closes the Connection, and another error after the stream has ended ends the receive half |
| `TCPConnections.TCPConnection.Send` | src/TCPConnection.cpp:67-93 | refused unless established; else the wire gets the Message's record, or just its bytes without a framer; a write that succeeds leaves the Connection where the calls meanwhile have left it, and a failure is `LOCAL_ABORT`, `INVALID_STATE` or its reason by whether `abort()` was called |
| `TCPConnections.TCPConnection.DropMessage` | src/buffer/block_chain.cpp:50-59 | dropping a Message gives up its references and leaves the Connection valid |
| `Sessions.ReceiveTimes` | src/TCPConnection.cpp:248-312 | n receives of a Connection together do what `Receive.Receives` says of the events they met, and every Message says at the end what it said when returned |
| `Sessions.FlatDelivers` | src/TCPConnection.cpp:300-308 | however blocks cut the reads, what was met is a cutting of the same stream |
| `Sessions.CallsStopAtEnd` | src/TCPConnection.cpp:249-250 | no receive reads beyond the event that ends the stream |
| `Sessions.ReceiveStream` | src/TCPConnection.cpp:248-312 | a Connection whose network delivers a stream returns what it means, for every end of it, and no receive waits; with no cap on blocks nothing else comes between |
| `Sessions.ReceiveParts` | src/TCPConnection.cpp:314-338 | a Connection without a framer returns the stream in non-empty parts, then its end once, then refusals |
| `Sessions.ReceivePassed` | src/TCPConnection.cpp:248-312 | one with the Passthrough framer returns it as one Message, then its end, then refusals |
| `Sessions.ReceiveAll` | src/TCPConnection.cpp:248-312 | the framed round trip through a Connection |
| `Sessions.ReceiveCut` | src/TCPConnection.cpp:248-312 | the classification of a truncated stream through a Connection |
| `Transfers.SendAll` | src/TCPConnection.cpp:67-93 | successive sends put the records of the Messages, or their bytes, on the wire one after the other, and leave the Connection as it was |
| `Transfers.Transfer` | src/TCPConnection.cpp:67-312 | what one Connection sends another one with the same framer returns, however the wire is cut into reads: the Messages, the end, refusals |
| `Interrupted.ReceiveInterrupted` | src/TCPConnection.cpp:113-144 | a Connection over real blocks whose pending read fails after some calls: the reply, the state and the buffer, with and without a framer |
| `Lifecycle.NeverBackIff` | src/TCPConnection.cpp:67-204 | in every life no operation moves the state back or undoes the end of the receive half or an abort, if and only if no `connect()` succeeds while `close()` waits for the peer |
| `Lifecycle.ClosedWhileConnecting` | src/TCPConnection.cpp:189-197 | a life in which the state moves back |
| `Lifecycle.EstablishedIff` | src/TCPConnection.cpp:67-353 | in every life an established Connection stays so if and only if nothing closes it: no `close()`, `abort()` or failed `connect()`, and no operation that reports a `CONNECTION_ERROR` |
| `Lifecycle.RefusedAfterClose` | src/TCPConnection.cpp:67-144 | after `close()` or `abort()` every send and receive is refused with `INVALID_STATE` and changes nothing |
| `Lifecycle.EndReportedIff` | src/TCPConnection.cpp:280-298 | the end is reported if and only if the stream has ended with nothing buffered, no Message begun and nothing from the framer |
| `Lifecycle.EndReportedOnce` | src/TCPConnection.cpp:295-297 | the clean end is reported once at most |
| `Lifecycle.AbortOnlyAfterAbort` | src/TCPConnection.cpp:84-91 | `LOCAL_ABORT` is reported only when `abort()` was called before or meanwhile |
| `PoolCounter.CapHolds` | src/buffer/message_block_pool.cpp:22-59 | in every interleaving live blocks stay within the cap, and with no `acquire` under way the counter is their number |
| `PoolCounter.RefusedIff` | src/buffer/message_block_pool.cpp:42-49 | the state in which an `acquire` is refused |
| `PoolCounter.RefusedOnlyAtCapIff` | src/buffer/message_block_pool.cpp:42-49 | in every interleaving `acquire` is refused only when live and reserved blocks reach the cap, if and only if a single thread uses the pool |
| `PoolCounter.LeastBound` | src/buffer/message_block_pool.cpp:22-59 | the memory of n - 1 blocks beyond the cap can be in use with n threads, and never more |
| `PoolCounter.WithinCapIff` | src/buffer/message_block_pool.cpp:22-59 | the memory in use stays within the cap if and only if one thread uses the pool |
| `Mailboxes.Mailbox.DeliverDatagram` | include/taps/mailbox.h:68-80 | the ring does what `Deliver` says of the queue: ignored when closed, the oldest lost when full, one waiter woken |
| `Mailboxes.Mailbox.TryPop` | include/taps/mailbox.h:82-85 | the oldest datagram, or none |
| `Mailboxes.Mailbox.Grow` | include/taps/mailbox.h:114-122 | twice the room, at least 4 and at most the bound, with the same queue across the wrap-around |
| `Mailboxes.Mailbox.CloseBox` | include/taps/mailbox.h:92-97 | the first cause stays, and all waiters are woken |
| `MailboxTables.MailboxTable.DeliverTo` | src/UDPListener.cpp:116-137 | the one ring takes the datagram, and all other Mailboxes are as they were |
| `MailboxTables.MailboxTable.CloseAt` | src/UDPListener.cpp:154-155 | the one Mailbox is closed, and all others are as they were |
| `MailboxRuns.BoundedFifo` | include/taps/mailbox.h:68-122 | accepted = returned + dropped + queued, in order, within the bound, and a datagram is dropped only in favour of a queue full of newer ones |
| `MailboxRuns.NoLostWakeup` | include/taps/mailbox.h:68-97 | in every interleaving, a receiver waits only while each queued datagram has a woken receiver coming for it, and none at a closed Mailbox |
| `MailboxRuns.NoLostReceiver` | include/taps/mailbox.h:68-110 | each receiver that went to wait still waits, is woken, or has looked again |
| `MailboxRuns.DrainsThenFails` | src/UDPConnection.cpp:95-119 | a closed Mailbox gives its datagrams in order and then always the error of its cause: `IDLE_TIMEOUT`, `RESOURCE_EXHAUSTED`, or for its owner `LOCAL_ABORT` if aborted and else `INVALID_STATE` |
| `MailboxRuns.FirstCauseCounts` | include/taps/mailbox.h:92-97 | a Mailbox is closed exactly when it was told to, with the first cause |
| `UDPConnections.PassiveUDPConnection.ReceiveStep` | src/UDPConnection.cpp:95-119 | one look at the Mailbox that the demultiplexer delivers to: the oldest datagram, or a wait, or the error of the cause |
| `UDPConnections.PassiveUDPConnection.Release` | src/UDPConnection.cpp:62-73 | what `Releasing` says: the first call posts the release, others do nothing |
| `UDPConnections.PassiveUDPConnection.Abort` | src/UDPConnection.cpp:121-132 | closed, aborted, and released as by `Releasing` |
| `UDPDemuxes.AgreeWithout` | src/UDPListener.cpp:154-158 | list and index still agree when an element leaves both |
| `UDPDemuxes.AgreeMoved` | src/UDPListener.cpp:115-118 | and when one moves to the front of the list |
| `UDPDemuxes.UDPDemux.Arrive` | src/UDPListener.cpp:114-137 | list, index, Mailbox objects and accept queue do what `OnDatagram` says |
| `UDPDemuxes.UDPDemux.SweepIdle` | src/UDPListener.cpp:140-152 | they do what `Sweep` says |
| `UDPDemuxes.UDPDemux.ReleaseSource` | src/UDPListener.cpp:193-200 | they do what `Release` says |
| `UDPDemuxes.UDPDemux.StopAccepting` | src/UDPListener.cpp:185-191 | they do what `Stop` says: the channel closes, and waiting calls of `accept()` fail |
| `UDPDemuxes.UDPDemux.TrySend` | src/UDPListener.cpp:131-135 | a new Connection goes to a waiting `accept()`, or into the queue, or nowhere when that is full |
| `UDPDemuxes.UDPDemux.AcceptOne` | src/UDPListener.cpp:168-177 | `accept()` takes the head of the queue, or waits, or fails with `ESTABLISHMENT_ERROR` / `INVALID_STATE` when the channel is closed |
| `DemuxTable.ArrivalSound` | src/UDPListener.cpp:83-138 | every datagram keeps the table sorted, bounded, free of duplicates, and Mailboxes open exactly while listed |
| `DemuxTable.DisplacesLeastRecent` | src/UDPListener.cpp:122-123 | a full table gives up its least recently active source and no other |
| `DemuxTable.SweepIsFilter` | src/UDPListener.cpp:147-149 | the sweep from the back keeps exactly the entries at or after the cutoff |
| `DemuxTable.SweepClosesIdle` | src/UDPListener.cpp:147-149 | it closes exactly the Mailboxes of the others, as idle |
| `UdpSystem.AlwaysSound` | src/UDPListener.cpp:83-200 | in every run the table is sound, the socket is closed exactly when nothing can use it, every listed source has a Connection whose release has not run, and the accept queue holds unreleased Connections, each once |
| `UdpRuns.ClosedForGood` | src/UDPListener.cpp:119-121 | once closed, always closed, and no source is added, even for a datagram received before |
| `UdpRuns.ServedAfterStop` | src/UDPListener.cpp:114-121 | after the Listener has stopped, listed sources get their datagrams and others change nothing |
| `UdpRuns.CauseTellsWhy` | src/UDPListener.cpp:114-200 | in every run the cause a Mailbox is closed with is what happened: a new source displaced it as the least recent one, a sweep found it idle, or its own Connection's release ran |
| `UdpRuns.ReleaseRemovesIff` | src/UDPListener.cpp:193-199 | a release removes an entry if and only if it has that source and that Mailbox |
| `UdpRuns.StaleReleaseIsHarmless` | src/UDPListener.cpp:193-199 | a late release leaves a later entry of its source alone |
| `UdpRuns.FreshAfterRelease` | src/UDPListener.cpp:119-137 | after a release the source's next datagram makes a new Connection with just this datagram, or a refused one when the accept queue is full |
| `UdpRuns.PostsAtMostOnce` | src/UDPConnection.cpp:64-73 | however often a Connection is closed, aborted or destroyed, it posts its release once at most |
| `UdpRuns.SweepAfterClosing` | src/UDPListener.cpp:160-166 | the step that closes the socket ends the sweep if and only if its timer has not expired |
| `UdpRuns.SweepCanEndIff` | src/UDPListener.cpp:131-200 | a sweep that has outlived the socket can still end if and only if a release is posted or an accepted Connection is unreleased |
| `UdpRuns.StrandedAtOnce` | src/UDPListener.cpp:140-166 | a run after which it never ends: the timer expires just before the stop |
| `UdpRuns.StrandedInQueue` | src/UDPListener.cpp:131-166 | another one: a Connection that nobody accepted before the stop, whose source goes idle |
| `UdpRuns.AcceptedInOrder` | src/UDPListener.cpp:131-177 | in every run `accept()` returns the Connections in the order of their first datagrams, each once, and the others are in the queue |
| `UdpRuns.UnacceptedForGood` | src/UDPListener.cpp:168-191 | a Connection in the queue when the stop has run is never accepted and never released |
| `UdpRuns.EveryAccept` | src/UDPListener.cpp:168-191 | in every run each call of `accept()` has returned a Connection, failed because of the stop, or is under way; none waits while a Connection is queued |
| `UdpRuns.StopTakesEffect` | src/UDPListener.cpp:185-191 | in every run new sources are accepted exactly until a stop has been called and run; then no `accept()` waits and the socket is open as long as a source is left |
| `UdpDelivery.ListedSourceServed` | src/UDPListener.cpp:114-137 | a listed source's datagram, whether new sources are accepted or not: at the back of its Mailbox, the oldest lost when full, one receiver woken, its entry in front, nothing else changed |
| `UdpDelivery.NewSourceAdmitted` | src/UDPListener.cpp:119-137 | a new source's datagram: the table, the displaced Mailbox, the Connection, the accept queue and the waiting `accept()`, and nothing else |
| `UdpDelivery.RunOfBox` | src/UDPListener.cpp:83-200 | in every run each Mailbox goes through a run of `MailboxRuns`: the datagrams of its source, a close for its reason, the looks of its receivers |
| `UdpDelivery.EveryDatagram` | src/UDPListener.cpp:114-137 | in every run the datagrams of a Mailbox's source, from its admission to its closing, are in order those received, those dropped for 256 newer ones and those still queued |
| `UdpDelivery.ErrorTellsWhy` | src/UDPConnection.cpp:95-119 | in every run a receive that fails says why, with the error values: swept as idle, displaced by a new source, or released by its Connection, aborted or not |
| `AddressReuse.AsIdentitiesUnlessWrong` | src/UDPListener.cpp:193-198 | releases by address do what releases by identity do, unless one is about to end another Connection |
| `AddressReuse.SafeIff` | src/UDPListener.cpp:193-198 | for every way of placing Mailboxes, over all histories: no release ends another Connection if and only if no address is reused for a source while that source's release for it is posted |
| `AddressReuse.ReuseHappens` | src/UDPListener.cpp:193-198 | a history in which the release of a destroyed Connection ends a newer, unreleased one |

## Findings

Properties the documentation or the design suggests and the code does not have, each with the
condition under which it does.

- A record whose announced size exceeds `std::size_t` is misread, and then the result depends on
  how the stream is cut (src/message_framer.cpp:154): `MeaningKeptIff`, `FragmentationMatters`,
  `ParseIsIdealUnlessOverflow`.
- A Message too large for the length field is sent with a truncated length, and comes back as
  something else (src/message_framer.cpp:169-173): `RoundTripIffWritable`.
- With a block size below 4 a full block is kept, the next read gets an empty window, and a framed
  receive makes no progress any more (src/TCPConnection.cpp:215-216): `WindowNeverEmptyIff`,
  `FillSmallBlock`, `EmptyReadsStall`.
- A `connect()` that succeeds while `close()` waits for the peer sets the state back to ESTABLISHED
  (src/TCPConnection.cpp:121, 196): `NeverBackIff`, `ClosedWhileConnecting`.
- The demultiplexer's sweep ends only if its timer has not expired when the socket is closed. It may
  outlive the socket, and in some runs it goes on for ever and keeps the demultiplexer alive
  (src/UDPListener.cpp:140-166): `SweepAfterClosing`, `SweepCanEndIff`, `StrandedAtOnce`,
  `StrandedInQueue`.
- A Connection that waits in the accept queue when the Listener stops is never accepted and never
  released (src/UDPListener.cpp:185-191): `UnacceptedForGood`.
- `acquire` may be refused although fewer blocks than the cap are live or reserved
  (src/buffer/message_block_pool.cpp:45-47): `RefusedOnlyAtCapIff`.
- More memory than the cap allows can be in use, since a block is uncounted before it is returned
  (src/buffer/message_block_pool.cpp:26-30): `LeastBound`, `WithinCapIff`.
- A release that comes late can end a newer Connection of its source, since it names the Mailbox by
  its address (src/UDPListener.cpp:193-198): `SafeIff`, `ReuseHappens`.
- The repository's README.md lists the framers NoOpFramer and DelimiterFramer; the code has
  LengthPrefixedFramer and PassthroughFramer, and these are modelled.

## Left out

- Blocks: their bytes are values in `pool.memory`, not arrays, and the reference counts are the one
  multiset `pool.counts`. What is not captured is two threads writing a count at once; the live
  counter under concurrent use is in `PoolCounter`.
- Block sizes below 4 in `TCPConnection` (see `WindowNeverEmptyIff` for what happens then), and
  Messages of 2^63 bytes or more.
- In class `TCPConnection` a framer other than the two of the library is a pair of functions
  (`Custom`) of the bytes behind the cursor and the end-of-stream flag; framers with a state of
  their own are in `StatefulFramer`, on values.
- The framer is fixed for a Connection, and one receive is pending at a time.
- The chain's inline storage is a capacity of 2 in an ordinary array, so moving a chain with inline
  storage moves entries, but where the entries lie is not modelled.
- `UDPDemux` finds a Mailbox by its identity in one table that all entries and Connections share,
  and its list is a sequence of nodes whose positions the index finds; the Connections in the
  accept queue are their identities.
- `listen()` is called once, and a waiting `accept()` is not cancelled. A source the accept queue has
  no room for may displace another one first.
- What a receiver does between two suspensions is one step on the strand, and so is every posted
  task and every datagram.
- Times are numbers; clock readings do not decrease, and the connection limit is constant and at
  least 1.
- `PassiveUDPConnection::send`, `UDPDemux::send_to` and `ActiveUDPConnection` would add only easy members.
- Sockets, name resolution, coroutines, executors and the timers themselves; `connect()`, the error
  codes of the sockets and error texts.
- TLS, apart from a stream that is cut as one more outcome of a read.
- Preconnection, TransportServices, properties and endpoints: configuration and dispatch.
- Memory resources and exceptions from allocation: allocation succeeds.
