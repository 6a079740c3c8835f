# Verification of the stateful cores

A Dafny model of the parts of this repository that keep state in place, and proofs about it. `dafny verify
dfyconfig.toml` checks everything.

| files | what they model |
|---|---|
| `EvBuffer*.dfy` | libevent's `evbuffer`: the linked list of chains with `first`, `last`, `last_with_datap`, `total_len`, and every operation that edits or walks it, proved to be operations on one flat byte string, or on two for runs with transfers |
| `RingBuffer*.dfy`, `VarInts.dfy`, `Packets.dfy` | `cByteBuffer` as a bounded queue with a rewindable cursor, varints, and packet framing from `cPacketizer` to `AddReceivedData` |
| `Media*.dfy`, `SlideShow.dfy`, `RateLimit.dfy` | the media connection stack: three nested state machines under all interleavings, sequence-number rewriting, rate control |
| `Md5.dfy`, `Chunked*.dfy`, `Utf8.dfy`, `Base64.dfy`, `SdpCandidate.dfy` | streaming codecs |
| `Arc4.dfy`, `Multipart*.dfy`, `WorkerWakeup.dfy` | the random stream and its unbiased reduction, the announced and the written length of a multipart post and a reader of its body, the worker wake-up protocol |
| `Bytes.dfy`, `Bits.dfy`, `TextSearch.dfy`, `Decimals.dfy`, `Options.dfy` | shared notions |

Objects that the code updates in place are classes here, tied to a mathematical value (`Contents()`, `Model()`,
`View()`, `Holds(m)`) that the lemmas are about. Automatic induction is switched off on the lemmas, so that each
proof is the one written down.

Where the code does not do what it is for, the exact condition is proved and the code is kept as it is:

- `evbuffer_prepend` reports a wrong number of added bytes to callbacks exactly when it needs a new chain for data
  in front of an existing one (`EvBufferOps.Prepend`, `EvBufferOps.PrependMiscounts`), and exactly then the reports
  of a run leave a gap that is never closed (`EvBufferRuns.ChainedExactly`, `EvBufferRuns.NeverMadeUp`, for two buffers `EvBufferPairs.HistoryChained`).
- `final` leaves the buffer as the padding left it, so the object survives `digest()` exactly for messages whose
  last block has room for the length, or whose pending bytes are what the padding left there (`Md5s.Md5.Final`,
  `Md5s.NotReusable`); the `_finished` flag never stays set.
- `isLegalUTF8` does not check the second byte after ED and F4 from below, so some ill-formed sequences are taken
  for characters (`Utf8.AcceptedExactly`, `Utf8.LaxExample`).
- The rate bound fails when the 32-bit product overflows (`RateLimit.BoundedExactly`).
- A computed sequence number of 0 is taken for "leave it" by `queueData`, so NACKs for the packet whose number is
  the offset itself miss (`SlideShow.NackMapsBack`, `SlideShow.NackMissed`).
- A chunk that, with its size line, reaches 2^32 is cut where the client happens to stand: the data depends on the
  pieces as soon as the stream goes on behind the first possible cut (`ChunkedOversized.CutsAgreeExactly`,
  `ChunkedOversized.OneStreamTwoBodies`). At 2^32 exactly the loop never ends (`ChunkedEnds.EndsExactly`,
  `ChunkedOversized.NeverEnds`, `ChunkedOversized.FFFFFFF4NeverEnds`).
- A candidate with a colon in an address, any IPv6 address, does not survive printing and parsing
  (`SdpCandidates.RoundTripExactly`).
- `doMultipartPost` ends in a comma expression and returns false always (`Multipart.DoMultipartPost`), and the
  announced length is negative or wrapped from 2^31 on (`Multipart.Post`, `Multipart.WronglyAnnounced`).
- Names are quoted without escaping, so a reader gets a field name back exactly if it holds no quote
  (`MultipartReader.NameReadExactly`).

## Model

| member | source | states |
|---|---|---|
| `EvBuffers.ChainNew` | ThirdParty/libevent/buffer.c:155-192 | a chain is made exactly for sizes that fit, empty and unlinked; below half the maximum the allocation is the least one doubled until it suffices, above that it is what was asked for |
| `EvBuffers.EvBuffer.constructor` | ThirdParty/libevent/buffer.c:361-374 | a new buffer is a valid, empty chain list with settled counters |
| `EvBuffers.EvBuffer.RunCallbacks` | ThirdParty/libevent/buffer.c:454-510 | callbacks get one report, only when something changed, with the true earlier length whenever the counters explain the length change; the counters are cleared unless callbacks are deferred |
| `EvBuffers.EvBuffer.FreeTrailingEmptyChains` | ThirdParty/libevent/buffer.c:289-302 | drops the one chain that may be empty and keeps the contents and the shape of the list |
| `EvBuffers.EvBuffer.ChainInsert` | ThirdParty/libevent/buffer.c:307-326 | linking a filled chain behind the last data appends its bytes to the flat string and keeps the whole pointer invariant, `last` and `*last_with_datap` included |
| `EvBuffers.EvBuffer.CutFront` | ThirdParty/libevent/buffer.c:1120-1146 | making a chain in the middle the first one, less some bytes, is dropping that many bytes of the flat string |
| `EvBufferOps.Add` | ThirdParty/libevent/buffer.c:1717-1808 | appends all bytes or nothing, fails exactly when the end is frozen or the lengths overflow, keeps the invariant and the callback counters in order; callbacks that run at once are told of exactly the data added |
| `EvBufferOps.Prepend` | ThirdParty/libevent/buffer.c:1810-1890 | puts the bytes in front of the flat string; what a failed allocation leaves behind; callbacks that run at once are told of the bytes that fitted in front of the first chain and of no others |
| `EvBufferOps.PrependMiscounts` | ThirdParty/libevent/buffer.c:1868-1886 | a byte put in front of another one: the buffer holds both, and the callbacks have been told of the first only |
| `EvBufferDrain.Drain` | ThirdParty/libevent/buffer.c:1090-1156 | drops the front of the flat string across any number of chains, or everything; callbacks that run at once are told how much |
| `EvBufferDrain.Copyout` | ThirdParty/libevent/buffer.c:1179-1244 | copies exactly the slice of the flat string at the given position, as far as it goes, and changes nothing |
| `EvBufferDrain.Remove` | ThirdParty/libevent/buffer.c:1159-1171 | data and remaining contents make up the old contents; the count is truncated to an int |
| `EvBufferDrain.Pullup` | ThirdParty/libevent/buffer.c:1339-1449 | succeeds exactly for 1 to all bytes (if a chain that long can be made), after which they lie in the first chain, and the flat string is the same |
| `EvBufferRuns.Apply` | ThirdParty/libevent/buffer.c:1090-1171 | one operation on the chains does to the flat string what it does to a plain byte string, result included, and reports the change of length, for a prepend only the part that fitted in front |
| `EvBufferRuns.Run` | ThirdParty/libevent/buffer.c:1090-1890 | every sequence of add, prepend, drain, remove and pullup gives the results, the final contents and the reports of the same sequence on a plain byte string |
| `EvBufferRuns.ChainedExactly` | ThirdParty/libevent/buffer.c:454-510 | over every run each report starts from the length at which the one before it ended, and the last ends at the present length, if and only if every byte that a prepend added was counted |
| `EvBufferRuns.NeverMadeUp` | ThirdParty/libevent/buffer.c:454-510 | once the callbacks have missed bytes, no later report of the run makes up for it |
| `EvBufferRuns.Reports` | ThirdParty/libevent/buffer.c:454-510 | the reports a buffer really makes over a run are those; without prepends they never leave a gap |
| `EvBufferTransfer.AppendChain` | ThirdParty/libevent/buffer.c:883-895 | splicing one chain list behind another appends the bytes and keeps the invariant |
| `EvBufferTransfer.PrependChain` | ThirdParty/libevent/buffer.c:937-953 | splicing one chain list in front of another puts its bytes in front |
| `EvBufferTransfer.CopyChain` | ThirdParty/libevent/buffer.c:869-881 | an empty buffer takes over a chain list whole, its link to the last chain redirected |
| `EvBufferTransfer.AddBuffer` | ThirdParty/libevent/buffer.c:955-999 | all bytes of the source end up behind those of the destination, none lost, doubled or reordered, both invariants kept, both sets of callback counters in order; callbacks of both that run at once are told of exactly what moved; frozen buffers and a buffer added to itself change nothing and report nothing |
| `EvBufferTransfer.PrependBuffer` | ThirdParty/libevent/buffer.c:1044-1088 | the same in front, reports included |
| `EvBufferTransfer.AdvanceLastWithData` | ThirdParty/libevent/buffer.c:702-716 | walks the link to the last chain with data to the end of a spliced list |
| `EvBufferTransfer.RemoveChains` | ThirdParty/libevent/buffer.c:1282-1314 | handing whole chains over moves exactly their bytes and leaves two disjoint valid lists |
| `EvBufferTransfer.RemoveBuffer` | ThirdParty/libevent/buffer.c:1249-1337 | moves exactly the first n bytes, chains whole and the rest copied, leaves both sets of counters in order, and tells the callbacks of both once of all that moved |
| `EvBufferSearch.PtrSet` | ThirdParty/libevent/buffer.c:2601-2651 | succeeds exactly for offsets up to the length, and the position then set is that offset; failure gives the not-found position |
| `EvBufferSearch.PtrMemcmp` | ThirdParty/libevent/buffer.c:2657-2691 | equal exactly when the pattern stands at that offset of the flat string, across chain boundaries |
| `EvBufferSearch.SearchRange` | ThirdParty/libevent/buffer.c:2699-2761 | the least offset at or after the start, and within the end, where the pattern stands, or not-found exactly if there is none |
| `EvBufferSearch.CompareStep` | ThirdParty/libevent/buffer.c:2669-2686 | comparing one chain's worth of bytes extends or refutes an occurrence in the flat string |
| `EvBufferLines.ScanFor` | ThirdParty/libevent/buffer.c:1461-1530 | finds the first byte of a kind in the flat string, chain by chain |
| `EvBufferLines.CountEol` | ThirdParty/libevent/buffer.c:1532-1569 | counts exactly the run of line-end characters from the position on |
| `EvBufferLines.PtrSubtract` | ThirdParty/libevent/buffer.c:2581-2599 | moves a position back by a distance, exactly when there is room |
| `EvBufferLines.SearchEol` | ThirdParty/libevent/buffer.c:1584-1672 | finds the first terminator of the given style and its length, or shows there is none, for all five styles |
| `EvBufferLines.NoEol` | ThirdParty/libevent/buffer.c:1611-1662 | where the byte searched for does not occur there is no terminator of that style |
| `EvBufferLines.EolStops` | ThirdParty/libevent/buffer.c:1611-1662 | a terminator of any style starts or ends at the first byte searched for |
| `EvBufferLines.Readln` | ThirdParty/libevent/buffer.c:1674-1711 | line, terminator and remaining buffer make up the old contents; no line exactly when there is no terminator or the start is frozen; callbacks are told of the line and then of its terminator |
| `EvBufferPairs.EolUnique` | ThirdParty/libevent/buffer.c:1611-1662 | where a terminator of any style is, and how long, is settled by the text |
| `EvBufferPairs.Transact` | ThirdParty/libevent/buffer.c:955-1337 | add_buffer, prepend_buffer and remove_buffer do to two byte strings what the reference transfer does, results included, and each buffer reports its own change |
| `EvBufferPairs.RunBoth` | ThirdParty/libevent/buffer.c:955-1890 | every history of two buffers, with transfers in both directions, single-buffer operations and line reads, is the history of two plain byte strings, and the callbacks of each buffer are told what happens to it |
| `EvBufferPairs.HistoryChained` | ThirdParty/libevent/buffer.c:454-510 | over every such history the reports of a buffer follow its length without a gap if and only if every byte that a prepend added to it was counted |
| `EvBufferPairs.GapStays` | ThirdParty/libevent/buffer.c:454-510 | a gap in the reports of a buffer stays to the end of the history |
| `EvBufferPairs.HistoryConserves` | ThirdParty/libevent/buffer.c:955-1337 | over every history the bytes taken in are exactly those held or given out, as multisets, whatever goes back and forth |
| `EvBufferPairs.HistoryInOrder` | ThirdParty/libevent/buffer.c:955-1337 | over every history that adds to one buffer, moves to the other and takes from its front, bytes come out in the order in which they went in, each once |
| `RingBuffers.ByteBuffer.constructor` | Src/Common/ByteBuffer.cpp:170-179 | an empty queue of the asked capacity |
| `RingBuffers.ByteBuffer.GetFreeSpace` | Src/Common/ByteBuffer.cpp:243-258 | capacity less the bytes kept |
| `RingBuffers.ByteBuffer.GetUsedSpace` | Src/Common/ByteBuffer.cpp:264-271 | the bytes kept, read or not, so that free and used add up to the capacity |
| `RingBuffers.ByteBuffer.GetReadableSpace` | Src/Common/ByteBuffer.cpp:277-290 | the unread bytes |
| `RingBuffers.ByteBuffer.Write` | Src/Common/ByteBuffer.cpp:196-237 | appends to the queue across the wrap, or refuses exactly when it does not fit |
| `RingBuffers.RingWritten` | Src/Common/ByteBuffer.cpp:213-236 | cells written around the end lie behind the old contents in ring order |
| `RingBuffers.RingSplit` | Src/Common/ByteBuffer.cpp:834-861 | the cells between two positions are those up to a third and those after it, wherever the wrap falls |
| `RingBuffers.ByteBuffer.Read` | Src/Common/ByteBuffer.cpp:834-861 | returns the next unread bytes in order across the wrap, or refuses exactly when there are too few |
| `RingBuffers.ByteBuffer.SkipRead` | Src/Common/ByteBuffer.cpp:949-959 | moves the cursor as a discarded read would |
| `RingBuffers.ByteBuffer.ReadAll` | Src/Common/ByteBuffer.cpp:965-970 | returns everything unread |
| `RingBuffers.ByteBuffer.ReadToByteBuffer` | Src/Common/ByteBuffer.cpp:976-995 | moves exactly n bytes to the end of another queue, 1024 at a time, or nothing |
| `RingBuffers.ByteBuffer.CommitRead` | Src/Common/ByteBuffer.cpp:1001-1006 | gives up exactly the bytes read |
| `RingBuffers.ByteBuffer.ResetRead` | Src/Common/ByteBuffer.cpp:1012-1017 | makes all kept bytes unread again |
| `RingBuffers.ByteBuffer.ReadAgain` | Src/Common/ByteBuffer.cpp:1023-1039 | returns exactly the bytes read but not committed, across the wrap |
| `RingBufferRuns.Run` | Src/Common/ByteBuffer.cpp:196-1039 | every sequence of operations gives the outputs and the final state of the same sequence on a bounded queue with a rewindable cursor |
| `RingBufferRuns.Conserved` | Src/Common/ByteBuffer.cpp:196-1017 | over every run the bytes committed followed by the bytes kept are the initial bytes followed by those accepted |
| `RingBufferRuns.ReadsInOrder` | Src/Common/ByteBuffer.cpp:834-1017 | without skips and rewinds, the bytes read over a run and those left unread are the initial unread bytes followed by those accepted |
| `RingBufferPairs.RunBoth` | Src/Common/ByteBuffer.cpp:196-1039 | every run of two rings with ReadToByteBuffer between them is the run of two queues |
| `RingBufferPairs.BothConserved` | Src/Common/ByteBuffer.cpp:976-1006 | over every such run each ring keeps or has committed exactly what it had and what was written or moved into it |
| `RingBufferPairs.DeliveredInOrder` | Src/Common/ByteBuffer.cpp:976-995 | bytes written to the first ring, moved and read from the second come out in order, each once |
| `VarInts.RoundTrip` | Src/Common/ByteBuffer.cpp:742-758 | the value of a varint is the number it was made from, and its length is found whatever follows |
| `VarInts.ThreeHundred` | Src/Common/ByteBuffer.cpp:742-758 | 300 is written as AC 02 |
| `VarInts.PrefixIsShort` | Src/Common/ByteBuffer.cpp:513-529 | a cut-off varint is recognised as incomplete |
| `VarInts.WriteVarInt` | Src/Common/ByteBuffer.cpp:742-758 | writes the varint whole or not at all |
| `VarInts.ReadVarInt` | Src/Common/ByteBuffer.cpp:513-529 | reads the number modulo 2^64 and moves past its last byte, or fails exactly when the bytes run out |
| `VarInts.OrDigit` | Src/Common/ByteBuffer.cpp:520-526 | shifting seven bits in with `|=` adds the digit at its place value, bits beyond the word lost |
| `Packets.WritePacket` | Src/Client/Packetizer.h:26-33 | the out buffer gets the packet type and the fields that fit |
| `Packets.FlushPacket` | Src/Client/Packetizer.cpp:56-76 | sends the payload behind its length and leaves the out buffer empty |
| `Packets.SendAll` | Src/Client/Packetizer.cpp:56-76 | any list of packets that fit goes out as the concatenation of their frames, the buffer empty between packets |
| `Packets.FrameTaken` | Src/Server/Protocol/cProtocol_impl.cpp:415-430 | a whole frame at the front is taken off exactly |
| `Packets.PartialWaits` | Src/Server/Protocol/cProtocol_impl.cpp:415-427 | any proper part of a frame makes the receiver wait |
| `Packets.ParsePrefix` | Src/Server/Protocol/cProtocol_impl.cpp:403-474 | parsing a cut stream yields the whole frames before the cut and keeps the rest |
| `Packets.AnyFragmentation` | Src/Server/Protocol/cProtocol_impl.cpp:403-474 | however a stream of frames is cut up, feeding the pieces yields the payload list |
| `Packets.ReceiveOne` | Src/Server/Protocol/cProtocol_impl.cpp:413-473 | one turn of the loop takes a good frame off the front or stops, rewinding on shortage |
| `Packets.AddReceivedData` | Src/Server/Protocol/cProtocol_impl.cpp:403-474 | one call appends the data and delivers exactly what a parse of the kept bytes gives |
| `Packets.Receive` | Src/Server/Protocol/cProtocol_impl.cpp:403-474 | over all fragments exactly the payloads of the stream are delivered, in order, each once, if and only if every fragment finds room |
| `Packets.SendAndReceive` | Src/Client/Packetizer.cpp:56-76 | sender and receiver together: the payload list comes out exactly for the fragmentations that fit |
| `MediaObjects.NiceConnection.UpdateIceState` | Src/media/NiceConnection.cpp:471-500 | the ICE state never goes back, and the listener is told exactly of a move other than the one to NICE_FINISHED |
| `MediaObjects.NiceConnection.UpdateComponentState` | Src/media/NiceConnection.cpp:440-465 | ready is reached only when all components are ready, failed only when all have failed and the last candidate is in; and when they are, ICE gets there; the ICE state never goes back |
| `MediaObjects.NiceConnection.QueueData` | Src/media/NiceConnection.cpp:144-158 | a packet is appended if and only if ICE is ready and fewer than 1000 are queued; nothing else changes |
| `MediaObjects.DtlsTransport.UpdateTransportState` | Src/media/Transport.h:55-63 | a new state is stored and handed to the connection, an old one is not; a first failure fails the connection |
| `MediaObjects.DtlsTransport.GatheringDone` | Src/media/NiceConnection.cpp:353-357 | the callback, run to its end through all three objects, is the machine's event followed by the work of its thread; it keeps the invariant of all runs and moves nothing back |
| `MediaObjects.DtlsTransport.ComponentState` | Src/media/DtlsTransport.cpp:312-333 | the same for a component that becomes ready or fails |
| `MediaObjects.DtlsTransport.PacketIn` | Src/media/NiceConnection.cpp:144-158 | the same for a packet from the network |
| `MediaObjects.DtlsTransport.PacketOut` | Src/media/DtlsTransport.cpp:154-198 | the same for a packet taken from the queue and read, whatever the reading leads to |
| `MediaObjects.DtlsTransport.ResendTimeout` | Src/media/DtlsTransport.cpp:70-87 | the same for a resend timer |
| `MediaObjects.Setup` | Src/media/WebRtcConnection.cpp:143-175 | which transports a new connection has, bundled or not; it is an initial state of the machine if and only if it is bundled or both descriptions have the same media, at least one |
| `MediaObjects.Drive` | Src/media/DtlsTransport.cpp:154-333 | the objects of a connection, with one transport or two, under any list of callbacks end in the very state of the machine after the same callbacks, each run to its end if it can come; so the invariant holds, ICE and connection state only rise, notifications are only added, a failed connection stays as it is; and from the start on the connection has reached what its transports have reached |
| `MediaRuns.DrivenUpward` | Src/media/DtlsTransport.cpp:154-333 | callbacks run one after the other keep the invariant and move nothing back |
| `MediaObjects.DtlsTransport.OnHandshakeCompleted` | Src/media/DtlsTransport.cpp:266-299 | accepted keys count for their context; with keys for both contexts the transport ends ready; refused keys fail the connection, even if the same call then sets the transport ready |
| `MediaObjects.DtlsTransport.OnHandshakeFailed` | Src/media/DtlsTransport.cpp:301-306 | the transport has failed and stopped, and the connection has failed with it |
| `MediaObjects.WebRtcConnection.UpdateState` | Src/media/WebRtcConnection.cpp:517-620 | a failed connection stays as it is; otherwise the listener is told exactly of a change of state, once; a failed transport fails the connection; transports that are all ready make it ready, all gathered without trickling make it gathered; sending is never switched on again |
| `MediaRuns.TransStep` | Src/media/DtlsTransport.cpp:154-333 | each event keeps a transport in order and never lowers its ICE state |
| `MediaRuns.NotifyStep` | Src/media/WebRtcConnection.cpp:517-620 | a notification, however late it is delivered, moves the connection up or leaves it, and leaves a failed connection untouched |
| `MediaRuns.Step` | Src/media/DtlsTransport.cpp:266-333 | every step of every thread keeps the invariant and moves nothing back |
| `MediaRuns.Reachable` | Src/media/WebRtcConnection.cpp:517-620 | the invariant holds in every state of every interleaving |
| `MediaRuns.StatesTold` | Src/media/WebRtcConnection.cpp:517-620 | the listener is told an ascending list of INITIAL, GATHERED, READY, FAILED, each at most once, in every run |
| `MediaRuns.Monotone` | Src/media/NiceConnection.cpp:471-500 | between any two moments of any run ICE states and the connection state only rise, notifications are only added, and after CONN_FAILED nothing changes |
| `MediaRuns.WorkOffIsPerform` | Src/media/Transport.h:55-63 | a thread's pending calls of updateTransportState, worked off step by step, come to the same as nested calls performed at once |
| `MediaRuns.WorkOffIsRun` | Src/media/Transport.h:55-63 | working them off is a run of the machine |
| `MediaRuns.SettledUpward` | Src/media/DtlsTransport.cpp:266-333 | a callback run to its end keeps the invariant and moves nothing back |
| `MediaProgress.ProgressStep` | Src/media/WebRtcConnection.cpp:517-620 | every step of every thread keeps what the connection owes: for each state its transports call for, it is there or past it, or a thread is about to tell it |
| `MediaProgress.AlwaysProgress` | Src/media/WebRtcConnection.cpp:517-620 | so it is in every state of every interleaving: gathered without trickling, ready, failed, stopped transports, keys for both contexts, all ICE components ready |
| `MediaProgress.QuietIsServed` | Src/media/WebRtcConnection.cpp:571-585 | with no work pending, transports that are all ready, or all keyed, mean CONN_READY or CONN_FAILED; a failed or stopped one means CONN_FAILED |
| `MediaProgress.NotifyReaches` | Src/media/WebRtcConnection.cpp:555-585 | a notification of a state that all transports in use have reached takes the connection there |
| `MediaProgress.KeysComeIn` | Src/media/DtlsTransport.cpp:266-299 | accepted keys count for the context of the component whose packet completed the handshake |
| `MediaProgress.TimeoutsFail` | Src/media/DtlsTransport.cpp:70-87 | as many timeouts as there are resends left change nothing but the count, and the next one fails the handshake |
| `MediaProgress.SixthTimeoutFails` | Src/media/DtlsTransport.cpp:70-87 | for a new transport that is the sixth timeout |
| `SlideShow.VideoForwarder.DeliverVideoData` | Src/media/WebRtcConnection.cpp:330-378 | in slide-show mode a packet is queued if and only if it starts a key frame or one is under way, outside it always; the publisher's next packet is queued with the number due, and the number due moves on by one exactly if it is forwarded |
| `SlideShow.VideoForwarder.SetSlideShowMode` | Src/media/WebRtcConnection.cpp:660-678 | entering the mode puts the number due back by one, leaving it keeps the number due |
| `SlideShow.VideoForwarder.RewriteNacks` | Src/media/WebRtcConnection.cpp:431-451 | every NACK in a compound packet is mapped back by the offset |
| `SlideShow.UpcomingStep` | Src/media/WebRtcConnection.cpp:330-378 | a forwarded packet takes the number due and moves it on by one; entering slide-show mode moves it back by one; leaving does not |
| `SlideShow.Ledger` | Src/media/WebRtcConnection.cpp:330-378 | over every run of consecutive input, the number due has moved by packets forwarded less mode entries, modulo 2^16 |
| `SlideShow.Neighbours` | Src/media/WebRtcConnection.cpp:642-678 | between two forwarded packets the number rises by one, less one for each slide-show entry between them |
| `SlideShow.GraceIs` | Src/media/WebRtcConnection.cpp:355-366 | after any events in slide-show mode, grace_ is set if and only if a key frame has started in this visit and had no marker yet |
| `SlideShow.ForwardedExactly` | Src/media/WebRtcConnection.cpp:351-375 | after any events a packet is forwarded if and only if slide-show mode is off, or it starts a key frame, or one is under way |
| `SlideShow.NackMapsBack` | Src/media/WebRtcConnection.cpp:427-457 | whatever has happened since, short of leaving slide-show mode, a NACK for a packet sent outside it comes back to the publisher's number if and only if there is no offset or the number is not the offset itself |
| `SlideShow.NackMissed` | Src/media/WebRtcConnection.cpp:642-652 | with an offset of 5 a NACK for packet 5 is taken for one for packet 10 |
| `SlideShow.OffsetKept` | Src/media/WebRtcConnection.cpp:660-678 | the offset changes only when slide-show mode is left |
| `RateLimit.SendLoop` | Src/media/WebRtcConnection.cpp:725-775 | the loop writes exactly the packets that the rate rule lets pass, in order: at most rate/80 + 1500 bytes for every 100 ms begun, by a clock that does not go back, when the 32-bit product does not overflow; and everything, if all of it stays within the rate |
| `RateLimit.OfferBounded` | Src/media/WebRtcConnection.cpp:752-765 | one packet of at most 1500 bytes keeps the window within rate/80 + 1500 |
| `RateLimit.WindowsBounded` | Src/media/WebRtcConnection.cpp:725-775 | k windows carry at most k times rate/80 + 1500 bytes |
| `RateLimit.WindowsTimed` | Src/media/WebRtcConnection.cpp:757-760 | k new windows take at least k times 100 ms |
| `RateLimit.TimeBounded` | Src/media/WebRtcConnection.cpp:757-765 | so the bound on windows is one on bytes in time |
| `RateLimit.SentExactly` | Src/media/WebRtcConnection.cpp:752-765 | below the overflow a packet is sent if and only if 100 ms have passed since the mark or the window is still within the rate, and the rate is not 1 |
| `RateLimit.AllPass` | Src/media/WebRtcConnection.cpp:761-765 | what stays within the rate altogether is sent whole |
| `RateLimit.Overshoot` | Src/media/WebRtcConnection.cpp:761-765 | for larger rates a run that breaks the bound, by overflow of the 32-bit product |
| `RateLimit.BoundedExactly` | Src/media/WebRtcConnection.cpp:725-775 | the bound holds for every run if and only if (rate/80 + 1500) * 80 stays below 2^32 |
| `Md5s.Md5.Reset` | Src/Server/md5.cpp:104-114 | the object holds the empty message |
| `Md5s.InitialBytes` | Src/Server/md5.cpp:104-114 | the initial words are the bytes of section 3.3 of RFC 1321 |
| `Md5s.Encode` | Src/Server/md5.cpp:305-314 | words become bytes, low byte first |
| `Md5s.Decode` | Src/Server/md5.cpp:320-325 | four bytes joined with shifts and `|` are the little-endian word |
| `Md5s.DecodeEncode` | Src/Server/md5.cpp:305-325 | decode undoes encode |
| `Md5s.CountBits` | Src/Server/md5.cpp:158-162 | the two counter words with the code's carry test count bits modulo 2^64 |
| `Md5s.FoldSplit` | Src/Server/md5.cpp:166-174 | folding the compression function over blocks is folding over any division at a block boundary |
| `Md5s.ZerosLeast` | Src/Server/md5.cpp:203-206 | the padding of section 3.1 of RFC 1321 is the shortest that fills the last block |
| `Md5s.PaddingIs` | Src/Server/md5.cpp:203-209 | what final appends is the padding and length of sections 3.1 and 3.2 of RFC 1321 |
| `Md5s.Md5.Update` | Src/Server/md5.cpp:149-183 | the object holds the message so far with the input behind it, whatever the buffer's fill level |
| `Md5s.Md5.Final` | Src/Server/md5.cpp:188-216 | the digest is the encoded fold over the padded message; state and count come back; the object still holds the message if and only if the padding did not run over its pending bytes or happened to equal them |
| `Md5s.Md5.Digest` | Src/Server/md5.cpp:94-101 | digest() always finalises anew, as the updates inside final clear the flag it has set |
| `Md5s.NotReusable` | Src/Server/md5.cpp:188-216 | a 56-byte message that is lost by the first digest |
| `Md5s.DigestOfParts` | Src/Server/md5.cpp:104-216 | for every division of a message into update calls the digest is that of the whole message |
| `ChunkedBodies.DownloadHeader` | ThirdParty/httpclient/http_client.cpp:285-310 | finishes exactly when the stream holds an empty line, with the header up to it and every later byte kept or still to come, wherever the pieces are cut |
| `ChunkedBodies.DownloadChunkedBody` | ThirdParty/httpclient/http_client.cpp:400-488 | on every stream that does not stick the loop ends as the machine does; without oversized chunks it finishes exactly when the stream reaches its last chunk, and then with the decoded body, whatever the pieces |
| `ChunkedMachine.EveryFragmentation` | ThirdParty/httpclient/http_client.cpp:421-478 | for every fragmentation of a stream without oversized chunks the loop ends, and as the stream decodes |
| `ChunkedBodies.ContinueToReceiveBody` | ThirdParty/httpclient/http_client.cpp:490-504 | a read appends to the body, or the stream is at its end |
| `ChunkedMachine.SizeLine` | ThirdParty/httpclient/http_client.cpp:458-466 | the size line seen is the stream's own, and the int arithmetic on it loses nothing below 2^32 |
| `ChunkedBodies.GetChunkedResponse` | ThirdParty/httpclient/http_client.cpp:264-283 | header and chunked body together, for every fragmentation |
| `ChunkedStreams.SizeRead` | ThirdParty/httpclient/http_client.cpp:465-466 | strtoul reads the size that was written, extensions or not |
| `ChunkedStreams.TableRead` | ThirdParty/httpclient/http_client.cpp:465-466 | the digits the client takes are those of the tables 0123456789abcdef and 0123456789ABCDEF, each read as its place |
| `ChunkedStreams.PrintedRead` | ThirdParty/httpclient/http_client.cpp:465-466 | every size below 2^32, printed with either table, is read back |
| `ChunkedStreams.SignsAndPrefixes` | ThirdParty/httpclient/http_client.cpp:465-466 | a space, a plus sign or 0x in front changes nothing, a minus sign wraps the value, and what is too large is read as the largest number |
| `ChunkedStreams.StreamDecodes` | ThirdParty/httpclient/http_client.cpp:421-478 | a stream of well-formed chunks (section 4.1 of RFC 7230) decodes to the concatenation of the chunk data |
| `ChunkedStreams.ReceiveWellFormed` | ThirdParty/httpclient/http_client.cpp:285-488 | whatever pieces a header and a well-formed chunked body arrive in, the client ends with the header and the data |
| `ChunkedOversized.CutsAgreeExactly` | ThirdParty/httpclient/http_client.cpp:435-441 | the data of a first chunk is the same for every cut of the stream if and only if the chunk with its size line stays below 2^32, or the stream ends where the client can first cut |
| `ChunkedOversized.OutcomesAgreeExactly` | ThirdParty/httpclient/http_client.cpp:421-478 | when no oversized chunk follows, the whole outcome is the same for every cut exactly in those cases, or when what follows never completes |
| `ChunkedOversized.OneStreamTwoBodies` | ThirdParty/httpclient/http_client.cpp:421-478 | one stream with the size FFFFFFFF that the client takes for two different bodies, in one piece and cut after eleven bytes |
| `ChunkedEnds.EndsExactly` | ThirdParty/httpclient/http_client.cpp:421-478 | however the stream is cut, the loop ends if and only if the stream does not stick: taken off chunk by chunk modulo 2^32, it never comes to a chunk that, with its size line, is a multiple of 2^32 long |
| `ChunkedOversized.NeverEnds` | ThirdParty/httpclient/http_client.cpp:435-446 | a first chunk of exactly 2^32: however the stream is cut, the loop never ends |
| `ChunkedOversized.FFFFFFF4NeverEnds` | ThirdParty/httpclient/http_client.cpp:435-446 | the size line FFFFFFF4 is one: whatever follows it, in whatever pieces |
| `Utf8.LegalValue` | Src/Common/StringUtils.cpp:485-518 | what isLegalUTF8 accepts always denotes a scalar value |
| `Utf8.LegalIsEncoding` | Src/Common/StringUtils.cpp:485-518 | what isLegalUTF8 accepts is the encoding of a scalar value, second bytes below 80 after ED and F4 apart |
| `Utf8.EncodingIsLegal` | Src/Common/StringUtils.cpp:466-518 | every encoding (section 3 of RFC 3629) announces its length by its first byte, is accepted and has its scalar as value |
| `Utf8.AccumulatedIs` | Src/Common/StringUtils.cpp:550-559 | the fall-through sum less the offset, modulo 2^32, is the scalar value |
| `Utf8.FallThrough` | Src/Common/StringUtils.cpp:550-558 | the switch adds up exactly the bytes of the sequence and stops behind it |
| `Utf8.PushedIs` | Src/Common/StringUtils.cpp:561-586 | the swapped units lie in memory as the UTF-16 (section 2.1 of RFC 2781) of the scalar, high byte first |
| `Utf8.UnitsRead` | Src/Common/StringUtils.cpp:561-586 | reading the units by section 2.2 of RFC 2781 gives the scalars back |
| `Utf8.EncodeExamples` | Src/Common/StringUtils.cpp:485-518 | the reference encodes the examples of RFC 3629 as that document has them |
| `Utf8.Utf8ToRawBEUtf16` | Src/Common/StringUtils.cpp:524-589 | for every input the output is the big-endian UTF-16 of the scalars accepted |
| `Utf8.DecodedEncoded` | Src/Common/StringUtils.cpp:524-589 | the reference decoder reads every scalar sequence back from its UTF-8 |
| `Utf8.DecodedIsLongest` | Src/Common/StringUtils.cpp:524-589 | what the reference decodes is the longest well-formed prefix |
| `Utf8.AcceptedExactly` | Src/Common/StringUtils.cpp:485-559 | the converter takes exactly the longest well-formed prefix if and only if what follows it is not one of the sequences whose second byte goes unchecked |
| `Utf8.LaxExample` | Src/Common/StringUtils.cpp:501-509 | ED 41 80 is not UTF-8 and is read as U+C040 |
| `Utf8.ConvertWellFormed` | Src/Common/StringUtils.cpp:524-589 | well-formed UTF-8 becomes exactly the UTF-16 of its scalars |
| `Base64.Base64Decode` | Src/Common/StringUtils.cpp:840-870 | decodes the letters before the first padding character by filling a zeroed buffer with `|=` |
| `Base64.FilledStep` | Src/Common/StringUtils.cpp:850-859 | which byte each sextet goes into and which it opens, for the four positions |
| `Base64.Base64Encode` | Src/Common/StringUtils.cpp:876-919 | the encoding by groups, of length 4 * ceil(n / 3) |
| `Base64.LetterRead` | Src/Common/StringUtils.cpp:807-834 | UnBase64 inverts the alphabet |
| `Base64.Alphabet` | Src/Common/StringUtils.cpp:807-834 | the alphabet is table 1 of RFC 4648 |
| `Base64.EncodedExamples` | Src/Common/StringUtils.cpp:876-919 | f, fo and foo are encoded as section 10 of RFC 4648 has them |
| `Base64.RoundTrip` | Src/Common/StringUtils.cpp:840-919 | decoding undoes encoding for every byte string |
| `Base64.StrayIgnored` | Src/Common/StringUtils.cpp:847-867 | characters outside the alphabet, wherever inserted, do not change the result |
| `Base64.NothingAfterPad` | Src/Common/StringUtils.cpp:861-866 | nothing after the first padding character is looked at |
| `Arc4.Generator.Init` | ThirdParty/libevent/arc4random.c:96-105 | the identity table |
| `Arc4.Generator.AddRandom` | ThirdParty/libevent/arc4random.c:107-122 | 256 mixing rounds over the key bytes, repeated |
| `Arc4.Generator.GetByte` | ThirdParty/libevent/arc4random.c:424-437 | one round and the byte drawn from it |
| `Arc4.RunKeepsPermutation` | ThirdParty/libevent/arc4random.c:96-122 | after every sequence of operations the table holds each byte value exactly once |
| `Arc4.NextIsInjective` | ThirdParty/libevent/arc4random.c:424-437 | no two states step to the same state |
| `Arc4.FirstBytes` | ThirdParty/libevent/arc4random.c:424-437 | the first bytes drawn from the identity table are 2, 5 and 7 |
| `Arc4.SeedingGoesRound` | ThirdParty/libevent/arc4random.c:107-122 | seeding takes 256 rounds, once around the table, and leaves j at i |
| `Arc4.KeyRepeats` | ThirdParty/libevent/arc4random.c:107-122 | a key given twice over seeds the same table as the key itself |
| `Arc4.KeyPrefix` | ThirdParty/libevent/arc4random.c:107-122 | only the first 256 bytes of a key matter |
| `Arc4.Threshold` | ThirdParty/libevent/arc4random.c:533-539 | both branches compute 2^32 mod bound in 32-bit arithmetic |
| `Arc4.Uniform` | ThirdParty/libevent/arc4random.c:522-555 | the result is the first accepted word reduced, below the bound; all earlier words were rejected |
| `Arc4.AcceptsMoreThanHalf` | ThirdParty/libevent/arc4random.c:542-552 | more than half of all words are accepted |
| `Arc4.EveryResidueEqually` | ThirdParty/libevent/arc4random.c:548-554 | every residue is the result of exactly 2^32 / bound accepted words |
| `SdpCandidates.SplitOneOf` | Src/media/StringUtil.cpp:8-26 | the loop computes the pieces between delimiters, up to the limit, an empty rest dropped |
| `SdpCandidates.PiecesPlain` | Src/media/StringUtil.cpp:15-20 | no piece holds a delimiter |
| `SdpCandidates.SplitJoin` | Src/media/StringUtil.cpp:8-26 | splitting undoes joining |
| `SdpCandidates.StringifyCandidate` | Src/media/SdpInfo.cpp:186-219 | the line is the fields of section 15.1 of RFC 5245 in order, related address and port for srflx and relay |
| `SdpCandidates.LineWritten` | Src/media/SdpInfo.cpp:186-219 | which field stands where in the line, with the words of each type of candidate |
| `SdpCandidates.SdpInfo.ProcessCandidate` | Src/media/SdpInfo.cpp:974-1039 | a UDP candidate is pushed with the parsed fields, others and lines without typ are refused |
| `SdpCandidates.SdpInfo.ProcessLine` | Src/media/SdpInfo.cpp:720-723 | the candidate branch of processSdp |
| `SdpCandidates.RoundTrip` | Src/media/SdpInfo.cpp:186-219 | printing, splitting and parsing give the candidate back |
| `SdpCandidates.RoundTripExactly` | Src/media/SdpInfo.cpp:974-1039 | they do so if and only if the candidate is UDP and its printed text fields hold no space or colon |
| `SdpCandidates.Ipv6IsCut` | Src/media/SdpInfo.cpp:991-993 | an IPv6 address does not survive |
| `Decimals.NumberRead` | Src/media/SdpInfo.cpp:979-993 | strtoul reads back every unsigned and every int that was printed |
| `Decimals.DigitsWritten` | Src/media/SdpInfo.cpp:212-214 | a digit is written as its character, a negative number with a minus sign in front |
| `Multipart.HttpRequest.AddHeaderField` | ThirdParty/httpclient/http_request.cpp:80-93 | the value under that name, whatever its case, is replaced or added, and no other name's value changes |
| `Multipart.HeadersEquallyLong` | ThirdParty/httpclient/http_request.cpp:194-198 | the file header that is measured and the one that is sent differ in case and not in length |
| `Multipart.HttpRequest.CalcBody` | ThirdParty/httpclient/http_request.cpp:167-212 | the Content-Length field holds the decimal text of the body's length in 32-bit arithmetic |
| `Multipart.Socket.WriteAll` | ThirdParty/httpclient/streaming_socket.cpp:68-88 | whatever each write takes, all of the text went out in order on success and a prefix of it otherwise; a socket that keeps taking bytes takes all |
| `Multipart.Socket.PostFile` | ThirdParty/httpclient/http_post_file.cpp:94-126 | the same for a file in memory |
| `Multipart.DoMultipartPost` | ThirdParty/httpclient/http_client.cpp:202-251 | what goes out is the whole multipart body, or a prefix after a failure; the return value is false in every case |
| `Multipart.Post` | ThirdParty/httpclient/http_client.cpp:202-251 | the announced length is the length of the body if and only if that is below 2^31; what goes out is a prefix of the body, and on a socket that keeps taking bytes all of it, exactly if no single text of the body reaches 2^31 bytes |
| `Multipart.WronglyAnnounced` | ThirdParty/httpclient/http_request.cpp:185-212 | two files of 2^30 bytes each: the whole body goes out and the announced length is negative |
| `MultipartReader.PostRead` | ThirdParty/httpclient/http_client.cpp:202-251 | a reader of the body gets every name, value and file back, in order, if no name holds a quote or a line end and no value or file the delimiter |
| `MultipartReader.NameReadExactly` | ThirdParty/httpclient/http_request.cpp:176-187 | a field name of one line is read back if and only if it holds no quote |
| `WorkerWakeup.InvStep` | Src/Common/ThreadPool.cpp:20-55 | every step of consumer, pusher and terminator keeps the protocol invariant |
| `WorkerWakeup.NoLostWakeup` | Src/media/NiceConnection.cpp:82-103 | in no state of any interleaving does the consumer wait with work queued and the event unset, unless a pusher is between its push and its Set |
| `WorkerWakeup.EndIsNoticed` | Src/Common/ThreadPool.cpp:13-30 | nor once the end has been announced |
| `WorkerWakeup.RunInOrder` | Src/Common/ThreadPool.cpp:34-55 | tasks are run in push order, each at most once, and the queue is not empty when one is taken |
| `WorkerWakeup.NotStuck` | Src/Common/ThreadPool.cpp:20-55 | with work queued somebody under way can always take a step |
| `WorkerWakeup.Nearer` | Src/Common/ThreadPool.cpp:20-55 | every such step comes nearer to the start of the next task |
| `WorkerWakeup.StartsSoon` | Src/Common/ThreadPool.cpp:20-55 | whatever the schedule, the next task starts within ten steps of the threads under way |

## Left out

- evbuffer: reserve and commit, expand, printf, references, multicast, file segments and pinned chains; only chains that may be written in place are modelled, so no chain is empty unless it is the only one.
- evbuffer: callbacks that change the buffer they are told about; locking; reference counts.
- EvBuffers.ChainNew: memory is zeroed and allocation succeeds whenever the size can be represented; sizes are those of a 64-bit machine.
- EvBuffers.EvBuffer.RunCallbacks: one report stands for all callbacks; the flags of single callbacks are left out.
- EvBufferRuns.Run: requires contents and single operations that fit in an address space; the sizes at which the code refuses are in the contracts of the single operations.
- EvBufferPairs.RunBoth: requires all bytes together to fit in an address space.
- EvBufferTransfer.RemoveBuffer: says nothing about the destination's contents when the two lengths together exceed SIZE_MAX, which no memory can hold.
- EvBufferSearch.PtrMemcmp: only whether the result is zero, which is all the callers use.
- ByteBuffer: fixed-width integers, floats and positions; they would only add easy members.
- VarInts.ReadVarInt: shifts of 64 and more, undefined in the source, are modelled as shifting every bit out.
- Packets.WritePacket: the field writers are byte strings already encoded; the channel and its encryption are left out.
- Packets.AddReceivedData: HandlePacket is taken to accept every packet, and the error paths behind it are left out.
- The media stack: teardown, SDP negotiation, trickled candidates, RTP statistics and forward error correction; handshakes complete only while a dequeued packet is read; libnice, DTLS and SRTP are nondeterministic events.
- SlideShow.RewriteNacks: the receiver-report branch with its cycle carry, which depends on header accessors not modelled here.
- MediaObjects.Drive: callbacks run one after the other; interleavings within them are what MediaRuns is about.
- SlideShow.VideoForwarder.DeliverVideoData: RED payloads and the payload-type rewriting.
- RateLimit.SendLoop: a fixed rate and video packets only; slide-show mode and audio packets bypass the counters.
- Md5s.Md5.Update: inputs of at most 2^32 - 64 bytes, beyond which the 32-bit index of the source wraps.
- Md5s.Md5.Transform: the four rounds are a function parameter.
- ChunkedBodies.DownloadChunkedBody: requires a stream that does not stick, as on the others the loop has no end (ChunkedEnds.EndsExactly). size_t, int and unsigned long are 32 bits wide, as in the Win32 project files; saving to a file is left out.
- ChunkedBodies.GetChunkedResponse: the same for the stream behind the header; that the header announces a chunked body is taken for granted; fixed-size bodies are left out.
- Utf8.FallThrough: the two switch cases for five- and six-byte sequences, which isLegalUTF8 never lets through.
- RawBEToUTF8 and URLDecode: no clean round trip to state.
- Arc4.Uniform: draws from a finite list of words; that a retry loop ends with probability one is not a statement about a run.
- arc4_stir and its platform seeding: entropy sources.
- SdpCandidates.SdpInfo.ProcessLine: that the line is a candidate line is taken for granted, and the media type is left out.
- SdpCandidates.SdpInfo.ProcessCandidate: requires the pieces it looks at to be there, as the source indexes a vector without checking; the media type is left out.
- Multipart.HttpRequest.CalcBody: the branch for requests that are not multipart; the boundary is a parameter.
- Multipart.DoMultipartPost: files on disk, progress delegates and the response.
- WorkerWakeup.NoLostWakeup: a sequentially consistent memory and one consumer per queue.
- `cQueue` with several consumers, settings, INI files, loggers, string formatting, the user interface and video capture.
