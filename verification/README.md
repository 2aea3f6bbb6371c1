# cfrp: a verified model of the tunnel

cfrp carries many user connections over one link between a client and a server. This project models the code that
moves the bytes, and proves what the layers promise each other and their users. It also models seven smaller parts,
each with an invariant of its own. `dafny verify dfyconfig.toml` checks everything.

## The data plane

From the bottom up:

- `WebSocketSpec`, `WebSocket`: the frames of `WebsocketStream` (sections 5.2, 5.3 and 5.5 of RFC 6455): building,
  masking in place, reading, answering pings, and reading a byte stream out of frames.
- `WebSocketWire`: the same frames bit by bit, the examples of section 5.7 of RFC 6455, and the frames that end a link.
- `WebSocketRun`: a whole session of reads of either kind, with frames, pings and pongs arriving in between.
- `BufferedStreamSpec`, `BufferedStream`: replay of bytes that were read too early, under either kind of link.
- `MuxFrame`, `MuxStreamSpec`, `MuxStream`, `MuxSessionSpec`, `MuxSession`: the 12-byte header, and the classes
  `MuxStream` and `Session` with their loops over scatter lists and block queues. `MuxLoops` says what the two loops
  of a stream achieve.
- `MuxReads`, `MuxReplies`: every read is answered, and every ping and new stream, for one call and over whole runs.
- `MuxPair`, `MuxPairProofs`: one stream between two sessions, and the invariant that every step keeps.
- `MuxNet`, `MuxNetInv`, `MuxTheorems`, `MuxLimits`: two sessions with all their streams. A step is one task on one
  strand, or one frame received, at either end; a run is any sequence of steps. The net projects onto one pair for each
  stream id, so that other streams cannot disturb a stream.
- `LinkStack`: the same two sessions on a real link, which is plain bytes or WebSocket frames with any masks, any pings
  and pongs in between, and any bytes pushed back and replayed. Every run of it is a run of `MuxNet`.
- `LinkProgress`: and every run of `MuxNet` is a run of it, so that the two go through the same states.
- `BridgeSpec`, `Bridge`, `EndToEnd`: chunks, compression and packets above a stream, and the composition of all layers.
- `TunnelCut`, `CutRun`: what happens when a stream ends inside a packet, exactly, and runs that lead there.
- `TicketPreamble`: the 65 bytes in front of a work stream.

The main results are `EndToEnd.TunnelPrefix` and `EndToEnd.TunnelComplete` (what the far service gets) with
`TunnelCut.PrefixForEveryPoolIff` (exactly when), `MuxTheorems.CreditConserved` (flow control loses no credit),
`MuxTheorems.NoStall` with `MuxLimits.StallReachable` (a tight bound on the reads that can get stuck),
`MuxReads.ReadsAccounted` with `MuxReads.NoReadForgotten` (every read is answered, and until when it may wait),
`MuxReplies.PingsAnswered` (every heartbeat is), and `LinkStack.StackRefinesNet` with `LinkProgress.NetRefinesStack`
(framing, masking, replaying and partial reads are invisible to the sessions). They hold for every run, with no bound on
its length, its streams or its bytes.

## The smaller parts

- `RateLimiterSpec`, `RateLimiter`, `RateLimiterService`: the token bucket, with an upper bound on what it grants and the
  lower bound that mirrors it.
- `BufferPool`: the buffer allocator, over real arrays.
- `TicketSpec`, `TicketTable`, `TicketLife`: the server's pending tickets and their expiry queue, and exactly when a ticket
  is found.
- `Sni`: the TLS server-name parser, against an encoder written from sections 4.1.2, 4.2 and 5.1 of RFC 8446 and
  section 3 of RFC 6066.
- `ClientNames`: the names of connected clients.
- `ConfDiff`, `ConfMonitor`: the difference between two readings of conf.d, and its effect on the server.
- `MessageSpec`, `MessageCodec`: the binary control messages.

A class is proved against a specification function of the same name; the lemmas are about those functions.

## Findings

What turned out not to hold. Each is stated exactly: an input or a run that shows it, and the condition under which the
promise is kept.

- The cut. When a peer closes a stream inside the body of a packet, `async_read` completes short and without an error
  (src/common/mux.cpp:365), and the bridge does not look at the length (src/common/async_bridge.cpp:176). The far service
  then gets what the pool buffer held before. `CutRun.CutReachable` and `CutRun.CutInstance` are such runs: the near side
  closes while the window has cut its last packet. `TunnelCut.CutPrefixIff` says that the output is then a prefix if and
  only if the buffer held the missing bytes, and `TunnelCut.PrefixForEveryPoolIff` that it is a prefix for all contents of
  the buffers if and only if no read cut a body.
- The lingering stream. A stream that is closed locally and then receives data keeps that data in its read queue, and is
  never taken off the table while its session runs: `MuxLimits.LingeringReachable`, `MuxLimits.LingersForever`.
- The late stream. `open_stream` does not ask whether its session has stopped (src/common/mux.cpp:496-519), and `stop` tells
  only the streams that are in the table when it runs. A read on a stream opened later waits until its own user closes:
  `MuxReads.LateStreamReachable`, `MuxReads.LateStreamNeverTold`. `MuxReads.ToldExactly` says that these are all such streams.
- The stall. `async_read` of 98306 bytes or more can wait forever (`MuxLimits.StallReachable`), and no shorter one can
  (`MuxTheorems.NoStall`). Bridges stay below the bound (`EndToEnd.TunnelNeverStuck`); control messages, which may be up to
  4 MiB (src/common/protocol.h:46), do not.
- The send cap. The comment at src/common/mux.cpp:147 says that the cap of 1 MiB keeps frames acceptable to the receiver.
  Over a WebSocket it does not, by the 12 bytes of the mux header (`LinkStack.CapTooWide`); the initial window of 128 KiB
  does (`MuxTheorems.FramesBounded`). The cap in `handle_window_update` never changes a value
  (`MuxTheorems.WindowCapIdle`).
- The SNI case. A ClientHello without an extensions field: the parser takes what follows it for one
  (`Sni.NoExtensionsField`), and can find a name there if and only if 12 bytes or more follow (`Sni.NoFieldBound`,
  `Sni.NoFieldExample`).
- The name clash. A conf.d proxy with the name of a static proxy: when it goes, the server's listeners are as before if
  and only if no listener of the name stands before the one it opened (`ConfDiff.NameClashIff`).
- The large chunk. A chunk that is larger than its proxy's rate limit blocks the limiter's queue until the limit is raised
  (`RateLimiterSpec.HeadBlocked`), and one that is not gets through (`RateLimiterSpec.HeadGranted`). Chunks are up to 32768
  bytes.
- The late ticket. An expired ticket can be redeemed until the next registration (`TicketSpec.StillPending`).
- The overflow branch of `BufferPool::Return`, which its comment calls rare, is taken in some run if and only if a bucket
  preallocates more than its maximum (`BufferPool.OverflowIff`).

## Reading the model

Tasks posted to a strand are the contents of an `inbox`; handing them over is a step. A stream's strand and its
session's strand may interleave in any way. The compressor is a pair of partial functions with
`decompress(compress(x)) = x` (`BridgeSpec.Faithful`); it may fail or make its input longer. Clock readings, masks and
the order in which hash maps are gone over are arbitrary.

Two assumptions are made about the users of a mux stream. They do not write or read after their own close, as in the rest
of the program. And a writer keeps a partly sent buffer unchanged until its frames have left the session's write queue,
even past its abort handler: the source queues pointers, and `close` calls that handler earlier
(src/common/mux.cpp:192-202 and 267-273).

## Model

| member | source | states |
|---|---|---|
| MuxFrame.DecodeEncode | src/common/mux.cpp:31-40 | every header survives encoding: versions, types, flags, ids and lengths, big-endian |
| MuxFrame.EncodeDecode | src/common/mux.cpp:42-56 | any 12 bytes are the encoding of the header they decode to, so the wire form is unique |
| MuxFrame.HeaderOnWire | src/common/mux.cpp:31-40 | the twelve bytes of every header, spelled out: version, type, then flags, id and length with the most significant byte first |
| MuxFrame.FramesOnWire | src/common/mux.cpp:237-257 | the bytes of SYN, ACK, FIN, payload, window update, ping and pong frames, with the numbers of their types and flags |
| MuxFrame.HaltsIff | src/common/mux.cpp:567-590 | the read loop stops the session at a data header that announces more than 1 MiB and at no other; it reads a body exactly for data of 1 byte to 1 MiB |
| MuxFrame.ReaderRecovers | src/common/mux.cpp:567-612 | on the concatenation of well-formed frames, each exact read of the read loop keeps the pending frames or delivers precisely the first; it never stops the session |
| MuxFrame.PendingAppend | src/common/mux.cpp:528-559 | bytes of a newly sent frame extend the pending frames by that frame, wherever the reader stands |
| MuxStream.Slice | src/common/mux.cpp:165-173 | the slice loop over a scatter list yields exactly the first n bytes |
| MuxStream.Skip | src/common/mux.cpp:177-189 | the skip loop leaves exactly the bytes after the first n; with `Slice` no byte is lost or doubled at a partial send |
| MuxStream.Drain | src/common/mux.cpp:356-386 | the copy loop moves the first min(size, available) unread bytes into the caller's buffer and leaves the others, across block borders and offsets |
| MuxStream.MuxStream.DoWrite | src/common/mux.cpp:134-213 | `do_write` on the mutable stream performs exactly the state change and frames of the specification `DoWrite` |
| MuxStream.MuxStream.DoReadFromBuffer | src/common/mux.cpp:340-412 | `do_read_from_buffer` performs exactly the specification `DoRead`: completions, window updates, cleanup |
| MuxStream.MuxStream.ServeHead | src/common/mux.cpp:341-409 | one turn blocks exactly when the head request must wait, and otherwise completes it |
| MuxStream.MuxStream.AsyncRead | src/common/mux.cpp:215-229 | queues the request and serves it as specified, or fails it when 1024 are pending |
| MuxStream.MuxStream.AsyncWrite | src/common/mux.cpp:117-132 | queues the scatter list as the bytes it denotes and sends what the window allows; refuses at 1024 pending |
| MuxStream.MuxStream.HandleData | src/common/mux.cpp:295-304 | received bytes go to the end of the unread bytes |
| MuxStream.MuxStream.HandleWindowUpdate | src/common/mux.cpp:306-317 | credit is added up to the cap, then pending writes are sent |
| MuxStream.MuxStream.HandleClose | src/common/mux.cpp:319-329 | the end is noted and waiting reads are settled |
| MuxStream.MuxStream.Close | src/common/mux.cpp:237-277 | one FIN, waiting reads aborted in order, queues dropped, cleanup; nothing on a second call |
| MuxStream.MuxStream.CheckCleanup | src/common/mux.cpp:331-338 | the session forgets the stream exactly when both sides are closed and nothing is unread |
| MuxLoops.DoWriteFacts | src/common/mux.cpp:134-213 | frames sent plus bytes still pending are the bytes that were pending; the window pays for each byte sent; bytes stay pending only at window 0 |
| MuxLoops.DoReadFacts | src/common/mux.cpp:340-412 | bytes handed out plus bytes unread are the bytes that were unread; reported plus unreported consumption accounts for each; the end is announced only when nothing is left; a request stays only if it must wait |
| MuxLoops.WindowUpdateFacts | src/common/mux.cpp:306-317 | a window update raises the window by its delta, to 1 MiB at most, and the bytes then sent are paid from it; bytes stay pending only at window 0 |
| MuxReads.DoReadAnswers | src/common/mux.cpp:340-412 | the requests answered, then those still waiting, are the requests there were, in order; each gets the next min(size, bytes left) bytes, or the end exactly if none is left; none is answered early, and at the end of the stream none is left waiting |
| MuxReads.CloseFacts | src/common/mux.cpp:237-277 | the first close aborts every waiting read in order, empties all queues, sends one FIN, and removes the stream exactly if the peer has closed; a second one does nothing |
| MuxSession.Session.AsyncSendFrame | src/common/mux.cpp:528-559 | the frame's wire bytes are appended to what is written or queued, and writing is under way afterwards |
| MuxSession.Session.WriteCompleted | src/common/mux.cpp:684-697 | the completed frame leaves the queue and the next is written: order is kept and no byte is lost |
| MuxSession.Session.OpenStream | src/common/mux.cpp:496-519 | a fresh id two above the last, the stream in the table, and a SYN sent |
| MuxSession.Session.HandleFrame | src/common/mux.cpp:614-673 | table, new streams, posted tasks and replies are those of the specification, for every type and flag combination |
| MuxSession.Session.ReadCompleted | src/common/mux.cpp:567-612 | a completed header or body read handles the frame, waits for its body, or stops; a stopped session ignores it |
| MuxSession.Session.StopSession | src/common/mux.cpp:435-462 | every stream leaves the table and is posted one close, in any map order; a second stop does nothing |
| MuxPairProofs.LocalKeepsInv | src/common/mux.cpp:84-412 | each user call and each strand task keeps the pair invariant (byte order, credit, FIN and SYN placement, table membership) |
| MuxPairProofs.ReceiveKeepsInv | src/common/mux.cpp:614-673 | receiving a frame keeps the pair invariant |
| MuxPairProofs.FrameMeetsStream | src/common/mux.cpp:614-656 | in every state of the invariant a frame other than SYN meets a stream that is in the table and has seen no FIN |
| MuxNet.OnStreamProjects | src/common/mux.cpp:84-412 | a step of one stream is that step in its own pair and changes no other stream |
| MuxNet.OpenProjects | src/common/mux.cpp:496-519 | opening a stream is the opening step of the pair of the new id, which no one had before, and changes no other |
| MuxNet.HandleProjects | src/common/mux.cpp:614-673 | `handle_frame` does to the frame's stream what the pair's step does, and nothing to others |
| MuxNet.ReceiveProjects | src/common/mux.cpp:567-673 | receiving a frame is the receive step of its stream's pair and changes no other |
| MuxNet.StopProjects | src/common/mux.cpp:435-462 | stopping a session is the stop step of every pair |
| MuxNetInv.EveryRunKeepsInv | src/common/mux.cpp:84-698 | the invariant of all streams holds after every run of two sessions, whatever both users and all strands do, in any order |
| MuxTheorems.BytePipe | src/common/mux.cpp:134-213 | for each stream and direction the bytes read are a prefix of the bytes written, after every run |
| MuxTheorems.NothingLost | src/common/mux.cpp:295-412 | until a close each byte written is in exactly one place, in order: read, unread, posted, on the link, or pending |
| MuxTheorems.EndIsComplete | src/common/mux.cpp:319-354 | who is told of the end has read every byte sent before the FIN, and never gets data afterwards |
| MuxTheorems.CreditConserved | src/common/mux.cpp:306-317 | window + payload in transit + unread + unreported + updates in transit is 131072 exactly, until the reader closes |
| MuxTheorems.UnreadBounded | src/common/mux.cpp:395-409 | unread data never exceeds 128 KiB, and fewer than 32 KiB of consumption stay unreported |
| MuxTheorems.WindowCapIdle | src/common/mux.cpp:313-315 | the cap of 1 MiB never changes the value of a window |
| MuxTheorems.FramesBounded | src/common/mux.cpp:147-148 | every frame on a link carries at most 131072 bytes and is at most 131084 bytes long |
| MuxTheorems.NoStall | src/common/mux.cpp:359-368 | with nothing in transit and bytes pending at the sender, only an `async_read` of at least 98306 bytes can be waiting |
| MuxTheorems.FramesFindTheirStream | src/common/mux.cpp:614-656 | a payload, FIN, ACK or window update at the head of a link never meets an unknown stream |
| MuxTheorems.SynFirstFinLast | src/common/mux.cpp:237-257 | on a link the SYN precedes everything else of its stream and nothing follows the FIN |
| MuxTheorems.TableMembership | src/common/mux.cpp:331-338 | outside `stop` a stream is in the table exactly until both sides are closed and nothing is unread |
| MuxTheorems.IdsCollideOnlyOnWrap | src/common/mux.cpp:416-421 | two opened streams share an id if and only if the same session opened them a multiple of 2^31 apart |
| MuxReads.ReadsAccounted | src/common/mux.cpp:84-412 | over every run, the reads a user asked for on a stream are, in order, those whose handlers have been called and then those waiting; those refused at 1024 have all been told |
| MuxReads.NoReadForgotten | src/common/mux.cpp:319-354 | over every run: with its tasks run, a stream keeps a read waiting only while neither end has closed or something is still on the way; under a stopped session only if it was opened after the stop |
| MuxReads.ToldExactly | src/common/mux.cpp:435-462 | over every run a stopped session tells exactly those streams of the end that were in its table at the stop |
| MuxReads.LateStreamNeverTold | src/common/mux.cpp:496-519 | no continuation of a run tells a read of the end on a stream that was opened after the stop |
| MuxReads.LateStreamReachable | src/common/mux.cpp:496-519 | a run with such a stream and a read that waits on it |
| MuxReplies.PingReply | src/common/mux.cpp:656-666 | a ping with SYN is answered by exactly one ping with ACK, id 0 and length 0, any other ping by nothing; nothing else changes |
| MuxReplies.DataReply | src/common/mux.cpp:625-651 | a data frame with SYN for an unknown id creates and acknowledges the stream; data and then the end go to that stream alone; without SYN an unknown id is ignored |
| MuxReplies.OtherFramesStop | src/common/mux.cpp:667-672 | GO_AWAY and unknown types stop the session: each stream of the table is told of the end once |
| MuxReplies.SentArrives | src/common/mux.cpp:528-612 | over every run the frames sent are those received, then those on the link |
| MuxReplies.EveryRunAnswered | src/common/mux.cpp:614-673 | over every run a side has sent as many ping replies as it has received ping requests while running, and has acknowledged, in order, exactly the streams whose SYN it has received |
| MuxReplies.PingsAnswered | src/common/mux.cpp:464-494 | over every run the heartbeats sent are those still on the link plus those answered, and each answer has come back or is on its way |
| MuxReplies.OpensAcknowledged | src/common/mux.cpp:496-519 | over every run the ids opened by one side are, in order, those the other has acknowledged and then those whose SYN is on the link |
| MuxLimits.StallReachable | src/common/mux.cpp:359-409 | the bound of `NoStall` is tight: for every n from 98306 on, a run ends with an `async_read` of n bytes stuck |
| MuxLimits.LingeringReachable | src/common/mux.cpp:270-304 | a run leaves data in the read queue of a stream that was closed before it came |
| MuxLimits.LingersForever | src/common/mux.cpp:331-338 | such a stream stays in the table through every continuation in which its session runs |
| WebSocketSpec.MaskedTwice | src/common/websocket_stream.cpp:380-387 | masking with the same key twice is the identity (section 5.3 of RFC 6455) |
| WebSocketWire.MaskedBits | src/common/websocket_stream.cpp:380-387 | bit k of octet i is flipped exactly where bit k of octet i modulo 4 of the key is set (section 5.3 of RFC 6455) |
| WebSocketWire.MaskedHello | src/common/websocket_stream.cpp:200-202 | the masked text of section 5.7 of RFC 6455 |
| WebSocketWire.ShortExamples | src/common/websocket_stream.cpp:163-189 | the short frames of section 5.7 of RFC 6455, byte for byte: whole and fragmented text, masked text, ping and masked pong |
| WebSocketWire.BinaryHeader | src/common/websocket_stream.cpp:163-189 | the bytes before an unmasked binary message in all three length forms |
| WebSocketWire.ShortOnlyAtFrameEnd | src/common/websocket_stream.cpp:232-276 | `async_read_some` returns less than it has room for only at the end of a frame, and fetches no frame while one is left over |
| WebSocketWire.EndsAt | src/common/websocket_stream.cpp:352-398 | behind any pings and pongs, all answered, a close frame is the end of the stream and a forbidden frame an error; nothing behind it is read |
| WebSocketSpec.LengthRoundTrip | src/common/websocket_stream.cpp:168-179 | the shortest 7, 16 or 64 bit form of every length reads back as that length, with its mask bit |
| WebSocketSpec.FrameRoundTrip | src/common/websocket_stream.cpp:340-433 | a received frame is what was sent, whatever role and mask, and ends where it ended; frames are refused exactly if they break the control-frame rules or exceed 1 MiB |
| WebSocketSpec.NextDataOf | src/common/websocket_stream.cpp:389-411 | `ReadWsFrame` finds the next data frame and answers exactly the pings before it, or all pings when it has to wait |
| WebSocketSpec.ReadSomePipe | src/common/websocket_stream.cpp:232-276 | `async_read_some` returns the next bytes of the concatenated payloads, waits only when none is left, and never fails on a conforming peer |
| WebSocketSpec.ReadAllPipe | src/common/websocket_stream.cpp:278-338 | `async_read` returns exactly the next n bytes of the concatenated payloads, and waits exactly while there are fewer, with all of them in its buffer |
| WebSocketSpec.ReadAllSuffix | src/common/websocket_stream.cpp:278-433 | a read takes bytes off the front of the underlying stream and leaves the rest as it was |
| WebSocketRun.MixedReads | src/common/websocket_stream.cpp:232-433 | any mix of `async_read` and `async_read_some`, with pings and pongs in between, is given a prefix of the payloads, in order; while a read waits nothing is held back and every ping has been answered |
| WebSocket.MaskInPlace | src/common/websocket_stream.cpp:200-202 | the in-place loop masks the range it is given and nothing before it |
| WebSocket.Gather | src/common/websocket_stream.cpp:191-199 | the copy loop flattens the scatter list |
| WebSocket.PushLength64 | src/common/websocket_stream.cpp:174-179 | the shift loop appends the eight bytes, most significant first |
| WebSocket.BuildHeader | src/common/websocket_stream.cpp:163-189 | FIN and opcode, shortest length form with the mask bit, then the mask if there is one |
| WebSocket.ReadFrame | src/common/websocket_stream.cpp:340-433 | the imperative reader, unmasking where the payload lies, parses what the specification parses |
| WebSocket.AwaitData | src/common/websocket_stream.cpp:389-411 | the loop over control frames arrives at the specification's next data frame and collects the same pings |
| WebSocket.WebsocketStream.AsyncWrite | src/common/websocket_stream.cpp:157-230 | any scatter list becomes one binary frame of its bytes at the end of the outgoing bytes, masked for a client |
| WebSocket.WebsocketStream.SendPong | src/common/websocket_stream.cpp:435-497 | one pong frame that echoes the ping's payload |
| WebSocket.WebsocketStream.ReadWsFrame | src/common/websocket_stream.cpp:340-433 | the next data frame becomes the read buffer; the pings before it are answered, also by a read that waits or fails |
| WebSocket.WebsocketStream.AsyncReadSome | src/common/websocket_stream.cpp:232-276 | outcome and new state are those of the specification `ReadSome` |
| WebSocket.WebsocketStream.AsyncRead | src/common/websocket_stream.cpp:278-338 | piecewise reading over buffered and new frames adds up to the specification `ReadAll`, also when it has to wait in the middle |
| WebSocket.WebsocketStream.WriteCompleted | src/common/websocket_stream.cpp:507-518 | the finished message leaves the queue and the next is handed down; no outgoing byte is lost or reordered |
| BufferedStream.BufferedStream.AsyncReadSome | src/common/stream.h:158-177 | returns the first bytes of replayed and underlying bytes together and leaves the others; replayed bytes come alone; it never returns nothing while bytes are there and it was asked for some |
| BufferedStream.BufferedStream.AsyncRead | src/common/stream.h:179-207 | completes exactly when that many bytes are there, with the first of them, across the border between replayed and underlying bytes; while it waits the replayed ones are in its buffer |
| LinkStack.SentCarries | src/common/mux.cpp:675-698 | handing a queued frame to the underlying stream keeps what the link carries, whatever the mask |
| LinkStack.ReadDelivers | src/common/mux.cpp:567-612 | an exact read off the link delivers the first frame the link carries, part by part, and never fails |
| LinkStack.StackRefinesNet | src/common/mux.cpp:528-698 | every run of two sessions over plain or WebSocket links, with replayed bytes, goes through the states of a run of the net, with exactly the frames in transit on the links |
| LinkStack.LinkNeverFails | src/common/websocket_stream.cpp:358-369 | in no run does a session meet a read error, a refused WebSocket frame or a mux frame over its limit |
| LinkStack.StackBytePipe | src/common/websocket_stream.cpp:157-433 | prefix delivery through sessions, framing and masking |
| LinkStack.PushBackCarries | src/common/stream.h:153-207 | pushing back and replaying bytes of a link changes nothing of what it carries |
| LinkProgress.ReadReady | src/common/mux.cpp:567-612 | when all queued frames have been handed down, the pending header or body read completes |
| LinkProgress.NetRefinesStack | src/common/mux.cpp:528-698 | every run of the net is a run over plain or WebSocket links that ends in the same states: no state of the sessions is lost by the model of the net |
| LinkStack.CapTooWide | src/common/mux.cpp:147-148 | of the frames the 1 MiB send cap allows a WebSocket peer refuses exactly those within 12 bytes of it |
| BridgeSpec.HeaderRoundTrip | src/common/async_bridge.cpp:118-132 | the length field never reaches the compression flag, and the header word survives the wire |
| BridgeSpec.PacketBytes | src/common/async_bridge.cpp:118-132 | a chunk whose compressed form is smaller is sent in that form under a header with the top bit set, any other as it is: the bytes of either packet |
| BridgeSpec.HeaderHaltsIff | src/common/async_bridge.cpp:165-173 | a header stops the bridge if and only if its low 31 bits exceed 1 MiB; after a short read the end of the old header counts |
| BridgeSpec.BodyHaltsIff | src/common/async_bridge.cpp:175-197 | a body stops the bridge if and only if it is compressed and its size is unknown or above 16 MiB, or it cannot be decompressed |
| BridgeSpec.PacketRoundTrip | src/common/async_bridge.cpp:108-229 | unframing and decompressing a packet gives the chunk, whether the compressor shrank it, did not, or failed |
| Bridge.Bridge.FrameChunk | src/common/async_bridge.cpp:108-159 | one chunk read becomes one packet appended to the work stream, and the counter grows by the chunk |
| Bridge.Bridge.OnHeader | src/common/async_bridge.cpp:161-175 | the header handler, over the reused header buffer, follows the specification, short reads included |
| Bridge.Bridge.OnBody | src/common/async_bridge.cpp:175-233 | the body handler, over a reused pool buffer, follows the specification, short reads and decompression errors included; the counter grows by what is written |
| Bridge.Bridge.Relay | src/common/async_bridge.cpp:64-106 | without compression the bytes pass unchanged in their direction |
| EndToEnd.WholeChunks | src/common/async_bridge.cpp:161-238 | over any reads of a prefix of the packets the far bridge has written out whole chunks, in order, unless a read cut a body |
| EndToEnd.TunnelPrefix | src/common/async_bridge.cpp:61-239 | through all layers, with compression: after every run, for every chunking, mask, compressor and interleaving, the far service has a prefix of what the user sent, unless the stream ended inside a body |
| EndToEnd.TunnelPrefixUnlessCut | src/common/async_bridge.cpp:61-239 | the same under a condition on the near side only: it has not closed with the middle of a body as its last byte sent |
| EndToEnd.PassthroughPrefix | src/common/async_bridge.cpp:64-106 | through all layers, without compression: the far service always has a prefix |
| EndToEnd.TunnelComplete | src/common/async_bridge.cpp:161-238 | when the near side has closed with everything sent and the far bridge has met the end, the far service has everything |
| EndToEnd.CutPosition | src/common/async_bridge.cpp:163-176 | a body is cut only where the delivered bytes themselves end inside a body, and after the end was announced |
| EndToEnd.TunnelNeverStuck | src/common/async_bridge.cpp:161-175 | through all layers: while the far bridge waits for a header or a body, the stream is never quiet with bytes pending at the near side |
| TunnelCut.ShortReadSucceeds | src/common/mux.cpp:359-393 | on a closed stream with too few bytes an `async_read` completes short, without an error |
| TunnelCut.CutOutcome | src/common/async_bridge.cpp:213-217 | one handler call: after a short read of an uncompressed body the output is a prefix if and only if the buffer held the missing bytes |
| TunnelCut.CutPrefixIff | src/common/async_bridge.cpp:174-217 | over every run of the whole stack in which a read cuts an uncompressed body: the far service has a prefix if and only if that read's pool buffer held the missing bytes |
| TunnelCut.PrefixForEveryPoolIff | src/common/async_bridge.cpp:161-238 | over every run of the whole stack: the far service has a prefix whatever the pool buffers held if and only if no read cut a body (compressed bodies not cut) |
| CutRun.CutReachable | src/common/mux.cpp:175-189 | for all chunks sent uncompressed whose packets use up the first window inside the last body, a run over either kind of link ends in such a cut |
| CutRun.CutInstance | src/common/mux.cpp:237-257 | a concrete run: four chunks of 32768 zeros and a close, after which the far service has bytes the user never sent |
| TicketPreamble.PreambleRoundTrip | src/client/client.cpp:894-897 | the server reads back flag and ticket if and only if the ticket has at most 64 bytes and does not end with a blank |
| TicketPreamble.PreambleBytes | src/client/client.cpp:894-897 | the 65 bytes: 1 or 0, then the ticket, cut after 64 bytes or filled up with spaces |
| TicketPreamble.TrimmedFacts | src/server/server.cpp:1076-1078 | trimming leaves a prefix, and leaves everything exactly if there is no blank at the end |
| RateLimiterSpec.WindowBound | src/common/rate_limiter.h:44-109 | in any window no more is granted than one bucket and what the window earns, both at the largest rate in force, across waits, firings and rate changes |
| RateLimiterService.GrantedAtOnceIff | src/common/rate_limiter.h:44-64 | with nobody waiting a request is granted in its call if and only if it is no larger than the rate and than the tokens held plus all earned since they were last looked at; otherwise it waits |
| RateLimiterService.PaidFromEarned | src/common/rate_limiter.h:52-57 | idle time has added exactly what it earns, up to the rate, when the next request is paid |
| RateLimiterService.SustainedNeverWaits | src/common/rate_limiter.h:38-109 | the converse of `WindowBound`: over every run, requests that keep within one bucket and what each window earns, at the lowest rate in force, are all granted in the calls that make them |
| RateLimiterService.ServesAll | src/common/rate_limiter.h:77-97 | serving the queue stops only at a request that the tokens do not cover |
| RateLimiterSpec.RunValid | src/common/rate_limiter.h:38-109 | over every run tokens stay between 0 and the rate and a non-empty queue has an armed timer, set late enough |
| RateLimiterSpec.Fifo | src/common/rate_limiter.h:59-90 | the requests granted, then those waiting, are the requests made, in order |
| RateLimiterSpec.DelayEnough | src/common/rate_limiter.h:94-97 | the truncated delay is long enough, up to less than a microsecond |
| RateLimiterSpec.ArmedSoon | src/common/rate_limiter.h:94-97 | the timer is armed for no longer than the head request takes to earn, from a reading of the clock in that call |
| RateLimiterSpec.HeadGranted | src/common/rate_limiter.h:77-92 | a head request within the rate is granted by the first firing past its deadline, unless the rate was lowered meanwhile |
| RateLimiterSpec.HeadBlocked | src/common/rate_limiter.h:77-97 | while the head request exceeds every rate in force nothing at all is granted |
| RateLimiter.RateLimiter.AsyncWait | src/common/rate_limiter.h:44-64 | the method on the mutable limiter, with every reading of the clock it makes, does what the specification does, and keeps the invariant |
| RateLimiter.RateLimiter.ScheduleTimer | src/common/rate_limiter.h:85-109 | the recursion over the queue grants and arms as specified |
| RateLimiter.RateLimiter.UpdateTokens | src/common/rate_limiter.h:67-75 | the refill is exact and capped at the rate |
| RateLimiter.RateLimiter.ChangeRate | src/common/rate_limiter.h:38-42 | the new rate caps the tokens at once; the invariant is kept |
| RateLimiter.RateLimiter.TimerFires | src/common/rate_limiter.h:100-108 | a firing serves the queue as specified |
| BufferPool.BufferPool.constructor | src/common/buffer_pool.h:37-49 | buckets hold the buffers preallocated for their size, the last entry for a size decides its maximum, and the sizes are sorted without duplicates |
| BufferPool.BufferPool.Get | src/common/buffer_pool.h:77-128 | the buffer has the smallest configured size that fits, or exactly the size asked for; it comes from the bucket if that has a free buffer or may grow; it was in nobody's hands; a failed allocation changes nothing |
| BufferPool.BufferPool.Return | src/common/buffer_pool.h:130-144 | the buffer goes back to its bucket and to no other; with a bucket that preallocates no more than its maximum it is always kept |
| BufferPool.RunConserved | src/common/buffer_pool.h:88-143 | over any gets and returns free plus used buffers are `allocated_count`, which never exceeds the larger of maximum and preallocation |
| BufferPool.OverflowIff | src/common/buffer_pool.h:137-143 | some run reaches the overflow branch if and only if more buffers were preallocated than the maximum |
| BufferPool.LowerBoundFits | src/common/buffer_pool.h:78-84 | the first size not below n is the best fit |
| TicketSpec.CleanupExact | src/server/server.cpp:1358-1377 | the cleanup leaves nothing expired and takes nothing that was registered once and has not expired, and keeps the invariant |
| TicketSpec.EveryRunValid | src/server/server.cpp:768-794 | over every run at most 512 tickets are pending, the queue is sorted, every pending ticket has its entry, and no ticket is pending or redeemed more often than registered |
| TicketSpec.RedeemedAtMostOnce | src/server/server.cpp:1089-1109 | over every run a ticket is redeemed no more often than it was registered: once, if tickets are unique |
| TicketSpec.StillPending | src/server/server.cpp:863-879 | a ticket is still pending after a run if and only if nothing redeemed it, cleared its proxy, or registered at or after its expiry |
| TicketLife.RegisteredIs | src/server/server.cpp:768-794 | unless 512 tickets are left after the cleanup the ticket is pending afterwards, of its kind, with its data or those it had, and all else the cleanup left is unchanged; otherwise only the cleanup happens |
| TicketLife.RedeemedIs | src/server/server.cpp:1089-1109 | a pending ticket is taken out of one table, TCP first, and counted once; all else is unchanged |
| TicketLife.SurvivesIff | src/server/server.cpp:1358-1377 | a ticket survives the cleanup if and only if no queue entry for it and its kind has expired, for repeated tickets too |
| TicketLife.FoundIff | src/server/server.cpp:768-879 | over every run a ticket registered once is found, with its data, if and only if the table was not full at its registration and nothing since has redeemed it, cleared its proxy, or been registered at or after its expiry |
| TicketLife.FoundOnce | src/server/server.cpp:1089-1109 | a ticket that is found has been redeemed exactly once ever after |
| TicketTable.TicketTable.DoLazyCleanup | src/server/server.cpp:1358-1377 | the loop from the front of the queue does the whole cleanup |
| TicketTable.TicketTable.RegisterUserConn | src/server/server.cpp:768-780 | cleans up, then takes the ticket unless 512 are pending; the invariant is kept |
| TicketTable.TicketTable.RegisterUdpSession | src/server/server.cpp:782-794 | the same for UDP |
| TicketTable.TicketTable.TakeTicket | src/server/server.cpp:1089-1115 | finds a TCP ticket before a UDP one, returns its data and removes it; finds nothing otherwise |
| TicketTable.TicketTable.EraseProxy | src/server/server.cpp:865-871 | erasing while iterating, in any order, removes exactly the entries of the proxy |
| TicketTable.TicketTable.ClearPendingForProxy | src/server/server.cpp:863-879 | both tables lose exactly the entries of the proxy; the invariant is kept |
| Sni.ParseServerName | src/server/server.cpp:1271-1318 | on every buffer the parser stays in bounds, ends, and returns the specification's name |
| Sni.ScanExtensions | src/server/server.cpp:1290-1312 | the extension loop returns what the specification finds from there |
| Sni.FindsHostName | src/server/server.cpp:1271-1318 | on every well-formed ClientHello in one record the first name of the first server_name extension is returned if it is a host name, after any earlier extensions and before any bytes |
| Sni.FindsNothing | src/server/server.cpp:1293-1312 | without a server_name extension the result is empty |
| Sni.NotAHello | src/server/server.cpp:1274-1276 | bytes that are no complete handshake record with a ClientHello give no name |
| Sni.NameStandsThere | src/server/server.cpp:1271-1318 | on any bytes whatever, a name that is returned stands among them as a host name with its own length in front, behind the fixed part of a hello |
| Sni.NoExtensionsField | src/server/server.cpp:1289-1292 | without an extensions field the result is what the bytes after the hello say when read as one |
| Sni.NoFieldBound | src/server/server.cpp:1289-1312 | without an extensions field the result is empty for every n bytes behind the hello if and only if n is below 12 |
| Sni.NoFieldExample | src/server/server.cpp:1289-1312 | twelve bytes behind such a hello that make the parser return a name |
| ClientNames.NameTable.AllocateClientName | src/server/server.cpp:796-811 | returns the first free name among base, base_1, base_2, ... within one more probe than there are names; the tables stay in step |
| ClientNames.NameTable.ReleaseClientName | src/server/server.cpp:813-817 | the name leaves both tables, and nothing else changes |
| ClientNames.DecimalInjective | src/server/server.cpp:803-807 | different suffixes have different decimal forms |
| ClientNames.DecimalReads | src/server/server.cpp:805-807 | the decimal form has digits only, no leading zero, and the number as its value |
| ClientNames.FirstNames | src/server/server.cpp:798-807 | the first candidates for a nameless and a named client, letter by letter |
| ClientNames.TakenCount | src/server/server.cpp:805-807 | if the first k candidates are taken there are at least k names, so the loop ends |
| ClientNames.FirstFreeExists | src/server/server.cpp:804-807 | for every finite set of names there is exactly one first free candidate, at most as many probes away as there are names |
| ClientNames.OneNameEach | src/server/server.cpp:796-817 | over every run there are exactly as many names in use as allocations not yet released |
| ConfDiff.HandleOne | src/server/server.cpp:447-519 | a message changes the listeners of its own name only, and those as registering or unregistering one name should |
| ConfDiff.RegisterAdds | src/server/server.cpp:447-483 | which kinds of proxy add which listener, and that a forbidden port adds none |
| ConfDiff.SilentIff | src/client/client.cpp:813-838 | a name is mentioned in a poll if and only if it comes, goes, or changes in something other than its bandwidth limit |
| ConfDiff.QuietPollIff | src/client/client.cpp:813-838 | a poll sends nothing if and only if the two readings agree up to bandwidth limits |
| ConfDiff.ChangeIsGoAndCome | src/client/client.cpp:823-838 | a changed proxy is unregistered and then registered; nothing else is said about it |
| ConfDiff.DiffConverges | src/client/client.cpp:813-840 | after a poll, in whatever order the maps are gone over, the server listens on exactly the new configuration, and other names are untouched |
| ConfDiff.EveryPollConverges | src/client/client.cpp:767-849 | the same after any series of polls |
| ConfDiff.EveryMessageFits | src/client/client.cpp:813-838 | at every point of a poll a registered name has no listener, and an unregistered one has one unless it never got any |
| ConfDiff.NameClashIff | src/server/server.cpp:497-518 | a configuration that comes and goes under the name of static listeners leaves them as they were if and only if there is no tcp listener of that name, nor, if it is a udp one, any udp listener |
| ConfMonitor.Client.ApplyReading | src/client/client.cpp:813-840 | the two loops send exactly the messages of the difference, nothing for unchanged proxies, and remember the new reading |
| ConfMonitor.ControlSession.OnRegister | src/server/server.cpp:447-483 | the register branch, with default type, port check and vhost types, changes the lists as specified |
| ConfMonitor.ControlSession.OnUnregister | src/server/server.cpp:497-518 | the first tcp listener of the name goes, else the first udp one, else nothing |
| MessageSpec.RoundTripIff | src/common/protocol.h:156-252 | a message comes back from its encoding, whatever follows, if and only if its strings and lists are at most 65535 long; for negative numbers and nested lists too |
| MessageSpec.PrefixRejected | src/common/protocol.h:95-134 | every strict prefix of an encoding is rejected |
| MessageSpec.FieldBack | src/common/protocol.h:57-134 | each kind of field reads back as written |
| MessageSpec.FieldOnly | src/common/protocol.h:95-134 | whatever reads as a field stands there exactly as it would be written, and fits its length |
| MessageSpec.FieldBytes | src/common/protocol.h:57-79 | the bytes of every kind of field: two bytes of length before a string, numbers with the most significant byte first, negative ones in two's complement |
| MessageSpec.MessageBytes | src/common/protocol.h:156-252 | the messages made of strings: type byte and order of the strings |
| MessageSpec.RegistrationBytes | src/common/protocol.h:188-206 | the same for the registration of a proxy |
| MessageCodec.BinaryWriter.WriteInt64 | src/common/protocol.h:66-71 | the high and low words of the two's complement form are appended |
| MessageCodec.BinaryWriter.WriteStringVector | src/common/protocol.h:76-79 | the loop appends the count and every string |
| MessageCodec.BinaryReader.ReadInt64 | src/common/protocol.h:109-113 | the number read, or the failure, is that of the specification |
| MessageCodec.BinaryReader.ReadString | src/common/protocol.h:114-120 | the same for a string, whose end is checked against the data |
| MessageCodec.BinaryReader.ReadStringVector | src/common/protocol.h:121-126 | the loop reads the whole list or fails as the specification does |
| MessageCodec.SerializeBody | src/common/protocol.h:156-252 | writing each message field by field gives its encoding |
| MessageCodec.DeserializeBody | src/common/protocol.h:156-252 | reading each message field by field gives the message, or the failure, of the specification |

## Left out

- asio, sockets, TLS, QUIC (src/common/quic_ngtcp2.cpp), DNS, certificates, TOML parsing, logging, management and scripts: libraries or input and output. A link that is not a WebSocket is a FIFO of bytes.
- zstd: a pair of functions (see above); what it does inside, its memory, and limits on window sizes are not modelled.
- Reads and writes by a user after its own close: `close` keeps `read_queue_offset_` (src/common/mux.cpp:275), and later calls are not refused. The invariants are about users that do neither.
- MuxTheorems.BytePipe: buffers that a writer changes or frees while frames cut from them are still queued (see the second assumption above).
- Completion counts of split writes, and write handlers after a failure or after `stop` (src/common/mux.cpp:192-210): only the bytes sent are modelled, not when a writer is told.
- A stream that outlives its session, and the destructor of a stream: sessions and streams live as long as the run.
- Heartbeats, handshake timers, login, and the zombie check of src/common/mux.cpp:464-494: pings may come at any step instead.
- MuxTheorems.IdsCollideOnlyOnWrap: runs open fewer than 2^31 streams per session; behaviour after the id counter wraps is not modelled.
- MuxSession.Session.AsyncSendFrame: a call from another strand is posted first in the source; in the net a frame is enqueued in the step that sends it. The order of one stream's frames is the same.
- WebSocketRun.MixedReads: frames arrive whole; the bytes a waiting read has taken of a frame that has not come in whole count as not yet read.
- A peer's Close frame ends the link; closing handshakes of WebSocket are not modelled, nor is the HTTP upgrade.
- EndToEnd.TunnelPrefix: a rate limiter between read and write only delays a bridge's one outstanding chunk per direction, so it does not appear.
- The packet with a vhost connection's initial data when compression is off: its header is never set (src/server/server.cpp:1153-1175).
- UDP bridging: datagrams of 32768 bytes or more collide with its flag, and datagrams to the client are not forwarded (src/client/client.cpp:124-137, src/server/server.cpp:145-174).
- RateLimiterSpec.WindowBound: rates are positive, as both callers make sure (src/server/server.cpp:455-456, src/client/client.cpp:747-749); tokens are exact rationals and the clock counts whole microseconds, where the source rounds and drops the rest of a microsecond.
- BufferPool.BufferPool.Get: each critical section is atomic; the moment between counting a new buffer and allocating it is not visible to other calls, and buffers returned after the pool is gone are not modelled.
- TicketTable.TicketTable.TakeTicket: sockets, endpoints and initial data are one handle, and the listener's own table of endpoints is not modelled.
- Sni.FindsHostName: hellos spread over several records or handshake fragments; the length of the name list, which the parser reads and ignores; names after the first.
- ClientNames.NameTable.AllocateClientName: suffixes are unbounded where the source counts in an int.
- TunnelCut.PrefixForEveryPoolIff: cuts of compressed bodies, where the output depends on what the decompressor makes of a damaged frame.
- ConfDiff.DiffConverges: binding a port succeeds, the list of allowed ports does not change, and only tcp and udp listeners are kept; http and https routes are not removed by the source. The bandwidth limit is not compared by the source. Re-registration after a reconnect is not modelled.
- Retry loops, client protocol failover, the Host header search, port ranges and traffic counters: they would only add easy members.
