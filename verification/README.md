# accel-proxy: verified models of its protocols

accel-proxy tunnels traffic between access, relay and egress nodes and multiplexes streams over the
tunnels. This project models the parts whose correctness is not visible in any one function, in
Dafny, and proves what their callers rely on, over whole runs and under every interleaving.

| file | what it models |
|---|---|
| Bytes.dfy | bytes, big-endian words, Go's `copy` |
| Frames.dfy | both frame codecs, as wire formats and as the step-by-step writer and reader |
| Rings.dfy | the bounded queue, and the two ring buffers that keep it (`StreamPipe`, `RecvBuffer`) |
| CreditFlow.dfy | credit-based flow control of one request stream: both ends and the frames in flight |
| MuxSession.dfy | any number of such streams on one connection: safety and liveness of every run |
| MuxStream.dfy | the objects behind the credit protocol: tracker, dispatcher methods, send loop, reader |
| MuxClient.dfy | the client's table of stream objects and its dispatcher |
| StreamLog.dfy | the segmented log of a push stream |
| PushProtocol.dfy | resumable push to one node: sender, connection, client, acknowledgements |
| PushSystem.dfy | one stream with all its subscribers, acknowledgement table and trimming |
| PushStranded.dfy | a run, from the start, in which trimming strands a subscriber |
| PushObjects.dfy | the objects behind the push protocol: send state, receive state, broker |
| HopPool.dfy | next-hop selection, fallback dialing, hot reload, the relay's dialer table |
| RelayChain.dfy | the hop count and routing guards along a chain of nodes |
| HttpReplies.dfy | reassembly of HTTP replies from interleaved frames |

The objects of the source are classes whose methods are proved against functions on values; the
protocols are transition systems whose steps are those functions. A wait on a condition variable is
a guard (in a protocol) or an outcome such as `Blocked`, or a schedule of what other goroutines do
meanwhile (in a method). A step is one section under a lock, one frame written, or one frame
dispatched. Connections may be lost between any two steps of the push protocol.

## Where the code and what it says of itself differ

- A stream of internal/mux never enters its response phase: `toInt32` returns the request phase
  whatever its receiver, so after END_STREAM `OnData` still works on the request pipe
  (`MuxStream.StreamObject.OnData` proves that the response pipe is never touched). Only the request
  direction is claimed here.
- A connection cut exactly between a frame's header and its payload looks like a clean end of file
  to `ReadFrame` (`Frames.TruncatedStream` says for every cut which error is reported).
- After a hot reload the pool has the requested addresses only if no two of them share the identity
  of an existing endpoint while differing elsewhere (`HopPool.ReloadAgreesIff`). Otherwise the later
  one overwrites the earlier, for instance when a hop is listed once with tunnel path "" and once with
  "/tunnel" (`HopPool.ReloadCanDisagree`), and `dialerFor` reloads again on every use without ever
  agreeing (`HopPool.DisagreementIsForGood`).
- A hop's identity is its type, address, port and path run together. It tells hops apart if types
  have no ':', addresses no '/' and paths start with '/' (`HopPool.IdentityIsTheHop`), but nothing
  makes a configured path do so: without it two ports can share an identity
  (`HopPool.BarePathCanCollide`), and a reload merges them.
- The round-robin counter is converted to a signed integer; past 2^63 picks the index is negative
  unless the remaining count divides, and an empty pool divides by zero (`HopPool.GoodCounter`).
- `trimAll` takes its minimum and trims in two critical sections. A node's first acknowledgement that
  arrives in between can be recorded and then trimmed away (`PushStranded.LateFirstAckCanBeStranded`
  is such a run;
  `PushSystem.PendingTrimIsExact` says exactly when an entry survives).
- `WindowUpdateReader.Read` also means to flush when a read returns bytes together with an error. A
  pipe never does that, so up to one batch of credit stays unreported; `CreditFlow.NoDeadlock` shows
  that this is harmless.

## Model

| member | source | states |
|---|---|---|
| Frames.DecodeEncode | internal/mux/muxproto/frame.go:89-129 | reading back what was written returns the frame, whatever follows it on the wire |
| Frames.EncodeDecode | internal/mux/muxproto/frame.go:89-129 | writing a frame that was read gives the original bytes if and only if the reserved header bytes were zero |
| Frames.DecodeCut | internal/mux_http/muxproto/frame.go:90-109 | no strict prefix of a frame is read as a frame; the error depends on where the cut is |
| Frames.HeaderLayout | internal/mux/muxproto/frame.go:89-107 | where stream id, type, flags, length and reserved bytes are in both headers |
| Bytes.BigEndian | internal/mux/muxproto/frame.go:93-97 | numbers and their four-byte encodings are in the same order, so the most significant byte comes first |
| Frames.OversizeRefused | internal/mux/muxproto/frame.go:118-121 | a length above the limit is refused whatever follows the header |
| Frames.StreamRoundTrip | internal/mux_http/muxproto/frame.go:72-109 | any list of frames, both formats: the reader gets exactly that list and then end of file |
| Frames.TruncatedStream | internal/mux/muxproto/frame.go:108-129 | a connection cut anywhere yields exactly the complete frames, then EOF or UnexpectedEof, decided by the position of the cut |
| Frames.ByteWriter.WriteTo | internal/mux/muxproto/frame.go:89-106 | the wire gets as much of the frame's form as the writer still takes, and success means all of it; a payload that is too large is refused before anything is written |
| Frames.ByteReader.ReadFrame | internal/mux/muxproto/frame.go:108-129 | returns the decoded frame or the error of the format, however short the connection's reads are |
| Frames.ByteReader.ReadLoop | internal/mux_http/server/session.go:226-237 | a read loop sees the decoding of everything the connection delivers |
| Rings.RingWrite | internal/mux/muxproto/pipe.go:142-153 | with wrap-around, the unread bytes become the old ones followed by the written ones |
| Rings.RingRead | internal/mux/muxproto/pipe.go:155-166 | with wrap-around, takes out the first unread bytes and leaves the rest in order |
| Rings.QueueIsFifo | internal/mux/muxproto/pipe.go:81-132 | over any sequence of operations what was accepted comes out in order or is still there, within the capacity |
| Rings.ReadIsGreedy | internal/mux/muxproto/pipe.go:98-119 | a read takes all that was asked for or all there is, waits only on an open empty queue, and sees the end only on a drained one |
| Rings.CloseIsFinal | internal/mux/muxproto/pipe.go:122-132 | after the first close, whatever is tried, nothing goes in, buffered bytes stay readable and that close's error comes last |
| Rings.StreamPipe.WriteNonBlock | internal/mux/muxproto/pipe.go:81-95 | takes all of the data or, when full or closed, none of it |
| Rings.StreamPipe.Read | internal/mux/muxproto/pipe.go:98-119 | the ring reads like the queue: first bytes out, end only when drained |
| Rings.StreamPipe.Write | internal/mux/muxproto/pipe.go:48-75 | data larger than the capacity goes in completely and in order, whatever readers and closers do whenever the lock is free; nothing goes in after a close, and it waits only while full |
| Rings.RecvBuffer.Read | internal/mux_http/client/buffer.go:93-111 | the ring reads like the queue: first bytes out, end only when drained |
| Rings.RecvBuffer.Write | internal/mux_http/client/buffer.go:47-89 | nothing lost, repeated or reordered under interference; stops only for a close or, while full, the context, and an open buffer with room takes everything |
| Rings.RecvBuffer.Close | internal/mux_http/client/buffer.go:114-127 | first close wins, nil means EOF, no buffered byte is lost |
| Rings.RecvBuffer.Reopen | internal/mux/client/buffer.go:131-140 | the buffer is writable again with every buffered byte still there |
| CreditFlow.UpdateCarriesIncrement | internal/mux/muxproto/stream.go:219-230 | the int32 in a WINDOW_UPDATE carries every increment below 2^31 |
| CreditFlow.StepKeepsInv | internal/mux/muxproto/stream.go:77-137 | every step of either end, failures included, keeps the credit ledger, the frame order and the byte-for-byte accounting |
| CreditFlow.OnDataNeverFails | internal/mux/muxproto/pipe.go:77-95 | a compliant sender never overflows the pipe and never writes to a closed one |
| CreditFlow.ResetReachesReader | internal/mux/muxproto/stream.go:209-216 | after a reset the reader still gets what is buffered and then the error, never an endless wait or a clean end |
| CreditFlow.ResetStopsCredit | internal/mux/server/session.go:200-240 | after a reset no later frame changes the server's side of the stream |
| CreditFlow.NoDeadlock | internal/mux/muxproto/stream.go:48-57 | a stream that is not done always has an enabled step, despite credit batched at the reader |
| CreditFlow.ProductiveProgress | internal/mux/muxproto/stream.go:304-338 | every useful step of an error-free stream brings it strictly nearer to completion |
| CreditFlow.StreamGuarantees | internal/mux/muxproto/stream.go:186-207 | what was read is a prefix of the body, EOF only after all of it; window and pending credit within bounds |
| MuxSession.MoveIsLocal | internal/mux/client/session.go:252-292 | a move of the shared connection is one step of the stream it belongs to and no step of any other |
| MuxSession.RunGuarantees | internal/mux/client/http_request_stream.go:25-37 | in every run, with any interleaving of request streams and any failures, a reader gets a prefix of its own body and EOF only at its end |
| MuxSession.RunConservesCredit | internal/mux/muxproto/stream.go:362-392 | in every run the six places a window byte can be in add up to the window |
| MuxSession.RunNeverOverflows | internal/mux/client/session.go:427-443 | the flow control violation branch is never taken for a live stream |
| MuxSession.WireCarriesFrames | internal/mux/muxproto/frame.go:89-129 | the byte streams of both directions decode to exactly the frames in flight |
| MuxSession.SessionNoDeadlock | internal/mux/server/session.go:200-240 | a session with unfinished streams always has a useful move |
| MuxSession.StartDistance | internal/mux/muxproto/stream.go:304-338 | a fresh stream is at most 8 moves per body byte plus 7 from completion |
| MuxSession.MaximalRunDeliversEverything | internal/mux/server/session.go:72-125 | error-free runs are bounded, and one that cannot be extended has delivered every body in full with EOF seen |
| MuxStream.WindowTracker.Acquire | internal/mux/muxproto/stream.go:92-130 | takes exactly the credit asked for, at the first moment it suffices; a cancelled call takes none |
| MuxStream.StreamObject.OnData | internal/mux/muxproto/stream.go:186-207 | the request pipe changes as the protocol step says; nothing else of the stream does, the response pipe included |
| MuxStream.StreamObject.OnWindowUpdate | internal/mux/muxproto/stream.go:219-230 | releases exactly the signed increment of the payload to the direction it names, and nothing to the other |
| MuxStream.StreamObject.SendBodyWithFlowControl | internal/mux/muxproto/stream.go:304-338 | the frames sent are the body in chunks and one END_STREAM and exactly its size was acquired; an error leaves a prefix without END_STREAM and has a cause: broken connection, failed body read, or cancellation for lack of credit |
| MuxStream.WindowUpdateReader.Read | internal/mux/muxproto/stream.go:362-392 | reads the pipe; sends one update with all pending credit once a batch is due, and keeps it pending if the write fails: the protocol's ReadPipe and Flush steps |
| MuxStream.StreamObject.OnRST | internal/mux/muxproto/stream.go:209-216 | both pipes end with the reset error and keep their buffered bytes, and the stream is closed |
| MuxClient.EdgeClient.HandleNewRequest | internal/mux/client/http_request_stream.go:10-40 | HEADERS of a new id open a stream with an empty pipe; without a handler or with bad HEADERS an RST is sent and none is kept; no other stream changes |
| MuxClient.EdgeClient.Dispatch | internal/mux/client/session.go:252-292 | a frame acts on both pipes, both windows and the end of the stream object of its id and on no other; says what is answered and when the loop ends |
| MuxClient.DispatchIsClientReceive | internal/mux/client/session.go:410-458 | that action is the protocol's delivery step |
| MuxClient.AnsweredExactly | internal/mux/client/session.go:427-443 | only HEADERS that are not served (RST) and DATA that does not fit or comes after the end (GOAWAY) are answered |
| StreamLog.StreamBuffer.Append | internal/mux_http/server/streambuf.go:42-73 | extends the log by exactly the data, keeps the segments contiguous, non-empty and full but for the last, and keeps the retention bound |
| StreamLog.StreamBuffer.Search | internal/mux_http/server/streambuf.go:123-125 | the binary search finds the first segment that ends after the offset |
| StreamLog.StreamBuffer.Read | internal/mux_http/server/streambuf.go:106-143 | returns exactly the log's bytes at the offset, across segments, and the right outcome before the base and past the end |
| StreamLog.LogReadIsGreedy | internal/mux_http/server/streambuf.go:106-143 | a read gets all that was asked for or all there is behind the offset, and fails exactly below the base |
| StreamLog.StreamBuffer.Trim | internal/mux_http/server/streambuf.go:171-190 | moves the base to the start of the segment holding the offset, keeping log and representation |
| StreamLog.TrimIsPrecise | internal/mux_http/server/streambuf.go:170-190 | a trim drops nothing at or past its offset and keeps less than one segment below it |
| StreamLog.StreamBuffer.Close | internal/mux_http/server/streambuf.go:76-88 | the first close fixes the end of the stream; nil is a clean EOF |
| StreamLog.StreamBuffer.Push | internal/mux_http/server/push.go:191-219 | appends the origin's body in order and closes; waits only on an open buffer at its limit; retention stays below the limit plus one 256 KiB read |
| PushProtocol.NodeStepKeeps | internal/mux_http/client/session.go:306-340 | every step of a node, disconnects and resumes included, keeps exactly-once reception, the offset chain, the acknowledgement chain and EOF last, and moves no offset of a lasting connection back |
| PushProtocol.QuietLinkHasOpenWindow | internal/mux_http/client/session.go:402-410 | with nothing in flight and all received bytes acknowledged, the server's window is fully open, also after a reconnect |
| PushProtocol.PushNoDeadlock | internal/mux_http/server/session.go:173-222 | a connected subscriber that is behind, or has not seen the clean end, always has an enabled step that achieves something |
| PushSystem.PushDeliversEverything | internal/mux_http/server/session.go:47-87 | on a closed stream a connected, retained subscriber makes boundedly many useful moves, whatever other nodes and trims do meanwhile, and when none is left its consumer has read the whole log and seen EOF |
| PushSystem.CleanEndSettles | internal/mux_http/server/streambuf.go:76-88 | the origin's clean end puts every connected, retained subscriber in the situation of that result |
| PushSystem.ReconnectDistance | internal/mux_http/server/push.go:136-176 | after a resume that bound is at most seven moves a log byte, and four |
| PushSystem.ExactlyOnce | internal/mux_http/client/session.go:164-219 | over every run with any reconnects, what entered a node's buffer is the log up to its receive offset; consumers see a prefix, and EOF only after the whole log |
| PushSystem.OffsetChain | internal/mux_http/server/session.go:43-87 | acked <= received <= sent <= written, the gap is exactly what is in flight, and it stays within window plus one chunk |
| PushSystem.ConnectionClimbs | internal/mux_http/server/session.go:74-87 | over any part of a run in which a connection lasts, the acknowledged and the sent offset never move back |
| PushSystem.RunOnlyExtends | internal/mux_http/server/streambuf.go:42-73 | the log and every consumer's input only ever grow |
| PushSystem.MoveKeepsTable | internal/mux_http/server/push.go:266-272 | acknowledgement entries only grow and never exceed what the node received |
| PushSystem.ProtectedThroughout | internal/mux_http/server/push.go:300-330 | once an entry is retained and not below a pending trim it stays so, and its node's resume is never refused |
| PushSystem.ProtectedNeverEvicted | internal/mux_http/server/push.go:143-176 | neither the live sender nor a resume of such a node reads below the base |
| PushSystem.PendingTrimIsExact | internal/mux_http/server/push.go:321-330 | an entry survives a pending trim if and only if it lies in the segment of the taken minimum or later |
| PushStranded.LateFirstAckCanBeStranded | internal/mux_http/server/push.go:307-330 | a run from the start in which a first acknowledgement, recorded and retained between the two critical sections, is trimmed away after its connection was lost, so that its node's resume is refused |
| PushObjects.StreamSendState.UpdateAck | internal/mux_http/server/session.go:74-87 | with any acknowledgements racing the compare-and-swap, the offset never moves back, ends at or above all of them, and is one that was acknowledged |
| PushObjects.StreamSendState.SendTurn | internal/mux_http/server/session.go:182-220 | a turn waits exactly when the protocol's Send step is not enabled and otherwise does that step to the offset and the connection; a failed write or an eviction ends the session |
| PushObjects.StreamRecvState.HandleData | internal/mux_http/client/session.go:306-324 | an open buffer with room takes the payload and the receive offset counts it; it is held up or given up only for a stated cause, and then a prefix is buffered; a MiB unacknowledged is acknowledged at once |
| PushObjects.StreamRecvState.HandleRst | internal/mux_http/client/session.go:326-340 | EOF ends the buffer cleanly, any other reason with an error |
| PushObjects.StreamRecvState.Reconnect | internal/mux_http/client/session.go:164-211 | reopens the buffer with every byte kept and resumes exactly behind what was received |
| PushObjects.PushBroker.OnAck | internal/mux_http/server/push.go:266-285 | no entry is lost or lowered, only the node's own changes, and the stream's table is that of the protocol; evicts exactly when more log than the threshold lies behind |
| PushObjects.FullBufferEvicts | internal/mux_http/server/push.go:278-284 | if the buffer is still full after a trim to the smallest acknowledgement, whoever holds it is past the eviction threshold |
| PushObjects.PushBroker.Minima | internal/mux_http/server/push.go:300-319 | per stream, the smallest recorded acknowledgement, for exactly the streams that have one: the protocol's snapshot |
| PushObjects.PushBroker.TrimAll | internal/mux_http/server/push.go:321-330 | trims each such registered stream to its minimum and leaves every other buffer alone |
| HopPool.RoundRobinSelector.Pick | internal/tunnel/hop_pool.go:103-115 | lists the alive endpoints, or all, once each, rotated by the counter; says exactly when it panics instead |
| HopPool.ListedIsPermutation | internal/tunnel/hop_pool.go:103-115 | the order tried is a permutation of the candidates |
| HopPool.AliveInOrder | internal/tunnel/hop_pool.go:138-146 | dead endpoints are left out and the others keep the order of the list |
| HopPool.FirstListed | internal/tunnel/hop_pool.go:109-113 | below 2^63 the first endpoint of a pick is the candidate the counter points at |
| HopPool.RoundRobinIsFair | internal/tunnel/hop_pool.go:97-115 | over k rounds of consecutive picks below 2^63 with the same candidates, each candidate is listed first exactly k times |
| HopPool.PickRounds | internal/tunnel/hop_pool.go:103-115 | the same of the selector object: k rounds of its picks, while no health changes, put each candidate first k times |
| HopPool.IdentityIsTheHop | internal/config/config.go:64-70 | well-formed addresses have the same identity if and only if type, address, port and effective path agree |
| HopPool.BarePathCanCollide | internal/config/config.go:64-70 | two ports with one identity, because a path need not start with a slash |
| HopPool.Pool.UpdateEndpoints | internal/tunnel/hop_pool.go:191-224 | surviving hops keep their object, health and latency, new ones are fresh, hops that differ in type, address, port or path never share an endpoint, and the resulting addresses are determined |
| HopPool.ReloadAgreesIff | internal/tunnel/hop_pool.go:193-198 | the pool has the requested addresses if and only if the request is consistent with the existing identities |
| HopPool.ReloadCanDisagree | internal/tunnel/hop_pool.go:199-213 | a request for which it does not: one hop listed with and without the default path |
| HopPool.DisagreementIsForGood | internal/node/relay.go:148-173 | a request that a reload has not met is not met by reloading it again |
| HopPool.Pool.DialWithFallback | internal/tunnel/dialer.go:27-36 | tries the picked order until the first success; exactly the failed ones are dead, only the winner's latency changes, and after a total failure the next pick lists all |
| HopPool.Dialers.DialerFor | internal/node/relay.go:148-173 | reuses, reloads or creates the route's pool; its addresses are the requested hops exactly under the stated condition, and every kept endpoint keeps its health and latency |
| HopPool.Dialers.CleanStale | internal/node/relay.go:97-114 | keeps exactly the dialers of current routes |
| RelayChain.RequestAlongChain | internal/node/relay.go:132-146 | along any chain only the hop count changes, by one a hop |
| RelayChain.HopsServeTheIdc | internal/config/config.go:180-187 | every hop of every chain is listed in its relay's first route of the service for the IDC the access node asked for |
| RelayChain.RelayForwardsExactly | internal/node/relay.go:116-146 | a relay forwards if and only if such a route with a hop exists and a hop is still allowed, to that route's hops |
| RelayChain.RefusedExactly | internal/tunnel/protocol.go:83-105 | a handshake is refused if and only if its version is foreign, its IDC empty or its hop count above 16; an access node's request never is |
| RelayChain.EgressDialsExactly | internal/node/egress.go:107-130 | an egress dials if and only if the request is for its IDC and one of its services |
| RelayChain.ChainIsBounded | internal/tunnel/protocol.go:47-48 | over any network, cycles included, a tunnel is forwarded at most 16 times |
| RelayChain.OriginIsTheOneAskedFor | internal/node/egress.go:107-130 | an origin is dialed only at an egress of the requested IDC, and it is that egress's origin for the requested service |
| RelayChain.SelfLoopReachesBound | internal/tunnel/protocol.go:83-105 | the bound is tight: a self-loop forwards 16 times, then the tunnel is dropped |
| HttpReplies.ReplyServer.HandleBody | internal/mux_http/server/session.go:296-309 | extends the accumulator of its own request only |
| HttpReplies.ReplyServer.HandleEnd | internal/mux_http/server/session.go:311-326 | hands head and body to the waiting requester and forgets the accumulator |
| HttpReplies.ReplyServer.HandleError | internal/mux_http/server/session.go:328-342 | drops the partial reply and hands over the error |
| HttpReplies.OwnErrorOnce | internal/mux_http/server/httpproxy.go:183-195 | in any interleaving, an error reported before the end, with part of a reply sent or not, reaches the requester that waits, once and instead of any reply |
| HttpReplies.ErrorNeverBlocks | internal/mux_http/server/session.go:328-342 | an error frame never blocks the read loop |
| HttpReplies.NoHeadNoReply | internal/mux_http/server/session.go:296-326 | without a head, body and end frames of a request are ignored |
| HttpReplies.ReplyServer.Leave | internal/mux_http/server/httpproxy.go:111-143 | the requester leaves the table with its reply unless its time is up, and then without one even if the reply has just arrived |
| HttpReplies.Noninterference | internal/mux_http/server/session.go:282-326 | however replies interleave, each request sees only its own frames |
| HttpReplies.OwnReplyOnce | internal/mux_http/server/httpproxy.go:92-180 | a request gets at most one reply: its own head with its own body chunks in order |
| HttpReplies.CompliantNeverBlocks | internal/mux_http/server/httpproxy.go:40-42 | a compliant edge never blocks the read loop, whatever other requests do |

## Left out

- MuxSession.MaximalRunDeliversEverything: covers runs in which neither end gives a stream up; after a handler returns early the sender waits for its caller's context, which is not modelled as progress.
- MuxSession.MoveIsLocal: the server's map of streams is modelled on values, as its dispatcher has the same shape as the client's, which is a class; aliasing of the server's stream objects is not captured.
- CreditFlow.StepKeepsInv: a WINDOW_UPDATE write that fails leaves the reader above a batch; that only happens on a dead connection, whose later reads are not modelled.
- RelayChain.ChainIsBounded: `HopsForIDC` is modelled on routes whose groups are already sorted; the stable insertion sort of `SortGroups` is not part of this model.
- HopPool.Pool.DialWithFallback: no background prober runs during a call, and an attempt is only a success with a latency or a failure; the handshake response's status, which the code ignores, is not modelled.
- PushSystem.ExactlyOnce: one stream per connection; the frames of other streams are routed by id and do not touch it. Subscription lists are taken without duplicates, which would start two senders for one state.
- PushSystem.PushDeliversEverything: is about subscribers with a retained acknowledgement on a connection that lasts; a resume below the base is refused.
- PushProtocol.QuietLinkHasOpenWindow: sending an acknowledgement and storing the acknowledged offset is one step on the current connection; the race with a ticker of the previous connection is not modelled.
- The response direction of internal/mux, and its push frames, for which the server of that package has no sender.
- MuxSession.RunGuarantees: every request has a handler and HEADERS that parse; refused requests are only in `MuxClient.EdgeClient.HandleNewRequest`.
- GOAWAY and PING/PONG frames.
- Removing a finished stream and creating another of the same name, whose offsets start again at 0.
- Subscribers that have never acknowledged: trimming does not consider them and nothing is claimed for them.
- `LatencySelector`, which no caller selects; the latency average itself is kept over the reals.
- The registries' two-way index and id allocation; stream and request ids are taken to be distinct.
- Sockets, WebSocket, TLS, HTTP parsing and rewriting, HMAC, JSON and YAML, timers, certificates, logging, command-line programs.
