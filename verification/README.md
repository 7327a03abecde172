# Forwarder: a verified model of its protocol core

Forwarder is an HTTP forward proxy. This project models, in Dafny, the parts of it
where several goroutines, several layers of framing or several windows have to agree:

- **HTTP/2 relay** (`RelayFlow`, `RelayRuns`, `RelayObject`, `HeaderBlocks`,
  `WireTrace`, `RelayHandshake`, `RelayEndToEnd`). One direction of an intercepted
  HTTP/2 connection: per-stream output buffers behind stream windows and the shared
  connection window, DATA and header blocks split to the peer's frame size, the writer
  goroutine with its bounded channel, and reassembly in the next relay. `RelayFlow`
  holds the critical sections as functions, `RelayObject` the objects that update
  their fields and are proved against them, `RelayRuns` every interleaving of the
  relay's callers with the peer's reader. `RelayEndToEnd` puts flow control, channel,
  wire and reassembly together.
- **gRPC adapter** (`GrpcAdapter`): length-prefixed messages cut out of DATA frames
  and framed again.
- **Modifier groups** (`FifoGroup`): flattening of nested groups.
- **Shutdown and Close** (`ProxyShutdown`): connection handlers against any number of
  shutdown calls.
- **Protocol switching** (`ByteHandover`): interception, TLS on top, and tunnels over
  one buffered reader.
- **PROXY protocol** (`ProxyProto`, `ProxyProtoReader`, `ProxyProtoConn`): versions 1
  and 2, and the connection that reads the header on first use under concurrent calls.
- **Flush writer, Via loop detection, credentials matcher** (`FlushWriter`,
  `ViaModifier`, `Credentials`).

`Bytes` and `H2Frames` hold octets, big-endian integers and frames. Concurrent code is
modelled as a state machine with one step per critical section, channel operation,
atomic access or blocking call; the theorems quantify over every run of it. Code that
updates objects or buffers in place is modelled by classes and arrays whose methods are
proved against functions, and the theorems are about those functions.

`dafny verify dfyconfig.toml` checks everything.

## What the proofs show about the code

Most of what the code promises holds on all inputs. Where it does not, the exact
condition is proved, and a lemma gives an input on which it fails:

- `HeaderRoundTrip`, `ContinuedHeaderArrivesEnded`: a header block that needs
  CONTINUATION frames arrives with END_STREAM set even if the sender did not set it
  (relay.go:584-586).
- `HeaderFramesFit`, `PushPromiseFramesFit`, `PriorityExceedsSmallSize`: the room for metadata is subtracted from an
  unsigned frame size, so frames respect that size only if it is at least the metadata.
- `ZeroSizeNeverEnds`, `ZeroSizeIsReachable`, `RoundsOfEndlessLoop`, `SplitIntoChunks`: with a frame size of 0,
  which the relay takes over from SETTINGS unchecked, a call of data with octets to send
  never ends and floods the stream with empty frames; header and pushPromise never end
  for a block longer than the first fragment.
- `HeaderBlocksContiguous`, `PingTearsBrokenBlock`: after a write has failed inside a
  header block, a control frame may still be written into it.
- `StreamEnd`, `EmptyStreamMakesUpMessage`, `EmptyMessageIsLost`: the last frame of a
  gRPC stream makes up an empty message if nothing is held and the frame is empty, and
  loses the last message if that is empty and ends a non-empty frame.
- `StreamEndIsMarked`, `PartialStreamNeverEnds`: END_STREAM is not passed on if part of a
  message is left over or the last frame ends with an empty message.
- `EmitterMessage`, `LongMessageIsCut`: the length of a message of 4 GiB or more is truncated.
- `AtMostTheRequestInFlight`, `SessionOutlivesClosing`, `SessionAtShutdown`: closing bounds
  the requests of a connection, but not those inside an HTTP/2 session.
- `ShutdownCanFinish`, `WedgedBlocksShutdown`, `ShutdownWaitsForever`: Shutdown can return
  nil exactly as long as no HTTP/2 session is wedged. A session is wedged when one of its
  relays never returns, and there are two ways: a reader inside data at frame size 0
  (`ZeroSizeNeverEnds`), and a reader that pushes into the full output channel of the other
  relay after that one has returned (`FullChannelIsForGood`, `PeerCanBeStuck`).
- `V1TakesTheLine`, `ShortTCP6IsMisread`: a TCP6 line shorter than 24 octets, such as
  `PROXY TCP6 :: :: 0 0`, is legal and not read as that header.
- `V2RoundTrip`, `LegalV2IsRefused`: PROXY UNSPEC with length 0 and Unix addresses are
  legal in version 2 and refused.
- `FlushIsExact`, `EmptyWriteHidesEvent`: an empty write makes the flush writer forget
  the octet before it.
- `PriorityAsDocumented`, `PortBeforeHost`: the comment at credentials.go:103 puts the
  host before the port; the code looks up the port first.
- `RefusedExactly`, `LongerTagIsMistaken`: the Via check is a substring test, so a tag
  inside a longer tag, or inside the client's own header, also refuses the request.

## Model

| member | source | states |
|---|---|---|
| `RelayFlow.EligibleCountFits` | internal/martian/h2/relay.go:551-566 | both windows cover everything the loop releases, and the frame it stops at does not fit what is left |
| `RelayFlow.EmitMeaning` | internal/martian/h2/relay.go:551-566 | released plus remaining is the old queue; both windows pay exactly the released octets, neither goes negative by it, and the head left is blocked |
| `RelayFlow.EmitLongestPrefix` | internal/martian/h2/relay.go:551-566 | k frames are released if and only if the first k together fit the smaller window: the longest prefix, nothing skipped |
| `RelayFlow.DataFramesCarry` | internal/martian/h2/relay.go:377-397 | the DATA frames of one call carry its octets, all and in order |
| `RelayFlow.DataFramesShape` | internal/martian/h2/relay.go:377-397 | every frame but the last is full, none is too long, END_STREAM is on the last one and only if asked for |
| `RelayFlow.RoundsOfEndingLoop` | internal/martian/h2/relay.go:377-397 | with a frame size above 0, or nothing to send, the splitting loop ends after one round per frame and has enqueued exactly the first frames after any number of rounds |
| `RelayFlow.RoundsOfEndlessLoop` | internal/martian/h2/relay.go:377-397 | otherwise it has not ended after any number of rounds, and each of them enqueues an empty frame |
| `RelayFlow.EmitAtBlocks` | internal/martian/h2/relay.go:551-566 | emitting for one stream blocks it and unblocks no other |
| `RelayFlow.SweepConserves` | internal/martian/h2/relay.go:472-478 | after a sweep no stream has an eligible head, whatever order the map iteration takes |
| `RelayFlow.EnqueueConserves` | internal/martian/h2/relay.go:463-470 | enqueueing, which looks at one stream only, leaves no stream with an eligible head |
| `RelayFlow.CreditStreamConserves` | internal/martian/h2/relay.go:357-361 | so does a window update of one stream |
| `RelayFlow.SetInitialBalanced` | internal/martian/h2/relay.go:333-340 | shifting all open windows by the difference keeps every stream's books, with the new initial size |
| `RelayFlow.EmitAtBalanced` | internal/martian/h2/relay.go:551-566 | emitting for one stream keeps the books of every stream |
| `RelayFlow.SweepBalanced` | internal/martian/h2/relay.go:472-478 | a sweep in any order keeps the books of every stream |
| `RelayFlow.SweepRespects` | internal/martian/h2/relay.go:472-478 | if a sweep releases anything for a stream, that stream's window is not negative afterwards |
| `RelayRuns.WindowsBalance` | internal/martian/h2/relay.go:333-362 | after every interleaving of any number of callers with the peer's updates: connection window = 65535 + credit - octets released, and never negative; stream window = current initial size + credit - octets released, however often the initial size moved |
| `RelayRuns.PerStreamOrder` | internal/martian/h2/relay.go:463-470 | after every interleaving of any number of callers: a stream's released frames followed by its queue are the frames enqueued for it, in order |
| `RelayRuns.NeverBeyondTheStreamWindow` | internal/martian/h2/relay.go:551-566 | a step that releases anything for a stream leaves the stream's total within its credit of that moment |
| `RelayRuns.WorkConserving` | internal/martian/h2/relay.go:333-362 | whenever no sweep is owed, no stream has a head that both windows would let through |
| `RelayRuns.DataConserved` | internal/martian/h2/relay.go:364-399 | octets received on a stream = released, then queued, then still in the reader's hands, in order |
| `RelayRuns.CreditReturned` | internal/martian/h2/relay.go:496-508 | window updates sent back to the source add up to the octets received, per stream and for the connection; when the second write of a pair fails, the connection alone has those octets on top, and the reader is broken |
| `RelayRuns.FramesAsCalled` | internal/martian/h2/relay.go:364-399 | in every run and for every caller: what it enqueued and what its current call still holds are the frames of its calls in call order, each split at the frame size in force when the call began; only a call that does not end adds anything, namely empty frames |
| `RelayRuns.SentAsCalled` | internal/martian/h2/relay.go:364-399 | on a stream with one caller, released, queued and pending frames are those calls' frames |
| `RelayRuns.ZeroSizeNeverEnds` | internal/martian/h2/relay.go:370-397 | a caller inside the loop with frame size 0 and octets to send is still there after every continuation of the run |
| `RelayRuns.ZeroSizeIsReachable` | internal/martian/h2/relay.go:324-326 | a run of four steps that gets a reader there |
| `RelayRuns.CallGetsAhead` | internal/martian/h2/relay.go:377-397 | any other call gets ahead in every run, whatever steps of others come in between: each of its rounds is one less to go |
| `RelayRuns.CallEnds` | internal/martian/h2/relay.go:377-397 | so in every run it is over right after as many rounds as it had frames |
| `RelayObject.StreamOutput.EmitEligibleFrames` | internal/martian/h2/relay.go:551-566 | the loop over the queue computes `Emit` |
| `RelayObject.Relay.constructor` | internal/martian/h2/relay.go:114-142 | initial windows 65535, frame size 16384, no buffers |
| `RelayObject.Relay.OutputBufferFor` | internal/martian/h2/relay.go:483-492 | a stream keeps its buffer object; a new one starts at the current initial size and shares with no other stream |
| `RelayObject.Relay.EnqueueFrame` | internal/martian/h2/relay.go:463-470 | the object's new state is `Enqueue` of the old one; no buffer object changes hands |
| `RelayObject.Relay.SendQueuedFramesUnderWindowSize` | internal/martian/h2/relay.go:472-478 | the new state is a `Sweep` in some order of all streams |
| `RelayObject.Relay.UpdateWindow` | internal/martian/h2/relay.go:347-362 | an update of stream 0 credits the connection, sweeps, and then credits stream 0 too; any other credits and emits its stream only |
| `RelayObject.Relay.UpdateInitialWindowSize` | internal/martian/h2/relay.go:333-344 | all open windows move by the difference, then a sweep in some order |
| `RelayObject.Relay.Data` | internal/martian/h2/relay.go:364-399 | watched for any number of rounds: it has opened the buffer and enqueued the frames of those rounds, and has ended if and only if the loop has |
| `RelayObject.Relay.QueueHeader` | internal/martian/h2/relay.go:412-428 | enqueues one header frame with the block split for the frame size, if and when the split ends, and nothing before |
| `RelayObject.Relay.QueuePushPromise` | internal/martian/h2/relay.go:451-460 | the same for a push promise |
| `RelayObject.EnqueueAllConserves` | internal/martian/h2/relay.go:364-399 | a whole call of data leaves no stream with an eligible head |
| `HeaderBlocks.SplitIntoChunks` | internal/martian/h2/relay.go:597-619 | watched for any number of rounds: if a size above 0 or a short block lets the loop end, it ends after one round per continuation with `Chunks`; if not, it never ends and adds empty chunks |
| `HeaderBlocks.ChunksMeaning` | internal/martian/h2/relay.go:597-619 | the chunks joined are the block; no chunk is too long, no continuation is empty, one chunk if and only if the block fits the first frame |
| `HeaderBlocks.MakeHeader` | internal/martian/h2/relay.go:412-427 | the subtraction on 32-bit words and the split build `HeaderFor`, if and when the split ends |
| `HeaderBlocks.MakePushPromise` | internal/martian/h2/relay.go:451-459 | the same for `PushPromiseFor` |
| `HeaderBlocks.Send` | internal/martian/h2/queued_frames.go:97-115 | what one send writes: the first frame, then a CONTINUATION per further chunk, END_HEADERS on the last |
| `HeaderBlocks.ContinuationFramesShape` | internal/martian/h2/queued_frames.go:97-115 | one CONTINUATION per chunk, in order, END_HEADERS on the last only |
| `HeaderBlocks.HeaderFramesFit` | internal/martian/h2/relay.go:412-427 | every frame of a queued header respects the frame size if and only if that size leaves room for the priority metadata |
| `HeaderBlocks.PriorityExceedsSmallSize` | internal/martian/h2/relay.go:416-420 | at frame size 4, a HEADERS frame with a priority exceeds it even for an empty block |
| `HeaderBlocks.PushPromiseFramesFit` | internal/martian/h2/relay.go:451-459 | the same for a push promise and its promised stream |
| `HeaderBlocks.HeaderReader.ProcessFrame` | internal/martian/h2/relay.go:221-308 | buffer and continuation state step as `ReadOne`; what is delivered, what passes on to the destination, which settings change the peer first, the decoder's error, the error for an unknown frame, and the nil state of a CONTINUATION that continues nothing |
| `HeaderBlocks.ForeachSetting` | internal/martian/h2/relay.go:253-265 | table size, initial window and frame size are applied to the peer in order, and all settings are passed on |
| `HeaderBlocks.SendThenRead` | internal/martian/h2/queued_frames.go:97-162 | whatever the reader saw before, reading what one frame was sent as delivers its meaning, once |
| `HeaderBlocks.BrokenSendDeliversNothing` | internal/martian/h2/queued_frames.go:97-162 | reading a send that broke off at any frame delivers nothing |
| `HeaderBlocks.HeaderRoundTrip` | internal/martian/h2/relay.go:580-586 | block, stream and priority arrive as given; END_STREAM does if and only if it was set or the block fits the first frame |
| `HeaderBlocks.ContinuedHeaderArrivesEnded` | internal/martian/h2/relay.go:580-586 | a block of 16385 octets that does not end the stream arrives as ending it |
| `HeaderBlocks.PushPromiseRoundTrip` | internal/martian/h2/relay.go:588-594 | block, stream and promised stream arrive as given |
| `WireTrace.WireIsOneBlock` | internal/martian/h2/queued_frames.go:97-162 | a queued frame is written as one whole block, END_HEADERS on its last frame only |
| `WireTrace.HeaderBlocksContiguous` | internal/martian/h2/relay.go:165-184 | for every interleaving of write sections and every pattern of failures, header blocks are contiguous if and only if nothing is written after a section that broke off inside one |
| `WireTrace.WholeWritesAreContiguous` | internal/martian/h2/relay.go:165-184 | while no write fails, header blocks are contiguous and none is left open |
| `WireTrace.PingTearsBrokenBlock` | internal/martian/h2/relay.go:284-287 | a failed CONTINUATION and then a PING: the block is torn apart |
| `WireTrace.WireReadsBack` | internal/martian/h2/relay.go:221-308 | a relay reading the wire delivers exactly the frames sent whole, in order, whatever control frames lie between and wherever writes failed |
| `WireTrace.WireReadsPrefix` | internal/martian/h2/relay.go:194-204 | a relay that stops reading at any frame, for instance because its framer refuses one, has delivered a prefix of that |
| `RelayHandshake.SentIsPrefix` | internal/martian/h2/relay.go:165-184 | in every run, frames sent are a prefix of the frames put on the channel |
| `RelayHandshake.NothingSentAfterFailure` | internal/martian/h2/relay.go:165-184 | after a failed send nothing is sent for the rest of the run |
| `RelayHandshake.ReportNeverBlocks` | internal/martian/h2/relay.go:161-176 | the error report always finds room in its channel, and there is at most one |
| `RelayHandshake.BothEndTogether` | internal/martian/h2/relay.go:156-184 | once readerDone has changed hands neither goroutine takes another step, so nothing is taken or sent afterwards |
| `RelayHandshake.WriterIsThere` | internal/martian/h2/relay.go:146-184 | until the reader is gone, the writer gets back to its select on its own: in at most one step if a send in progress succeeds, in two if it fails |
| `RelayHandshake.NobodyIsStuck` | internal/martian/h2/relay.go:146-184 | until the reader is gone, the writer alone makes room in a full channel for anyone in at most three steps, whether sends fail or not |
| `RelayHandshake.ReaderNeverStuck` | internal/martian/h2/relay.go:146-184 | so the push of a reader in front of a full channel is enabled after at most three steps of the writer |
| `RelayHandshake.FullChannelIsForGood` | internal/martian/h2/relay.go:551-566 | once the reader is gone and the channel is full nothing ever happens again: the peer's reader that pushes into it never returns |
| `RelayHandshake.PeerCanBeStuck` | internal/martian/h2/relay.go:180-181 | there is a run that gets there |
| `RelayHandshake.ReaderCanLeave` | internal/martian/h2/relay.go:156-184 | a reader on its way out ends together with the writer after at most three steps, whether a send in progress succeeds or fails |
| `RelayEndToEnd.StreamArrivesInOrder` | internal/martian/h2/relay.go:145-308 | for every run of flow control, channel and wire, with failures, at any moment: what the next relay delivers for a stream, however early it stops reading, is the meaning of a prefix of the frames enqueued for it, in order |
| `RelayEndToEnd.CallsArriveInOrder` | internal/martian/h2/relay.go:145-308 | on a stream with one caller, of a prefix of the frames of its calls, and of the empty frames of one that does not end |
| `RelayEndToEnd.DataArrivesInOrder` | internal/martian/h2/relay.go:145-308 | in every such run, the octets the next relay delivers for a stream are a prefix of those received for it |
| `GrpcAdapter.Adapter.ReadMetadata` | internal/martian/h2/grpc/grpc.go:183-198 | a round in state readingMetadata either finishes the call as specified or keeps the loop invariant on a shorter buffer |
| `GrpcAdapter.Adapter.ReadMessageData` | internal/martian/h2/grpc/grpc.go:199-243 | a round in state readingMessageData likewise, or stops at a message the codec refuses |
| `GrpcAdapter.Adapter.Data` | internal/martian/h2/grpc/grpc.go:174-251 | deliveries and held octets are a function of the octets held before and the frame; on a codec error the deliveries stop right before the first message it refuses |
| `GrpcAdapter.MessagesConcat` | internal/martian/h2/grpc/grpc.go:174-251 | parsing a stream can be resumed at any octet |
| `GrpcAdapter.CallBalance` | internal/martian/h2/grpc/grpc.go:174-251 | one call delivers the messages of held and new octets, except one that it keeps exactly when it waits |
| `GrpcAdapter.FramingDoesNotMatter` | internal/martian/h2/grpc/grpc.go:174-251 | for every division into frames: delivered messages followed by a waiting one are the messages of all octets, and the rest is held |
| `GrpcAdapter.WaitsOnStream` | internal/martian/h2/grpc/grpc.go:190-250 | a message waits if and only if it is empty and ends the octets of a non-empty frame |
| `GrpcAdapter.StreamEnd` | internal/martian/h2/grpc/grpc.go:181-250 | the last frame delivers exactly the messages of the stream, one made-up empty message more, or one empty message less, with the exact condition of each |
| `GrpcAdapter.EmptyStreamMakesUpMessage` | internal/martian/h2/grpc/grpc.go:184-189 | an empty stream ended by an empty frame delivers a message that was never sent |
| `GrpcAdapter.EmptyMessageIsLost` | internal/martian/h2/grpc/grpc.go:198-250 | an empty message whose frame ends the stream is never delivered |
| `GrpcAdapter.EndMarks` | internal/martian/h2/grpc/grpc.go:233-243 | only the last delivery of an ending frame is marked as the end, and it is if and only if nothing is left over and nothing waits |
| `GrpcAdapter.StreamEndIsMarked` | internal/martian/h2/grpc/grpc.go:233-243 | for whole streams, END_STREAM is passed on, with the last delivery, if and only if no part of a message is left over and the last frame does not end with an empty message |
| `GrpcAdapter.PartialStreamNeverEnds` | internal/martian/h2/grpc/grpc.go:190-192 | a stream of one octet with END_STREAM: nothing is delivered and the end is not passed on |
| `GrpcAdapter.OctetsConserved` | internal/martian/h2/grpc/grpc.go:285-324 | before the last frame, octets forwarded plus octets held are the octets received, with flag octets reduced to 0 or 1, if the codec restores what it took apart |
| `GrpcAdapter.StreamOctetsConserved` | internal/martian/h2/grpc/grpc.go:174-251 | for whole streams, last frame included: the same if and only if the last frame brings octets or finds some held; otherwise exactly the made-up message is written on top |
| `GrpcAdapter.PayloadsSurvive` | internal/martian/h2/grpc/grpc.go:285-324 | the next adapter gets the messages one for one with the same flags, and each says the same if and only if it is not compressed or decompression undoes compression of what it says |
| `GrpcAdapter.ReducedIdentity` | internal/martian/h2/grpc/grpc.go:193-194 | the reduction changes nothing if and only if all flag octets are 0 or 1 |
| `GrpcAdapter.EncodeParses` | internal/martian/h2/grpc/grpc.go:314-323 | a framed message parses back as itself, nothing left over |
| `GrpcAdapter.EmitterMessage` | internal/martian/h2/grpc/grpc.go:285-324 | the emitter writes the one message if and only if its payload is shorter than 4 GiB; a longer one is cut off at its truncated length and the remainder is left to be parsed |
| `GrpcAdapter.LongMessageIsCut` | internal/martian/h2/grpc/grpc.go:321-322 | a payload of exactly 4 GiB is parsed as an empty message first |
| `FifoGroup.Modify` | internal/martian/fifo/fifo_group.go:41-75 | the loop computes `Run`: first error or all errors, messages and modifiers in order |
| `FifoGroup.ToImmutableGroup` | internal/martian/fifo/fifo_group.go:140-179 | the two loops compute `ToImmutable` |
| `FifoGroup.RunConcat` | internal/martian/fifo/fifo_group.go:41-75 | running two lists in a row is running the first and, unless it stopped at an error, the second |
| `FifoGroup.FlatteningPreservesMeaning` | internal/martian/fifo/fifo_group.go:137-179 | for any nesting and mix of error modes, on both sides, from any message: same message, same modifiers in the same order, same errors |
| `FifoGroup.ToImmutableFreezes` | internal/martian/fifo/fifo_group.go:137-179 | no mutable group survives at any depth |
| `FifoGroup.FlattenedAlternates` | internal/martian/fifo/fifo_group.go:137-179 | groups of the same mode are merged at every depth |
| `ProxyShutdown.StepInvariant` | internal/martian/proxy.go:188-351 | every step of every handler and caller keeps count, registry, closed set and mutex consistent |
| `ProxyShutdown.CounterIsRight` | internal/martian/proxy.go:306-321 | in every run the counter is the number of registered handlers that have not decremented it, and the registry holds the registered ones |
| `ProxyShutdown.LateComersAreNotServed` | internal/martian/proxy.go:306-324 | a connection that registers once the proxy is closing never dispatches a request |
| `ProxyShutdown.ShutdownReturnsNil` | internal/martian/proxy.go:188-228 | when Shutdown returns nil every registered connection is closed and no request, also none inside an HTTP/2 session, is dispatched ever after |
| `ProxyShutdown.CloseClosesAll` | internal/martian/proxy.go:231-249 | after Close every connection registered by then is closed |
| `ProxyShutdown.AtMostTheRequestInFlight` | internal/martian/proxy_conn.go:298-326 | once closing, a connection outside an HTTP/2 session dispatches at most the one request that had passed the check |
| `ProxyShutdown.SessionOutlivesClosing` | internal/martian/h2/relay.go:197-217 | inside a session there is no bound: for any number there is a run that dispatches that many |
| `ProxyShutdown.SessionAtShutdown` | internal/martian/proxy.go:188-199 | a run from the start to a session that is open while Shutdown polls |
| `ProxyShutdown.HandlerIsFree` | internal/martian/proxy.go:306-351 | while Shutdown holds the mutex every counted handler that is not a wedged session can step towards its decrement |
| `ProxyShutdown.ShutdownCanFinish` | internal/martian/proxy.go:188-228 | from every reachable state in which Shutdown polls and no session is wedged, the handlers alone can bring it to return nil |
| `ProxyShutdown.WedgedBlocksShutdown` | internal/martian/proxy.go:214-218 | and only then: with a wedged session no Shutdown returns nil in any continuation, not even after Close |
| `ProxyShutdown.ShutdownWaitsForever` | internal/martian/proxy.go:188-228 | a reachable state from which Shutdown never returns nil |
| `ByteHandover.TunnelLosesReplay` | internal/martian/proxy_conn.go:274-296 | a tunnel forwards all that is unread if and only if no replayed octets are left outside the buffer |
| `ByteHandover.ProxyConn.HandleMITM` | internal/martian/proxy_conn.go:145-208 | it closes exactly on a silent client or a failed handshake, hands the plaintext to a session on HTTP/2, and otherwise continues with the unread octets unchanged, or with their plaintext after a TLS record; the state is `Intercepted` |
| `ByteHandover.ProxyConn.Tunnel` | internal/martian/proxy_conn.go:274-296 | what goes upstream is what is unread |
| `ByteHandover.StepInvariant` | internal/martian/proxy_conn.go:145-296 | every step keeps consumed plus unread equal to what the client sends |
| `ByteHandover.NothingLostNothingTwice` | internal/martian/proxy_conn.go:129-296 | along every path of requests, interceptions of all kinds and a final tunnel or session, to any depth, no octet is lost or read twice; the outermost layer is the stream, and each further one is what TLS makes of exactly what was not consumed of the one below |
| `ByteHandover.TunnelForwardsTheUnread` | internal/martian/copy.go:28-37 | whenever a tunnel can start, no replayed octets are left outside the buffer, so it forwards exactly what is unread |
| `ProxyProto.FieldsOfJoined` | proxyproto/v1.go:148-165 | splitting at spaces undoes joining with spaces |
| `ProxyProto.V1TakesTheLine` | proxyproto/v1.go:26-98 | a TCP line ending at the first CRLF is taken, octet for octet, if and only if it has at least the length read at first, at most 107 octets, and fields that parse |
| `ProxyProto.V1TakesUnknown` | proxyproto/v1.go:29-35 | an UNKNOWN line is taken whole if it has at most 107 octets and refused otherwise |
| `ProxyProto.V1GivesUp` | proxyproto/v1.go:82-98 | without a CRLF in the first 107 octets the header is refused |
| `ProxyProto.V1RoundTrip` | proxyproto/v1.go:26-165 | a written line gives back its addresses and ports and leaves the payload, if and only if it has a length the reader takes |
| `ProxyProto.ShortTCP6IsMisread` | proxyproto/v1.go:51-65 | a legal TCP6 line of 22 octets is not read as that header |
| `ProxyProto.V2RoundTrip` | proxyproto/v2.go:40-136 | a written header gives back addresses, ports and trailing octets and uses 16 octets plus its length, if and only if that length is at most 2048, it has no Unix addresses, and it is not a PROXY command without octets; all others are refused |
| `ProxyProto.LegalV2IsRefused` | proxyproto/v2.go:79-127 | two legal headers that are refused: PROXY UNSPEC with length 0, and Unix stream addresses |
| `ProxyProtoReader.ReadUntilCRLF` | proxyproto/v1.go:82-98 | the loop over the buffer finds the first CRLF that ends after the octets already read, up to 107, and reads nothing after it |
| `ProxyProtoReader.ParseV1Header` | proxyproto/v1.go:102-165 | the loop of split and its callback compute `FromFields` of the fields |
| `ProxyProtoReader.ReadV1Header` | proxyproto/v1.go:26-77 | header and octets left are those of `ReadV1` |
| `ProxyProtoReader.TranslateV2` | proxyproto/v2.go:71-135 | command and family switches compute `V2Body`, with every refusal |
| `ProxyProtoReader.ReadV2Header` | proxyproto/v2.go:40-136 | header and octets left are those of `ReadV2` |
| `ProxyProtoReader.ReadHeader` | proxyproto/proxy.go:72-98 | reads the header the stream starts with and not one octet more, or fails |
| `ProxyProtoConn.StepInvariant` | proxyproto/net.go:101-148 | every step of every caller keeps lock, flag, outcome and stream position consistent |
| `ProxyProtoConn.HeaderReadOnce` | proxyproto/net.go:101-132 | however many callers race, ReadHeader is started at most once |
| `ProxyProtoConn.OutcomeIsFixed` | proxyproto/net.go:134-147 | once stored, the outcome stays through every continuation |
| `ProxyProtoConn.AllSeeTheSame` | proxyproto/net.go:101-148 | any two callers, early or late, see the same outcome |
| `ProxyProtoConn.PayloadAfterHeader` | proxyproto/net.go:58-63 | the Read calls together return the octets right after the header, without gap, and nothing unless the header was parsed in time |
| `FlushWriter.FindPattern` | internal/martian/flush.go:92-92 | the search finds the pattern if and only if it occurs |
| `FlushWriter.PatternFlushWriter.Write` | internal/martian/flush.go:86-103 | flushes by `Flushes` and remembers the last octet, also when the flush fails; returns the error of the write or of the flush; a failed write changes nothing |
| `FlushWriter.CompletesIff` | internal/martian/flush.go:86-103 | an occurrence in the stream ends in a write if and only if it lies in it or spans its start |
| `FlushWriter.FlushIsExact` | internal/martian/flush.go:86-103 | after any writes, the next one is flushed exactly when it completes the pattern, except in one exactly given case after an empty write |
| `FlushWriter.EmptyWriteHidesEvent` | internal/martian/flush.go:92-100 | two line feeds with an empty write in between complete an event and are not flushed |
| `FlushWriter.FlushesEveryEvent` | internal/martian/flush.go:69-103 | with no empty writes and a non-zero first octet, every completed pattern is flushed and nothing else is |
| `ViaModifier.ModifyRequest` | internal/martian/header/via_modifier.go:69-104 | refuses when its tag is in the header, leaving it alone; otherwise appends protocol and tag |
| `ViaModifier.TagStays` | internal/martian/header/via_modifier.go:69-104 | a tag once added stays in the header through any path |
| `ViaModifier.RevisitIsRefused` | internal/martian/header/via_modifier.go:69-104 | a request that returns to a proxy is refused there, whatever lies between |
| `ViaModifier.ViaContains` | internal/martian/header/via_modifier.go:69-104 | a separator-free text is in the header if and only if the client or some proxy on the path wrote it |
| `ViaModifier.RefusedExactly` | internal/martian/header/via_modifier.go:69-104 | for any tag whatever: refused if and only if the client wrote the tag or some proxy before completed it in the header, across separators or not |
| `ViaModifier.RefusedIffRevisited` | internal/martian/header/via_modifier.go:56-104 | refused if and only if the proxy was passed before, or on a false alarm: the client or a proxy with another tag wrote it |
| `ViaModifier.NoFalseAlarm` | internal/martian/header/via_modifier.go:56-104 | no false alarm if the client does not send the tag, tags hold a hyphen and no separator, and none is inside another |
| `ViaModifier.NoFalseAlarmAmongAlike` | internal/martian/header/via_modifier.go:56-60 | so none among proxies whose tags have one length, as those with the same name do |
| `ViaModifier.LongerTagIsMistaken` | internal/martian/header/via_modifier.go:73-80 | the proxy a-1 refuses a request that has only passed the proxy a-12 |
| `Credentials.NewCredentialsMatcher` | credentials.go:26-73 | succeeds if and only if all entries are valid and no two share a key; then the four indexes agree with a scan of the list |
| `Credentials.SplitJoin` | credentials.go:114-118 | splitting undoes joining of host and port, IPv6 brackets included |
| `Credentials.MatchIsScan` | credentials.go:104-140 | for every string, the indexed lookup is the scan of the list by the code's priority; an exact entry counts only if the string is what its host and port join to |
| `Credentials.PriorityAsDocumented` | credentials.go:102-140 | for every string, it is the documented answer if and only if the string does not split, an exact entry exists, one wildcard does not apply, or both name the same user |
| `Credentials.PortBeforeHost` | credentials.go:102-130 | a list of two entries on which code and comment differ |
| `Credentials.OrderDoesNotMatter` | credentials.go:26-140 | reordering an accepted list changes no answer, for any string |

## Left out

- HPACK, the http2 framer, TLS, certificates and the compression codecs: header blocks are octets, TLS and codecs are arbitrary functions.
- Integer widths: windows, credits and lengths are unbounded, except for the subtraction of metadata from the frame size and the 32-bit message length, which are modelled; data of 4 GiB and more in one call or buffer is covered for the emitter only.
- Padding of DATA frames: its octets are not part of `f.Data()`, and the credit for them is not modelled.
- RelayEndToEnd.StreamArrivesInOrder: order is per stream; header blocks of different streams are not ordered against each other, and delivery in finite time is not claimed.
- Loops that need not end (data and splitIntoChunks at frame size 0) are modelled with a number of rounds after which one looks; the contracts hold for every such number.
- RelayObject.Relay.QueueHeader: takes the encoded block; encoder errors are not modelled.
- HeaderBlocks.HeaderReader.ProcessFrame: whether the decoder accepts a block is an input; its tables and its mutex are not modelled. What an update does to the peer is in RelayRuns.
- RelayHandshake.NobodyIsStuck: states that the writer can always make room, not that a fair scheduler lets it.
- HeaderBlocks.SendThenRead: the framer's own check of frame order is not modelled; `WireReadsPrefix` and the end-to-end theorems hold wherever it makes the next relay stop reading.
- GrpcAdapter.PayloadsSurvive: stated for payloads shorter than 4 GiB after compression; its condition fails for Snappy, which the code writes in block format and reads in stream format (grpc.go:223 and grpc.go:311).
- ProxyShutdown.ShutdownCanFinish: the wedging of a session is one step of its model; that the two causes are permanent is proved in RelayRuns and RelayHandshake, and the three machines are not composed.
- Stream processors other than the relay adapter and the gRPC adapter, the choice of encoding in adapter.Header, and streams that are not gRPC.
- FifoGroup: modelled on values; changing a group after its conversion, locks, and a group that contains itself are not captured.
- ProxyShutdown: the idle and header timeouts, the limit of consecutive errors and the listener loop are folded into free choices of the environment; poll intervals are not modelled.
- ByteHandover.NothingLostNothingTwice: covers the octets from the client; an HTTP/2 session is handed its plaintext and not followed further; the downstream copier and the end of the two copiers are not modelled, and write errors of drainBuffer, which the code ignores, do not occur.
- ProxyProto: net.ParseIP and strconv.Atoi are parameters; ParseTLVs is not modelled.
- ProxyProtoConn: LocalAddr, RemoteAddr and Write are callers that see the outcome; what they do with it, and the listener, are not modelled.
- ViaModifier.ModifyRequest: the protocol version is given as text; only the first Via field of a request is seen, as in the code.
- Credentials.NewCredentialsMatcher: Validate is a parameter that is required to accept only hosts without brackets and ports without colons or brackets, which is what it checks.
- Metrics, logging, PAC scripts, DNS, the command line, configuration formats, authentication headers and the HTTP round trip: none of them adds a property as hard as the above.
