# Dial-out server and VPN: a Dafny model

A Dafny 4.11 model of the protocol logic of the application under `hackthon/app`: a gRPC server that devices
dial out to, a tunnel that relays operator connections to those devices, on-change gNMI telemetry, a small VPN
with its membership tracking, and the tab completion of its command line. `dafny verify dfyconfig.toml` checks
the whole project.

Where the program changes state in place, the model is a class with the same fields and methods, and each
method is proved to compute a function on values. What the design promises is proved about those functions,
over every input, every cutting of a byte stream, or every run of events.

| file | models |
|---|---|
| `ByteStrings`, `Text` | octets, big-endian integers, searching and cutting of sequences |
| `Framing` | the length-prefixed framing shared by gRPC and the VPN, and its reference reading |
| `GrpcFraming` | `decode_frame`, `on_request_stream` and the client's `on_data`, with their 32-bit sums |
| `Http2Stream` | response staging and the data provider of `http2_session` |
| `GrpcSession` | dispatch of one server connection, as nghttp2's callbacks drive it |
| `TunnelState`, `TunnelHub` | the tunnel hub and operator listeners, as values and as classes |
| `TunnelRuns` | whole runs of the tunnel, reduced to one automaton for each tag |
| `TunnelRegistry` | which targets are registered, whom a connect reaches, what is acknowledged, over whole runs |
| `Relay` | operator to device and device to operator, end to end |
| `RelayLoss` | what a Tunnel stream loses when it ends |
| `Sessions` | connection lifetime across the hubs |
| `GnmiPath`, `SubHub`, `JsonEscape` | path strings, telemetry fan-out, JSON string escaping |
| `Ipv4`, `VpnServer`, `VpnCodec` | address pool, peers and routes; the two copies of the VPN codec |
| `Membership` | management-table tracking, retained topics and the CLI's view |
| `Completion` | `get_sub_keys` and `walk_dotted_path` |

## Assumptions on the libraries

- nghttp2 calls the callbacks in legal HTTP/2 order, never reuses a stream identifier, asks the data provider for
  a positive length, and not while it is deferred or after EOF. The bytes it has taken may still arrive when the stream
  closes, or not.
- Protobuf parsing undoes serialising for the messages sent, and a key map is enumerated completely and always in
  the same order; which order is left open, and `SubHub.SomeOrderIsComplete` shows that there is one.
- zlib's inflate is any function of its input; an empty result is a failure.
- The kernel gives a new connection a descriptor that no live one holds.
- The broker retains, for each topic, the last non-empty payload, and delivers publications in order. It may have
  retained topics before the server starts.

## Where promise and code differ

- `tunnel_hub.hpp` lines 178-179 say that a bridge closes on Data{close} or when the stream ends. The code closes it on
  Data{close} only: `on_stream_close` in `http2.cpp` touches no bridge. The model follows the code:
  the bridge stays. Bytes staged when the stream goes are erased with its context, bytes staged behind EOF are never read,
  and bytes written later are dropped. `RelayLoss.LossIsExact` says which bytes are lost over every run, and
  `RelayLoss.LostAfterClose`, `RelayLoss.LostAtClose` and `RelayLoss.LostBehindEof` are runs.
- When the stream goes because its whole connection closes, and a bridge was left behind (`Sessions.StrangerMayLinger`), the
  code's next send goes through a pointer to a destroyed session, which is undefined behaviour. The model counts such a
  message as dropped; nothing is claimed of the program after that point.
- `decode_frame` and `on_data` add 5 to a 32-bit length in 32 bits. `GrpcFraming.DrainExact` and
  `GrpcFraming.ClientExact` say when this matters, and `GrpcFraming.ClientSpins` when the client's loop never ends;
  `GrpcFraming.WrappedLengthDispatchesEarly`, `GrpcFraming.SpinsAtOnce` and `GrpcFraming.SpinsLater` are instances.
- The retained topics promise that a late CLI knows who is reachable. After a restart it also counts the addresses that
  the previous run left retained; `Membership.EveryoneAgrees` gives the exact difference.
- `handle_close` of a connection promises that no hub keeps a dangling session. For bridges this holds exactly if the
  closed session owned the targets of the bridges it had paired; `Sessions.StrangerMayLinger` is a run where it did not.
- The string form of paths has no escaping; `GnmiPath.RoundTrip` gives the exact paths that survive it, and
  `SubHub.StringTestIsFields` what the coverage test does on every string.
- A subscription to a path of one nameless, keyless element is taken for the root and so covers everything.

## Model

| member | source | states |
|---|---|---|
| Framing.EncodeReadsBack | hackthon/app/src/grpc_session.cpp:55-64 | A frame reads back as itself, with nothing left over, if and only if its body fits the 32-bit length field. |
| ByteStrings.Be32Ordered | hackthon/app/src/grpc_session.cpp:55-64 | Lengths are written in network order: comparing numbers is comparing their bytes from the front. |
| Framing.ParseSound | hackthon/app/src/grpc_session.cpp:175-193 | Reading loses nothing: the frames read, encoded again and followed by the kept tail, are the bytes received; the tail holds no complete frame. |
| Framing.ParseUnique | hackthon/app/src/grpc_session.cpp:66-95 | There is one reading only: any split of a stream into frames and a partial tail is the one the parser finds. |
| Framing.ParseConcat | hackthon/app/src/grpc_session.cpp:175-193 | Reading a prefix, then the kept tail with the bytes that follow, is reading the whole. |
| Framing.ChunkIndependence | hackthon/app/src/grpc_session.cpp:175-193 | However a stream is cut, a receiver that reads after every piece ends with the frames and the tail of the uncut stream. |
| Framing.ParsePrefix | hackthon/app/src/grpc_session.cpp:186-192 | Of an encoded stream seen in part, a prefix of the frames has come out, and the tail with the unseen bytes encodes exactly the others. |
| GrpcFraming.EncodeFrame | hackthon/app/src/grpc_session.cpp:55-64 | The method yields flag 0, the low 32 bits of the size in network order, and the payload; `Framing` shows what that reads back as. |
| GrpcFraming.DecodeFrame | hackthon/app/src/grpc_session.cpp:66-95 | One decoding step with its 32-bit sum `5u + len`, its clipping, the empty result on a partial frame, and the empty message on a failed inflate. |
| GrpcFraming.OnRequestStream | hackthon/app/src/grpc_session.cpp:175-193 | The loop terminates, and dispatches and leaves exactly what the specification `Drain` says. |
| GrpcFraming.DrainExact | hackthon/app/src/grpc_session.cpp:66-95 | The code reads a buffer as the protocol does whenever no frame in it, whole or partial, has a length on which the 32-bit sum misleads; below 4 GiB, if and only if. |
| GrpcFraming.WrappedLengthDispatchesEarly | hackthon/app/src/grpc_session.cpp:72-80 | The condition is needed: five bytes that announce 2^32 - 1 make the server dispatch an empty message and eat four bytes of the header. |
| GrpcFraming.ServeChunks | hackthon/app/src/grpc_session.cpp:175-193 | Chunk independence for the code itself: however a stream in range is cut into DATA frames, the same messages are dispatched in order and exactly the trailing partial frame is kept. |
| GrpcFraming.ServeExact | hackthon/app/src/grpc_session.cpp:175-193 | Below 4 GiB, if and only if the stream is in range: outside it the server always dispatches more messages than there are frames. |
| GrpcFraming.EncodedConversation | hackthon/app/src/grpc_session.cpp:55-95 | Round trip: any list of messages, encoded and cut anywhere, is dispatched as sent, with nothing left. |
| GrpcFraming.FlagBitZero | hackthon/app/src/grpc_session.cpp:83-94 | An even flag passes the body through and an odd one inflates it, whatever the other bits. |
| GrpcFraming.CompressedConversation | hackthon/app/src/grpc_session.cpp:66-95 | The same round trip when each message is compressed or not by bit 0 of its own flag. |
| GrpcFraming.DrainIdempotent | hackthon/app/src/grpc_session.cpp:244-256 | Exactly once: draining again what a drain has left dispatches nothing, on every input, so the END_STREAM drain adds no message. |
| GrpcFraming.OnData | hackthon/app/src/gnmi_client.cpp:309-324 | The client loop delivers and keeps exactly what its specification says, and terminates, on every input but those of `GrpcFraming.ClientSpins`. |
| GrpcFraming.ClientSpins | hackthon/app/src/gnmi_client.cpp:311-320 | The loop never ends if and only if, at the first length on which the sum wraps, it wraps to zero, or the one to four bytes that the client then drops lead to such a place again; for buffers of every size. |
| GrpcFraming.SpinsAtOnce | hackthon/app/src/gnmi_client.cpp:317-320 | Such an input: a header that announces 2^32 - 5. |
| GrpcFraming.SpinsLater | hackthon/app/src/gnmi_client.cpp:317-320 | Another: a header that announces 2^32 - 1, of which four bytes are dropped, and 2^32 - 5 read behind them. |
| GrpcFraming.ClientExact | hackthon/app/src/gnmi_client.cpp:309-324 | The client reads as the protocol does when no length is 2^32 - 5 or more; below 4 GiB, if and only if. |
| GrpcFraming.RangeIsNoWrap | hackthon/app/src/gnmi_client.cpp:317 | That range is exactly the buffers on which no sum wraps. |
| GrpcFraming.ClientServeChunks | hackthon/app/src/gnmi_client.cpp:309-324 | Chunk independence for the client, with `on_data` called piece by piece, on a stream in its range. |
| GrpcFraming.ClientServeExact | hackthon/app/src/gnmi_client.cpp:309-324 | Below 4 GiB, if and only if the stream is in that range. |
| GrpcFraming.ClientAgreesWithServer | hackthon/app/src/gnmi_client.cpp:309-324 | On uncompressed frames in range, client and server deliver the same messages and keep the same tail, even when they get the stream in different pieces. |
| GrpcSession.GrpcSession.OnDataChunkRecv | hackthon/app/src/http2.cpp:279-290 | A piece of DATA extends the body and keeps the invariant that messages dispatched, plus those complete in the body, are those of the whole stream. |
| GrpcSession.GrpcSession.OnRequestHeaders | hackthon/app/src/grpc_session.cpp:161-173 | The response half of a bidirectional call is opened once per stream, and only for such calls. |
| GrpcSession.GrpcSession.DispatchStream | hackthon/app/src/http2.cpp:311-318 | A whole DATA frame dispatches every complete message of a client-streaming call and leaves the partial one in the body. |
| GrpcSession.GrpcSession.OnRequest | hackthon/app/src/grpc_session.cpp:228-303 | At END_STREAM a streaming call dispatches nothing further; the answer depends on content type and registration, in that order; what it stages on the stream and the grpc-status of its trailer are exact for each answer. |
| GrpcSession.GrpcSession.OnSingleRequest | hackthon/app/src/grpc_session.cpp:258-302 | A call with one message decodes it once and goes to the server-streaming, asynchronous or unary handler, or is answered UNIMPLEMENTED. |
| GrpcSession.GrpcSession.SendUnaryResponse | hackthon/app/src/grpc_session.cpp:305-323 | The framed body is staged with trailers to come, and one trailer submitted. |
| GrpcSession.GrpcSession.StreamFinish | hackthon/app/src/grpc_session.cpp:201-207 | The stream is finished and one trailer submitted. |
| GrpcSession.GrpcSession.Respond | hackthon/app/src/grpc_session.cpp:278-284 | A late reply keeps the invariant; if the stream has closed it brings back a context without a path. |
| GrpcSession.GrpcSession.OnFrameRecv | hackthon/app/src/http2.cpp:292-332 | Each frame, exactly: HEADERS of an unopened bidirectional path open it, once, as an empty unfinished stream in trailer mode, and no other frame opens anything; DATA dispatches the complete messages; END_STREAM of either adds one answer with its trailers, and no other frame adds any; other streams keep their state. |
| GrpcSession.GrpcSession.OnFrame | hackthon/app/src/http2.cpp:292-318 | Of that, what precedes END_STREAM: the opening and the dispatch. |
| GrpcSession.GrpcSession.HeadedIsOpen | hackthon/app/src/grpc_session.cpp:161-173 | In every reachable state a bidirectional call whose HEADERS have come, and whose request half is open, has been opened, and streams with trailers to come. |
| GrpcSession.GrpcSession.UnaryCall | hackthon/app/src/grpc_session.cpp:286-302 | From request to response: one framed message reaches the registered unary handler, and what nghttp2 reads of the answer decodes at the client to the handler's reply, followed by its status. |
| GrpcSession.GrpcSession.RequestReachesHandler | hackthon/app/src/grpc_session.cpp:258-284 | One framed message reaches the server-streaming handler or, where there is none, the asynchronous one, which stages nothing. |
| GrpcSession.GrpcSession.EmptyAnswers | hackthon/app/src/grpc_session.cpp:244-302 | A client-streaming call that is not bidirectional is answered with one empty message and status 0, an unregistered path with one and status 12. |
| GrpcSession.GrpcSession.OtherAnswers | hackthon/app/src/grpc_session.cpp:228-264 | A request that is not gRPC gets an empty response without trailer; a bidirectional call is finished with status 0; a server-streaming one is left open, empty, with no trailer yet. |
| GrpcSession.GrpcSession.BetweenFrames | hackthon/app/src/grpc_session.cpp:175-193 | Of the live object, between DATA frames: the messages dispatched and the body are exactly the reading of all bytes received so far. |
| Http2Stream.Http2Session.ResponseBodyRead | hackthon/app/src/http2.cpp:346-379 | The provider sleeps, ends or hands out a prefix of at most the asked length; soundness of the stream is kept; EOF leaves an empty buffer. |
| Http2Stream.Http2Session.SubmitResponse | hackthon/app/src/http2.cpp:105-136 | A unary response stages its body; nghttp2 gets no provider exactly when neither body nor trailer follows. |
| Http2Stream.Http2Session.SubmitResponseStream | hackthon/app/src/http2.cpp:149-169 | Opening clears the buffer and sets streaming and trailer mode, creating the context if need be. |
| Http2Stream.Http2Session.PushStreamData | hackthon/app/src/http2.cpp:171-180 | Bytes are appended and the provider woken; on an unknown stream nothing changes and -1 is returned. |
| Http2Stream.Http2Session.FinishStream | hackthon/app/src/http2.cpp:182-189 | The stream is marked finished and the provider woken; on an unknown stream nothing changes and -1 is returned. |
| Http2Stream.ProviderRun | hackthon/app/src/http2.cpp:346-379 | For every interleaving of pushes, finish and reads of any length: bytes read followed by bytes staged are the bytes pushed, and a sleeping provider means an empty buffer and an unfinished stream. |
| Http2Stream.EofMeansDrained | hackthon/app/src/http2.cpp:354-364 | EOF if and only if the stream was finished and every pushed byte has been read; always with NO_END_STREAM and no data. |
| Http2Stream.CompleteResponseDrains | hackthon/app/src/http2.cpp:346-379 | No stall: a response whose end is known delivers every byte and reaches EOF within one read more than it has staged bytes, whatever the lengths. |
| Http2Stream.PushWakes | hackthon/app/src/http2.cpp:171-180 | A push to a sleeping provider makes its first bytes readable at once. |
| Http2Stream.DeferredMeansIdle | hackthon/app/src/http2.cpp:354-379 | After any pushes, reads and finish on an opened stream, the provider sleeps if and only if every pushed byte has been read and the stream is unfinished; any other reading before EOF hands out the next bytes pushed, as many as asked for and there. |
| Http2Stream.UnaryResponseIsRead | hackthon/app/src/http2.cpp:346-379 | A unary response is read as it was given, up to EOF, with NO_END_STREAM exactly if trailers follow. |
| Http2Stream.UnaryReadingEnds | hackthon/app/src/http2.cpp:366-379 | Such a response ends with its last byte: EOF comes with it and not before, and no reading sleeps. |
| TunnelHub.TunnelHub.AddTarget | hackthon/app/inc/tunnel_hub.hpp:46-49 | The registry maps the target to the stream that announced it last; nothing else changes. |
| TunnelHub.TunnelHub.RemoveTarget | hackthon/app/inc/tunnel_hub.hpp:50 | The target leaves the registry; its bridges stay. |
| TunnelHub.TunnelHub.OpenBridge | hackthon/app/inc/tunnel_hub.hpp:115-133 | A connected target gets a bridge under the next tag and one Session message; otherwise the result is 0 and nothing changes. |
| TunnelHub.TunnelHub.PairTunnel | hackthon/app/inc/tunnel_hub.hpp:137-148 | The bridge gets its stream, and buffered bytes leave as one Data message, if there are any. |
| TunnelHub.TunnelHub.FromOperator | hackthon/app/inc/tunnel_hub.hpp:151-159 | Bytes are buffered before pairing and sent after it. |
| TunnelHub.TunnelHub.FromDevice | hackthon/app/inc/tunnel_hub.hpp:162-166 | Bytes reach the operator socket of a live bridge, and no other. |
| TunnelHub.TunnelHub.CloseFromOperator | hackthon/app/inc/tunnel_hub.hpp:169-176 | Data{close} if paired; the bridge goes; `close_operator` is not run. |
| TunnelHub.TunnelHub.CloseFromDevice | hackthon/app/inc/tunnel_hub.hpp:180-188 | The bridge goes and its `close_operator` is run once. |
| TunnelHub.TunnelHub.RemoveByStream | hackthon/app/inc/tunnel_hub.hpp:54-76 | The erase loops, in any iteration order, drop exactly the targets of the session and exactly the bridges to them, running each `close_operator` once. |
| TunnelHub.TunnelHub.OnTunnelMessage | hackthon/app/src/client_app.cpp:405-417 | Each Tunnel message pairs, then closes or relays. |
| TunnelHub.TunnelHub.OnRegisterMessage | hackthon/app/src/client_app.cpp:331-392 | ADD and REMOVE change the registry; targets and subscriptions are acknowledged whatever their operation; session acknowledgements do nothing. |
| TunnelHub.Listeners.HandleConnect | hackthon/app/src/tunnel_proxy.cpp:19-31 | An operator is kept under its new tag, or refused with no trace if the target is not connected. |
| TunnelHub.Listeners.HandleRead | hackthon/app/src/tunnel_proxy.cpp:59-67 | Non-empty reads go to the hub under the connection's tag. |
| TunnelHub.Listeners.HandleClose | hackthon/app/src/tunnel_proxy.cpp:69-77 | The device is told, the bridge ends, and the connection is erased. |
| TunnelHub.Listeners.Drop | hackthon/app/src/tunnel_proxy.cpp:33-35 | Erases one connection; the result counts it. |
| TunnelRuns.StepProjects | hackthon/app/inc/tunnel_hub.hpp:115-188 | The system is the product of its bridges: every event does to a tag what the one-bridge automaton does with that event's part for the tag. |
| TunnelRuns.RunKeepsInv | hackthon/app/src/tunnel_proxy.cpp:19-77 | In every reachable state live operator connections of all listeners and bridges are in bijection by tag, and the tags ever used are exactly 1 up to the counter. |
| TunnelRuns.NewTagIsFresh | hackthon/app/inc/tunnel_hub.hpp:120-123 | A new operator's tag is positive, above every tag used before, and nothing has been sent or written for it. |
| TunnelRuns.RunKeepsTagInv | hackthon/app/inc/tunnel_hub.hpp:169-188 | A bridge ends through exactly one of operator close, device close and loss; `close_operator` has then run 0, 1 and 1 times; Data{close} was sent once, last, and only if the operator closed a paired bridge. |
| TunnelRuns.Isolation | hackthon/app/inc/tunnel_hub.hpp:137-188 | An event that does not concern a tag changes neither its bridge, nor its frames, nor its bytes. |
| TunnelRuns.EndedIsFinal | hackthon/app/inc/tunnel_hub.hpp:115-188 | Once a bridge has ended nothing is ever sent or written for its tag again, whatever happens. |
| TunnelRuns.OperatorBytesConserved | hackthon/app/inc/tunnel_hub.hpp:137-159 | Over every run: the data of the messages sent for a tag, followed by what is still buffered, is what its operator wrote. |
| TunnelRuns.DeviceBytesConserved | hackthon/app/inc/tunnel_hub.hpp:162-188 | Over every run: the bytes written to a tag's operator are the data of its frames received while the bridge was live, the closing frame excluded. |
| TunnelRegistry.RegistryIsLastAdd | hackthon/app/inc/tunnel_hub.hpp:46-63 | After any events a target is registered on a stream under a kind if and only if some ADD of it on that stream and of that kind is followed by no ADD or REMOVE of it and by no loss of that stream. |
| TunnelRegistry.ConnectReachesLastAdd | hackthon/app/inc/tunnel_hub.hpp:115-133 | An operator's connect sends one Session message, with the next tag, to the stream and under the kind of that ADD; if there is none it changes nothing, and only then is it refused. |
| TunnelRegistry.RemovedIsWithdrawn | hackthon/app/inc/tunnel_hub.hpp:50 | After a REMOVE with no later ADD nothing stands, so that connects are refused. |
| TunnelRegistry.EveryAnnouncementIsEchoed | hackthon/app/src/client_app.cpp:331-392 | Over any events, what a Register stream is sent in acknowledgement is what it announced and subscribed, message by message and in order, whatever the operations. |
| TunnelRegistry.PairedWithLast | hackthon/app/inc/tunnel_hub.hpp:137-143 | A live bridge is paired with a stream if and only if that stream was the last to name its tag. |
| Relay.ChannelDelivers | hackthon/app/src/http2.cpp:346-379 | One stream, from push to device: a prefix of the messages has been decoded, and tail, wire and staging buffer together encode exactly the others. |
| Relay.CarriedOnStream | hackthon/app/inc/tunnel_hub.hpp:137-159 | Over every run, for every tag and stream: the messages for the tag on the stream carry the bytes read or flushed while the bridge was paired with it. |
| Relay.StreamToDevice | hackthon/app/inc/tunnel_hub.hpp:137-159 | End to end on any one stream, in every interleaving and cutting: the bytes sent for a tag = bytes decoded by the device, then those in whole messages on their way, then those nghttp2 has not taken whole, then those sent when the stream was gone; tail, wire and untaken bytes are exactly the encodings. |
| Relay.OperatorToDevice | hackthon/app/inc/tunnel_hub.hpp:137-159 | With the tag paired on one stream, those bytes, and those still awaiting pairing, are what the operator wrote. |
| Relay.DroppedIsSentLate | hackthon/app/src/http2.cpp:171-175 | Over every run: the messages whose send finds the stream gone are exactly those sent at steps after it went. |
| RelayLoss.LossIsExact | hackthon/app/src/http2.cpp:334-340 | Over every run, once the stream is gone or at EOF: the accepted messages divide in those that can all arrive and those that never do, whatever happens; there are none of these if and only if no byte was staged. The bytes of a tag lost are those in them and those sent too late; there are none if and only if no such message carries one and the operator wrote none then. |
| RelayLoss.NeverMore | hackthon/app/src/http2.cpp:334-340 | From then on no continuation makes the device decode more than nghttp2 had taken. |
| RelayLoss.UntilThenAllArrive | hackthon/app/src/http2.cpp:366-379 | Until then nothing is lost: at most two more steps bring the device every accepted message. |
| RelayLoss.BridgeOutlivesItsStream | hackthon/app/src/http2.cpp:334-340 | The loss can happen wherever an operator waits: open, pair, close, and the operator's next bytes are dropped, while the bridge stays. |
| RelayLoss.StagedIsErased | hackthon/app/src/http2.cpp:338 | In every live run: what an operator writes last before the close is erased with the staging buffer, and no continuation delivers it. |
| RelayLoss.StagedBehindEof | hackthon/app/src/http2.cpp:354-364 | The same for what it writes after the stream was finished and drained, while it is still open. |
| RelayLoss.LostAfterClose | hackthon/app/inc/tunnel_hub.hpp:178-188 | A complete run of six steps in which a byte is written too late. |
| RelayLoss.LostAtClose | hackthon/app/inc/tunnel_hub.hpp:178-188 | A complete run of six steps in which a byte is erased with the buffer. |
| RelayLoss.LostBehindEof | hackthon/app/src/http2.cpp:354-364 | A complete run of seven steps in which a byte stays behind EOF. |
| Relay.QuietMeansDelivered | hackthon/app/src/grpc_session.cpp:195-199 | When nothing is under way, and nothing was left behind or sent too late, the device holds every byte the operator wrote. |
| Relay.PartOfConversation | hackthon/app/src/grpc_session.cpp:175-193 | Whatever part of the device's messages has arrived, a prefix has been dispatched and parsed, and the kept bytes with those still to come encode the rest. |
| Relay.DeviceToOperator | hackthon/app/src/client_app.cpp:405-417 | End to end, among any other events, on a stream that carries any tags and has carried messages before: since any moment at which its bridge was live, the operator socket of a tag has got exactly the device's data for it up to the first close; only the operator's close or the target's loss can end it sooner. |
| Sessions.LossLeavesNoBridge | hackthon/app/inc/tunnel_hub.hpp:54-76 | After a session's removal no bridge sends over it, if and only if it owned the target of every bridge that did. |
| Sessions.StrangerMayLinger | hackthon/app/inc/tunnel_hub.hpp:137-143 | The condition is needed: a reachable state in which a session that does not own the target has paired a bridge, and the bridge outlives it. |
| Sessions.NoHubOutlivesASession | hackthon/app/src/client_app.cpp:602-612 | After every run in which devices pair only bridges of their own targets and a target with bridges is neither moved nor removed, closing a session leaves no target and no bridge that names it. |
| Sessions.ConnectedClient.StartSubscription | hackthon/app/src/client_app.cpp:554-586 | An unparsable request is finished with INVALID_ARGUMENT; any other gets a sync response; only a STREAM subscription is registered, with its printed paths, the others are finished. |
| Sessions.ConnectedClient.HandleClose | hackthon/app/src/client_app.cpp:602-619 | No target or management session names the closed connection, all others are kept; no subscription names its client, and none its session if and only if only the client used it; no bridge, under the exact condition. |
| Sessions.NoSubOutlivesItsSession | hackthon/app/inc/sub_hub.hpp:36-46 | After every run of subscriptions and closes in which no two clients share a session, no subscription names the session of a closed client. |
| Sessions.MgmtHub.AddSession | hackthon/app/inc/mgmt_hub.hpp:44-48 | The new session goes last, under an identifier above all others. |
| Sessions.MgmtHub.RemoveByStream | hackthon/app/inc/mgmt_hub.hpp:51-62 | The erase loop keeps exactly the other connections' sessions in order, and returns exactly the identifiers removed, in order. |
| Sessions.GoneMembers | hackthon/app/inc/mgmt_hub.hpp:51-62 | The identifiers returned are exactly those of the sessions that go, and every session goes or is kept. |
| Sessions.KeptConcat | hackthon/app/inc/mgmt_hub.hpp:51-62 | Those kept and those returned stand in the order of the sessions. |
| GnmiPath.ParseSegment | hackthon/app/inc/gnmi_util.hpp:42-60 | The predicate loop terminates and finds name and keys, a later duplicate key winning and a pair without `=` passed over. |
| GnmiPath.ParseYangPath | hackthon/app/inc/gnmi_util.hpp:29-63 | The `getline` loop yields the elements of the non-empty segments. |
| GnmiPath.PathToString | hackthon/app/inc/gnmi_util.hpp:66-80 | The printing loops yield each element with its keys in enumeration order, and `/` for no output. |
| GnmiPath.ElemRoundTrip | hackthon/app/inc/gnmi_util.hpp:43-77 | An element of reserved-character-free parts survives printing and parsing in any key order. |
| GnmiPath.RoundTrip | hackthon/app/inc/gnmi_util.hpp:29-80 | `parse_yang_path(path_to_string(p)) == p`, whatever order the keys are printed in, if and only if no part of `p` holds a reserved character and no element prints as nothing. |
| GnmiPath.ParsePrintParse | hackthon/app/inc/gnmi_util.hpp:29-80 | Parse, print, parse equals parse if and only if no segment of the string is blank: starts with a bracket, and has no `=` in the closed brackets at its front; parsing only yields printable characters. |
| GnmiPath.BlankElements | hackthon/app/inc/gnmi_util.hpp:39-60 | A path has an element without name and keys if and only if its string has such a segment. |
| GnmiPath.SeparatorInNameIsLost | hackthon/app/inc/gnmi_util.hpp:66-80 | An input outside the condition: a name with a separator comes back as two elements. |
| GnmiPath.LoneBracketIsLost | hackthon/app/inc/gnmi_util.hpp:43-60 | A string outside the condition: a lone bracket parses to a blank element, which is gone after printing. |
| JsonEscape.JsonEscape | hackthon/app/inc/gnmi_util.hpp:132-154 | The loop computes the escaped text of the specification. |
| JsonEscape.EscapedLiteralReadsBack | hackthon/app/inc/gnmi_util.hpp:132-154 | A reader of section 7 of RFC 8259 gets every byte string back, and ends the literal exactly at the quote behind it: no bare quote is left inside. |
| JsonEscape.EscapedHasNoControl | hackthon/app/inc/gnmi_util.hpp:143-147 | No byte below 0x20 is left. |
| JsonEscape.EscapeInjective | hackthon/app/inc/gnmi_util.hpp:132-154 | Different byte strings have different escaped forms. |
| JsonEscape.EscapeForm | hackthon/app/inc/gnmi_util.hpp:136-151 | Which form each byte takes: a short escape, six characters in lower-case hexadecimal, or itself. |
| SubHub.StringTestIsFields | hackthon/app/inc/sub_hub.hpp:100-105 | On any two strings: the test holds if and only if the subscription is the root or its fields between separators are the first fields of the change. |
| SubHub.StringTestIsPrefix | hackthon/app/inc/sub_hub.hpp:95-107 | For paths without reserved characters, the printed-string test holds if and only if the elements of the subscription are a prefix of those changed; the one other case, a single blank element that prints as the root, is named. |
| SubHub.PrefixIsCovered | hackthon/app/inc/sub_hub.hpp:95-107 | For all paths, whatever their characters, a prefix of the changed path covers it. |
| SubHub.UncleanSubscriptionOvermatches | hackthon/app/inc/sub_hub.hpp:95-107 | An input outside the condition: a name with a separator covers a path it is no prefix of. |
| SubHub.SubHub.Matches | hackthon/app/inc/sub_hub.hpp:95-107 | The loop decides coverage by any listed path; an empty list covers everything. |
| SubHub.SubHub.Publish | hackthon/app/inc/sub_hub.hpp:49-83 | Each subscriber, in order, is sent one notification of what is covered, or none if nothing is. |
| SubHub.PublishIsStructural | hackthon/app/inc/sub_hub.hpp:57-82 | That notification holds exactly the updates, then the replaces, and the deletes at or under a subscribed path, each in request order. |
| SubHub.PushesReachTheTouched | hackthon/app/inc/sub_hub.hpp:49-83 | For any paths: the subscriptions touched, each once and in order, get one push on their own stream with their own notification; a subscription that covers nothing gets none. |
| SubHub.PublishReachesTheConcerned | hackthon/app/inc/sub_hub.hpp:57-82 | For clean paths: a subscription gets a push if and only if an updated, replaced or deleted path is at or under one of its own; each such push goes to its own stream, in order, and holds exactly those updates, replaces and deletes. |
| SubHub.SubHub.Add | hackthon/app/inc/sub_hub.hpp:36-39 | The subscription goes last. |
| SubHub.SubHub.Remove | hackthon/app/inc/sub_hub.hpp:42-46 | Exactly the owner's subscriptions go; the others keep their order. |
| SubHub.OthersConcat | hackthon/app/inc/sub_hub.hpp:42-46 | What is left when an owner goes is, in order, what is left of each part of the list. |
| Ipv4.ToU32OfToStr | hackthon/app/openvpn/src/vpn_server.cpp:31-43 | `to_u32` inverts `to_str` on every 32-bit address. |
| Ipv4.BytesInOrder | hackthon/app/openvpn/src/vpn_server.cpp:31-43 | Four address bytes of a packet are printed as their decimals, in order, joined by dots. |
| Ipv4.OnlyPrintedIsRead | hackthon/app/openvpn/src/vpn_server.cpp:31-36 | Any text that is not such a print is read as 0.0.0.0. |
| VpnServer.IpPool.constructor | hackthon/app/openvpn/src/vpn_server.cpp:45-50 | The loop terminates with exactly the addresses of the range free, unless the range ends at the last address of all. |
| VpnServer.PoolLoopEnds | hackthon/app/openvpn/src/vpn_server.cpp:48 | The 32-bit counter ever passes the end of the range if and only if that is below 255.255.255.255. |
| VpnServer.LastAddressNeverEnds | hackthon/app/openvpn/src/vpn_server.cpp:45-50 | The text 255.255.255.255 is read as that end, which no number of turns passes. |
| VpnServer.IpPool.Assign | hackthon/app/openvpn/src/vpn_server.cpp:52-58 | The least free address is taken, or the result is empty and nothing changes. |
| VpnServer.IpPool.Release | hackthon/app/openvpn/src/vpn_server.cpp:60-66 | A held address is free again; an unknown channel changes nothing. |
| VpnServer.IpPool.Get | hackthon/app/openvpn/src/vpn_server.cpp:68-71 | The printed address of a channel, or nothing. |
| VpnServer.IpPool.FindChannel | hackthon/app/openvpn/src/vpn_server.cpp:73-78 | A channel that holds the address, or -1 if and only if none does. |
| VpnServer.VpnServer.HandleConnect | hackthon/app/openvpn/src/vpn_server.cpp:112-129 | A connection is refused, changing nothing, if and only if no address is free; otherwise pool, peers and routes grow together. |
| VpnServer.VpnServer.HandleClose | hackthon/app/openvpn/src/vpn_server.cpp:131-137 | Address, peer and route of the channel go together. |
| VpnServer.VpnServer.HandleTunRead | hackthon/app/openvpn/src/vpn_server.cpp:148-160 | A packet of at least 20 bytes reaches exactly the peer that holds its destination address, or none; a shorter one reaches none. |
| VpnServer.RunKeepsAgreement | hackthon/app/openvpn/src/vpn_server.cpp:112-137 | Over every run of connects and closes: free and assigned addresses partition the range, assignment is injective, and pool channels, peers and routes agree. |
| VpnServer.RefusedWhenFull | hackthon/app/openvpn/src/vpn_server.cpp:52-58 | Free addresses and peers add up to the size of the range; a connection is refused if and only if as many peers are live as there are addresses. |
| VpnServer.ConnectTakesLeast | hackthon/app/openvpn/src/vpn_server.cpp:52-58 | A new peer gets the least address of the range that nobody holds, and everyone else keeps theirs. |
| VpnServer.CloseUndoesConnect | hackthon/app/openvpn/src/vpn_server.cpp:112-137 | Closing a connection just accepted restores the server's state exactly. |
| VpnCodec.VpnPeer.SendFrame | hackthon/app/openvpn/src/vpn_peer.cpp:134-143 | The bytes sent are the reference encoding, the same that the client's encoder yields. |
| VpnCodec.VpnPeer.ForwardData | hackthon/app/openvpn/inc/vpn_peer.hpp:68 | All bytes sent so far are the encoding of the assignment and then of every packet forwarded, in order: the premise of `VpnCodec.ServerStreamReachesTun`. |
| VpnCodec.VpnPeer.ProcessFrames | hackthon/app/openvpn/src/vpn_peer.cpp:151-176 | The loop terminates, never passes the end of the buffer, sees exactly the complete frames and leaves exactly the partial one. |
| VpnCodec.VpnPeer.HandleRead | hackthon/app/openvpn/src/vpn_peer.cpp:182-190 | For any cutting: the frames seen and the buffer kept are the reading of all bytes received. |
| VpnCodec.VpnClient.EncodeFrame | hackthon/app/openvpn/src/vpn_client.cpp:164-173 | The frame is the reference encoding, the same that the server sends. |
| VpnCodec.VpnClient.TryDecodeFrame | hackthon/app/openvpn/src/vpn_client.cpp:175-188 | Succeeds if and only if a complete frame starts at the offset, and then yields that frame and its size. |
| VpnCodec.VpnClient.ProcessFrames | hackthon/app/openvpn/src/vpn_client.cpp:195-239 | The loop terminates, applies exactly the complete frames in order, and leaves exactly the partial one. |
| VpnCodec.VpnClient.HandleRead | hackthon/app/openvpn/src/vpn_client.cpp:103-111 | For any cutting: the link is what the frames of all bytes received, in order, make of it. |
| VpnCodec.VpnClient.HandleClose | hackthon/app/openvpn/src/vpn_client.cpp:113-124 | A lost connection leaves no state of the old stream. |
| VpnCodec.ServerStreamReachesTun | hackthon/app/openvpn/src/vpn_client.cpp:195-239 | End to end, for any cutting: the client takes exactly the assigned address and netmask and writes exactly the forwarded packets, in order. |
| VpnCodec.AssignmentIsRead | hackthon/app/openvpn/src/vpn_client.cpp:201-236 | An assignment is read up to its first space, with the netmask behind it or the default, and configured only if there is a TUN. |
| VpnCodec.LinkHistory | hackthon/app/openvpn/src/vpn_client.cpp:201-236 | After any frames: the TUN is open if and only if there is one and an assignment was followed by no disconnect; the packets written are the data frames that came while it was open; other types change nothing. |
| Membership.OpenvpnServer.HandleRead | hackthon/app/openvpn/src/openvpn_server.cpp:63-75 | For any cutting of the management stream the tracker has seen exactly its complete lines, and the buffer holds the unfinished one. |
| Membership.OpenvpnServer.ParseMgmtLine | hackthon/app/openvpn/src/openvpn_server.cpp:111-152 | One line moves the tracker as specified, and publishes each newcomer and each departure exactly once. |
| Membership.OpenvpnServer.CompleteTable | hackthon/app/openvpn/src/openvpn_server.cpp:125-139 | The end of a table connects exactly the new addresses and disconnects exactly the gone ones, in any iteration order. |
| Membership.OpenvpnServer.OnClientConnect | hackthon/app/openvpn/src/openvpn_server.cpp:289-305 | With MQTT on, an address without a subscriber gets one and is published; otherwise nothing happens. |
| Membership.OpenvpnServer.OnClientDisconnect | hackthon/app/openvpn/src/openvpn_server.cpp:307-317 | The subscriber goes, and with MQTT on the retained topic is cleared. |
| Membership.ActiveIsLastTable | hackthon/app/openvpn/src/openvpn_server.cpp:118-151 | After any lines the active addresses are the rows of the last completed table, a table being defined on the lines alone. |
| Membership.NoTableNoActive | hackthon/app/openvpn/src/openvpn_server.cpp:118-151 | Without a completed table no address is active. |
| Membership.RowIs | hackthon/app/openvpn/src/openvpn_server.cpp:143-151 | A line lists an address if and only if the address, without comma, stands before its first comma and has a dot, and the line starts neither with V nor with the log prefix. |
| Membership.PollIsRead | hackthon/app/openvpn/src/openvpn_server.cpp:118-151 | One table, whatever came before it and however it ends: the active addresses are exactly those its rows list. |
| Membership.TerminatedLines | hackthon/app/openvpn/src/openvpn_server.cpp:66-73 | Lines are read the same whether each ends in a line feed or in carriage return and line feed, mixed as they may be. |
| Membership.EveryoneAgrees | hackthon/app/openvpn/src/openvpn_server.cpp:63-152 | After any byte stream, with MQTT on: subscribers, active set and last table are one set. The retained topics, and the view of a CLI that saw every publication or joined at any point, are that set and the addresses an earlier server left retained and no table has mentioned since; they agree if and only if there are none of these. |
| Membership.StaleTopicMisleads | hackthon/app/openvpn/src/openvpn_server.cpp:297-300 | An instance: after a restart a CLI counts an address that no table shows. |
| Membership.StaleUntilMentioned | hackthon/app/cli/src/readline.cpp:51-61 | What a view started with stays in it exactly until it is mentioned, and has no other effect. |
| Membership.LateJoiner | hackthon/app/openvpn/src/openvpn_server.cpp:297-300 | A subscriber that starts from the retained topics and then sees the rest ends where one that saw everything does. |
| Membership.RetainedIsCliSet | hackthon/app/cli/src/readline.cpp:51-61 | The retained `clients/` topics are exactly the set that replaying the publications gives. |
| Membership.Cli.OnMessage | hackthon/app/cli/src/readline.cpp:51-61 | A non-empty payload adds the address, an empty one removes it, other topics change nothing. |
| Membership.RoutingTableDiff.Feed | hackthon/app/openvpn/inc/openvpn_parse.hpp:60-88 | The copy in the header moves the same tracker and reports exactly the addresses that came and went, each once. |
| Completion.GetSubKeys | hackthon/app/cli/src/completion_helpers.cpp:8-40 | The pruned walk appends exactly the full preorder enumeration restricted to paths that start with the filter, in order, for every tree and filter. |
| Completion.PreorderConcat | hackthon/app/cli/src/completion_helpers.cpp:8-40 | The enumeration takes the members in the order of the table... |
| Completion.MemberFirst | hackthon/app/cli/src/completion_helpers.cpp:8-40 | ...and each before what is below it. |
| Completion.NothingBelow | hackthon/app/cli/src/completion_helpers.cpp:14-21 | Pruning is sound: below a path unrelated to the filter nothing matches. |
| Completion.NaiveComplete | hackthon/app/cli/src/completion_helpers.cpp:23-31 | Nothing is missing: every matching scalar, scalar array and table is offered. |
| Completion.OffersResolve | hackthon/app/cli/src/completion_helpers.cpp:23-38 | With non-empty, dot-free, distinct keys, every offer is made once, starts with the filter, and belongs to an entry of the table, the only one with its path, that looking up the path finds: `=` for scalars and scalar arrays, `.` for tables. |
| Completion.NodesResolve | hackthon/app/cli/src/readline.cpp:229-252 | Every entry of such a tree is found under its own path, and no two entries share one. |
| Completion.FoundIsListed | hackthon/app/cli/src/readline.cpp:229-252 | A path without empty fields finds an entry if and only if that entry is enumerated under it. |
| Completion.WalkDottedPath | hackthon/app/cli/src/readline.cpp:229-252 | The cursor loop finds what looking up the path's fields one by one finds. |

## Left out

- GrpcFraming.OnData: excludes the inputs on which the original loops forever, which `GrpcFraming.ClientSpins` characterises.
- GrpcFraming.DrainExact: at 4 GiB and above only one direction is claimed, since after a wrapped length the code may meet the right messages by accident.
- VpnServer.IpPool.constructor: excludes a range that ends at 255.255.255.255, on which the original loops forever; `VpnServer.PoolLoopEnds` shows that this is the only such end.
- TunnelHub.Listeners.HandleConnect: fewer than 2^31 - 1 tags, since the original's counter overflows a signed integer there.
- Relay.OperatorToDevice: the tag is paired on one Tunnel stream throughout; without that, `Relay.StreamToDevice` holds for each stream. A serialised message is below 2^32 bytes.
- Relay.DeviceToOperator: a serialised message is below 2^32 - 5 bytes, and the tag's frames come on one Tunnel stream while its bridge is live.
- GrpcSession.GrpcSession.OnRequest: of a response's header fields only the grpc-status of the trailer is modelled; a unary handler is a function of its request.
- SubHub.PublishIsStructural: paths hold no reserved characters; for others `SubHub.SubHub.Publish` states the outcome by the string test, which `SubHub.StringTestIsFields` explains.
- Membership.OpenvpnServer.HandleRead: the buffer survives a lost management connection, as in the original, so the stream is the concatenation over all connections; polling and reconnect timers are not modelled.
- Closures: `to_operator` and `close_operator` are represented by the identity of the operator connection; handlers that re-enter a session during a callback are not modelled.
- Hash-map iteration: any order is allowed, none is fixed.
- Libraries: nghttp2 flow control and HPACK, TLS, libevent, TUN and ioctl calls, iptables, mosquitto, protobuf's encoding and zlib are only the interfaces named above.
- Route calls: a host route is taken to be set or removed when asked for; failures of the ioctl are not modelled.
- VPN client: NAT set-up, the status file and reconnect timing; `vpn_peer`'s gNMI forwarding over MQTT.
- Hubs: timestamps, ports, snapshots and log text of the tunnel hub; requests, pending replies, counters and identities of the management hub; random identifiers.
- gNMI: Get, Set and Capabilities answers, typed values and notification rendering.
- CLI: the `cli_resp/` branch of `on_message`, value completion and command execution.
- Front ends, Lua engine and configuration, `fs_app`, duration parsing, process start and shutdown order.
