/**
 The server side of one gRPC connection: dispatch of client-streaming and bidirectional
 messages while DATA arrives, and of the call itself at END_STREAM. Handlers are observers: what
 they receive is logged.
 */
module GrpcSession {
  import opened ByteStrings
  import opened Text
  import opened Framing
  import opened GrpcFraming
  import opened Http2Stream

  /** What a unary handler returns: a grpc-status and a serialised message. */
  datatype Reply = Reply(status: int, body: Bytes)

  const OK: int := 0
  const UNIMPLEMENTED: int := 12

  /** How a call is answered when its request half has ended. */
  datatype Answer =
    | NotGrpc                       // HTTP 415
    | BidiFinished                  // trailer on the already open response
    | ClientStreamOk                // empty unary response
    | ServerStream(request: Bytes)  // the response is opened, then the handler runs
    | AsyncUnary(request: Bytes)    // the handler responds later
    | Unary(request: Bytes, reply: Reply)
    | Unimplemented

  /** A unary response, as it is staged: one frame, with the trailer to come. */
  function Unaried(s: Stream, body: Bytes): Stream {
    Responded(s, Encode(Frame(0, body)), true)
  }

  /** What an answer does to the stream. */
  function Answered(s: Stream, a: Answer): Stream {
    match a
    case NotGrpc => Responded(s, [], false)
    case BidiFinished => Finished(s)
    case ClientStreamOk => Unaried(s, [])
    case ServerStream(_) => Opened(s)
    case AsyncUnary(_) => s
    case Unary(_, reply) => Unaried(s, reply.body)
    case Unimplemented => Unaried(s, [])
  }

  /** The grpc-status of the trailer that an answer submits, if it submits one. */
  function TrailerOf(a: Answer): seq<int> {
    match a
    case BidiFinished => [OK]
    case ClientStreamOk => [OK]
    case Unary(_, reply) => [reply.status]
    case Unimplemented => [UNIMPLEMENTED]
    case _ => []
  }

  function Trailers(sid: int, statuses: seq<int>): (r: seq<(int, int)>)
    ensures |r| == |statuses|
  {
    seq(|statuses|, i requires 0 <= i < |statuses| => (sid, statuses[i]))
  }

  datatype FrameKind = HEADERS | DATA | OTHER

  class GrpcSession {
    const h2: Http2Session
    const gz: Inflate
    const bidiPaths: set<string>
    const clientStreamPaths: set<string>   // a bidi method registers here as well
    const serverStreamPaths: set<string>
    const asyncPaths: set<string>
    const unaryHandlers: map<string, Bytes -> Reply>
    var bidiOpened: set<int>
    var openRuns: seq<int>                 // streams whose on_open handler ran
    var dispatched: map<int, seq<Bytes>>   // messages handed to on_message, per stream
    var answers: seq<(int, Answer)>
    var trailers: seq<(int, int)>          // stream and grpc-status of every trailer submitted

    // What the peer and nghttp2 have done, which the program does not record.
    ghost var received: map<int, Bytes>    // every request byte of a stream
    ghost var midFrame: set<int>           // streams inside a DATA frame
    ghost var ended: set<int>              // streams whose request half has ended
    ghost var headed: set<int>             // streams whose request HEADERS are complete

    /** The messages handed over, and those still complete in the buffer, are those of the whole stream. */
    ghost predicate Continues(total: Bytes, body: Bytes, sent: seq<Bytes>) {
      InRange(body) &&
      Reference(total, gz) == Drained(sent + Reference(body, gz).messages, Reference(body, gz).rest)
    }

    /** One stream of a streaming call: `total` has been received, `sent` handed over; between DATA frames nothing
        complete is left in the body. */
    ghost predicate InStep(req: Request, total: Bytes, sent: seq<Bytes>, mid: bool) {
      req.path in clientStreamPaths ==>
        (InRange(total) ==> Continues(total, req.body, sent)) &&
        (!mid ==> Drain(req.body, gz) == Drained([], req.body))
    }

    /** One stream of a bidirectional call: while its request half is open, its HEADERS have opened the response. */
    ghost predicate OpenInTime(s: Stream, isOpen: bool, head: bool, over: bool) {
      s.req.path in bidiPaths && !over ==> (head ==> isOpen) && (isOpen ==> s.streaming && s.trailerMode)
    }

    ghost predicate Streaming(sid: int)
      requires sid in h2.streams
      reads this, h2
    {
      h2.streams[sid].req.path in clientStreamPaths
    }

    ghost predicate Valid()
      reads this, h2
    {
      && bidiPaths <= clientStreamPaths && "" !in clientStreamPaths
      && h2.streams.Keys <= received.Keys && received.Keys == dispatched.Keys
      && headed + bidiOpened <= received.Keys
      && (forall sid :: sid in h2.streams ==>
            InStep(h2.streams[sid].req, received[sid], dispatched[sid], sid in midFrame))
      && (forall sid :: sid in h2.streams ==>
            OpenInTime(h2.streams[sid], sid in bidiOpened, sid in headed, sid in ended))
      && (forall sid :: sid in openRuns ==> sid in bidiOpened || sid in ended)
      && (forall sid :: sid in bidiOpened ==> sid in openRuns)
      && (forall i, j :: 0 <= i < j < |openRuns| ==> openRuns[i] != openRuns[j])
    }

    /** A bidirectional call whose request half is open. */
    ghost predicate HalfOpen(sid: int)
      reads this, h2
    {
      sid in h2.streams && h2.streams[sid].req.path in bidiPaths && sid !in ended
    }

    constructor (gz: Inflate, bidi: set<string>, clientStream: set<string>, serverStream: set<string>,
                 async: set<string>, unary: map<string, Bytes -> Reply>)
      requires bidi <= clientStream && "" !in clientStream
      ensures Valid() && fresh(h2) && h2.streams == map[] && dispatched == map[] && received == map[]
    {
      this.h2 := new Http2Session();
      this.gz, bidiPaths, clientStreamPaths := gz, bidi, clientStream;
      serverStreamPaths, asyncPaths, unaryHandlers := serverStream, async, unary;
      bidiOpened, openRuns, dispatched, answers, trailers := {}, [], map[], [], [];
      received, midFrame, ended, headed := map[], {}, {}, {};
    }

    /** The peer opened stream `sid`. HTTP/2 never reuses a stream identifier. */
    method OnHeaders(sid: int, path: string, isGrpc: bool)
      requires Valid() && sid !in received
      modifies this`received, this`dispatched, this`midFrame, h2
      ensures Valid()
      ensures h2.streams == old(h2.streams)[sid := NewStream(Request(path, isGrpc, []))]
      ensures !h2.streams[sid].streaming && h2.streams[sid].respBody == [] && h2.streams[sid].req.path == path
      ensures received == old(received)[sid := []] && dispatched == old(dispatched)[sid := []]
    {
      h2.OnHeaders(sid, path, isGrpc);
      received, dispatched, midFrame := received[sid := []], dispatched[sid := []], midFrame - {sid};
      NewInStep(Request(path, isGrpc, []));
      hide InStep;
    }

    lemma NewInStep(req: Request)
      requires req.body == []
      ensures InStep(req, [], [], false)
    {
      assert Drain([], gz) == Drained([], []) == Reference([], gz);
    }

    lemma ChunkKeepsStep(total: Bytes, body: Bytes, sent: seq<Bytes>, data: Bytes)
      requires InRange(total + data)
      requires InRange(total) ==> Continues(total, body, sent)
      ensures Continues(total + data, body + data, sent)
    {
      InRangePrefix(total, data);
      ParseConcat(total, data);
      ParseConcat(body, data);
      var rest := Parse(body).rest;
      var more := Parse(rest + data);
      hide Parse, Messages, AllSmall, AnnouncesTooMuch;
      SmallConcat(Parse(total).frames, more.frames);
      SmallConcat(Parse(body).frames, more.frames);
      MessagesConcat(Parse(total).frames, more.frames, gz);
      MessagesConcat(Parse(body).frames, more.frames, gz);
      Assoc(sent, Messages(Parse(body).frames, gz), Messages(more.frames, gz));
    }

    lemma ChunkInStep(req: Request, total: Bytes, sent: seq<Bytes>, mid: bool, data: Bytes)
      requires InStep(req, total, sent, mid)
      ensures InStep(req.(body := req.body + data), total + data, sent, true)
    {
      if req.path in clientStreamPaths && InRange(total + data) {
        ChunkKeepsStep(total, req.body, sent, data);
      }
    }

    lemma OpenWithBody(s: Stream, body: Bytes, isOpen: bool, head: bool, over: bool)
      ensures OpenInTime(s.(req := s.req.(body := body)), isOpen, head, over) == OpenInTime(s, isOpen, head, over)
    {
    }

    /** A piece of a DATA frame. nghttp2 may deliver one frame in several pieces. */
    method OnDataChunkRecv(sid: int, data: Bytes)
      requires Valid() && sid !in ended
      modifies this`received, this`midFrame, h2
      ensures Valid() && midFrame == old(midFrame) + {sid}
      ensures received ==
              if sid in old(h2.streams) then old(received)[sid := old(received)[sid] + data] else old(received)
    {
      hide InStep, OpenInTime;
      if sid in h2.streams {
        var s := h2.streams[sid];
        ChunkInStep(s.req, received[sid], dispatched[sid], sid in midFrame, data);
        OpenWithBody(s, s.req.body + data, sid in bidiOpened, sid in headed, sid in ended);
        received := received[sid := received[sid] + data];
      }
      midFrame := midFrame + {sid};
      h2.OnDataChunkRecv(sid, data);
    }

    /** Opens the response half of a bidirectional call, once per stream. */
    method OnRequestHeaders(sid: int)
      requires Valid() && sid in h2.streams && sid !in ended
      modifies this`bidiOpened, this`openRuns, this`headed, h2
      ensures Valid() && headed == old(headed) + {sid}
      ensures var s := old(h2.streams)[sid];
              if s.req.path in bidiPaths && sid !in old(bidiOpened) then
                openRuns == old(openRuns) + [sid] && bidiOpened == old(bidiOpened) + {sid} &&
                h2.streams == old(h2.streams)[sid := Opened(s)]
              else
                openRuns == old(openRuns) && bidiOpened == old(bidiOpened) && h2.streams == old(h2.streams)
    {
      hide InStep;
      headed := headed + {sid};
      if h2.streams[sid].req.path !in bidiPaths || sid in bidiOpened {
        return;
      }
      bidiOpened := bidiOpened + {sid};
      h2.SubmitResponseStream(sid);
      openRuns := openRuns + [sid];
    }

    /** The end of a DATA frame that is nobody's to dispatch. */
    method DropPieces(sid: int)
      requires Valid() && (sid in h2.streams ==> !Streaming(sid))
      modifies this`midFrame
      ensures Valid() && midFrame == old(midFrame) - {sid}
    {
      if sid in h2.streams {
        NoPathInStep(h2.streams[sid].req, received[sid], dispatched[sid]);
      }
      hide InStep, OpenInTime;
      midFrame := midFrame - {sid};
    }

    lemma NoPathInStep(req: Request, total: Bytes, sent: seq<Bytes>)
      requires req.path !in clientStreamPaths
      ensures InStep(req, total, sent, false)
    {
    }

    /** Drains the body of `sid` in place and logs every message. */
    method DispatchStream(sid: int)
      requires Valid() && sid in h2.streams && h2.streams[sid].req.path != ""
      modifies this`dispatched, this`midFrame, h2
      ensures Valid() && midFrame == old(midFrame) - {sid}
      ensures var s := old(h2.streams)[sid];
              if s.req.path in clientStreamPaths then
                var d := Drain(s.req.body, gz);
                dispatched == old(dispatched)[sid := old(dispatched)[sid] + d.messages] &&
                h2.streams == old(h2.streams)[sid := s.(req := s.req.(body := d.rest))]
              else
                dispatched == old(dispatched) && h2.streams == old(h2.streams)
    {
      if h2.streams[sid].req.path !in clientStreamPaths {
        DropPieces(sid);
        return;
      }
      DrainBody(sid);
    }

    method DrainBody(sid: int)
      requires Valid() && sid in h2.streams && Streaming(sid)
      modifies this`dispatched, this`midFrame, h2
      ensures Valid() && midFrame == old(midFrame) - {sid}
      ensures var s := old(h2.streams)[sid];
              var d := Drain(s.req.body, gz);
              dispatched == old(dispatched)[sid := old(dispatched)[sid] + d.messages] &&
              h2.streams == old(h2.streams)[sid := s.(req := s.req.(body := d.rest))]
    {
      hide InStep, OpenInTime, Drain;
      var s := h2.streams[sid];
      var messages, left := OnRequestStream(s.req.body, gz);
      DrainInStep(s.req, received[sid], dispatched[sid], sid in midFrame);
      OpenWithBody(s, left, sid in bidiOpened, sid in headed, sid in ended);
      midFrame := midFrame - {sid};
      dispatched := dispatched[sid := dispatched[sid] + messages];
      h2.SetBody(sid, left);
    }

    lemma DrainInStep(req: Request, total: Bytes, sent: seq<Bytes>, mid: bool)
      requires InStep(req, total, sent, mid)
      ensures if req.path in clientStreamPaths then
                var d := Drain(req.body, gz);
                InStep(req.(body := d.rest), total, sent + d.messages, false)
              else
                InStep(req, total, sent, false)
    {
      DrainKeepsStep(total, req.body, sent);
      DrainIdempotent(req.body, gz);
    }

    lemma DrainKeepsStep(total: Bytes, body: Bytes, sent: seq<Bytes>)
      ensures Continues(total, body, sent) ==>
                Continues(total, Drain(body, gz).rest, sent + Drain(body, gz).messages)
    {
      DrainExact(body, gz);
      ParseSound(body);
      assert Parse(Parse(body).rest) == Parsed([], Parse(body).rest);
      assert Messages([], gz) == [];
    }

    /** A context without a path belongs to no streaming call. */
    lemma BlankContext(total: Bytes, sent: seq<Bytes>, mid: bool)
      requires "" !in clientStreamPaths
      ensures InStep(Request("", false, []), total, sent, mid)
    {
    }

    /** `send_unary_response`: one frame, then the trailer. A context that is gone comes back, without a path. */
    method SendUnaryResponse(sid: int, status: int, body: Bytes)
      requires Valid() && sid in received
      modifies this`trailers, h2
      ensures Valid() && trailers == old(trailers) + [(sid, status)]
      ensures h2.streams == old(h2.streams)[sid := Unaried(Context(old(h2.streams), sid), body)]
    {
      hide InStep, Encode;
      BlankContext(received[sid], dispatched[sid], sid in midFrame);
      var framed := EncodeFrame(body);
      var provider := h2.SubmitResponse(sid, framed, true);
      trailers := trailers + [(sid, status)];
    }

    /** `stream_finish`: the provider may end, then the trailer. */
    method StreamFinish(sid: int, status: int)
      requires Valid() && sid in h2.streams
      modifies this`trailers, h2
      ensures Valid() && trailers == old(trailers) + [(sid, status)]
      ensures h2.streams == old(h2.streams)[sid := Finished(old(h2.streams)[sid])]
    {
      hide InStep;
      var rc := h2.FinishStream(sid);
      trailers := trailers + [(sid, status)];
    }

    method Reject(sid: int)
      requires Valid() && sid in h2.streams && sid in ended
      modifies h2
      ensures Valid() && h2.streams == old(h2.streams)[sid := Responded(old(h2.streams)[sid], [], false)]
    {
      hide InStep;
      var provider := h2.SubmitResponse(sid, [], false);
    }

    method OpenResponse(sid: int)
      requires Valid() && sid in h2.streams
      modifies h2
      ensures Valid() && h2.streams == old(h2.streams)[sid := Opened(old(h2.streams)[sid])]
    {
      hide InStep;
      h2.SubmitResponseStream(sid);
    }

    method Answering(sid: int, answer: Answer)
      requires Valid()
      modifies this`answers, this`ended
      ensures Valid() && answers == old(answers) + [(sid, answer)] && ended == old(ended) + {sid}
    {
      hide InStep;
      answers, ended := answers + [(sid, answer)], ended + {sid};
    }

    /** The request half of `sid` has ended. The final drain works on a copy of the body. */
    method OnRequest(sid: int)
      requires Valid() && sid in h2.streams && sid !in ended && sid !in midFrame
      modifies this`dispatched, this`answers, this`trailers, this`bidiOpened, this`ended, h2
      ensures Valid() && ended == old(ended) + {sid}
      ensures old(Streaming(sid)) ==> dispatched == old(dispatched)
      ensures var s := old(h2.streams)[sid];
              answers == old(answers) + [(sid, AnswerTo(s.req))] &&
              trailers == old(trailers) + Trailers(sid, TrailerOf(AnswerTo(s.req))) &&
              h2.streams == old(h2.streams)[sid := Answered(s, AnswerTo(s.req))]
    {
      hide InStep, Drain, Decode, Responded, Finished, Opened, Valid;
      var req := h2.streams[sid].req;
      if !req.isGrpc {
        Answering(sid, NotGrpc);
        Reject(sid);
        return;
      }
      if req.path in clientStreamPaths {
        OnStreamEnd(sid);
        return;
      }
      OnSingleRequest(sid);
    }

    /** The calls whose messages were dispatched as they came. */
    method OnStreamEnd(sid: int)
      requires Valid() && sid in h2.streams && sid !in midFrame && h2.streams[sid].req.isGrpc && Streaming(sid)
      modifies this`dispatched, this`answers, this`trailers, this`bidiOpened, this`ended, h2
      ensures Valid() && ended == old(ended) + {sid} && dispatched == old(dispatched)
      ensures var s := old(h2.streams)[sid];
              answers == old(answers) + [(sid, AnswerTo(s.req))] &&
              trailers == old(trailers) + Trailers(sid, TrailerOf(AnswerTo(s.req))) &&
              h2.streams == old(h2.streams)[sid := Answered(s, AnswerTo(s.req))]
    {
      assert sid in received;
      hide InStep, OpenInTime, Drain, Decode, Responded, Finished, Opened, Valid;
      DrainLeftover(sid);
      if h2.streams[sid].req.path in bidiPaths {
        EndBidi(sid);
      } else {
        Answering(sid, ClientStreamOk);
        SendUnaryResponse(sid, OK, []);
      }
    }

    method EndBidi(sid: int)
      requires Valid() && sid in h2.streams
      modifies this`answers, this`trailers, this`bidiOpened, this`ended, h2
      ensures Valid() && ended == old(ended) + {sid} && answers == old(answers) + [(sid, BidiFinished)]
      ensures trailers == old(trailers) + [(sid, OK)] && bidiOpened == old(bidiOpened) - {sid}
      ensures h2.streams == old(h2.streams)[sid := Finished(old(h2.streams)[sid])]
    {
      hide Valid;
      Answering(sid, BidiFinished);
      StreamFinish(sid, OK);
      ForgetOpened(sid);
    }

    method ForgetOpened(sid: int)
      requires Valid() && sid in ended
      modifies this`bidiOpened
      ensures Valid() && bidiOpened == old(bidiOpened) - {sid}
    {
      hide InStep;
      bidiOpened := bidiOpened - {sid};
    }

    /** The calls with one request message, which is decoded once. */
    method OnSingleRequest(sid: int)
      requires Valid() && sid in h2.streams && h2.streams[sid].req.isGrpc && !Streaming(sid)
      modifies this`answers, this`trailers, this`ended, h2
      ensures Valid() && ended == old(ended) + {sid}
      ensures var s := old(h2.streams)[sid];
              answers == old(answers) + [(sid, AnswerTo(s.req))] &&
              trailers == old(trailers) + Trailers(sid, TrailerOf(AnswerTo(s.req))) &&
              h2.streams == old(h2.streams)[sid := Answered(s, AnswerTo(s.req))]
    {
      var req := h2.streams[sid].req;
      var request, rest := DecodeFrame(req.body, gz);
      assert request == Decode(req.body, gz).message;
      hide Valid, Decode;
      if req.path in serverStreamPaths {
        Answering(sid, ServerStream(request));
        OpenResponse(sid);
      } else if req.path in asyncPaths {
        Answering(sid, AsyncUnary(request));
      } else if req.path in unaryHandlers {
        var reply := unaryHandlers[req.path](request);
        Answering(sid, Unary(request, reply));
        SendUnaryResponse(sid, reply.status, reply.body);
      } else {
        Answering(sid, Unimplemented);
        SendUnaryResponse(sid, UNIMPLEMENTED, []);
      }
    }

    /** The handler of an asynchronous call responds, at any time. */
    method Respond(sid: int, status: int, body: Bytes)
      requires Valid() && sid in received
      modifies this`trailers, h2
      ensures Valid() && trailers == old(trailers) + [(sid, status)]
      ensures h2.streams == old(h2.streams)[sid := Unaried(Context(old(h2.streams), sid), body)]
    {
      SendUnaryResponse(sid, status, body);
    }

    /** Messages still complete in the body at the end of a streaming call; there are none. */
    method DrainLeftover(sid: int)
      requires Valid() && sid in h2.streams && Streaming(sid) && sid !in midFrame
      modifies this`dispatched
      ensures Valid() && dispatched == old(dispatched)
    {
      assert Drain(h2.streams[sid].req.body, gz) == Drained([], h2.streams[sid].req.body);
      hide InStep, OpenInTime;
      var leftover := h2.streams[sid].req.body;
      var messages, left := OnRequestStream(leftover, gz);
      assert dispatched[sid] + messages == dispatched[sid];
      dispatched := dispatched[sid := dispatched[sid] + messages];
      assert dispatched == old(dispatched);
    }

    /** The first of these that applies, in the order of the source. */
    function AnswerTo(req: Request): Answer {
      if !req.isGrpc then NotGrpc
      else if req.path in clientStreamPaths then if req.path in bidiPaths then BidiFinished else ClientStreamOk
      else
        var request := Decode(req.body, gz).message;
        if req.path in serverStreamPaths then ServerStream(request)
        else if req.path in asyncPaths then AsyncUnary(request)
        else if req.path in unaryHandlers then Unary(request, unaryHandlers[req.path](request))
        else Unimplemented
    }

    /** The frame opens the response half of a bidirectional call. */
    ghost predicate Opens(kind: FrameKind, sid: int)
      reads this, h2
    {
      kind == HEADERS && sid in h2.streams && h2.streams[sid].req.path in bidiPaths && sid !in bidiOpened
    }

    /** The stream after a frame, before an answer: opened, or its body drained. */
    function Moved(s: Stream, kind: FrameKind, opens: bool): Stream {
      if opens then Opened(s)
      else if kind == DATA && s.req.path in clientStreamPaths
      then s.(req := s.req.(body := Drain(s.req.body, gz).rest))
      else s
    }

    /** The first two parts of `on_frame_recv`. */
    method OnFrame(kind: FrameKind, sid: int)
      requires Valid() && sid !in ended && (kind != DATA ==> sid !in midFrame)
      modifies this`bidiOpened, this`openRuns, this`headed, this`dispatched, this`midFrame, h2
      ensures Valid() && midFrame == if kind == DATA then old(midFrame) - {sid} else old(midFrame)
      ensures openRuns == if old(Opens(kind, sid)) then old(openRuns) + [sid] else old(openRuns)
      ensures old(Opens(kind, sid)) ==> sid in bidiOpened
      ensures sid !in old(h2.streams) ==> h2.streams == old(h2.streams)
      ensures sid in old(h2.streams) ==>
                h2.streams == old(h2.streams)[sid := Moved(old(h2.streams)[sid], kind, old(Opens(kind, sid)))]
      ensures sid in old(h2.streams) && old(Streaming(sid)) ==>
                var d := Drain(old(h2.streams)[sid].req.body, gz);
                dispatched ==
                  if kind == DATA then old(dispatched)[sid := old(dispatched)[sid] + d.messages] else old(dispatched)
    {
      hide InStep, OpenInTime, Drain, Opened;
      if kind == HEADERS && sid in h2.streams && h2.streams[sid].req.path != "" {
        OnRequestHeaders(sid);
      }
      if kind == DATA {
        if sid in h2.streams && h2.streams[sid].req.path != "" {
          DispatchStream(sid);
        } else {
          DropPieces(sid);
        }
      }
    }

    /** A whole frame has arrived. HEADERS open a bidirectional call, once; on a streaming call a DATA frame dispatches
        what is complete, once; END_STREAM of either adds one answer with its trailers, and no message. */
    method OnFrameRecv(kind: FrameKind, sid: int, endStream: bool)
      requires Valid() && sid !in ended
      requires kind != DATA ==> sid !in midFrame
      modifies this, h2
      ensures Valid() && received == old(received)
      ensures midFrame == if kind == DATA then old(midFrame) - {sid} else old(midFrame)
      ensures ended == if endStream && kind != OTHER && sid in old(h2.streams) then old(ended) + {sid} else old(ended)
      ensures sid in old(h2.streams) && old(Streaming(sid)) ==>
                var d := Drain(old(h2.streams)[sid].req.body, gz);
                dispatched ==
                  if kind == DATA then old(dispatched)[sid := old(dispatched)[sid] + d.messages] else old(dispatched)
      ensures openRuns == if old(Opens(kind, sid)) then old(openRuns) + [sid] else old(openRuns)
      ensures old(Opens(kind, sid)) && !endStream ==>
                sid in bidiOpened && sid in h2.streams &&
                var t := h2.streams[sid];
                t.streaming && !t.finished && t.respBody == [] && t.trailerMode
      ensures sid !in old(h2.streams) ==>
                h2.streams == old(h2.streams) && answers == old(answers) && trailers == old(trailers)
      ensures sid in old(h2.streams) ==>
                var t := Moved(old(h2.streams)[sid], kind, old(Opens(kind, sid)));
                var ends := endStream && kind != OTHER;
                h2.streams == old(h2.streams)[sid := if ends then Answered(t, AnswerTo(t.req)) else t] &&
                answers == old(answers) + (if ends then [(sid, AnswerTo(t.req))] else []) &&
                trailers == old(trailers) + (if ends then Trailers(sid, TrailerOf(AnswerTo(t.req))) else [])
    {
      OnFrame(kind, sid);
      OpensStreaming(kind, sid);
      assert sid in h2.streams ==> Streaming(sid) == old(Streaming(sid));
      hide *;
      if !endStream || kind == OTHER {
        return;
      }
      if sid in h2.streams {
        OnRequest(sid);
      }
    }

    lemma OpensStreaming(kind: FrameKind, sid: int)
      ensures forall s: Stream :: var t := Moved(s, kind, true);
                                  t.streaming && !t.finished && t.respBody == [] && t.trailerMode
    {
    }

    method OnStreamClose(sid: int)
      requires Valid()
      modifies h2
      ensures Valid() && h2.streams == old(h2.streams) - {sid}
    {
      hide InStep, OpenInTime;
      h2.OnStreamClose(sid);
    }

    /** A bidirectional call whose HEADERS have come, and whose request half is open, has been opened once. */
    lemma HeadedIsOpen(sid: int)
      requires Valid() && sid in headed && HalfOpen(sid)
      ensures sid in bidiOpened && sid in openRuns && h2.streams[sid].streaming && h2.streams[sid].trailerMode
    {
    }

    /** A unary call from end to end: the handler is run on the message that was sent, and what nghttp2 reads of the
        response, in whatever pieces, is one frame with the handler's message, then EOF, then a trailer with its
        status. */
    lemma UnaryCall(s: Stream, m: Bytes, lengths: seq<nat>)
      requires s.req.isGrpc && s.req.body == Encode(Frame(0, m)) && |m| < WRAP_LEN && !s.streaming
      requires s.req.path in unaryHandlers
      requires s.req.path !in clientStreamPaths + serverStreamPaths + asyncPaths
      requires var reply := unaryHandlers[s.req.path](m);
               |reply.body| < WRAP_LEN && |lengths| > HEADER_LEN + |reply.body|
      requires forall i :: 0 <= i < |lengths| ==> lengths[i] > 0
      ensures var reply := unaryHandlers[s.req.path](m);
              var t := ReadAll(Answered(s, AnswerTo(s.req)), lengths);
              t.eof && t.trailerMode && ClientDrain(t.read) == Done([reply.body], []) &&
              TrailerOf(AnswerTo(s.req)) == [reply.status]
    {
      hide AnswerTo, Encode, ReadAll, ClientDrain, Unaried;
      UnaryIsAnswered(s.req, m);
      ReplyIsRead(s, unaryHandlers[s.req.path](m).body, lengths);
    }

    lemma UnaryIsAnswered(req: Request, m: Bytes)
      requires req.isGrpc && req.body == Encode(Frame(0, m)) && |m| < WRAP_LEN
      requires req.path in unaryHandlers && req.path !in clientStreamPaths + serverStreamPaths + asyncPaths
      ensures AnswerTo(req) == Unary(m, unaryHandlers[req.path](m))
    {
      OneFrameIsDecoded(m);
      hide Decode, Encode;
    }

    /** What is read of a unary response: one frame with the reply. */
    lemma ReplyIsRead(s: Stream, reply: Bytes, lengths: seq<nat>)
      requires !s.streaming && |reply| < WRAP_LEN && |lengths| > HEADER_LEN + |reply|
      requires forall i :: 0 <= i < |lengths| ==> lengths[i] > 0
      ensures var t := ReadAll(Unaried(s, reply), lengths);
              t.eof && t.trailerMode && ClientDrain(t.read) == Done([reply], [])
    {
      OneFrame(reply);
      ClientExact(Encode(Frame(0, reply)));
      hide ReadAll;
      UnaryResponseIsRead(s, Encode(Frame(0, reply)), true, lengths);
    }

    lemma OneFrame(m: Bytes)
      requires |m| < WRAP_LEN
      ensures var b := Encode(Frame(0, m));
              Complete(b) && Head(b) == Frame(0, m) && Tail(b) == [] && Parse(b) == Parsed([Frame(0, m)], []) &&
              ClientInRange(b) && Bodies([Frame(0, m)]) == [m]
    {
      var b := Encode(Frame(0, m));
      EncodeReadsBack(Frame(0, m));
      assert b + [] == b;
      EncodeHead(Frame(0, m), []);
    }

    /** A call with one message that is not unary reaches its handler with the message that was sent: a server-streaming
        one first of all, and an asynchronous one with nothing done to the stream yet. */
    lemma RequestReachesHandler(s: Stream, m: Bytes)
      requires s.req.isGrpc && s.req.body == Encode(Frame(0, m)) && |m| < WRAP_LEN
      requires s.req.path !in clientStreamPaths
      ensures s.req.path in serverStreamPaths ==> AnswerTo(s.req) == ServerStream(m)
      ensures s.req.path in asyncPaths - serverStreamPaths ==>
                AnswerTo(s.req) == AsyncUnary(m) && Answered(s, AnswerTo(s.req)) == s &&
                TrailerOf(AnswerTo(s.req)) == []
    {
      OneFrameIsDecoded(m);
      hide Decode;
    }

    lemma OneFrameIsDecoded(m: Bytes)
      requires |m| < WRAP_LEN
      ensures Decode(Encode(Frame(0, m)), gz) == Decoded(m, [])
    {
      OneFrame(m);
      DecodeComplete(Encode(Frame(0, m)), gz);
    }

    /** A call of an unknown method is answered with an empty message and UNIMPLEMENTED, a client-streaming call with
        an empty message and OK. */
    lemma EmptyAnswers(s: Stream, lengths: seq<nat>)
      requires !s.streaming && |lengths| > HEADER_LEN && forall i :: 0 <= i < |lengths| ==> lengths[i] > 0
      requires s.req.isGrpc
      requires s.req.path in clientStreamPaths - bidiPaths ||
               s.req.path !in clientStreamPaths + serverStreamPaths + asyncPaths + unaryHandlers.Keys
      ensures var t := ReadAll(Answered(s, AnswerTo(s.req)), lengths);
              t.eof && t.trailerMode && ClientDrain(t.read) == Done([[]], []) &&
              TrailerOf(AnswerTo(s.req)) == [if s.req.path in clientStreamPaths then 0 else 12]
    {
      hide ReadAll, Decode, ClientDrain, Unaried;
      ReplyIsRead(s, [], lengths);
    }

    /** A request that is not gRPC is answered with an empty response and no trailers; a bidirectional call ends by
        finishing its stream, with OK; a server-streaming call opens it. */
    lemma OtherAnswers(s: Stream, lengths: seq<nat>)
      requires |lengths| > 0 && forall i :: 0 <= i < |lengths| ==> lengths[i] > 0
      ensures !s.req.isGrpc && !s.streaming ==>
                var t := ReadAll(Answered(s, AnswerTo(s.req)), lengths);
                t.eof && !t.trailerMode && t.read == [] && TrailerOf(AnswerTo(s.req)) == []
      ensures s.req.isGrpc && s.req.path in clientStreamPaths * bidiPaths ==>
                Answered(s, AnswerTo(s.req)) == s.(finished := true, deferred := false) &&
                TrailerOf(AnswerTo(s.req)) == [0]
      ensures s.req.isGrpc && s.req.path in serverStreamPaths - clientStreamPaths ==>
                var t := Answered(s, AnswerTo(s.req));
                t.streaming && !t.finished && t.respBody == [] && t.trailerMode && TrailerOf(AnswerTo(s.req)) == []
    {
      if !s.streaming {
        UnaryResponseIsRead(s, [], false, lengths);
      }
      hide ReadAll, Decode;
    }

    /** Chunk independence for the live object: between DATA frames a streaming call has dispatched exactly the
        messages of all bytes received so far, and its buffer is exactly the trailing partial frame. */
    lemma BetweenFrames(sid: int)
      requires Valid() && sid in h2.streams && Streaming(sid) && sid !in midFrame
      requires InRange(received[sid])
      ensures Drained(dispatched[sid], h2.streams[sid].req.body) == Reference(received[sid], gz)
    {
      var body := h2.streams[sid].req.body;
      DrainExact(body, gz);
      assert InStep(h2.streams[sid].req, received[sid], dispatched[sid], false);
      assert Drain(body, gz).messages == [];
    }
  }
}
