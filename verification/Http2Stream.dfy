/**
 The streaming half of `http2_session`: the staging buffer of a response and the data provider
 that nghttp2 pulls from it. nghttp2 itself is an interface: it may call the provider, with any
 positive length, while the provider is neither deferred nor at EOF.
 */
module Http2Stream {
  import opened ByteStrings
  import opened Text

  /** A request as far as its headers and body have arrived. */
  datatype Request = Request(path: string, isGrpc: bool, body: Bytes)

  /**
   `stream_ctx`. The last four fields are not the program's: `deferred` and `eof` are what
   nghttp2 knows of the provider, `pushed` and `read` what went in and came out so far.
   */
  datatype Stream = Stream(
    req: Request,
    respBody: Bytes, trailerMode: bool, streaming: bool, finished: bool,
    deferred: bool, eof: bool, pushed: Bytes, read: Bytes)

  function NewStream(req: Request): Stream {
    Stream(req, [], false, false, false, false, false, [], [])
  }

  /** `m_streams[sid]` creates the context when there is none. */
  function Context(streams: map<int, Stream>, sid: int): Stream {
    if sid in streams then streams[sid] else NewStream(Request("", false, []))
  }

  /** What one call of the provider tells nghttp2. */
  datatype Reading = Deferred | Chunk(data: Bytes, eof: bool, noEndStream: bool)

  function Opened(s: Stream): Stream {
    s.(respBody := [], streaming := true, finished := false, trailerMode := true,
       deferred := false, eof := false, pushed := [], read := [])
  }

  function Responded(s: Stream, body: Bytes, withTrailers: bool): Stream {
    s.(respBody := body, trailerMode := withTrailers, deferred := false, eof := false, pushed := body, read := [])
  }

  function Pushed(s: Stream, chunk: Bytes): Stream {
    s.(respBody := s.respBody + chunk, pushed := s.pushed + chunk, deferred := false)
  }

  function Finished(s: Stream): Stream {
    s.(finished := true, deferred := false)
  }

  function ReadingOf(s: Stream, length: nat): Reading {
    if s.respBody == [] then
      if s.streaming && !s.finished then Deferred else Chunk([], true, s.trailerMode)
    else
      var data := Substr(s.respBody, 0, length);
      var last := !s.streaming && |data| == |s.respBody|;
      Chunk(data, last, last && s.trailerMode)
  }

  function AfterReading(s: Stream, r: Reading): Stream {
    match r
    case Deferred => s.(deferred := true)
    case Chunk(data, eof, _) =>
      if |data| <= |s.respBody| then
        s.(respBody := s.respBody[|data|..], read := s.read + data, eof := eof)
      else
        s
  }

  /** No byte is lost, and the provider sleeps only when there is nothing to do: no wake-up is missed. */
  ghost predicate Sound(s: Stream) {
    && s.read + s.respBody == s.pushed
    && (s.deferred ==> s.streaming && s.respBody == [] && !s.finished && !s.eof)
    && (s.eof && s.streaming ==> s.finished)
  }

  predicate MayRead(s: Stream) {
    !s.deferred && !s.eof
  }

  class Http2Session {
    var streams: map<int, Stream>

    constructor ()
      ensures streams == map[]
    {
      streams := map[];
    }

    /** A request's HEADERS; `try_emplace` leaves an existing context alone. */
    method OnHeaders(sid: int, path: string, isGrpc: bool)
      modifies this
      ensures sid in old(streams) ==> streams == old(streams)
      ensures sid !in old(streams) ==> streams == old(streams)[sid := NewStream(Request(path, isGrpc, []))]
    {
      if sid !in streams {
        streams := streams[sid := NewStream(Request(path, isGrpc, []))];
      }
    }

    method SubmitResponseStream(sid: int)
      modifies this
      ensures streams == old(streams)[sid := Opened(Context(old(streams), sid))]
    {
      var ctx := Context(streams, sid);
      ctx := ctx.(respBody := [], pushed := [], read := []);
      ctx := ctx.(streaming := true, finished := false, trailerMode := true);
      ctx := ctx.(deferred := false, eof := false);
      streams := streams[sid := ctx];
    }

    /** A unary response. nghttp2 gets no provider when there is neither a body nor a trailer to come. */
    method SubmitResponse(sid: int, body: Bytes, withTrailers: bool) returns (provider: bool)
      modifies this
      ensures streams == old(streams)[sid := Responded(Context(old(streams), sid), body, withTrailers)]
      ensures provider <==> body != [] || withTrailers
    {
      var ctx := Context(streams, sid);
      ctx := ctx.(respBody := body, trailerMode := withTrailers);
      streams := streams[sid := ctx.(deferred := false, eof := false, pushed := body, read := [])];
      provider := body != [] || withTrailers;
    }

    method PushStreamData(sid: int, chunk: Bytes) returns (rc: int)
      modifies this
      ensures rc == 0 <==> sid in old(streams)
      ensures sid in old(streams) ==> streams == old(streams)[sid := Pushed(old(streams)[sid], chunk)]
      ensures sid !in old(streams) ==> rc == -1 && streams == old(streams)
    {
      if sid !in streams {
        return -1;
      }
      var ctx := streams[sid];
      ctx := ctx.(respBody := ctx.respBody + chunk, pushed := ctx.pushed + chunk);
      ctx := ctx.(deferred := false);  // nghttp2_session_resume_data
      streams := streams[sid := ctx];
      rc := 0;
    }

    method FinishStream(sid: int) returns (rc: int)
      modifies this
      ensures rc == 0 <==> sid in old(streams)
      ensures sid in old(streams) ==> streams == old(streams)[sid := Finished(old(streams)[sid])]
      ensures sid !in old(streams) ==> rc == -1 && streams == old(streams)
    {
      if sid !in streams {
        return -1;
      }
      streams := streams[sid := streams[sid].(finished := true, deferred := false)];
      rc := 0;
    }

    /** `response_body_read`, with what nghttp2 remembers of the answer. */
    method ResponseBodyRead(sid: int, length: nat) returns (r: Reading)
      requires sid in streams && MayRead(streams[sid]) && length > 0
      modifies this
      ensures r == ReadingOf(old(streams)[sid], length)
      ensures streams == old(streams)[sid := AfterReading(old(streams)[sid], r)]
      ensures Sound(old(streams)[sid]) ==> Sound(streams[sid])
      ensures r.Chunk? ==> r.data <= old(streams)[sid].respBody && |r.data| <= length
      ensures r.Chunk? && r.eof ==> streams[sid].respBody == [] && r.noEndStream == streams[sid].trailerMode
    {
      var ctx := streams[sid];
      if ctx.respBody == [] {
        if ctx.streaming && !ctx.finished {
          streams := streams[sid := ctx.(deferred := true)];
          return Deferred;
        }
        streams := streams[sid := ctx.(eof := true)];
        assert ctx.respBody[0..] == ctx.respBody && ctx.read + [] == ctx.read;
        return Chunk([], true, ctx.trailerMode);
      }
      var n := if length < |ctx.respBody| then length else |ctx.respBody|;
      var data := ctx.respBody[..n];
      var rest := ctx.respBody[n..];
      assert ctx.respBody == data + rest;
      var eof := !ctx.streaming && rest == [];
      r := Chunk(data, eof, eof && ctx.trailerMode);
      assert ctx.read + ctx.respBody == (ctx.read + data) + rest;
      streams := streams[sid := ctx.(respBody := rest, read := ctx.read + data, eof := eof)];
    }

    method OnDataChunkRecv(sid: int, data: Bytes)
      modifies this
      ensures sid in old(streams) ==>
                var s := old(streams)[sid];
                streams == old(streams)[sid := s.(req := s.req.(body := s.req.body + data))]
      ensures sid !in old(streams) ==> streams == old(streams)
    {
      if sid in streams {
        var s := streams[sid];
        streams := streams[sid := s.(req := s.req.(body := s.req.body + data))];
      }
    }

    /** The request-stream handler has consumed from the body it was handed by reference. */
    method SetBody(sid: int, body: Bytes)
      requires sid in streams
      modifies this
      ensures var s := old(streams)[sid]; streams == old(streams)[sid := s.(req := s.req.(body := body))]
    {
      var s := streams[sid];
      streams := streams[sid := s.(req := s.req.(body := body))];
    }

    method OnStreamClose(sid: int)
      modifies this
      ensures streams == old(streams) - {sid}
    {
      streams := streams - {sid};
    }
  }

  /** Everything that can happen to a streaming response once it is open. */
  datatype Op = Push(chunk: Bytes) | Finish | Read(length: nat)

  predicate Enabled(s: Stream, op: Op) {
    op.Read? ==> MayRead(s) && op.length > 0
  }

  function Do(s: Stream, op: Op): Stream {
    match op
    case Push(chunk) => Pushed(s, chunk)
    case Finish => Finished(s)
    case Read(n) => AfterReading(s, ReadingOf(s, n))
  }

  /** The state after a list of operations, as long as each is enabled in turn. */
  function DoAll(s: Stream, ops: seq<Op>): Option<Stream> {
    if ops == [] then
      Some(s)
    else
      match DoAll(s, ops[..|ops| - 1])
      case None => None
      case Some(t) => if Enabled(t, ops[|ops| - 1]) then Some(Do(t, ops[|ops| - 1])) else None
  }

  function PushedBy(ops: seq<Op>): Bytes {
    if ops == [] then [] else
      PushedBy(ops[..|ops| - 1]) + (if ops[|ops| - 1].Push? then ops[|ops| - 1].chunk else [])
  }

  /** The bytes nghttp2 took, operation by operation. */
  function ReadBy(s: Stream, ops: seq<Op>): Bytes {
    if ops == [] then
      []
    else
      var init, op := ops[..|ops| - 1], ops[|ops| - 1];
      ReadBy(s, init) +
      match DoAll(s, init)
      case None => []
      case Some(t) => if op.Read? && ReadingOf(t, op.length).Chunk? then ReadingOf(t, op.length).data else []
  }

  lemma ReadKeepsSound(s: Stream, n: nat)
    requires Sound(s) && MayRead(s)
    ensures Sound(AfterReading(s, ReadingOf(s, n)))
    ensures var r := ReadingOf(s, n);
            AfterReading(s, r).read == s.read + (if r.Chunk? then r.data else [])
    ensures var r := ReadingOf(s, n);
            r.Chunk? && r.eof ==>
              AfterReading(s, r).read == s.pushed && (s.streaming ==> s.finished) && r.noEndStream == s.trailerMode
  {
    var r := ReadingOf(s, n);
    if r.Chunk? {
      assert s.respBody == s.respBody[..|r.data|] + s.respBody[|r.data|..];
      assert s.read + s.respBody == (s.read + r.data) + s.respBody[|r.data|..];
    }
  }

  predicate FinishedBy(ops: seq<Op>) {
    exists i :: 0 <= i < |ops| && ops[i].Finish?
  }

  lemma FinishedByMore(ops: seq<Op>)
    requires ops != []
    ensures FinishedBy(ops) <==> FinishedBy(ops[..|ops| - 1]) || ops[|ops| - 1].Finish?
  {
    assert forall i :: 0 <= i < |ops| - 1 ==> ops[..|ops| - 1][i] == ops[i];
  }

  /** In every interleaving of pushes, finish and reads of any length, what was read and what is still staged
      are together what was pushed; sleeping implies an empty buffer and an open stream. */
  lemma {:induction false} ProviderRun(s: Stream, ops: seq<Op>)
    requires DoAll(Opened(s), ops).Some?
    ensures var t := DoAll(Opened(s), ops).value;
            Sound(t) && t.streaming && t.trailerMode && (t.finished <==> FinishedBy(ops)) &&
            t.pushed == PushedBy(ops) && t.read == ReadBy(Opened(s), ops)
  {
    if ops != [] {
      var init, op := ops[..|ops| - 1], ops[|ops| - 1];
      ProviderRun(s, init);
      FinishedByMore(ops);
      hide FinishedBy;
      var t := DoAll(Opened(s), init).value;
      match op {
        case Push(chunk) =>
          assert t.read + (t.respBody + chunk) == t.pushed + chunk;
        case Finish =>
        case Read(n) =>
          ReadKeepsSound(t, n);
      }
    }
  }

  /** EOF says exactly that the stream was finished and everything ever pushed has been read, and always carries
      NO_END_STREAM, so that the grpc-status trailer can follow. */
  lemma EofMeansDrained(s: Stream, ops: seq<Op>, n: nat)
    requires DoAll(Opened(s), ops).Some? && n > 0
    requires MayRead(DoAll(Opened(s), ops).value)
    ensures var t := DoAll(Opened(s), ops).value;
            var r := ReadingOf(t, n);
            (r.Chunk? && r.eof <==> FinishedBy(ops) && ReadBy(Opened(s), ops) == PushedBy(ops)) &&
            (r.Chunk? && r.eof ==> r.noEndStream && r.data == [])
  {
    ProviderRun(s, ops);
    var t := DoAll(Opened(s), ops).value;
    assert |t.read + t.respBody| == |t.read| + |t.respBody|;
    assert t.respBody == [] ==> t.read + t.respBody == t.read;
  }

  /** The provider sleeps exactly when it has handed over everything and the stream is not finished; otherwise, short
      of EOF, it hands over the next pushed bytes, as many as were asked for or are there, and at least one. */
  lemma DeferredMeansIdle(s: Stream, ops: seq<Op>, n: nat)
    requires DoAll(Opened(s), ops).Some? && n > 0
    requires MayRead(DoAll(Opened(s), ops).value)
    ensures var r := ReadingOf(DoAll(Opened(s), ops).value, n);
            var all, got := PushedBy(ops), |ReadBy(Opened(s), ops)|;
            got <= |all| &&
            (r.Deferred? <==> got == |all| && !FinishedBy(ops)) &&
            (r.Chunk? && !r.eof ==>
               0 < |r.data| == (if n < |all| - got then n else |all| - got) && r.data == all[got..got + |r.data|])
  {
    ProviderRun(s, ops);
    var t := DoAll(Opened(s), ops).value;
    assert PushedBy(ops) == t.read + t.respBody;
    hide DoAll, PushedBy, ReadBy, FinishedBy;
    var r := ReadingOf(t, n);
    if r.Chunk? {
      assert r.data == t.respBody[..|r.data|] == (t.read + t.respBody)[|t.read|..|t.read| + |r.data|];
    }
  }

  /** Repeated reading until EOF or the lengths run out. */
  function ReadAll(s: Stream, lengths: seq<nat>): Stream
    decreases |lengths|
  {
    if lengths == [] || !MayRead(s) then s
    else ReadAll(AfterReading(s, ReadingOf(s, lengths[0])), lengths[1..])
  }

  /** A response that is complete, unary or finished, is drained: whatever positive lengths nghttp2 asks for, as many
      reads as there are staged bytes, and one more, deliver every pushed byte and reach EOF. The provider never
      stalls. */
  lemma {:induction false} CompleteResponseDrains(s: Stream, lengths: seq<nat>)
    requires Sound(s) && (s.streaming ==> s.finished) && MayRead(s)
    requires |lengths| > |s.respBody|
    requires forall i :: 0 <= i < |lengths| ==> lengths[i] > 0
    ensures ReadAll(s, lengths).eof && ReadAll(s, lengths).read == s.pushed
    decreases |lengths|
  {
    var t := AfterReading(s, ReadingOf(s, lengths[0]));
    ReadKeepsSound(s, lengths[0]);
    if s.respBody == [] {
      assert !MayRead(t);
      assert s.respBody[0..] == [] && t.read + [] == t.read;
    } else {
      if MayRead(t) {
        CompleteResponseDrains(t, lengths[1..]);
      }
    }
  }

  /** Reading keeps a unary stream unary, and leaves a byte staged unless it has said EOF. */
  lemma {:induction false} UnaryReads(t: Stream, lengths: seq<nat>)
    requires !t.streaming && Sound(t)
    requires forall i :: 0 <= i < |lengths| ==> lengths[i] > 0
    ensures var u := ReadAll(t, lengths);
            !u.streaming && u.trailerMode == t.trailerMode && Sound(u) && u.pushed == t.pushed &&
            (!u.eof && u.respBody == [] ==> t.respBody == [])
    decreases |lengths|
  {
    if lengths != [] && MayRead(t) {
      ReadKeepsSound(t, lengths[0]);
      UnaryReads(AfterReading(t, ReadingOf(t, lengths[0])), lengths[1..]);
    }
  }

  /** A unary response on a stream that was not opened for streaming is read as it was given, up to EOF. */
  lemma UnaryResponseIsRead(s: Stream, body: Bytes, withTrailers: bool, lengths: seq<nat>)
    requires !s.streaming && |lengths| > |body|
    requires forall i :: 0 <= i < |lengths| ==> lengths[i] > 0
    ensures var t := ReadAll(Responded(s, body, withTrailers), lengths);
            t.eof && t.read == body && t.trailerMode == withTrailers
  {
    var t := Responded(s, body, withTrailers);
    assert [] + body == body;
    CompleteResponseDrains(t, lengths);
    UnaryReads(t, lengths);
    hide ReadAll;
  }

  /** Every reading of it is data, its end is the end of the body, and it asks for trailers exactly then and if there
      are to be some. */
  lemma UnaryReadingEnds(s: Stream, body: Bytes, withTrailers: bool, lengths: seq<nat>, n: nat)
    requires !s.streaming && n > 0 && forall i :: 0 <= i < |lengths| ==> lengths[i] > 0
    requires MayRead(ReadAll(Responded(s, body, withTrailers), lengths))
    ensures var t := ReadAll(Responded(s, body, withTrailers), lengths);
            var r := ReadingOf(t, n);
            r.Chunk? && (r.eof <==> t.read + r.data == body) && r.noEndStream == (r.eof && withTrailers) &&
            (r.data == [] ==> body == [])
  {
    var u := Responded(s, body, withTrailers);
    assert [] + body == body;
    UnaryReads(u, lengths);
    var t := ReadAll(u, lengths);
    hide ReadAll;
    assert t.read + t.respBody == body;
    WholeWithPart(t.read, t.respBody, ReadingOf(t, n).data);
  }

  lemma WholeWithPart(a: Bytes, b: Bytes, part: Bytes)
    requires part <= b
    ensures a + part == a + b <==> |part| == |b|
  {
    if |part| == |b| {
      assert part == b;
    } else {
      assert |a + part| != |a + b|;
    }
  }

  /** A sleeping provider is woken by the next push: the byte it slept for can be read at once. */
  lemma PushWakes(s: Stream, ops: seq<Op>, chunk: Bytes, n: nat)
    requires DoAll(Opened(s), ops).Some? && DoAll(Opened(s), ops).value.deferred && chunk != [] && n > 0
    ensures var t := Pushed(DoAll(Opened(s), ops).value, chunk);
            MayRead(t) && ReadingOf(t, n) == Chunk(Substr(chunk, 0, n), false, false)
  {
    ProviderRun(s, ops);
    var t := DoAll(Opened(s), ops).value;
    assert t.respBody + chunk == chunk;
  }
}
