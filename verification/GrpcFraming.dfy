/**
 gRPC's Length-Prefixed-Message layer as the code computes it: the server's `decode_frame` and
 `on_request_stream`, and the client's `on_data`. All three form `5u + len` in 32 bits; the wrap is
 modelled, and it is shown exactly when it separates the code from the reference reading.
 */
module GrpcFraming {
  import opened ByteStrings
  import opened Framing
  import opened Text

  /** zlib's inflate on a non-empty input; an empty result stands for failure. */
  type Inflate = Bytes -> Bytes

  function GzipInflate(data: Bytes, gz: Inflate): Bytes {
    if data == [] then [] else gz(data)
  }

  predicate Compressed(flag: byte) {
    flag % 2 == 1
  }

  /** The message a handler receives for a frame. A failed inflate yields the empty message. */
  function Message(f: Frame, gz: Inflate): Bytes {
    if Compressed(f.kind) then GzipInflate(f.body, gz) else f.body
  }

  function Messages(fs: seq<Frame>, gz: Inflate): (ms: seq<Bytes>)
    ensures |ms| == |fs|
  {
    seq(|fs|, i requires 0 <= i < |fs| => Message(fs[i], gz))
  }

  /** `5u + len` on 32-bit unsigned integers. */
  function WireSize(len: nat): nat {
    (HEADER_LEN + len) % TWO_TO_THE_32
  }

  /** A decoding outcome: what was delivered, and what stays in the buffer. */
  datatype Decoded = Decoded(message: Bytes, rest: Bytes)
  datatype Drained = Drained(messages: seq<Bytes>, rest: Bytes)

  /** `substr` and `erase` clip at the end of the buffer, which matters once the sum has wrapped. */
  function Decode(buf: Bytes, gz: Inflate): (d: Decoded)
    ensures |d.rest| <= |buf|
  {
    if |buf| < HEADER_LEN || |buf| < WireSize(AnnouncedLen(buf)) then
      Decoded([], buf)
    else
      var len := AnnouncedLen(buf);
      Decoded(Message(Frame(buf[0], Substr(buf, HEADER_LEN, len)), gz), buf[WireSize(len)..])
  }

  /** What the loop of `on_request_stream` dispatches from a buffer. */
  function Drain(buf: Bytes, gz: Inflate): (d: Drained)
    decreases |buf|
  {
    if |buf| < HEADER_LEN then
      Drained([], buf)
    else
      var d := Decode(buf, gz);
      if |d.rest| == |buf| then
        Drained([], buf)
      else
        var more := Drain(d.rest, gz);
        Drained([d.message] + more.messages, more.rest)
  }

  /** The protocol's own reading of the same bytes. */
  function Reference(buf: Bytes, gz: Inflate): Drained {
    Drained(Messages(Parse(buf).frames, gz), Parse(buf).rest)
  }

  /** From this length on the sum wraps: to zero first, and past it for the last four lengths. */
  const WRAP_LEN: nat := TWO_TO_THE_32 - 5

  /** A partial frame that the code takes for a complete one. */
  predicate AnnouncesTooMuch(rest: Bytes) {
    HEADER_LEN <= |rest| && AnnouncedLen(rest) > WRAP_LEN
  }

  predicate Small(f: Frame) {
    |f.body| < WRAP_LEN
  }

  predicate AllSmall(fs: seq<Frame>) {
    forall i :: 0 <= i < |fs| ==> Small(fs[i])
  }

  /** No frame in the buffer, complete or partial, has a length on which the sum misleads the code. */
  predicate InRange(buf: Bytes) {
    AllSmall(Parse(buf).frames) && !AnnouncesTooMuch(Parse(buf).rest)
  }

  lemma MessagesCons(f: Frame, fs: seq<Frame>, gz: Inflate)
    ensures Messages([f] + fs, gz) == [Message(f, gz)] + Messages(fs, gz)
  {
  }

  lemma MessagesConcat(fs: seq<Frame>, gs: seq<Frame>, gz: Inflate)
    ensures Messages(fs + gs, gz) == Messages(fs, gz) + Messages(gs, gz)
  {
  }

  /** A single decoding step agrees with the reference on a complete frame. */
  lemma DecodeComplete(buf: Bytes, gz: Inflate)
    requires Complete(buf) && Small(Head(buf))
    ensures Decode(buf, gz) == Decoded(Message(Head(buf), gz), Tail(buf))
  {
  }

  /** On a partial frame the step does nothing, unless the announced length makes the sum wrap past zero. */
  lemma DecodePartial(buf: Bytes, gz: Inflate)
    requires HEADER_LEN <= |buf| && !Complete(buf)
    ensures |Decode(buf, gz).rest| == |buf| <==> !AnnouncesTooMuch(buf)
  {
    var len := AnnouncedLen(buf);
    if AnnouncesTooMuch(buf) {
      assert WireSize(len) == HEADER_LEN + len - TWO_TO_THE_32;
    } else if len == WRAP_LEN {
      assert WireSize(len) == 0;
    }
  }

  /** A buffer below 4 GiB has no room for a frame that large. */
  lemma {:induction false} ShortHoldsSmall(buf: Bytes)
    requires |buf| < TWO_TO_THE_32
    ensures AllSmall(Parse(buf).frames)
    decreases |buf|
  {
    if Complete(buf) {
      ShortHoldsSmall(Tail(buf));
    }
  }

  lemma InRangeStep(buf: Bytes)
    requires Complete(buf)
    ensures InRange(buf) <==> Small(Head(buf)) && InRange(Tail(buf))
  {
    ParseUnfold(buf);
    hide Parse, Small, AnnouncesTooMuch, Complete;
    var f, fs := Head(buf), Parse(Tail(buf)).frames;
    assert forall i :: 0 <= i < |fs| ==> ([f] + fs)[i + 1] == fs[i];
    assert ([f] + fs)[0] == f;
  }

  /** The server's loop delivers the messages of the protocol, and keeps the partial frame, on every buffer in range;
      and below 4 GiB on no other. */
  lemma {:induction false} DrainExact(buf: Bytes, gz: Inflate)
    ensures InRange(buf) ==> Drain(buf, gz) == Reference(buf, gz)
    ensures |buf| < TWO_TO_THE_32 ==> (Drain(buf, gz) == Reference(buf, gz) <==> InRange(buf))
    decreases |buf|
  {
    if Complete(buf) {
      InRangeStep(buf);
      if |buf| < TWO_TO_THE_32 || Small(Head(buf)) {
        DecodeComplete(buf, gz);
        DrainExact(Tail(buf), gz);
        hide Complete, Head, Tail, Decode, AnnouncesTooMuch, Messages, InRange, Small;
        MessagesCons(Head(buf), Parse(Tail(buf)).frames, gz);
        var more := Drain(Tail(buf), gz);
        assert Drain(buf, gz) == Drained([Message(Head(buf), gz)] + more.messages, more.rest);
        assert Reference(buf, gz).messages == [Message(Head(buf), gz)] + Reference(Tail(buf), gz).messages;
        assert Drain(buf, gz).messages[1..] == more.messages;
        assert Reference(buf, gz).messages[1..] == Reference(Tail(buf), gz).messages;
      }
    } else if HEADER_LEN <= |buf| {
      DecodePartial(buf, gz);
    }
  }

  /** The failing family is not empty: five bytes make the server dispatch a message the peer never sent. */
  lemma WrappedLengthDispatchesEarly(gz: Inflate)
    ensures var buf: Bytes := [0, 0xFF, 0xFF, 0xFF, 0xFF];
            !InRange(buf) && Drain(buf, gz) == Drained([[]], [0xFF]) && Reference(buf, gz) == Drained([], buf)
  {
    var buf: Bytes := [0, 0xFF, 0xFF, 0xFF, 0xFF];
    assert AnnouncedLen(buf) == TWO_TO_THE_32 - 1;
    assert Decode(buf, gz) == Decoded([], [0xFF]);
    assert Drain([0xFF], gz) == Drained([], [0xFF]);
  }

  /** Draining what a drain left dispatches nothing, on every input: the END_STREAM drain is idle. */
  lemma {:induction false} DrainIdempotent(buf: Bytes, gz: Inflate)
    ensures Drain(Drain(buf, gz).rest, gz) == Drained([], Drain(buf, gz).rest)
    decreases |buf|
  {
    if HEADER_LEN <= |buf| && |Decode(buf, gz).rest| != |buf| {
      DrainIdempotent(Decode(buf, gz).rest, gz);
    }
  }

  lemma SmallConcat(fs: seq<Frame>, gs: seq<Frame>)
    ensures AllSmall(fs + gs) <==> AllSmall(fs) && AllSmall(gs)
  {
    assert forall i :: 0 <= i < |fs| ==> fs[i] == (fs + gs)[i];
    assert forall i :: 0 <= i < |gs| ==> gs[i] == (fs + gs)[|fs| + i];
  }

  /** A stream in range is in range at every point where it can be cut. */
  lemma InRangePrefix(a: Bytes, c: Bytes)
    requires InRange(a + c)
    ensures InRange(a) && InRange(Parse(a).rest + c)
  {
    ParseConcat(a, c);
    var rest := Parse(a).rest;
    var fs, gs := Parse(a).frames, Parse(rest + c).frames;
    SmallConcat(fs, gs);
    RestInRange(rest, c);
  }

  /** The length that a partial frame announces is still announced, or complete, when more bytes follow. */
  lemma RestInRange(rest: Bytes, c: Bytes)
    requires InRange(rest + c)
    ensures !AnnouncesTooMuch(rest)
  {
    if HEADER_LEN <= |rest| {
      assert (rest + c)[1..HEADER_LEN] == rest[1..HEADER_LEN];
      if Complete(rest + c) {
        InRangeStep(rest + c);
      }
    }
  }

  /** The state of the server after a list of DATA frames, draining after each. */
  function Serve(chunks: seq<Bytes>, gz: Inflate): Drained {
    if chunks == [] then
      Drained([], [])
    else
      var p := Serve(chunks[..|chunks| - 1], gz);
      var q := Drain(p.rest + chunks[|chunks| - 1], gz);
      Drained(p.messages + q.messages, q.rest)
  }

  /** However a message stream is cut into DATA frames, the server dispatches the same messages in the same
      order and keeps exactly the trailing partial frame. */
  lemma {:induction false} ServeChunks(chunks: seq<Bytes>, gz: Inflate)
    requires InRange(Flatten(chunks))
    ensures Serve(chunks, gz) == Reference(Flatten(chunks), gz)
  {
    if chunks != [] {
      var init, c := chunks[..|chunks| - 1], chunks[|chunks| - 1];
      var a := Flatten(init);
      InRangePrefix(a, c);
      ServeChunks(init, gz);
      ParseSound(a);
      DrainExact(Parse(a).rest + c, gz);
      ParseConcat(a, c);
      MessagesConcat(Parse(a).frames, Parse(Parse(a).rest + c).frames, gz);
    }
  }

  /** Below 4 GiB the server never dispatches fewer messages than there are frames, and out of range it dispatches
      more. */
  lemma {:induction false} DrainTooMany(buf: Bytes, gz: Inflate)
    requires |buf| < TWO_TO_THE_32
    ensures |Drain(buf, gz).messages| >= |Parse(buf).frames|
    ensures !InRange(buf) ==> |Drain(buf, gz).messages| > |Parse(buf).frames|
    decreases |buf|
  {
    ParseUnfold(buf);
    if Complete(buf) {
      InRangeStep(buf);
      DecodeComplete(buf, gz);
      DrainTooMany(Tail(buf), gz);
    } else if HEADER_LEN <= |buf| {
      DecodePartial(buf, gz);
    }
  }

  /** What follows a stream out of range, below 4 GiB, completes no frame. */
  lemma OutOfRangeStays(a: Bytes, c: Bytes)
    requires |a + c| < TWO_TO_THE_32 && HEADER_LEN <= |Parse(a).rest| && AnnouncedLen(Parse(a).rest) >= WRAP_LEN
    ensures Parse(a + c) == Parsed(Parse(a).frames, Parse(a).rest + c)
    ensures AnnouncedLen(Parse(a).rest + c) == AnnouncedLen(Parse(a).rest)
  {
    var rest := Parse(a).rest;
    ParseSound(a);
    ParseConcat(a, c);
    assert |rest| <= |a|;
    assert (rest + c)[1..HEADER_LEN] == rest[1..HEADER_LEN];
    assert !Complete(rest + c);
    ParseUnfold(rest + c);
    assert Parse(a).frames + [] == Parse(a).frames;
  }

  lemma {:induction false} ServeTooMany(chunks: seq<Bytes>, gz: Inflate)
    requires |Flatten(chunks)| < TWO_TO_THE_32 && !InRange(Flatten(chunks))
    ensures |Serve(chunks, gz).messages| > |Parse(Flatten(chunks)).frames|
  {
    assert Parse([]) == Parsed([], []);
    if chunks != [] {
      var init, c := chunks[..|chunks| - 1], chunks[|chunks| - 1];
      var a := Flatten(init);
      ShortHoldsSmall(a);
      ShortHoldsSmall(a + c);
      ParseConcat(a, c);
      ParseSound(a);
      hide Parse, Drain, AllSmall, AnnouncedLen;
      if InRange(a) {
        ServeChunks(init, gz);
        ShortHoldsSmall(Parse(a).rest + c);
        DrainTooMany(Parse(a).rest + c, gz);
      } else {
        ServeTooMany(init, gz);
        OutOfRangeStays(a, c);
      }
    }
  }

  /** Below 4 GiB this holds of no other stream. */
  lemma ServeExact(chunks: seq<Bytes>, gz: Inflate)
    requires |Flatten(chunks)| < TWO_TO_THE_32
    ensures Serve(chunks, gz) == Reference(Flatten(chunks), gz) <==> InRange(Flatten(chunks))
  {
    if InRange(Flatten(chunks)) {
      ServeChunks(chunks, gz);
    } else {
      ServeTooMany(chunks, gz);
    }
  }

  /** Encoding messages as the server and the client do: never compressed. */
  function Uncompressed(ms: seq<Bytes>): (fs: seq<Frame>)
    ensures |fs| == |ms|
    ensures forall i :: 0 <= i < |ms| ==> fs[i] == Frame(0, ms[i])
  {
    seq(|ms|, i requires 0 <= i < |ms| => Frame(0, ms[i]))
  }

  /** Bit 0 of the flag, and nothing else of it, says whether a body is compressed; an empty body is not inflated. */
  lemma FlagBitZero(flag: byte, body: Bytes, gz: Inflate)
    ensures flag % 2 == 0 ==> Message(Frame(flag, body), gz) == body
    ensures flag % 2 == 1 ==> Message(Frame(flag, body), gz) == if body == [] then [] else gz(body)
  {
  }

  /** A peer's encoding of messages: the flags choose which of them are compressed. */
  function Flagged(flags: seq<byte>, ms: seq<Bytes>, zip: Bytes -> Bytes): (fs: seq<Frame>)
    requires |flags| == |ms|
    ensures |fs| == |ms|
    ensures forall i :: 0 <= i < |ms| ==> fs[i] == Frame(flags[i], if flags[i] % 2 == 1 then zip(ms[i]) else ms[i])
  {
    seq(|ms|, i requires 0 <= i < |ms| => Frame(flags[i], if flags[i] % 2 == 1 then zip(ms[i]) else ms[i]))
  }

  /** A conversation in which any of the messages are compressed is served as the peer meant it, with nothing left
      over, however it is cut. */
  lemma CompressedConversation(flags: seq<byte>, ms: seq<Bytes>, zip: Bytes -> Bytes, chunks: seq<Bytes>, gz: Inflate)
    requires |flags| == |ms| && Flatten(chunks) == EncodeAll(Flagged(flags, ms, zip))
    requires forall i :: 0 <= i < |ms| ==> |ms[i]| < WRAP_LEN && |zip(ms[i])| < WRAP_LEN
    requires forall i :: 0 <= i < |ms| ==> zip(ms[i]) != [] && gz(zip(ms[i])) == ms[i]
    ensures Serve(chunks, gz) == Drained(ms, [])
  {
    var fs := Flagged(flags, ms, zip);
    assert EncodeAll(fs) + [] == EncodeAll(fs);
    ParseUnique(fs, []);
    ServeChunks(chunks, gz);
    forall i | 0 <= i < |ms|
      ensures Messages(fs, gz)[i] == ms[i]
    {
      FlagBitZero(fs[i].kind, fs[i].body, gz);
    }
  }

  /** A whole encoded conversation is delivered as sent, whatever the cutting, with nothing left over. */
  lemma EncodedConversation(ms: seq<Bytes>, chunks: seq<Bytes>, gz: Inflate)
    requires Flatten(chunks) == EncodeAll(Uncompressed(ms))
    requires forall i :: 0 <= i < |ms| ==> |ms[i]| < WRAP_LEN
    ensures Serve(chunks, gz) == Drained(ms, [])
  {
    var fs := Uncompressed(ms);
    assert EncodeAll(fs) + [] == EncodeAll(fs);
    ParseUnique(fs, []);
    ServeChunks(chunks, gz);
    assert Messages(fs, gz) == ms;
  }

  method EncodeFrame(payload: Bytes) returns (frame: Bytes)
    ensures frame == Encode(Frame(0, payload))
  {
    var len := |payload| % TWO_TO_THE_32;
    frame := [0] + Be32(len);
    frame := frame + payload;
  }

  method DecodeFrame(buf: Bytes, gz: Inflate) returns (message: Bytes, rest: Bytes)
    ensures Decoded(message, rest) == Decode(buf, gz)
  {
    if |buf| < HEADER_LEN {
      return [], buf;
    }
    var flag := buf[0];
    var len := Un32(buf[1..HEADER_LEN]);
    var size := (HEADER_LEN + len) % TWO_TO_THE_32;
    if |buf| < size {
      return [], buf;
    }
    var payload := Substr(buf, HEADER_LEN, len);
    rest := buf[size..];
    if Compressed(flag) {
      var inflated := GzipInflate(payload, gz);
      if inflated == [] && payload != [] {
        return [], rest;
      }
      return inflated, rest;
    }
    return payload, rest;
  }

  /** `on_request_stream`: every complete message in `body` goes to the handler, and leaves the buffer. */
  method OnRequestStream(body: Bytes, gz: Inflate) returns (dispatched: seq<Bytes>, left: Bytes)
    ensures Drained(dispatched, left) == Drain(body, gz)
  {
    dispatched, left := [], body;
    while |left| >= HEADER_LEN
      invariant Drain(body, gz) == Drained(dispatched + Drain(left, gz).messages, Drain(left, gz).rest)
      decreases |left|
    {
      hide Decode;
      var before := |left|;
      var message, rest := DecodeFrame(left, gz);
      if |rest| == before {
        assert Decode(left, gz).rest == left by {
          RestOfSameSize(left, gz);
        }
        break;
      }
      ghost var more := Drain(rest, gz);
      assert dispatched + ([message] + more.messages) == dispatched + [message] + more.messages;
      dispatched, left := dispatched + [message], rest;
    }
  }

  lemma RestOfSameSize(buf: Bytes, gz: Inflate)
    requires |Decode(buf, gz).rest| == |buf|
    ensures Decode(buf, gz).rest == buf
  {
  }

  /** The outcome of the client's loop, which has no guard against a step that consumes nothing. */
  datatype ClientOutcome = Done(messages: seq<Bytes>, rest: Bytes) | Diverges

  datatype ClientStep = Stop | Stuck | Deliver(payload: Bytes, rest: Bytes)

  function StepOf(buf: Bytes): (r: ClientStep)
    ensures r.Deliver? ==> |r.rest| < |buf|
  {
    if |buf| < HEADER_LEN || |buf| < WireSize(AnnouncedLen(buf)) then
      Stop
    else
      var size := WireSize(AnnouncedLen(buf));
      if size == 0 then Stuck else Deliver(Substr(buf, HEADER_LEN, AnnouncedLen(buf)), buf[size..])
  }

  function ClientDrain(buf: Bytes): (r: ClientOutcome)
    decreases |buf|
  {
    match StepOf(buf)
    case Stop => Done([], buf)
    case Stuck => Diverges
    case Deliver(payload, rest) =>
      match ClientDrain(rest)
      case Done(ms, left) => Done([payload] + ms, left)
      case Diverges => Diverges
  }

  /** The stream from the first frame, complete or not, on whose length the sum wraps; empty if there is none. */
  function FirstWrap(buf: Bytes): (w: Bytes)
    ensures |w| <= |buf|
    ensures w != [] ==> HEADER_LEN <= |w| && WRAP_LEN <= AnnouncedLen(w)
    decreases |buf|
  {
    if |buf| < HEADER_LEN then []
    else if WRAP_LEN <= AnnouncedLen(buf) then buf
    else if Complete(buf) then FirstWrap(Tail(buf))
    else []
  }

  /** Where the sum first wraps it wraps to zero, or else to the one to four bytes that the client takes for the
      frame, and the same is true of the stream behind them. */
  predicate Spins(buf: Bytes)
    decreases |buf|
  {
    var w := FirstWrap(buf);
    w != [] && (AnnouncedLen(w) == WRAP_LEN || Spins(w[AnnouncedLen(w) - WRAP_LEN..]))
  }

  /** The client's loop never ends on exactly those buffers, of whatever size. */
  lemma {:induction false} ClientSpins(buf: Bytes)
    ensures ClientDrain(buf) == Diverges <==> Spins(buf)
    decreases |buf|
  {
    if HEADER_LEN <= |buf| {
      var len := AnnouncedLen(buf);
      if WRAP_LEN <= len {
        assert FirstWrap(buf) == buf && WireSize(len) == len - WRAP_LEN;
        if WRAP_LEN < len {
          ClientSpins(buf[len - WRAP_LEN..]);
        }
      } else if Complete(buf) {
        assert StepOf(buf) == Deliver(Head(buf).body, Tail(buf));
        assert FirstWrap(buf) == FirstWrap(Tail(buf));
        hide StepOf, Head, Tail;
        ClientSpins(Tail(buf));
      }
    }
  }

  /** The plain case: a length of 2^32 - 5. */
  lemma SpinsAtOnce()
    ensures var buf: Bytes := [0, 0xFF, 0xFF, 0xFF, 0xFB];
            AnnouncedLen(buf) == WRAP_LEN && ClientDrain(buf) == Diverges
  {
    var buf: Bytes := [0, 0xFF, 0xFF, 0xFF, 0xFB];
    assert StepOf(buf) == Stuck;
  }

  /** The other case: a length of 2^32 - 1 makes the client drop four bytes, behind which it meets 2^32 - 5. */
  lemma SpinsLater()
    ensures var buf: Bytes := [0, 0xFF, 0xFF, 0xFF, 0xFF, 0xFF, 0xFF, 0xFF, 0xFB];
            AnnouncedLen(buf) == WRAP_LEN + 4 && ClientDrain(buf) == Diverges
  {
    var buf: Bytes := [0, 0xFF, 0xFF, 0xFF, 0xFF, 0xFF, 0xFF, 0xFF, 0xFB];
    assert AnnouncedLen(buf) == WRAP_LEN + 4 && StepOf(buf).Deliver? && StepOf(buf).rest == buf[4..];
    assert StepOf(buf[4..]) == Stuck by {
      assert buf[4..] == [0xFF, 0xFF, 0xFF, 0xFF, 0xFB];
    }
    hide StepOf, AnnouncedLen;
  }

  /** `gnmi_sub_connection::on_data`, on every input on which its loop ends. */
  method OnData(rxbuf: Bytes, chunk: Bytes) returns (delivered: seq<Bytes>, left: Bytes)
    requires !Spins(rxbuf + chunk)
    ensures Done(delivered, left) == ClientDrain(rxbuf + chunk)
  {
    ClientSpins(rxbuf + chunk);
    delivered, left := [], rxbuf + chunk;
    while true
      invariant ClientDrain(left).Done?
      invariant ClientDrain(rxbuf + chunk) == Done(delivered + ClientDrain(left).messages, ClientDrain(left).rest)
      decreases |left|
    {
      if |left| < HEADER_LEN {
        break;
      }
      var len := Un32(left[1..HEADER_LEN]);
      var size := (HEADER_LEN + len) % TWO_TO_THE_32;
      if |left| < size {
        break;
      }
      var payload := Substr(left, HEADER_LEN, len);
      var rest := left[size..];
      assert StepOf(left) == if size == 0 then Stuck else Deliver(payload, rest);
      hide StepOf, Substr, Un32, AnnouncedLen;
      Assoc(delivered, [payload], if ClientDrain(rest).Done? then ClientDrain(rest).messages else []);
      delivered, left := delivered + [payload], rest;
    }
  }

  function Bodies(fs: seq<Frame>): (bs: seq<Bytes>)
    ensures |bs| == |fs|
  {
    seq(|fs|, i requires 0 <= i < |fs| => fs[i].body)
  }

  lemma BodiesCons(f: Frame, fs: seq<Frame>)
    ensures Bodies([f] + fs) == [f.body] + Bodies(fs)
  {
  }

  /** The client's range is smaller by one length: the one that makes its loop spin. */
  predicate ClientInRange(buf: Bytes) {
    InRange(buf) && !AnnouncesWrap(Parse(buf).rest)
  }

  predicate AnnouncesWrap(rest: Bytes) {
    HEADER_LEN <= |rest| && AnnouncedLen(rest) == WRAP_LEN
  }

  lemma StepExact(buf: Bytes)
    ensures Complete(buf) && Small(Head(buf)) ==> StepOf(buf) == Deliver(Head(buf).body, Tail(buf))
    ensures !Complete(buf) && !AnnouncesTooMuch(buf) && !AnnouncesWrap(buf) ==> StepOf(buf) == Stop
    ensures !Complete(buf) && AnnouncesWrap(buf) ==> StepOf(buf) == Stuck
    ensures !Complete(buf) && AnnouncesTooMuch(buf) ==> StepOf(buf).Deliver?
  {
    if AnnouncesTooMuch(buf) && !Complete(buf) {
      assert WireSize(AnnouncedLen(buf)) == HEADER_LEN + AnnouncedLen(buf) - TWO_TO_THE_32;
    }
  }

  lemma ClientInRangeStep(buf: Bytes)
    requires Complete(buf)
    ensures ClientInRange(buf) <==> Small(Head(buf)) && ClientInRange(Tail(buf))
  {
    InRangeStep(buf);
    ParseUnfold(buf);
    hide InRange, Parse, Small;
  }

  /** The client's range is where no sum wraps. */
  lemma {:induction false} RangeIsNoWrap(buf: Bytes)
    ensures ClientInRange(buf) <==> FirstWrap(buf) == []
    decreases |buf|
  {
    ParseUnfold(buf);
    if Complete(buf) {
      ClientInRangeStep(buf);
      RangeIsNoWrap(Tail(buf));
    }
  }

  /** The client's loop is the protocol's reading on every buffer in its range, and below 4 GiB on no other. */
  lemma {:induction false} ClientExact(buf: Bytes)
    ensures var p := Parse(buf);
            (ClientInRange(buf) ==> ClientDrain(buf) == Done(Bodies(p.frames), p.rest)) &&
            (|buf| < TWO_TO_THE_32 ==> (ClientDrain(buf) == Done(Bodies(p.frames), p.rest) <==> ClientInRange(buf)))
    decreases |buf|
  {
    StepExact(buf);
    ParseUnfold(buf);
    if Complete(buf) {
      InRangeStep(buf);
      ClientInRangeStep(buf);
      if |buf| < TWO_TO_THE_32 {
        assert Small(Head(buf));
      }
      hide StepOf, Complete, AnnouncedLen, Parse, Bodies, InRange, ClientInRange, Small, AllSmall, AnnouncesWrap;
      ClientExact(Tail(buf));
      BodiesCons(Head(buf), Parse(Tail(buf)).frames);
      var bs := Bodies(Parse(Tail(buf)).frames);
      assert ([Head(buf).body] + bs)[1..] == bs;
      var more := ClientDrain(Tail(buf));
      assert more.Done? ==> ([Head(buf).body] + more.messages)[1..] == more.messages;
    }
  }

  /** The client after a list of DATA pieces, with `on_data` called for each. */
  function ClientServe(chunks: seq<Bytes>): ClientOutcome {
    if chunks == [] then
      Done([], [])
    else
      match ClientServe(chunks[..|chunks| - 1])
      case Diverges => Diverges
      case Done(ms, rest) =>
        match ClientDrain(rest + chunks[|chunks| - 1])
        case Diverges => Diverges
        case Done(more, left) => Done(ms + more, left)
  }

  lemma ClientInRangePrefix(a: Bytes, c: Bytes)
    requires ClientInRange(a + c)
    ensures ClientInRange(a) && ClientInRange(Parse(a).rest + c)
  {
    InRangePrefix(a, c);
    ParseConcat(a, c);
    var rest := Parse(a).rest;
    if AnnouncesWrap(rest) {
      assert (rest + c)[1..HEADER_LEN] == rest[1..HEADER_LEN];
      ParseUnfold(rest + c);
      if Complete(rest + c) {
        InRangeStep(rest + c);
      }
    }
  }

  lemma BodiesOfBoth(fs: seq<Frame>, gs: seq<Frame>)
    ensures Bodies(fs + gs) == Bodies(fs) + Bodies(gs)
  {
  }

  /** However a stream in the client's range is cut, the client delivers its bodies in order and keeps exactly the
      trailing partial frame. */
  lemma {:induction false} ClientServeChunks(chunks: seq<Bytes>)
    requires ClientInRange(Flatten(chunks))
    ensures var p := Parse(Flatten(chunks)); ClientServe(chunks) == Done(Bodies(p.frames), p.rest)
  {
    if chunks != [] {
      var init, c := chunks[..|chunks| - 1], chunks[|chunks| - 1];
      var a := Flatten(init);
      ClientInRangePrefix(a, c);
      hide ClientInRange, Parse, ClientDrain, Bodies;
      ClientServeChunks(init);
      ClientExact(Parse(a).rest + c);
      ParseConcat(a, c);
      BodiesOfBoth(Parse(a).frames, Parse(Parse(a).rest + c).frames);
    }
  }

  lemma {:induction false} ClientTooMany(buf: Bytes)
    requires |buf| < TWO_TO_THE_32
    ensures ClientDrain(buf).Done? ==>
              |ClientDrain(buf).messages| >= |Parse(buf).frames| &&
              (!ClientInRange(buf) ==> |ClientDrain(buf).messages| > |Parse(buf).frames|)
    decreases |buf|
  {
    ParseUnfold(buf);
    StepExact(buf);
    if Complete(buf) {
      ClientInRangeStep(buf);
      ClientTooMany(Tail(buf));
    }
  }

  lemma {:induction false} ClientServeTooMany(chunks: seq<Bytes>)
    requires |Flatten(chunks)| < TWO_TO_THE_32
    ensures !ClientInRange(Flatten(chunks)) && ClientServe(chunks).Done? ==>
              |ClientServe(chunks).messages| > |Parse(Flatten(chunks)).frames|
  {
    assert Parse([]) == Parsed([], []);
    if chunks != [] {
      var init, c := chunks[..|chunks| - 1], chunks[|chunks| - 1];
      var a := Flatten(init);
      ShortHoldsSmall(a);
      ShortHoldsSmall(a + c);
      ParseConcat(a, c);
      ParseSound(a);
      hide Parse, ClientDrain, AllSmall, AnnouncedLen, Bodies;
      if ClientInRange(a) {
        ClientServeChunks(init);
        ShortHoldsSmall(Parse(a).rest + c);
        ClientTooMany(Parse(a).rest + c);
      } else {
        ClientServeTooMany(init);
        OutOfRangeStays(a, c);
      }
    }
  }

  /** Below 4 GiB this holds of no other stream. */
  lemma ClientServeExact(chunks: seq<Bytes>)
    requires |Flatten(chunks)| < TWO_TO_THE_32
    ensures var p := Parse(Flatten(chunks));
            ClientServe(chunks) == Done(Bodies(p.frames), p.rest) <==> ClientInRange(Flatten(chunks))
  {
    if ClientInRange(Flatten(chunks)) {
      ClientServeChunks(chunks);
    } else {
      ClientServeTooMany(chunks);
    }
  }

  /** On a stream with no compressed frame, client and server deliver the same messages and keep the same tail, even if
      they get it in different pieces. */
  lemma ClientAgreesWithServer(here: seq<Bytes>, there: seq<Bytes>, gz: Inflate)
    requires Flatten(here) == Flatten(there) && ClientInRange(Flatten(here))
    requires var fs := Parse(Flatten(here)).frames; forall i :: 0 <= i < |fs| ==> !Compressed(fs[i].kind)
    ensures var r := ClientServe(here);
            r.Done? && Drained(r.messages, r.rest) == Serve(there, gz)
  {
    ClientServeChunks(here);
    ServeChunks(there, gz);
    var fs := Parse(Flatten(here)).frames;
    assert Bodies(fs) == Messages(fs, gz);
  }
}
