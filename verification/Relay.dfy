/**
 Operator to device, end to end: the tunnel of `TunnelState` sending over one HTTP/2 stream
 of `Http2Stream`, to a device that reassembles Length-Prefixed-Messages from chunks of any size. The stream is
 arbitrary; hub events on all other streams, operators and tags interleave freely.
 */
module Relay {
  import opened ByteStrings
  import opened Text
  import opened Framing
  import opened GrpcFraming
  import opened TunnelState
  import opened TunnelRuns
  import Http2Stream

  /** Protobuf, of which only this is assumed: parsing undoes serialising, for the messages that are sent. */
  datatype Codec = Codec(ser: Message -> Bytes, parse: Bytes -> Option<Message>)

  ghost predicate Faithful(c: Codec, ms: seq<Message>) {
    forall i :: 0 <= i < |ms| ==> c.parse(c.ser(ms[i])) == Some(ms[i])
  }

  function FrameOf(c: Codec, m: Message): Frame {
    Frame(0, c.ser(m))
  }

  function FramesOf(c: Codec, ms: seq<Message>): (fs: seq<Frame>)
    ensures |fs| == |ms|
    ensures forall i :: 0 <= i < |ms| ==> fs[i] == FrameOf(c, ms[i])
  {
    seq(|ms|, i requires 0 <= i < |ms| => FrameOf(c, ms[i]))
  }

  /**
   One stream from `stream_send` to the device: the server's staging buffer (`out`), the bytes nghttp2
   has taken and not yet delivered, and the device's undecoded tail and decoded messages. `arrived` and
   `accepted` are history: every byte delivered, every message pushed.
   */
  datatype Channel = Channel(
    out: Http2Stream.Stream, wire: Bytes, tail: Bytes,
    got: seq<Bytes>, arrived: Bytes, accepted: seq<Message>)

  const FRESH := Http2Stream.Opened(Http2Stream.NewStream(Http2Stream.Request("", true, [])))

  const IDLE := Channel(FRESH, [], [], [], [], [])

  datatype Phase = Unopened | Live | Gone

  /** `dropped` holds the messages whose `push_stream_data` found the stream gone, `erased` the bytes that were staged
      when the stream went: `on_stream_close` erases the whole context, and the loss of the session all of them. */
  datatype World = World(hub: Hub, phase: Phase, chan: Channel, dropped: seq<Message>, erased: Bytes)

  const START := World(INITIAL, Unopened, IDLE, [], [])

  datatype Action =
    | HubEvent(e: Event)
    | OpenStream
    | ProviderRead(length: nat)
    | Arrive(length: nat)
    | FinishStream
    | CloseStream

  function OnStream(sent: seq<Sent>, stream: StreamId): seq<Message> {
    if sent == [] then [] else
      OnStream(sent[..|sent| - 1], stream) + (if sent[|sent| - 1].stream == stream then [sent[|sent| - 1].msg] else [])
  }

  /** `stream_send` of one message. */
  function PushMessage(ch: Channel, c: Codec, m: Message): Channel {
    ch.(out := Http2Stream.Pushed(ch.out, Encode(FrameOf(c, m))), accepted := ch.accepted + [m])
  }

  /** `push_stream_data` answers -1 when the stream is gone, and the caller does not look. */
  function PushOne(w: World, c: Codec, m: Message): World {
    if w.phase == Live then w.(chan := PushMessage(w.chan, c, m)) else w.(dropped := w.dropped + [m])
  }

  function PushAll(w: World, c: Codec, ms: seq<Message>): World {
    if ms == [] then w else PushOne(PushAll(w, c, ms[..|ms| - 1]), c, ms[|ms| - 1])
  }

  /** What an event makes the hub send: never more than one message. */
  function SentBy(h: Hub, e: Event): (ms: seq<Sent>)
    ensures |ms| <= 1
  {
    match e
    case Register(stream, Target(op, target, kind)) => [Sent(stream, TargetAck(op, target, kind))]
    case Register(stream, Subscription(op, kind)) => [Sent(stream, SubscriptionAck(op, kind))]
    case Register(_, _) => []
    case Connect(_, target) =>
      if target in h.targets then
        [Sent(h.targets[target].stream, Session(h.nextTag + 1, target, h.targets[target].kind))]
      else []
    case OperatorData(operator, bytes) =>
      if operator in h.conns && bytes != [] && h.conns[operator] in h.bridges &&
         h.bridges[h.conns[operator]].tunnel.Some? then
        [Sent(h.bridges[h.conns[operator]].tunnel.value, Data(h.conns[operator], bytes, false))]
      else []
    case OperatorClose(operator) =>
      if operator in h.conns && h.conns[operator] in h.bridges && h.bridges[h.conns[operator]].tunnel.Some? then
        [Sent(h.bridges[h.conns[operator]].tunnel.value, Data(h.conns[operator], [], true))]
      else []
    case TunnelData(stream, tag, _, _) =>
      if tag in h.bridges && h.bridges[tag].buffered != [] then
        [Sent(stream, Data(tag, h.bridges[tag].buffered, false))]
      else []
    case SessionLost(_) => []
  }

  function ReadChannel(ch: Channel, length: nat): Channel {
    var r := Http2Stream.ReadingOf(ch.out, length);
    ch.(out := Http2Stream.AfterReading(ch.out, r), wire := if r.Chunk? then ch.wire + r.data else ch.wire)
  }

  function DeliverChunk(ch: Channel, length: nat): Channel {
    var chunk := Substr(ch.wire, 0, length);
    var p := Parse(ch.tail + chunk);
    ch.(wire := ch.wire[|chunk|..], tail := p.rest, got := ch.got + Bodies(p.frames), arrived := ch.arrived + chunk)
  }

  function Close(w: World): World {
    var out := w.chan.out;
    w.(phase := Gone, erased := out.respBody, chan := w.chan.(out := out.(respBody := [])))
  }

  /** The accepted bytes that nghttp2 has not taken: staged, or erased when they were. */
  function Untaken(w: World): Bytes {
    w.chan.out.respBody + w.erased
  }

  /** The channel with the erased bytes put back, for its history. */
  function Restored(w: World): Channel {
    w.chan.(out := w.chan.out.(respBody := Untaken(w)))
  }

  function Act(w: World, a: Action, stream: StreamId, c: Codec): World {
    match a
    case HubEvent(e) =>
      var w' := PushAll(w.(hub := Step(w.hub, e)), c, OnStream(SentBy(w.hub, e), stream));
      if e == SessionLost(stream.session) && w'.phase == Live then Close(w') else w'
    case OpenStream => w.(phase := Live)
    case ProviderRead(n) => w.(chan := ReadChannel(w.chan, n))
    case Arrive(n) => w.(chan := DeliverChunk(w.chan, n))
    case FinishStream => w.(chan := w.chan.(out := Http2Stream.Finished(w.chan.out)))
    case CloseStream => Close(w)
  }

  /** A message can only come in on an open stream; the stream is opened once. */
  predicate ArrivesOn(e: Event, stream: StreamId) {
    (e.Register? || e.TunnelData?) && e.stream == stream
  }

  predicate MayAct(w: World, a: Action, stream: StreamId) {
    match a
    case HubEvent(e) => Enabled(w.hub, e) && (ArrivesOn(e, stream) ==> w.phase == Live)
    case OpenStream => w.phase == Unopened
    case ProviderRead(n) => w.phase == Live && n > 0 && Http2Stream.MayRead(w.chan.out)
    case Arrive(n) => w.phase != Unopened
    case FinishStream => w.phase == Live
    case CloseStream => w.phase == Live
  }

  function RunWorld(acts: seq<Action>, stream: StreamId, c: Codec): World {
    if acts == [] then START else Act(RunWorld(acts[..|acts| - 1], stream, c), acts[|acts| - 1], stream, c)
  }

  ghost predicate LegalWorld(acts: seq<Action>, stream: StreamId, c: Codec) {
    acts != [] ==>
      LegalWorld(acts[..|acts| - 1], stream, c) &&
      MayAct(RunWorld(acts[..|acts| - 1], stream, c), acts[|acts| - 1], stream)
  }

  function HubEvents(acts: seq<Action>): seq<Event> {
    if acts == [] then [] else
      HubEvents(acts[..|acts| - 1]) + (if acts[|acts| - 1].HubEvent? then [acts[|acts| - 1].e] else [])
  }

  /** No registration and no bridge knows the stream. */
  ghost predicate Unknown(h: Hub, stream: StreamId) {
    && (forall t :: t in h.targets ==> h.targets[t].stream != stream)
    && (forall tag :: tag in h.bridges ==> h.bridges[tag].tunnel != Some(stream))
  }

  ghost predicate ChannelInv(ch: Channel, c: Codec) {
    && Http2Stream.Sound(ch.out) && ch.out.streaming
    && ch.out.pushed == EncodeAll(FramesOf(c, ch.accepted))
    && ch.out.read == ch.arrived + ch.wire
    && Parse(ch.arrived).rest == ch.tail
    && Bodies(Parse(ch.arrived).frames) == ch.got
  }

  ghost predicate WorldInv(w: World, stream: StreamId, c: Codec) {
    && ChannelInv(Restored(w), c)
    && OnStream(w.hub.sent, stream) == w.chan.accepted + w.dropped
    && (w.phase == Unopened ==> w.chan == IDLE && Unknown(w.hub, stream) && w.dropped == [])
    && (w.phase == Live ==> w.dropped == [])
    && (if w.phase == Gone then w.chan.out.respBody == [] else w.erased == [])
  }

  lemma NothingErased(w: World)
    requires w.erased == []
    ensures Restored(w) == w.chan
  {
    assert w.chan.out.respBody + [] == w.chan.out.respBody;
  }

  lemma CloseKeepsRestored(w: World)
    requires w.erased == []
    ensures Restored(Close(w)) == w.chan
  {
    assert [] + w.chan.out.respBody == w.chan.out.respBody;
  }

  lemma OnStreamSnoc(sent: seq<Sent>, s: Sent, stream: StreamId)
    ensures OnStream(sent + [s], stream) == OnStream(sent, stream) + (if s.stream == stream then [s.msg] else [])
  {
    assert (sent + [s])[..|sent|] == sent;
  }

  lemma ReceivedEffects(h: Hub, stream: StreamId, tag: int, data: Bytes, close: bool)
    ensures Received(h, stream, tag, data, close).targets == h.targets
    ensures Received(h, stream, tag, data, close).sent == h.sent + SentBy(h, TunnelData(stream, tag, data, close))
  {
  }

  lemma OnStreamOne(s: Sent, stream: StreamId)
    ensures OnStream([s], stream) == if s.stream == stream then [s.msg] else []
  {
    assert [s][..0] == [] && OnStream([], stream) == [];
  }

  lemma SentGrows(h: Hub, e: Event)
    ensures Step(h, e).sent == h.sent + SentBy(h, e)
  {
    if e.TunnelData? {
      ReceivedEffects(h, e.stream, e.tag, e.data, e.close);
    }
    hide Received;
  }

  lemma FramesOfSnoc(c: Codec, ms: seq<Message>, m: Message)
    ensures EncodeAll(FramesOf(c, ms + [m])) == EncodeAll(FramesOf(c, ms)) + Encode(FrameOf(c, m))
  {
    assert FramesOf(c, ms + [m]) == FramesOf(c, ms) + [FrameOf(c, m)];
    EncodeAllConcat(FramesOf(c, ms), [FrameOf(c, m)]);
    EncodeAllCons(FrameOf(c, m), []);
    assert [FrameOf(c, m)] + [] == [FrameOf(c, m)];
  }

  lemma PushKeepsChannel(ch: Channel, c: Codec, m: Message)
    requires ChannelInv(ch, c)
    ensures ChannelInv(PushMessage(ch, c, m), c)
  {
    FramesOfSnoc(c, ch.accepted, m);
    Assoc(ch.out.read, ch.out.respBody, Encode(FrameOf(c, m)));
  }

  lemma ReadKeepsChannel(ch: Channel, c: Codec, n: nat)
    requires ChannelInv(ch, c) && Http2Stream.MayRead(ch.out)
    ensures ChannelInv(ReadChannel(ch, n), c)
  {
    Http2Stream.ReadKeepsSound(ch.out, n);
    var r := Http2Stream.ReadingOf(ch.out, n);
    if r.Chunk? {
      Assoc(ch.arrived, ch.wire, r.data);
    }
  }

  lemma DeliverKeepsChannel(ch: Channel, c: Codec, n: nat)
    requires ChannelInv(ch, c)
    ensures ChannelInv(DeliverChunk(ch, n), c)
  {
    hide Parse, EncodeAll, FramesOf, Http2Stream.Sound;
    var chunk := Substr(ch.wire, 0, n);
    ParseConcat(ch.arrived, chunk);
    assert ch.wire == chunk + ch.wire[|chunk|..];
    Assoc(ch.arrived, chunk, ch.wire[|chunk|..]);
    BodiesOfBoth(Parse(ch.arrived).frames, Parse(ch.tail + chunk).frames);
  }

  lemma OnStreamConcat(a: seq<Sent>, b: seq<Sent>, stream: StreamId)
    ensures OnStream(a + b, stream) == OnStream(a, stream) + OnStream(b, stream)
  {
    if b == [] {
      assert a + b == a;
    } else {
      OnStreamConcat(a, b[..|b| - 1], stream);
      assert (a + b)[..|a + b| - 1] == a + b[..|b| - 1];
    }
  }

  lemma PushOneKeeps(w: World, c: Codec, m: Message)
    requires w.phase == Live ==> w.dropped == []
    ensures var w' := PushOne(w, c, m);
            (ChannelInv(w.chan, c) ==> ChannelInv(w'.chan, c)) &&
            w'.phase == w.phase && w'.hub == w.hub && w'.erased == w.erased &&
            w'.chan.accepted + w'.dropped == (w.chan.accepted + w.dropped) + [m] &&
            (w.phase == Live ==> w'.dropped == []) &&
            (w.phase != Live ==> w'.chan == w.chan)
  {
    if w.phase == Live && ChannelInv(w.chan, c) {
      PushKeepsChannel(w.chan, c, m);
    }
    hide ChannelInv;
    Assoc(w.chan.accepted, w.dropped, [m]);
  }

  lemma {:induction false} PushAllKeeps(w: World, c: Codec, ms: seq<Message>)
    requires w.phase == Live ==> w.dropped == []
    ensures var w' := PushAll(w, c, ms);
            (ChannelInv(w.chan, c) ==> ChannelInv(w'.chan, c)) &&
            w'.phase == w.phase && w'.hub == w.hub && w'.erased == w.erased &&
            w'.chan.accepted + w'.dropped == (w.chan.accepted + w.dropped) + ms &&
            (w.phase == Live ==> w'.dropped == []) &&
            (w.phase != Live ==> w'.chan == w.chan)
  {
    hide ChannelInv, PushOne;
    if ms != [] {
      var init, m := ms[..|ms| - 1], ms[|ms| - 1];
      PushAllKeeps(w, c, init);
      PushOneKeeps(PushAll(w, c, init), c, m);
      Assoc(w.chan.accepted + w.dropped, init, [m]);
      assert ms == init + [m];
    }
  }

  /** While a stream is unknown to the hub, and no message arrives on it, nothing is sent on it either. */
  lemma StepTargets(h: Hub, e: Event, t: string)
    requires t in Step(h, e).targets
    ensures (t in h.targets && Step(h, e).targets[t] == h.targets[t]) ||
            (e.Register? && Step(h, e).targets[t].stream == e.stream)
  {
    if e.TunnelData? {
      ReceivedEffects(h, e.stream, e.tag, e.data, e.close);
    }
    hide Received, SentBy, RemoveByStream;
    if e.SessionLost? {
      LossShrinksTargets(h, e.session);
    }
  }

  lemma LossShrinksTargets(h: Hub, session: int)
    ensures RemoveByStream(h, session).targets == h.targets - OwnedBy(h, session)
  {
  }

  lemma TagStepPairs(v: View, tag: int, i: Input, stream: StreamId)
    requires v.bridge.Some? ==> v.bridge.value.tunnel != Some(stream)
    requires i.FromDev? ==> i.stream != stream
    ensures var v' := TagStep(v, tag, i);
            v'.bridge.Some? ==> v'.bridge.value.tunnel != Some(stream)
  {
  }

  lemma UnknownStaysUnknown(h: Hub, e: Event, stream: StreamId)
    requires Inv(h) && Enabled(h, e)
    requires Unknown(h, stream) && !ArrivesOn(e, stream)
    ensures Unknown(Step(h, e), stream)
  {
    var h' := Step(h, e);
    forall t | t in h'.targets
      ensures h'.targets[t].stream != stream
    {
      StepTargets(h, e, t);
    }
    forall tag | tag in h'.bridges
      ensures h'.bridges[tag].tunnel != Some(stream)
    {
      StepProjects(h, e, tag);
      TagStepPairs(ViewOf(h, tag), tag, InputOf(h, e, tag), stream);
      hide Step, TagStep, Inv;
      assert ViewOf(h', tag).bridge == Some(h'.bridges[tag]);
    }
  }

  lemma UnknownIsQuiet(h: Hub, e: Event, stream: StreamId)
    requires Unknown(h, stream) && !ArrivesOn(e, stream)
    ensures OnStream(SentBy(h, e), stream) == []
  {
    var more := SentBy(h, e);
    if more != [] {
      assert more[0].stream != stream;
      assert more == [more[0]];
      OnStreamOne(more[0], stream);
    }
  }

  lemma PushAllKeepsWorld(w: World, e: Event, stream: StreamId, c: Codec) returns (w': World)
    requires Inv(w.hub) && WorldInv(w, stream, c) && MayAct(w, HubEvent(e), stream)
    ensures w' == PushAll(w.(hub := Step(w.hub, e)), c, OnStream(SentBy(w.hub, e), stream))
    ensures WorldInv(w', stream, c)
  {
    hide Step, ChannelInv, Unknown, SentBy, Inv, PushAll, OnStream;
    var h', ms := Step(w.hub, e), OnStream(SentBy(w.hub, e), stream);
    w' := PushAll(w.(hub := h'), c, ms);
    SentGrows(w.hub, e);
    OnStreamConcat(w.hub.sent, SentBy(w.hub, e), stream);
    PushAllKeeps(w.(hub := h'), c, ms);
    if w.phase == Live {
      NothingErased(w);
      NothingErased(w');
    } else if w.phase == Unopened {
      UnknownStaysUnknown(w.hub, e, stream);
      UnknownIsQuiet(w.hub, e, stream);
      PushNothing(w.(hub := h'), c);
    }
  }

  lemma HubEventKeepsWorld(w: World, e: Event, stream: StreamId, c: Codec)
    requires Inv(w.hub) && WorldInv(w, stream, c) && MayAct(w, HubEvent(e), stream)
    ensures WorldInv(Act(w, HubEvent(e), stream, c), stream, c)
  {
    var w' := PushAllKeepsWorld(w, e, stream, c);
    hide Step, ChannelInv, Unknown, SentBy, Inv, PushAll, OnStream;
    if w'.phase == Live {
      NothingErased(w');
      CloseKeepsRestored(w');
    }
  }

  lemma PushNothing(w: World, c: Codec)
    ensures PushAll(w, c, []) == w
  {
  }

  lemma ActKeepsWorld(w: World, a: Action, stream: StreamId, c: Codec)
    requires Inv(w.hub) && WorldInv(w, stream, c) && MayAct(w, a, stream)
    ensures WorldInv(Act(w, a, stream, c), stream, c)
  {
    if a.HubEvent? {
      HubEventKeepsWorld(w, a.e, stream, c);
    } else {
      ActKeepsChannel(w, a, stream, c);
      hide ChannelInv, Unknown, Restored;
    }
  }

  lemma ActKeepsChannel(w: World, a: Action, stream: StreamId, c: Codec)
    requires WorldInv(w, stream, c) && MayAct(w, a, stream) && !a.HubEvent?
    ensures ChannelInv(Restored(Act(w, a, stream, c)), c)
  {
    var w' := Act(w, a, stream, c);
    if a.Arrive? {
      DeliverKeepsChannel(Restored(w), c, a.length);
      assert Restored(w') == DeliverChunk(Restored(w), a.length);
    } else {
      NothingErased(w);
      match a {
        case ProviderRead(n) =>
          ReadKeepsChannel(w.chan, c, n);
          NothingErased(w');
        case CloseStream =>
          CloseKeepsRestored(w);
        case _ =>
          NothingErased(w');
      }
    }
  }

  /** The hub inside the relay runs exactly its own events. */
  lemma ActHub(w: World, a: Action, stream: StreamId, c: Codec)
    ensures Act(w, a, stream, c).hub == if a.HubEvent? then Step(w.hub, a.e) else w.hub
    ensures MayAct(w, a, stream) && a.HubEvent? ==> Enabled(w.hub, a.e)
  {
    if a.HubEvent? {
      PushAllHub(w.(hub := Step(w.hub, a.e)), c, OnStream(SentBy(w.hub, a.e), stream));
    }
  }

  lemma {:induction false} HubOfRun(acts: seq<Action>, stream: StreamId, c: Codec)
    requires LegalWorld(acts, stream, c)
    ensures Legal(HubEvents(acts)) && RunWorld(acts, stream, c).hub == Run(HubEvents(acts))
  {
    if acts != [] {
      var init, a := acts[..|acts| - 1], acts[|acts| - 1];
      HubOfRun(init, stream, c);
      ActHub(RunWorld(init, stream, c), a, stream, c);
      hide Act, MayAct, Step, Legal, Run, Enabled;
      if a.HubEvent? {
        RunSnoc(HubEvents(init), a.e);
        assert HubEvents(acts) == HubEvents(init) + [a.e];
      } else {
        assert HubEvents(acts) == HubEvents(init);
      }
    }
  }

  lemma PushAllHub(w: World, c: Codec, ms: seq<Message>)
    ensures PushAll(w, c, ms).hub == w.hub
  {
  }

  lemma {:induction false} RunWorldKeepsInv(acts: seq<Action>, stream: StreamId, c: Codec)
    requires LegalWorld(acts, stream, c)
    ensures WorldInv(RunWorld(acts, stream, c), stream, c)
  {
    if acts == [] {
      assert EncodeAll(FramesOf(c, [])) == [];
    } else {
      var init := acts[..|acts| - 1];
      RunWorldKeepsInv(init, stream, c);
      HubOfRun(init, stream, c);
      RunKeepsInv(HubEvents(init));
      hide WorldInv, Inv, Act;
      ActKeepsWorld(RunWorld(init, stream, c), acts[|acts| - 1], stream, c);
    }
  }

  function ForTag(ms: seq<Message>, tag: int): seq<Message> {
    if ms == [] then [] else
      ForTag(ms[..|ms| - 1], tag) + (if ms[|ms| - 1].Data? && ms[|ms| - 1].tag == tag then [ms[|ms| - 1]] else [])
  }

  /** The operator's bytes for a tag that a list of messages carries. */
  function Carried(ms: seq<Message>, tag: int): Bytes {
    Payload(ForTag(ms, tag))
  }

  lemma ForTagSnoc(ms: seq<Message>, m: Message, tag: int)
    ensures ForTag(ms + [m], tag) == ForTag(ms, tag) + (if m.Data? && m.tag == tag then [m] else [])
  {
    assert (ms + [m])[..|ms|] == ms;
  }

  lemma {:induction false} ForTagConcat(a: seq<Message>, b: seq<Message>, tag: int)
    ensures ForTag(a + b, tag) == ForTag(a, tag) + ForTag(b, tag)
  {
    if b == [] {
      assert a + b == a;
    } else {
      var init, m := b[..|b| - 1], b[|b| - 1];
      ForTagConcat(a, init, tag);
      hide ForTag;
      Last(b);
      Assoc(a, init, [m]);
      ForTagSnoc(a + init, m, tag);
      ForTagSnoc(init, m, tag);
      Assoc(ForTag(a, tag), ForTag(init, tag), if m.Data? && m.tag == tag then [m] else []);
    }
  }

  lemma CarriedConcat(a: seq<Message>, b: seq<Message>, tag: int)
    ensures Carried(a + b, tag) == Carried(a, tag) + Carried(b, tag)
  {
    ForTagConcat(a, b, tag);
    PayloadConcat(ForTag(a, tag), ForTag(b, tag));
  }

  /** Every Tunnel message that names the tag comes in on the one stream. */
  predicate PairedOnlyOn(trace: seq<Event>, tag: int, stream: StreamId) {
    forall i :: 0 <= i < |trace| ==> (trace[i].TunnelData? && trace[i].tag == tag ==> trace[i].stream == stream)
  }

  /** Then the bridge is paired with that stream alone, and its frames are those on the stream. */
  ghost predicate OnlyOn(h: Hub, tag: int, stream: StreamId) {
    && (tag in h.bridges ==> h.bridges[tag].tunnel == None || h.bridges[tag].tunnel == Some(stream))
    && Frames(h.sent, tag) == ForTag(OnStream(h.sent, stream), tag)
  }

  lemma SendKeepsOnly(h: Hub, tag: int, stream: StreamId, to: StreamId, msg: Message)
    requires Frames(h.sent, tag) == ForTag(OnStream(h.sent, stream), tag)
    requires msg.Data? && msg.tag == tag ==> to == stream
    ensures Frames(Send(h, to, msg).sent, tag) == ForTag(OnStream(Send(h, to, msg).sent, stream), tag)
  {
    FramesOfSend(h, to, msg, tag);
    OnStreamSnoc(h.sent, Sent(to, msg), stream);
    ForTagSnoc(OnStream(h.sent, stream), msg, tag);
    var ms := OnStream(h.sent, stream);
    assert ms + [] == ms && ForTag(ms, tag) + [] == ForTag(ms, tag);
    hide Frames, OnStream, ForTag;
  }

  lemma StepKeepsOnly(h: Hub, e: Event, tag: int, stream: StreamId)
    requires Inv(h) && Enabled(h, e) && OnlyOn(h, tag, stream)
    requires e.TunnelData? && e.tag == tag ==> e.stream == stream
    ensures OnlyOn(Step(h, e), tag, stream)
  {
    SentGrows(h, e);
    StepKeepsPairing(h, e, tag, stream);
    SentForTag(h, e, tag, stream);
    hide Step, SentBy, Frames, OnStream, ForTag, Inv;
    var more := SentBy(h, e);
    if more != [] {
      assert more == [more[0]];
      SendKeepsOnly(h, tag, stream, more[0].stream, more[0].msg);
    } else {
      assert h.sent + more == h.sent;
    }
  }

  lemma SentForTag(h: Hub, e: Event, tag: int, stream: StreamId)
    requires e.TunnelData? && e.tag == tag ==> e.stream == stream
    requires tag in h.bridges ==> h.bridges[tag].tunnel == None || h.bridges[tag].tunnel == Some(stream)
    ensures forall s :: s in SentBy(h, e) && s.msg.Data? && s.msg.tag == tag ==> s.stream == stream
  {
  }

  lemma StepKeepsPairing(h: Hub, e: Event, tag: int, stream: StreamId)
    requires Inv(h) && Enabled(h, e) && (e.TunnelData? && e.tag == tag ==> e.stream == stream)
    requires tag in h.bridges ==> h.bridges[tag].tunnel == None || h.bridges[tag].tunnel == Some(stream)
    ensures var h' := Step(h, e);
            tag in h'.bridges ==> h'.bridges[tag].tunnel == None || h'.bridges[tag].tunnel == Some(stream)
  {
    StepProjects(h, e, tag);
    ViewLife(h, tag);
    ViewLife(Step(h, e), tag);
    BridgeOfView(h, tag);
    BridgeOfView(Step(h, e), tag);
    InputOfData(h, e, tag);
    TagStepOrigin(ViewOf(h, tag), tag, InputOf(h, e, tag));
    hide Step, InputOf, Inv, ViewOf, TagStep;
  }

  lemma {:induction false} RunKeepsOnly(trace: seq<Event>, tag: int, stream: StreamId)
    requires Legal(trace) && PairedOnlyOn(trace, tag, stream)
    ensures OnlyOn(Run(trace), tag, stream)
  {
    if trace != [] {
      var init := trace[..|trace| - 1];
      RunKeepsOnly(init, tag, stream);
      RunKeepsInv(init);
      StepKeepsOnly(Run(init), trace[|trace| - 1], tag, stream);
    }
  }

  /** What the device makes of the payloads it has decoded. */
  function Understood(c: Codec, payloads: seq<Bytes>): (r: seq<Option<Message>>)
    ensures |r| == |payloads|
  {
    seq(|payloads|, i requires 0 <= i < |payloads| => c.parse(payloads[i]))
  }

  function Somes(ms: seq<Message>): (r: seq<Option<Message>>)
    ensures |r| == |ms|
  {
    seq(|ms|, i requires 0 <= i < |ms| => Some(ms[i]))
  }

  /** The channel alone: the device has decoded a prefix of the accepted messages, and the bytes still under way
      encode exactly the rest. */
  lemma ChannelDelivers(ch: Channel, c: Codec)
    requires ChannelInv(ch, c) && Faithful(c, ch.accepted)
    requires forall i :: 0 <= i < |ch.accepted| ==> |c.ser(ch.accepted[i])| < TWO_TO_THE_32
    ensures |ch.got| <= |ch.accepted|
    ensures Understood(c, ch.got) == Somes(ch.accepted[..|ch.got|])
    ensures ch.tail + ch.wire + ch.out.respBody == EncodeAll(FramesOf(c, ch.accepted[|ch.got|..]))
  {
    var fs := FramesOf(c, ch.accepted);
    var unseen := ch.wire + ch.out.respBody;
    Assoc(ch.arrived, ch.wire, ch.out.respBody);
    ParsePrefix(fs, ch.arrived, unseen);
    var k := |Parse(ch.arrived).frames|;
    assert fs[k..] == FramesOf(c, ch.accepted[k..]);
    Assoc(ch.tail, ch.wire, ch.out.respBody);
    forall i | 0 <= i < k
      ensures c.parse(ch.got[i]) == Some(ch.accepted[i])
    {
      assert Parse(ch.arrived).frames[i] == fs[i];
      assert c.parse(c.ser(ch.accepted[i])) == Some(ch.accepted[i]);
    }
  }

  // The operator's bytes on one stream.

  /** The operator's bytes for a tag that one event makes the hub send on a stream: those just read for a bridge
      paired with it, or those buffered until it pairs. */
  function SentNow(h: Hub, e: Event, tag: int, stream: StreamId): Bytes {
    match e
    case OperatorData(operator, bytes) =>
      if operator in h.conns && h.conns[operator] == tag && tag in h.bridges && h.bridges[tag].tunnel == Some(stream)
      then bytes
      else []
    case TunnelData(s, t, _, _) => if s == stream && t == tag && tag in h.bridges then h.bridges[tag].buffered else []
    case _ => []
  }

  function SentVia(trace: seq<Event>, tag: int, stream: StreamId): Bytes {
    if trace == [] then [] else
      SentVia(trace[..|trace| - 1], tag, stream) +
      SentNow(Run(trace[..|trace| - 1]), trace[|trace| - 1], tag, stream)
  }

  lemma CarriedOne(m: Message, tag: int)
    ensures Carried([m], tag) == (if m.Data? && m.tag == tag then m.data else [])
    ensures Carried([], tag) == []
  {
    ForTagSnoc([], m, tag);
    assert [] + [m] == [m];
    PayloadOfMore([], m);
  }

  lemma CarriedBy(h: Hub, e: Event, stream: StreamId, tag: int)
    ensures Carried(OnStream(SentBy(h, e), stream), tag) == SentNow(h, e, tag, stream)
  {
    var more := SentBy(h, e);
    hide Carried;
    if more == [] {
      CarriedOne(Data(tag, [], false), tag);
    } else {
      OnStreamOne(more[0], stream);
      assert more == [more[0]];
      hide OnStream;
      CarriedOne(more[0].msg, tag);
    }
  }

  /** Every message for the tag on the stream carries bytes read or flushed while the bridge was paired with it. */
  lemma {:induction false} CarriedOnStream(trace: seq<Event>, tag: int, stream: StreamId)
    ensures Carried(OnStream(Run(trace).sent, stream), tag) == SentVia(trace, tag, stream)
  {
    if trace == [] {
      CarriedOne(Data(tag, [], false), tag);
    } else {
      var h, e := Run(trace[..|trace| - 1]), trace[|trace| - 1];
      CarriedOnStream(trace[..|trace| - 1], tag, stream);
      SentGrows(h, e);
      OnStreamConcat(h.sent, SentBy(h, e), stream);
      CarriedConcat(OnStream(h.sent, stream), OnStream(SentBy(h, e), stream), tag);
      CarriedBy(h, e, stream, tag);
      hide Step, SentBy, OnStream, Carried, SentNow;
    }
  }

  /** Whether the stream is open depends on nothing but the actions. */
  function PhaseOf(acts: seq<Action>, stream: StreamId): Phase {
    if acts == [] then
      Unopened
    else
      var before := PhaseOf(acts[..|acts| - 1], stream);
      match acts[|acts| - 1]
      case OpenStream => Live
      case CloseStream => Gone
      case HubEvent(e) => if e == SessionLost(stream.session) && before == Live then Gone else before
      case _ => before
  }

  /** The messages that the hub sends on the stream at steps after it was gone. */
  function SentLate(acts: seq<Action>, stream: StreamId): seq<Message> {
    if acts == [] then
      []
    else
      var init, a := acts[..|acts| - 1], acts[|acts| - 1];
      SentLate(init, stream) +
      (if PhaseOf(init, stream) == Gone && a.HubEvent? then OnStream(SentBy(Run(HubEvents(init)), a.e), stream) else [])
  }

  /** The bytes of a tag that one action makes the hub send on the stream when it is gone. A bridge pairs with a stream
      only when a message arrives on it, so they are bytes that the operator writes then. */
  function LateRead(before: seq<Action>, a: Action, stream: StreamId, tag: int): Bytes {
    if PhaseOf(before, stream) == Gone && a.HubEvent? then SentNow(Run(HubEvents(before)), a.e, tag, stream) else []
  }

  function ReadLate(acts: seq<Action>, stream: StreamId, tag: int): Bytes {
    if acts == [] then
      []
    else
      var init, a := acts[..|acts| - 1], acts[|acts| - 1];
      ReadLate(init, stream, tag) + LateRead(init, a, stream, tag)
  }

  lemma {:induction false} PushAllDrops(w: World, c: Codec, ms: seq<Message>)
    ensures PushAll(w, c, ms).phase == w.phase
    ensures PushAll(w, c, ms).dropped == if w.phase == Live then w.dropped else w.dropped + ms
  {
    if ms != [] {
      PushAllDrops(w, c, ms[..|ms| - 1]);
      Last(ms);
    }
  }

  lemma ActDrops(w: World, a: Action, stream: StreamId, c: Codec)
    requires WorldInv(w, stream, c) && MayAct(w, a, stream)
    ensures Act(w, a, stream, c).dropped ==
            w.dropped + (if w.phase == Gone && a.HubEvent? then OnStream(SentBy(w.hub, a.e), stream) else [])
  {
    hide SentBy, Step, Unknown, ChannelInv;
    if a.HubEvent? {
      PushAllDrops(w.(hub := Step(w.hub, a.e)), c, OnStream(SentBy(w.hub, a.e), stream));
      if w.phase == Unopened {
        UnknownIsQuiet(w.hub, a.e, stream);
      }
    }
  }

  lemma ActPhase(w: World, a: Action, stream: StreamId, c: Codec)
    ensures Act(w, a, stream, c).phase ==
            match a
            case OpenStream => Live
            case CloseStream => Gone
            case HubEvent(e) => if e == SessionLost(stream.session) && w.phase == Live then Gone else w.phase
            case _ => w.phase
  {
    if a.HubEvent? {
      PushAllDrops(w.(hub := Step(w.hub, a.e)), c, OnStream(SentBy(w.hub, a.e), stream));
    }
  }

  /** Over every legal run: what finds the stream gone is exactly what the hub sends on it later. */
  lemma {:induction false} DroppedIsSentLate(acts: seq<Action>, stream: StreamId, c: Codec)
    requires LegalWorld(acts, stream, c)
    ensures RunWorld(acts, stream, c).phase == PhaseOf(acts, stream)
    ensures RunWorld(acts, stream, c).dropped == SentLate(acts, stream)
  {
    if acts != [] {
      var init, a := acts[..|acts| - 1], acts[|acts| - 1];
      DroppedIsSentLate(init, stream, c);
      RunWorldKeepsInv(init, stream, c);
      HubOfRun(init, stream, c);
      ActDrops(RunWorld(init, stream, c), a, stream, c);
      ActPhase(RunWorld(init, stream, c), a, stream, c);
      hide Act, WorldInv, OnStream, SentBy, Run;
    }
  }

  lemma {:induction false} CarriedLate(acts: seq<Action>, stream: StreamId, tag: int)
    ensures Carried(SentLate(acts, stream), tag) == ReadLate(acts, stream, tag)
  {
    if acts == [] {
      CarriedOne(Data(tag, [], false), tag);
    } else {
      var init, a := acts[..|acts| - 1], acts[|acts| - 1];
      CarriedLate(init, stream, tag);
      hide Run, SentBy, OnStream, Carried, SentNow;
      var h := Run(HubEvents(init));
      var late := if PhaseOf(init, stream) == Gone && a.HubEvent? then OnStream(SentBy(h, a.e), stream) else [];
      CarriedConcat(SentLate(init, stream), late, tag);
      if PhaseOf(init, stream) == Gone && a.HubEvent? {
        CarriedBy(h, a.e, stream, tag);
      } else {
        CarriedOne(Data(tag, [], false), tag);
      }
    }
  }

  predicate LosesAt(acts: seq<Action>, i: nat, stream: StreamId, tag: int)
    requires i < |acts|
  {
    LateRead(acts[..i], acts[i], stream, tag) != []
  }

  lemma LosesInPrefix(acts: seq<Action>, n: nat, i: nat, stream: StreamId, tag: int)
    requires i < n <= |acts|
    ensures LosesAt(acts[..n], i, stream, tag) == LosesAt(acts, i, stream, tag)
  {
    assert acts[..n][..i] == acts[..i];
  }

  /** Nothing is lost exactly when no action reads bytes for a bridge paired with the stream once it is gone. */
  lemma {:induction false} NothingReadLate(acts: seq<Action>, stream: StreamId, tag: int)
    ensures ReadLate(acts, stream, tag) == [] <==> forall i :: 0 <= i < |acts| ==> !LosesAt(acts, i, stream, tag)
  {
    if acts != [] {
      var n := |acts| - 1;
      NothingReadLate(acts[..n], stream, tag);
      var was, now := ReadLate(acts[..n], stream, tag), LateRead(acts[..n], acts[n], stream, tag);
      assert ReadLate(acts, stream, tag) == was + now;
      assert was + now == [] <==> was == [] && now == [];
      assert now == [] <==> !LosesAt(acts, n, stream, tag);
      forall i | 0 <= i < n
        ensures LosesAt(acts[..n], i, stream, tag) == LosesAt(acts, i, stream, tag)
      {
        LosesInPrefix(acts, n, i, stream, tag);
      }
      hide LateRead, LosesAt, ReadLate;
    }
  }

  lemma RunWorldSnoc(acts: seq<Action>, a: Action, stream: StreamId, c: Codec)
    ensures RunWorld(acts + [a], stream, c) == Act(RunWorld(acts, stream, c), a, stream, c)
    ensures LegalWorld(acts + [a], stream, c) <==>
            LegalWorld(acts, stream, c) && MayAct(RunWorld(acts, stream, c), a, stream)
  {
    assert (acts + [a])[..|acts|] == acts;
  }

  lemma ChannelAtRun(acts: seq<Action>, stream: StreamId, c: Codec)
    requires LegalWorld(acts, stream, c)
    ensures var w := RunWorld(acts, stream, c);
            ChannelInv(Restored(w), c) && OnStream(w.hub.sent, stream) == w.chan.accepted + w.dropped &&
            (w.phase == Live ==> w.dropped == []) && w.phase == PhaseOf(acts, stream) &&
            w.dropped == SentLate(acts, stream) && w.hub == Run(HubEvents(acts)) && Legal(HubEvents(acts))
  {
    RunWorldKeepsInv(acts, stream, c);
    HubOfRun(acts, stream, c);
    DroppedIsSentLate(acts, stream, c);
    hide RunWorld, Run, OnStream, Legal, LegalWorld, ChannelInv, Unknown, SentLate, PhaseOf, HubEvents, Restored;
  }

  /** Every byte sent on the stream for a tag is in a message that was accepted, or was sent too late. */
  lemma BytesInMessages(acts: seq<Action>, stream: StreamId, c: Codec, tag: int)
    requires LegalWorld(acts, stream, c)
    ensures var w := RunWorld(acts, stream, c);
            w.phase == PhaseOf(acts, stream) && (w.phase == Live ==> ReadLate(acts, stream, tag) == []) &&
            SentVia(HubEvents(acts), tag, stream) == Carried(w.chan.accepted, tag) + ReadLate(acts, stream, tag)
  {
    var w := RunWorld(acts, stream, c);
    ChannelAtRun(acts, stream, c);
    CarriedOnStream(HubEvents(acts), tag, stream);
    CarriedLate(acts, stream, tag);
    CarriedOne(Data(tag, [], false), tag);
    hide RunWorld, LegalWorld, ChannelInv, ReadLate, PhaseOf, SentLate, Carried, Run, Legal, OnStream, SentVia;
    hide Restored;
    CarriedConcat(w.chan.accepted, w.dropped, tag);
  }

  /** With the tag paired on one stream only, what is not sent on it is not sent at all. */
  lemma InputIsSentVia(trace: seq<Event>, tag: int, stream: StreamId)
    requires Legal(trace) && PairedOnlyOn(trace, tag, stream)
    ensures OperatorInput(trace, tag) == SentVia(trace, tag, stream) + Unsent(ViewOf(Run(trace), tag))
  {
    RunKeepsOnly(trace, tag, stream);
    OperatorBytesConserved(trace, tag);
    CarriedOnStream(trace, tag, stream);
    hide Run, Legal, PairedOnlyOn, SentVia, OperatorInput, Unsent, ViewOf, OnStream, Frames, ForTag, Payload;
  }

  lemma CarriedSplit(ms: seq<Message>, k: nat, tag: int)
    requires k <= |ms|
    ensures Carried(ms, tag) == Carried(ms[..k], tag) + Carried(ms[k..], tag)
  {
    assert ms == ms[..k] + ms[k..];
    CarriedConcat(ms[..k], ms[k..], tag);
  }

  lemma EncodeAllEmpty(c: Codec, ms: seq<Message>)
    ensures EncodeAll(FramesOf(c, ms)) == [] ==> ms == []
  {
    if ms != [] {
      assert EncodeAll(FramesOf(c, ms)) == Encode(FramesOf(c, ms)[0]) + EncodeAll(FramesOf(c, ms)[1..]);
    }
  }

  lemma PairedHasSentAll(trace: seq<Event>, tag: int)
    requires Legal(trace) && tag in Run(trace).bridges && Run(trace).bridges[tag].tunnel.Some?
    ensures Unsent(ViewOf(Run(trace), tag)) == []
  {
    RunKeepsInv(trace);
    RunKeepsTagInv(trace, tag);
    hide Run, Legal;
  }

  /** The messages of a channel in three parts: decoded; taken whole by nghttp2 and on their way; and the others, of
      which the first may have been taken in part. */
  lemma ChannelParts(ch: Channel, c: Codec) returns (decoded: seq<Message>, onWay: seq<Message>, others: seq<Message>)
    requires ChannelInv(ch, c) && Faithful(c, ch.accepted)
    requires forall i :: 0 <= i < |ch.accepted| ==> |c.ser(ch.accepted[i])| < TWO_TO_THE_32
    ensures decoded + onWay + others == ch.accepted
    ensures |decoded| == |ch.got| && |decoded| + |onWay| == |Parse(ch.out.read).frames|
    ensures Understood(c, ch.got) == Somes(decoded)
    ensures ch.tail + ch.wire == EncodeAll(FramesOf(c, onWay)) + Parse(ch.out.read).rest
    ensures Parse(ch.out.read).rest + ch.out.respBody == EncodeAll(FramesOf(c, others))
  {
    hide ChannelInv, Parse, EncodeAll, FramesOf, Understood, Somes, Faithful;
    ChannelDelivers(ch, c);
    TakenIsPrefix(ch, c);
    var ms, g, k := ch.accepted, |ch.got|, |Parse(ch.out.read).frames|;
    decoded, onWay, others := ms[..g], ms[g..k], ms[k..];
    assert decoded + onWay + others == ms;
  }

  lemma FramesOfSlice(c: Codec, ms: seq<Message>, from: nat, to: nat)
    requires from <= to <= |ms|
    ensures FramesOf(c, ms)[from..to] == FramesOf(c, ms[from..to])
  {
  }

  lemma TakenIsPrefix(ch: Channel, c: Codec)
    requires ChannelInv(ch, c)
    requires forall i :: 0 <= i < |ch.accepted| ==> |c.ser(ch.accepted[i])| < TWO_TO_THE_32
    ensures var taken := Parse(ch.out.read);
            var g, k := |ch.got|, |taken.frames|;
            g <= k <= |ch.accepted| &&
            ch.tail + ch.wire == EncodeAll(FramesOf(c, ch.accepted[g..k])) + taken.rest &&
            taken.rest + ch.out.respBody == EncodeAll(FramesOf(c, ch.accepted[k..]))
  {
    hide ChannelInv, Parse, EncodeAll, AllSized, FramesOf;
    var ms, fs, p := ch.accepted, FramesOf(c, ch.accepted), Parse(ch.tail + ch.wire);
    ChannelFacts(ch, c);
    ParseConcat(ch.arrived, ch.wire);
    ParseSound(ch.tail + ch.wire);
    ParsePrefix(fs, ch.out.read, ch.out.respBody);
    var g, k := |ch.got|, |Parse(ch.out.read).frames|;
    FramesOfSlice(c, ms, g, k);
    FramesOfSlice(c, ms, k, |ms|);
    LaterFrames(Parse(ch.arrived).frames, p.frames, fs);
    assert fs[k..] == fs[k..|ms|] && ms[k..] == ms[k..|ms|];
  }

  lemma ChannelFacts(ch: Channel, c: Codec)
    requires ChannelInv(ch, c)
    requires forall i :: 0 <= i < |ch.accepted| ==> |c.ser(ch.accepted[i])| < TWO_TO_THE_32
    ensures var fs := FramesOf(c, ch.accepted);
            |fs| == |ch.accepted| && AllSized(fs) && EncodeAll(fs) == ch.out.read + ch.out.respBody
    ensures ch.got == Bodies(Parse(ch.arrived).frames) && ch.tail == Parse(ch.arrived).rest
    ensures ch.out.read == ch.arrived + ch.wire
  {
  }

  lemma LaterFrames(a: seq<Frame>, b: seq<Frame>, fs: seq<Frame>)
    requires a + b <= fs
    ensures b == fs[|a|..|a + b|]
  {
    assert b == (a + b)[|a|..] && a + b == fs[..|a + b|];
  }

  /** What the conditions on protobuf come to for a run: its messages parse back, and are below 4 GiB. */
  ghost predicate Serialises(c: Codec, ms: seq<Message>) {
    Faithful(c, ms) && forall i :: 0 <= i < |ms| ==> |c.ser(ms[i])| < TWO_TO_THE_32
  }

  /** One stream, end to end, whatever tags and streams there are besides. In every interleaving of operator reads,
      pairing, provider reads of any size and chunks of any size, the bytes sent for a tag on the stream, read or
      flushed while its bridge was paired with it, are those the device has decoded, then those in whole messages on
      their way, then those in messages that nghttp2 has not taken whole (waiting, or lost: see `RelayLoss`), then
      those sent when the stream was gone. */
  lemma StreamToDevice(acts: seq<Action>, stream: StreamId, c: Codec, tag: int)
    returns (decoded: seq<Message>, onWay: seq<Message>, others: seq<Message>)
    requires LegalWorld(acts, stream, c) && Serialises(c, RunWorld(acts, stream, c).chan.accepted)
    ensures var w := RunWorld(acts, stream, c);
            var taken := Parse(w.chan.out.read);
            decoded + onWay + others == w.chan.accepted &&
            |decoded| == |w.chan.got| && |decoded| + |onWay| == |taken.frames| &&
            Understood(c, w.chan.got) == Somes(decoded) &&
            w.chan.tail + w.chan.wire == EncodeAll(FramesOf(c, onWay)) + taken.rest &&
            taken.rest + Untaken(w) == EncodeAll(FramesOf(c, others))
    ensures var w := RunWorld(acts, stream, c);
            w.phase == PhaseOf(acts, stream) && (w.phase == Live ==> ReadLate(acts, stream, tag) == []) &&
            SentVia(HubEvents(acts), tag, stream) ==
              Carried(decoded, tag) + Carried(onWay, tag) + Carried(others, tag) + ReadLate(acts, stream, tag)
  {
    hide RunWorld, LegalWorld, ChannelInv, ReadLate, PhaseOf, Carried, EncodeAll, Parse;
    hide Faithful, FramesOf, Understood, Somes, HubEvents, OnStream, SentLate, Run, Legal, SentVia;
    var w := RunWorld(acts, stream, c);
    ChannelAtRun(acts, stream, c);
    decoded, onWay, others := ChannelParts(Restored(w), c);
    BytesInMessages(acts, stream, c, tag);
    CarriedConcat(decoded + onWay, others, tag);
    CarriedConcat(decoded, onWay, tag);
  }

  /** Operator to device, end to end: with the tag paired on one stream only, those bytes, and those not sent yet, are
      what the operator wrote. */
  lemma OperatorToDevice(acts: seq<Action>, stream: StreamId, c: Codec, tag: int)
    returns (decoded: seq<Message>, onWay: seq<Message>, others: seq<Message>)
    requires LegalWorld(acts, stream, c) && Serialises(c, RunWorld(acts, stream, c).chan.accepted)
    requires PairedOnlyOn(HubEvents(acts), tag, stream)
    ensures var w := RunWorld(acts, stream, c);
            var taken := Parse(w.chan.out.read);
            decoded + onWay + others == w.chan.accepted &&
            Understood(c, w.chan.got) == Somes(decoded) &&
            w.chan.tail + w.chan.wire == EncodeAll(FramesOf(c, onWay)) + taken.rest &&
            taken.rest + Untaken(w) == EncodeAll(FramesOf(c, others)) &&
            (w.phase == Live ==> ReadLate(acts, stream, tag) == []) &&
            OperatorInput(HubEvents(acts), tag) ==
              Carried(decoded, tag) + Carried(onWay, tag) + Carried(others, tag) + ReadLate(acts, stream, tag) +
              Unsent(ViewOf(w.hub, tag))
  {
    hide RunWorld, LegalWorld, ReadLate, PhaseOf, Carried, EncodeAll, Parse, Serialises, FramesOf, Understood, Somes;
    hide HubEvents, Run, Legal, SentVia, OperatorInput, Unsent, ViewOf, PairedOnlyOn;
    decoded, onWay, others := StreamToDevice(acts, stream, c, tag);
    HubOfRun(acts, stream, c);
    InputIsSentVia(HubEvents(acts), tag, stream);
  }

  /** When nothing is under way, nothing was left behind or sent too late, and the bridge is live and paired, the
      device holds every operator byte. */
  lemma QuietMeansDelivered(acts: seq<Action>, stream: StreamId, c: Codec, tag: int)
    requires LegalWorld(acts, stream, c) && Serialises(c, RunWorld(acts, stream, c).chan.accepted)
    requires PairedOnlyOn(HubEvents(acts), tag, stream)
    requires var w := RunWorld(acts, stream, c);
             ReadLate(acts, stream, tag) == [] && w.chan.tail == w.chan.wire == Untaken(w) == [] &&
             tag in w.hub.bridges && w.hub.bridges[tag].tunnel.Some?
    ensures var w := RunWorld(acts, stream, c);
            Understood(c, w.chan.got) == Somes(w.chan.accepted) &&
            Carried(w.chan.accepted, tag) == OperatorInput(HubEvents(acts), tag)
  {
    hide RunWorld, LegalWorld, ReadLate, PhaseOf, Carried, Serialises, FramesOf, Understood, Somes, Parse, EncodeAll;
    hide HubEvents, Run, Legal, OperatorInput, Unsent, ViewOf, PairedOnlyOn;
    var decoded, onWay, others := OperatorToDevice(acts, stream, c, tag);
    HubOfRun(acts, stream, c);
    PairedHasSentAll(HubEvents(acts), tag);
    EncodeAllEmpty(c, onWay);
    EncodeAllEmpty(c, others);
    CarriedOne(Data(tag, [], false), tag);
    assert decoded + [] + [] == decoded;
  }

  // Device to operator.

  /** The Data messages that a list of events brings in on one Tunnel stream. */
  function Upstream(es: seq<Event>, stream: StreamId): (ms: seq<Message>)
    ensures |ms| <= |es| && forall m :: m in ms ==> m.Data?
    decreases |es|
  {
    if es == [] then []
    else (if ArrivesAsData(es[0], stream) then [MessageOf(es[0])] else []) + Upstream(es[1..], stream)
  }

  lemma {:induction false} UpstreamConcat(a: seq<Event>, b: seq<Event>, stream: StreamId)
    ensures Upstream(a + b, stream) == Upstream(a, stream) + Upstream(b, stream)
    decreases |a|
  {
    if a == [] {
      assert a + b == b;
    } else {
      UpstreamConcat(a[1..], b, stream);
      TailConcat(a, b);
    }
  }

  predicate ArrivesAsData(e: Event, stream: StreamId) {
    e.TunnelData? && e.stream == stream
  }

  function MessageOf(e: Event): Message
    requires e.TunnelData?
  {
    Data(e.tag, e.data, e.close)
  }

  /** The data for a tag up to its first closing message, which is excluded with all that follow. */
  function UpToClose(msgs: seq<Message>, tag: int): Bytes {
    if msgs == [] then []
    else if !msgs[0].Data? || msgs[0].tag != tag then UpToClose(msgs[1..], tag)
    else if msgs[0].close then []
    else msgs[0].data + UpToClose(msgs[1..], tag)
  }

  /** One event, seen from one tag with a live bridge. */
  lemma LiveStep(v: View, tag: int, i: Input)
    requires v.bridge.Some? && !i.Open?
    ensures var v' := TagStep(v, tag, i);
            v'.written == v.written + (if i.FromDev? && !i.close then i.data else []) &&
            (v'.bridge.None? ==>
               v'.ending.Some? &&
               (if i.FromDev? then i.close && v'.ending.value.cause == ByDevice
                else (i.OpClosed? || i.Lost?) && v'.ending.value.cause != ByDevice)) &&
            (i.FromDev? && i.close ==> v'.bridge.None?)
  {
  }

  /** The same for the hub. */
  lemma LiveEvent(trace: seq<Event>, e: Event, tag: int)
    requires Legal(trace + [e]) && tag in Run(trace).bridges
    ensures var h, h' := Run(trace), Run(trace + [e]);
            var brings := e.TunnelData? && e.tag == tag;
            WrittenTo(h'.written, tag) == WrittenTo(h.written, tag) + (if brings && !e.close then e.data else []) &&
            (brings && e.close ==> tag in h'.ended && h'.ended[tag].cause == ByDevice && tag !in h'.bridges) &&
            (!(brings && e.close) ==>
               tag in h'.bridges || (!brings && tag in h'.ended && h'.ended[tag].cause != ByDevice))
  {
    var h := Run(trace);
    RunSnoc(trace, e);
    RunKeepsInv(trace);
    RunKeepsInv(trace + [e]);
    StepProjects(h, e, tag);
    OpenOnlyUnborn(h, e, tag);
    InputOfData(h, e, tag);
    assert ViewOf(h, tag).bridge.Some?;
    assert tag in Step(h, e).bridges ==> tag !in Step(h, e).ended;
    LiveStep(ViewOf(h, tag), tag, InputOf(h, e, tag));
    hide Run, Step, Legal, Inv, TagStep, InputOf;
  }

  lemma UpToCloseCons(m: Message, ms: seq<Message>, tag: int)
    requires m.Data?
    ensures UpToClose([m] + ms, tag) ==
            if m.tag != tag then UpToClose(ms, tag) else if m.close then [] else m.data + UpToClose(ms, tag)
  {
    assert ([m] + ms)[1..] == ms;
  }

  /** What the socket of a live tag gets while any events pass by: its data up to the first close, out of the
      first `k` messages. Only the operator's close and the loss of the target's session can make `k` fall short. */
  ghost predicate Delivered(h: Hub, h': Hub, msgs: seq<Message>, tag: int, k: nat) {
    && k <= |msgs|
    && WrittenTo(h'.written, tag) == WrittenTo(h.written, tag) + UpToClose(msgs[..k], tag)
    && (tag in h'.bridges || (tag in h'.ended && h'.ended[tag].cause == ByDevice) ==> k == |msgs|)
  }

  lemma TakeCons<T>(x: T, xs: seq<T>, k: nat)
    requires k <= |xs|
    ensures ([x] + xs)[..k + 1] == [x] + xs[..k]
  {
  }

  lemma DeliveredMore(h0: Hub, h1: Hub, h2: Hub, m: Message, ms: seq<Message>, tag: int, k: nat)
    requires m.Data? && Delivered(h1, h2, ms, tag, k) && !(m.tag == tag && m.close)
    requires WrittenTo(h1.written, tag) == WrittenTo(h0.written, tag) + (if m.tag == tag then m.data else [])
    ensures Delivered(h0, h2, [m] + ms, tag, k + 1)
  {
    hide UpToClose, WrittenTo;
    TakeCons(m, ms, k);
    UpToCloseCons(m, ms[..k], tag);
    var w, now, later := WrittenTo(h0.written, tag), if m.tag == tag then m.data else [], UpToClose(ms[..k], tag);
    Assoc(w, now, later);
    assert UpToClose(([m] + ms)[..k + 1], tag) == now + later;
  }

  /** The bridge of the tag is live, and Tunnel messages that name the tag come in on the one stream from then on. */
  ghost predicate LiveSince(trace: seq<Event>, more: seq<Event>, stream: StreamId, tag: int) {
    Legal(trace + more) && PairedOnlyOn(more, tag, stream) && tag in Run(trace).bridges
  }

  lemma UpstreamCons(e: Event, rest: seq<Event>, stream: StreamId)
    ensures Upstream([e] + rest, stream) ==
            if ArrivesAsData(e, stream) then [MessageOf(e)] + Upstream(rest, stream) else Upstream(rest, stream)
  {
    assert ([e] + rest)[1..] == rest;
  }

  lemma PairedOnlyCons(e: Event, rest: seq<Event>, tag: int, stream: StreamId)
    requires PairedOnlyOn([e] + rest, tag, stream)
    ensures PairedOnlyOn(rest, tag, stream)
    ensures e.TunnelData? && e.tag == tag ==> ArrivesAsData(e, stream)
  {
    var es := [e] + rest;
    assert es[0] == e && forall i :: 0 <= i < |rest| ==> rest[i] == es[i + 1];
  }

  /** The bridge has just ended: the remaining events bring nothing. */
  lemma UpstreamEnded(h: Hub, trace: seq<Event>, rest: seq<Event>, tag: int, msgs: seq<Message>, k: nat)
    requires Legal(trace + rest) && tag in Run(trace).ended && tag !in Run(trace).bridges
    requires k <= |msgs| && (Run(trace).ended[tag].cause == ByDevice ==> k == |msgs|)
    requires WrittenTo(Run(trace).written, tag) == WrittenTo(h.written, tag) && UpToClose(msgs[..k], tag) == []
    ensures Delivered(h, Run(trace + rest), msgs, tag, k)
  {
    var h1, h2 := Run(trace), Run(trace + rest);
    EndedIsFinal(trace, rest, tag);
    ViewLife(h1, tag);
    ViewLife(h2, tag);
    assert ViewOf(h1, tag).ending == ViewOf(h2, tag).ending && ViewOf(h1, tag).written == ViewOf(h2, tag).written;
    hide Run, Legal, UpToClose;
  }

  lemma {:induction false} UpstreamWrites(trace: seq<Event>, more: seq<Event>, stream: StreamId, tag: int)
    returns (k: nat)
    requires LiveSince(trace, more, stream, tag)
    ensures Delivered(Run(trace), Run(trace + more), Upstream(more, stream), tag, k)
    decreases |more|
  {
    hide Run, Legal, PairedOnlyOn, Upstream, WrittenTo, UpToClose, Delivered;
    if more == [] {
      assert trace + more == trace;
      k := 0;
      NothingDelivered(Run(trace), stream, tag);
    } else {
      var e, rest := more[0], more[1..];
      var ms := Upstream(rest, stream);
      assert more == [e] + rest;
      Assoc(trace, [e], rest);
      LegalPrefix(trace + [e], rest);
      LiveEvent(trace, e, tag);
      UpstreamCons(e, rest, stream);
      PairedOnlyCons(e, rest, tag, stream);
      if tag in Run(trace + [e]).bridges {
        k := UpstreamWrites(trace + [e], rest, stream, tag);
        if ArrivesAsData(e, stream) {
          DeliveredMore(Run(trace), Run(trace + [e]), Run(trace + more), MessageOf(e), ms, tag, k);
          k := k + 1;
        } else {
          DeliveredSame(Run(trace), Run(trace + [e]), Run(trace + more), ms, tag, k);
        }
      } else {
        k := EndedNow(trace, e, rest, stream, tag);
      }
    }
  }

  lemma NothingDelivered(h: Hub, stream: StreamId, tag: int)
    ensures Delivered(h, h, Upstream([], stream), tag, 0)
  {
  }

  lemma DeliveredSame(h0: Hub, h1: Hub, h2: Hub, ms: seq<Message>, tag: int, k: nat)
    requires Delivered(h1, h2, ms, tag, k) && WrittenTo(h1.written, tag) == WrittenTo(h0.written, tag)
    ensures Delivered(h0, h2, ms, tag, k)
  {
  }

  lemma EndedNow(trace: seq<Event>, e: Event, rest: seq<Event>, stream: StreamId, tag: int) returns (k: nat)
    requires LiveSince(trace, [e] + rest, stream, tag) && tag !in Run(trace + [e]).bridges
    ensures Delivered(Run(trace), Run(trace + [e] + rest), Upstream([e] + rest, stream), tag, k)
  {
    Assoc(trace, [e], rest);
    LegalPrefix(trace + [e], rest);
    PairedOnlyCons(e, rest, tag, stream);
    LiveEvent(trace, e, tag);
    UpstreamCons(e, rest, stream);
    hide Run, Legal, Upstream, WrittenTo, Delivered;
    var msgs := Upstream([e] + rest, stream);
    if e.TunnelData? && e.tag == tag {
      k := |msgs|;
      UpToCloseCons(MessageOf(e), Upstream(rest, stream), tag);
      assert msgs[..k] == msgs;
    } else {
      k := 0;
    }
    UpstreamEnded(Run(trace), trace + [e], rest, tag, msgs, k);
  }

  lemma {:induction false} LegalPrefix(trace: seq<Event>, more: seq<Event>)
    requires Legal(trace + more)
    ensures Legal(trace)
    decreases |more|
  {
    if more == [] {
      assert trace + more == trace;
    } else {
      assert (trace + more)[..|trace + more| - 1] == trace + more[..|more| - 1];
      LegalPrefix(trace, more[..|more| - 1]);
    }
  }

  /** A device has encoded `ms`; the chunks have arrived, the unseen bytes not yet. */
  ghost predicate SentOver(ms: seq<Message>, c: Codec, chunks: seq<Bytes>, unseen: Bytes) {
    && Faithful(c, ms)
    && (forall i :: 0 <= i < |ms| ==> |c.ser(ms[i])| < WRAP_LEN)
    && EncodeAll(FramesOf(c, ms)) == Flatten(chunks) + unseen
  }

  /** Whatever part of an encoded conversation has arrived, and however it was cut, the server has dispatched a
      prefix of its messages, and what it keeps encodes the rest together with the bytes still to come. */
  lemma PartOfConversation(ms: seq<Message>, c: Codec, chunks: seq<Bytes>, unseen: Bytes, gz: Inflate)
    requires SentOver(ms, c, chunks, unseen)
    ensures var d := Serve(chunks, gz);
            var n := |d.messages|;
            n <= |ms| && Understood(c, d.messages) == Somes(ms[..n]) &&
            d.rest + unseen == EncodeAll(FramesOf(c, ms[n..])) &&
            (unseen == [] ==> n == |ms| && d.rest == [])
  {
    var fs, seen := FramesOf(c, ms), Flatten(chunks);
    assert AllSmall(fs) && AllSized(fs);
    WholeInRange(fs);
    hide Flatten, EncodeAll, InRange, Serve, Parse, AllSmall, AllSized;
    ParsePrefix(fs, seen, unseen);
    InRangePrefix(seen, unseen);
    ServeChunks(chunks, gz);
    assert unseen == [] ==> seen + unseen == seen;
    var n := |Parse(seen).frames|;
    assert fs[n..] == FramesOf(c, ms[n..]);
    forall i | 0 <= i < n
      ensures Reference(seen, gz).messages[i] == c.ser(ms[i]) && c.parse(c.ser(ms[i])) == Some(ms[i])
    {
      assert Parse(seen).frames[i] == fs[i];
    }
  }

  lemma WholeInRange(fs: seq<Frame>)
    requires AllSmall(fs)
    ensures Parse(EncodeAll(fs)) == Framing.Parsed(fs, []) && InRange(EncodeAll(fs))
  {
    assert EncodeAll(fs) + [] == EncodeAll(fs);
    ParseUnique(fs, []);
  }

  /** Device to operator, end to end. A device sends `msgs`, for any tags; some of the bytes have arrived, cut
      anywhere, and the hub has met the messages they complete, among any other events. Since any moment at which the
      bridge of a tag was live, when the stream had brought `m` messages, the operator socket of the tag has got
      exactly the data for the tag, in order, up to the first close, which is excluded with all that follows; only the
      operator's own close, or the loss of the target, can end this sooner. */
  lemma DeviceToOperator(msgs: seq<Message>, c: Codec, chunks: seq<Bytes>, unseen: Bytes, gz: Inflate,
                         trace: seq<Event>, more: seq<Event>, stream: StreamId, tag: int) returns (k: nat)
    requires SentOver(msgs, c, chunks, unseen)
    requires Understood(c, Serve(chunks, gz).messages) == Somes(Upstream(trace + more, stream))
    requires LiveSince(trace, more, stream, tag)
    ensures var m, n := |Upstream(trace, stream)|, |Serve(chunks, gz).messages|;
            m <= n <= |msgs| && Delivered(Run(trace), Run(trace + more), msgs[m..n], tag, k)
    ensures unseen == [] ==> |Serve(chunks, gz).messages| == |msgs|
  {
    PartOfConversation(msgs, c, chunks, unseen, gz);
    var n := |Serve(chunks, gz).messages|;
    SomesInjective(Upstream(trace + more, stream), msgs[..n]);
    UpstreamConcat(trace, more, stream);
    hide Run, Legal, PairedOnlyOn, Upstream, Delivered;
    var m := |Upstream(trace, stream)|;
    assert Upstream(more, stream) == msgs[..n][m..] == msgs[m..n];
    k := UpstreamWrites(trace, more, stream, tag);
  }

  lemma SomesInjective(a: seq<Message>, b: seq<Message>)
    requires Somes(a) == Somes(b)
    ensures a == b
  {
    assert |a| == |Somes(a)| == |Somes(b)| == |b|;
    forall i | 0 <= i < |a|
      ensures a[i] == b[i]
    {
      assert Somes(a)[i] == Somes(b)[i];
    }
  }
}
