/**
 Whole runs of the tunnel. The hub's maps and logs are shown to be nothing but a family of
 independent one-bridge automata, one per tag; conservation of bytes, the order of frames, and the
 single ending of a bridge are then properties of that small automaton.
 */
module TunnelRuns {
  import opened ByteStrings
  import opened Text
  import opened TunnelState

  /** The Data messages for one tag, in sending order. */
  function Frames(sent: seq<Sent>, tag: int): (ms: seq<Message>)
    ensures forall m :: m in ms ==> m.Data? && m.tag == tag
  {
    if sent == [] then
      []
    else
      var m := sent[|sent| - 1].msg;
      Frames(sent[..|sent| - 1], tag) + (if m.Data? && m.tag == tag then [m] else [])
  }

  function Payload(ms: seq<Message>): Bytes {
    if ms == [] then [] else
      Payload(ms[..|ms| - 1]) + (if ms[|ms| - 1].Data? then ms[|ms| - 1].data else [])
  }

  function WrittenTo(written: seq<(int, Bytes)>, tag: int): Bytes {
    if written == [] then [] else
      var (t, bytes) := written[|written| - 1];
      WrittenTo(written[..|written| - 1], tag) + (if t == tag then bytes else [])
  }

  /** All that can be seen of one tag. */
  datatype View = View(
    bridge: Option<Bridge>, ending: Option<Ending>,
    frames: seq<Message>, written: Bytes, closeCalls: nat)

  const UNBORN := View(None, None, [], [], 0)

  function ViewOf(h: Hub, tag: int): View {
    View(if tag in h.bridges then Some(h.bridges[tag]) else None,
         if tag in h.ended then Some(h.ended[tag]) else None,
         Frames(h.sent, tag), WrittenTo(h.written, tag), h.closeCalls[tag])
  }

  /** What an event of the whole system is to one tag. */
  datatype Input =
    | Skip
    | Open(operator: OperatorId, target: string)
    | FromOp(bytes: Bytes)
    | OpClosed
    | FromDev(stream: StreamId, data: Bytes, close: bool)
    | Lost

  function InputOf(h: Hub, e: Event, tag: int): Input {
    match e
    case Connect(operator, target) =>
      if target in h.targets && tag == h.nextTag + 1 then Open(operator, target) else Skip
    case OperatorData(operator, bytes) =>
      if operator in h.conns && h.conns[operator] == tag && bytes != [] then FromOp(bytes) else Skip
    case OperatorClose(operator) =>
      if operator in h.conns && h.conns[operator] == tag then OpClosed else Skip
    case TunnelData(stream, t, data, close) => if t == tag then FromDev(stream, data, close) else Skip
    case SessionLost(session) =>
      if tag in h.bridges && h.bridges[tag].target in OwnedBy(h, session) then Lost else Skip
    case _ => Skip
  }

  /** Pairing sends what was buffered, as one frame, unless that is nothing. */
  function Paired(v: View, tag: int, stream: StreamId): (p: View)
    requires v.bridge.Some?
    ensures p.bridge.Some?
  {
    var b := v.bridge.value;
    v.(bridge := Some(b.(tunnel := Some(stream), buffered := [])),
       frames := if b.buffered == [] then v.frames else v.frames + [Data(tag, b.buffered, false)])
  }

  /** The life of a single bridge. */
  function TagStep(v: View, tag: int, i: Input): View {
    if i.Open? then
      v.(bridge := Some(Bridge(tag, i.target, i.operator, None, [])))
    else if v.bridge.None? then
      v
    else
      var b := v.bridge.value;
      match i
      case Skip => v
      case FromOp(bytes) =>
        if b.tunnel.None? then v.(bridge := Some(b.(buffered := b.buffered + bytes)))
        else v.(frames := v.frames + [Data(tag, bytes, false)])
      case OpClosed =>
        v.(bridge := None, ending := Some(Ending(ByOperator, b)),
           frames := if b.tunnel.None? then v.frames else v.frames + [Data(tag, [], true)])
      case FromDev(stream, data, close) =>
        var p := Paired(v, tag, stream);
        if close then
          p.(bridge := None, ending := Some(Ending(ByDevice, p.bridge.value)), closeCalls := p.closeCalls + 1)
        else
          p.(written := p.written + data)
      case Lost =>
        v.(bridge := None, ending := Some(Ending(ByLoss, b)), closeCalls := v.closeCalls + 1)
  }

  /** Besides `Linked`: the tags given out so far are exactly those with a live or an ended bridge. */
  ghost predicate Inv(h: Hub) {
    && Linked(h)
    && 0 <= h.nextTag <= MAX_TAG
    && (forall tag :: tag in h.bridges ==> tag !in h.ended)
    && (forall tag :: tag in h.bridges || tag in h.ended <==> 1 <= tag <= h.nextTag)
    && (forall tag :: tag > h.nextTag || tag <= 0 ==> ViewOf(h, tag) == UNBORN)
  }

  lemma FramesOfSend(h: Hub, stream: StreamId, msg: Message, tag: int)
    ensures Frames(Send(h, stream, msg).sent, tag) ==
            Frames(h.sent, tag) + (if msg.Data? && msg.tag == tag then [msg] else [])
  {
    var sent := h.sent + [Sent(stream, msg)];
    assert sent[..|sent| - 1] == h.sent;
  }

  lemma WrittenOfWrite(w: seq<(int, Bytes)>, t: int, bytes: Bytes, tag: int)
    ensures WrittenTo(w + [(t, bytes)], tag) == WrittenTo(w, tag) + (if t == tag then bytes else [])
  {
    assert (w + [(t, bytes)])[..|w|] == w;
  }

  lemma ViewOfRegister(h: Hub, stream: StreamId, op: RegisterOp, tag: int)
    ensures ViewOf(Registered(h, stream, op), tag) == ViewOf(h, tag)
  {
    match op {
      case Target(what, target, kind) => FramesOfSend(h, stream, TargetAck(what, target, kind), tag);
      case Subscription(what, kind) => FramesOfSend(h, stream, SubscriptionAck(what, kind), tag);
      case _ =>
    }
  }

  lemma ViewOfConnect(h: Hub, operator: OperatorId, target: string, tag: int)
    requires Inv(h)
    ensures ViewOf(Connected(h, operator, target), tag) ==
            TagStep(ViewOf(h, tag), tag, InputOf(h, Connect(operator, target), tag))
  {
    if target in h.targets {
      FramesOfSend(h, h.targets[target].stream, Session(h.nextTag + 1, target, h.targets[target].kind), tag);
    }
  }

  lemma ViewOfFromOperator(h: Hub, t: int, bytes: Bytes, tag: int)
    ensures ViewOf(FromOperator(h, t, bytes), tag) ==
            TagStep(ViewOf(h, tag), tag, if t == tag then FromOp(bytes) else Skip)
  {
    if t in h.bridges && h.bridges[t].tunnel.Some? {
      FramesOfSend(h, h.bridges[t].tunnel.value, Data(t, bytes, false), tag);
    }
  }

  lemma ViewOfEnd(h: Hub, t: int, cause: Cause, tag: int)
    requires t in h.bridges
    ensures ViewOf(End(h, t, cause), tag) ==
            var v := ViewOf(h, tag);
            if t == tag then
              v.(bridge := None, ending := Some(Ending(cause, h.bridges[t])),
                 closeCalls := if cause == ByOperator then v.closeCalls else v.closeCalls + 1)
            else
              v
  {
  }

  lemma ViewOfSend(h: Hub, stream: StreamId, msg: Message, tag: int)
    ensures var v := ViewOf(h, tag);
            ViewOf(Send(h, stream, msg), tag) ==
            v.(frames := v.frames + (if msg.Data? && msg.tag == tag then [msg] else []))
  {
    FramesOfSend(h, stream, msg, tag);
    hide Frames, WrittenTo;
  }

  lemma OpClosedStep(v: View, tag: int)
    ensures TagStep(v, tag, OpClosed) ==
            if v.bridge.None? then v
            else
              v.(bridge := None, ending := Some(Ending(ByOperator, v.bridge.value)),
                 frames := if v.bridge.value.tunnel.None? then v.frames else v.frames + [Data(tag, [], true)])
  {
  }

  lemma ViewOfCloseFromOperator(h: Hub, t: int, tag: int)
    ensures ViewOf(CloseFromOperator(h, t), tag) ==
            TagStep(ViewOf(h, tag), tag, if t == tag then OpClosed else Skip)
  {
    hide TagStep, ViewOf, End, Send;
    var v := ViewOf(h, tag);
    SkipIsIdle(v, tag);
    OpClosedStep(v, tag);
    ViewLife(h, tag);
    BridgeOfView(h, tag);
    if t in h.bridges {
      var b := h.bridges[t];
      if b.tunnel.Some? {
        var msg := Data(t, [], true);
        SendKeepsBridges(h, b.tunnel.value, msg);
        ViewOfSend(h, b.tunnel.value, msg, tag);
        ViewOfEnd(Send(h, b.tunnel.value, msg), t, ByOperator, tag);
      } else {
        ViewOfEnd(h, t, ByOperator, tag);
      }
    }
  }

  lemma SendKeepsBridges(h: Hub, stream: StreamId, msg: Message)
    ensures Send(h, stream, msg).bridges == h.bridges
  {
  }

  lemma ViewOfPairTunnel(h: Hub, t: int, stream: StreamId, tag: int)
    ensures ViewOf(PairTunnel(h, t, stream), tag) ==
            if t == tag && t in h.bridges then Paired(ViewOf(h, tag), tag, stream) else ViewOf(h, tag)
  {
    if t in h.bridges {
      FramesOfSend(h, stream, Data(t, h.bridges[t].buffered, false), tag);
    }
  }

  lemma ViewOfCloseFromDevice(h: Hub, t: int, tag: int)
    ensures ViewOf(CloseFromDevice(h, t), tag) ==
            var v := ViewOf(h, tag);
            if t == tag && v.bridge.Some? then
              v.(bridge := None, ending := Some(Ending(ByDevice, v.bridge.value)), closeCalls := v.closeCalls + 1)
            else
              v
  {
  }

  lemma ViewOfFromDevice(h: Hub, t: int, data: Bytes, tag: int)
    ensures ViewOf(FromDevice(h, t, data), tag) ==
            var v := ViewOf(h, tag);
            if t == tag && v.bridge.Some? then v.(written := v.written + data) else v
  {
    WrittenOfWrite(h.written, t, data, tag);
  }

  lemma FromDevStep(v: View, tag: int, stream: StreamId, data: Bytes, close: bool)
    ensures TagStep(v, tag, Skip) == v
    ensures TagStep(v, tag, FromDev(stream, data, close)) ==
            if v.bridge.None? then v
            else
              var p := Paired(v, tag, stream);
              if close then
                p.(bridge := None, ending := Some(Ending(ByDevice, p.bridge.value)), closeCalls := p.closeCalls + 1)
              else if data != [] then p.(written := p.written + data)
              else p
  {
    assert v.written + [] == v.written;
  }

  lemma ViewOfReceived(h: Hub, stream: StreamId, t: int, data: Bytes, close: bool, tag: int)
    ensures ViewOf(Received(h, stream, t, data, close), tag) ==
            TagStep(ViewOf(h, tag), tag, if t == tag then FromDev(stream, data, close) else Skip)
  {
    var p := PairTunnel(h, t, stream);
    ViewOfPairTunnel(h, t, stream, tag);
    ViewOfCloseFromDevice(p, t, tag);
    ViewOfFromDevice(p, t, data, tag);
    FromDevStep(ViewOf(h, tag), tag, stream, data, close);
    assert ViewOf(h, tag).bridge.Some? <==> tag in h.bridges;
    hide PairTunnel, CloseFromDevice, FromDevice, ViewOf, Paired, TagStep;
    if t == tag && tag in h.bridges {
      assert ViewOf(p, tag).bridge.Some?;
    } else {
      assert ViewOf(p, tag) == ViewOf(h, tag);
    }
  }

  lemma ViewOfRemoveByStream(h: Hub, session: int, tag: int)
    ensures ViewOf(RemoveByStream(h, session), tag) ==
            TagStep(ViewOf(h, tag), tag, InputOf(h, SessionLost(session), tag))
  {
    var dead := BridgesOf(h, OwnedBy(h, session));
    hide OwnedBy, Frames, WrittenTo;
    assert multiset(dead)[tag] == if tag in dead then 1 else 0;
  }

  lemma SkipIsIdle(v: View, tag: int)
    ensures TagStep(v, tag, Skip) == v
  {
  }

  /** The system is the product of its bridges: every event does to a tag what the one-bridge automaton does with
      that event's part for the tag, and nothing when it has none. */
  lemma StepProjects(h: Hub, e: Event, tag: int)
    requires Inv(h) && Enabled(h, e)
    ensures ViewOf(Step(h, e), tag) == TagStep(ViewOf(h, tag), tag, InputOf(h, e, tag))
  {
    SkipIsIdle(ViewOf(h, tag), tag);
    hide ViewOf, TagStep, Registered, Connected, FromOperator, CloseFromOperator, Received, RemoveByStream, Inv;
    match e {
      case Register(stream, op) => ViewOfRegister(h, stream, op, tag);
      case Connect(operator, target) => ViewOfConnect(h, operator, target, tag);
      case OperatorData(operator, bytes) =>
        if operator in h.conns {
          ViewOfFromOperator(h, h.conns[operator], bytes, tag);
        }
      case OperatorClose(operator) =>
        if operator in h.conns {
          ViewOfCloseFromOperator(h, h.conns[operator], tag);
        }
      case TunnelData(stream, t, data, close) => ViewOfReceived(h, stream, t, data, close, tag);
      case SessionLost(session) => ViewOfRemoveByStream(h, session, tag);
    }
  }

  lemma ConnectKeepsLinked(h: Hub, operator: OperatorId, target: string)
    requires Inv(h) && operator !in h.conns
    ensures Linked(Connected(h, operator, target))
  {
    if target in h.targets {
      assert ViewOf(h, h.nextTag + 1) == UNBORN;
      assert h.nextTag + 1 !in h.bridges;
    }
  }

  lemma EndKeepsLinked(h: Hub, tag: int, cause: Cause)
    requires Linked(h) && tag in h.bridges
    ensures Linked(End(h, tag, cause))
  {
  }

  lemma LossKeepsLinked(h: Hub, session: int)
    requires Linked(h)
    ensures Linked(RemoveByStream(h, session))
  {
    var dead := BridgesOf(h, OwnedBy(h, session));
    var h' := RemoveByStream(h, session);
    forall tag | tag in h'.bridges
      ensures h'.bridges[tag].operator in h'.conns
    {
      assert h.bridges[tag].operator !in OperatorsOf(h.bridges, dead);
    }
    forall op | op in h'.conns
      ensures h'.conns[op] in h'.bridges
    {
      assert h.conns[op] !in dead;
    }
  }

  lemma OperatorKeepsLinked(h: Hub, operator: OperatorId, bytes: Bytes)
    requires Linked(h) && operator in h.conns
    ensures Linked(FromOperator(h, h.conns[operator], bytes))
    ensures Linked(CloseFromOperator(h, h.conns[operator]))
  {
    EndKeepsLinked(h, h.conns[operator], ByOperator);
  }

  lemma DeviceKeepsLinked(h: Hub, stream: StreamId, tag: int, data: Bytes, close: bool)
    requires Linked(h)
    ensures Linked(Received(h, stream, tag, data, close))
  {
    var p := PairTunnel(h, tag, stream);
    assert Linked(p);
    if close && tag in p.bridges {
      EndKeepsLinked(p, tag, ByDevice);
    }
  }

  lemma StepKeepsLinked(h: Hub, e: Event)
    requires Inv(h) && Enabled(h, e)
    ensures Linked(Step(h, e))
  {
    hide FromOperator, CloseFromOperator, Received, Connected, RemoveByStream;
    match e {
      case Connect(operator, target) => ConnectKeepsLinked(h, operator, target);
      case OperatorData(operator, bytes) =>
        if operator in h.conns {
          OperatorKeepsLinked(h, operator, bytes);
        }
      case OperatorClose(operator) =>
        if operator in h.conns {
          OperatorKeepsLinked(h, operator, []);
        }
      case TunnelData(stream, tag, data, close) => DeviceKeepsLinked(h, stream, tag, data, close);
      case SessionLost(session) => LossKeepsLinked(h, session);
      case Register(_, _) =>
    }
  }

  lemma TagStepLife(v: View, tag: int, i: Input)
    requires v.bridge.Some? ==> v.ending.None?
    requires i.Open? ==> v == UNBORN
    ensures var v' := TagStep(v, tag, i);
            (v'.bridge.Some? ==> v'.ending.None?) &&
            (v'.bridge.Some? || v'.ending.Some? <==> v.bridge.Some? || v.ending.Some? || i.Open?) &&
            (v == UNBORN && !i.Open? ==> v' == UNBORN)
  {
  }

  lemma OpenOnlyUnborn(h: Hub, e: Event, tag: int)
    requires Inv(h)
    ensures InputOf(h, e, tag).Open? ==> ViewOf(h, tag) == UNBORN
  {
  }

  lemma ReceivedKeepsNextTag(h: Hub, stream: StreamId, tag: int, data: Bytes, close: bool)
    ensures Received(h, stream, tag, data, close).nextTag == h.nextTag
  {
  }

  lemma StepNextTag(h: Hub, e: Event)
    ensures Step(h, e).nextTag == h.nextTag + (if e.Connect? && e.target in h.targets then 1 else 0)
  {
    if e.TunnelData? {
      ReceivedKeepsNextTag(h, e.stream, e.tag, e.data, e.close);
    }
    hide Received;
  }

  lemma OpenIsNextTag(h: Hub, e: Event, tag: int)
    ensures InputOf(h, e, tag).Open? <==> e.Connect? && e.target in h.targets && tag == h.nextTag + 1
  {
  }

  lemma ViewLife(h: Hub, tag: int)
    ensures ViewOf(h, tag).bridge.Some? <==> tag in h.bridges
    ensures ViewOf(h, tag).ending.Some? <==> tag in h.ended
  {
  }

  lemma BridgeOfView(h: Hub, tag: int)
    ensures tag in h.bridges ==> ViewOf(h, tag).bridge == Some(h.bridges[tag])
  {
  }

  /** A bridge after a step is new and unpaired, or the one before with its target, and with its pairing unless a
      frame from the device has just paired it. */
  lemma TagStepOrigin(v: View, tag: int, i: Input)
    ensures var v' := TagStep(v, tag, i);
            v'.bridge.None? || v'.bridge.value.tunnel == None ||
            (v.bridge.Some? && v'.bridge.value.target == v.bridge.value.target &&
             (v'.bridge.value.tunnel == v.bridge.value.tunnel ||
              (i.FromDev? && v'.bridge.value.tunnel == Some(i.stream))))
  {
  }

  lemma StepKeepsTagRange(h: Hub, e: Event, tag: int)
    requires Inv(h) && Enabled(h, e)
    ensures var h' := Step(h, e);
            0 <= h'.nextTag <= MAX_TAG &&
            (tag in h'.bridges ==> tag !in h'.ended) &&
            (tag in h'.bridges || tag in h'.ended <==> 1 <= tag <= h'.nextTag) &&
            (tag > h'.nextTag || tag <= 0 ==> ViewOf(h', tag) == UNBORN)
  {
    StepNextTag(h, e);
    OpenIsNextTag(h, e, tag);
    StepProjects(h, e, tag);
    OpenOnlyUnborn(h, e, tag);
    ViewLife(h, tag);
    ViewLife(Step(h, e), tag);
    hide Step, Linked, TagStep, InputOf, ViewOf;
    TagStepLife(ViewOf(h, tag), tag, InputOf(h, e, tag));
  }

  lemma StepKeepsInv(h: Hub, e: Event)
    requires Inv(h) && Enabled(h, e)
    ensures Inv(Step(h, e))
  {
    StepKeepsLinked(h, e);
    forall tag: int {
      StepKeepsTagRange(h, e, tag);
    }
    hide Step, Linked, ViewOf;
    var h' := Step(h, e);
    assert 0 <= h'.nextTag <= MAX_TAG by {
      StepKeepsTagRange(h, e, 0);
    }
  }

  /** The state after a list of events. */
  function Run(trace: seq<Event>): Hub {
    if trace == [] then INITIAL else Step(Run(trace[..|trace| - 1]), trace[|trace| - 1])
  }

  ghost predicate Legal(trace: seq<Event>) {
    trace != [] ==> Legal(trace[..|trace| - 1]) && Enabled(Run(trace[..|trace| - 1]), trace[|trace| - 1])
  }

  lemma RunSnoc(trace: seq<Event>, e: Event)
    ensures Run(trace + [e]) == Step(Run(trace), e)
    ensures Legal(trace + [e]) <==> Legal(trace) && Enabled(Run(trace), e)
  {
    assert (trace + [e])[..|trace|] == trace;
  }

  /** In every reachable state the live operator connections of all listeners and the bridges are in bijection by
      tag, and tags are positive and never given out twice. */
  lemma {:induction false} RunKeepsInv(trace: seq<Event>)
    requires Legal(trace)
    ensures Inv(Run(trace))
  {
    if trace != [] {
      RunKeepsInv(trace[..|trace| - 1]);
      StepKeepsInv(Run(trace[..|trace| - 1]), trace[|trace| - 1]);
    }
  }

  /** A new operator gets a tag above every tag there ever was, one that nothing has been sent or written for. */
  lemma NewTagIsFresh(trace: seq<Event>, operator: OperatorId, target: string)
    requires Legal(trace + [Connect(operator, target)]) && target in Run(trace).targets
    ensures var h, h' := Run(trace), Run(trace + [Connect(operator, target)]);
            operator in h'.conns && ViewOf(h, h'.conns[operator]) == UNBORN && h'.conns[operator] > 0 &&
            forall tag :: tag in h.bridges || tag in h.ended ==> tag < h'.conns[operator]
  {
    RunSnoc(trace, Connect(operator, target));
    RunKeepsInv(trace);
  }

  /** Frames that carry bytes and do not close. */
  ghost predicate NoClose(ms: seq<Message>) {
    forall i :: 0 <= i < |ms| ==> ms[i].Data? && !ms[i].close && ms[i].data != []
  }

  /** What is true of one tag at any moment of its life. */
  ghost predicate TagInv(v: View, tag: int) {
    match (v.bridge, v.ending)
    case (None, None) => v == UNBORN
    case (Some(b), None) =>
      v.closeCalls == 0 && NoClose(v.frames) && (if b.tunnel.None? then v.frames == [] else b.buffered == [])
    case (None, Some(Ending(cause, last))) =>
      v.closeCalls == (if cause == ByOperator then 0 else 1) &&
      (if last.tunnel.None? then v.frames == []
       else
         last.buffered == [] &&
         if cause == ByOperator then
           |v.frames| > 0 && v.frames[|v.frames| - 1] == Data(tag, [], true) && NoClose(v.frames[..|v.frames| - 1])
         else
           NoClose(v.frames))
    case (Some(_), Some(_)) => false
  }

  lemma TagStepKeepsTagInv(v: View, tag: int, i: Input)
    requires TagInv(v, tag) && (i.Open? ==> v == UNBORN) && (i.FromOp? ==> i.bytes != [])
    ensures TagInv(TagStep(v, tag, i), tag)
  {
    var v' := TagStep(v, tag, i);
    if i.OpClosed? && v.bridge.Some? && v.bridge.value.tunnel.Some? {
      assert v'.frames[..|v'.frames| - 1] == v.frames;
    }
  }

  /** Exactly one ending per bridge: by its operator, by its device, or by the loss of its target's session.
      `close_operator` has run once in the last two cases and never otherwise; Data{close} was sent once, as the
      tag's last frame, if the operator closed a paired bridge, and never otherwise; every other frame carries bytes. */
  lemma {:induction false} RunKeepsTagInv(trace: seq<Event>, tag: int)
    requires Legal(trace)
    ensures TagInv(ViewOf(Run(trace), tag), tag)
  {
    if trace != [] {
      var h, e := Run(trace[..|trace| - 1]), trace[|trace| - 1];
      RunKeepsTagInv(trace[..|trace| - 1], tag);
      RunKeepsInv(trace[..|trace| - 1]);
      StepProjects(h, e, tag);
      OpenOnlyUnborn(h, e, tag);
      TagStepKeepsTagInv(ViewOf(h, tag), tag, InputOf(h, e, tag));
    }
  }

  /** An event that is not about a tag changes nothing of it: not its bridge, its frames, nor its bytes. */
  lemma Isolation(trace: seq<Event>, e: Event, tag: int)
    requires Legal(trace + [e]) && InputOf(Run(trace), e, tag).Skip?
    ensures ViewOf(Run(trace + [e]), tag) == ViewOf(Run(trace), tag)
  {
    RunSnoc(trace, e);
    RunKeepsInv(trace);
    StepProjects(Run(trace), e, tag);
  }

  /** After a bridge has ended nothing ever happens to its tag again, whatever the device or the operators do:
      no frame carries it, no byte is written for it, and no other bridge gets it. */
  lemma {:induction false} EndedIsFinal(trace: seq<Event>, more: seq<Event>, tag: int)
    requires Legal(trace + more) && tag in Run(trace).ended
    ensures ViewOf(Run(trace + more), tag) == ViewOf(Run(trace), tag)
  {
    if more == [] {
      assert trace + more == trace;
    } else {
      var init, e := more[..|more| - 1], more[|more| - 1];
      assert (trace + more)[..|trace + more| - 1] == trace + init;
      EndedIsFinal(trace, init, tag);
      var h := Run(trace + init);
      RunKeepsInv(trace + init);
      StepProjects(h, e, tag);
      OpenOnlyUnborn(h, e, tag);
      assert ViewOf(h, tag).ending.Some? && ViewOf(Run(trace), tag).ending.Some?;
      assert tag in h.ended && tag !in h.bridges;
    }
  }

  /** The bytes read so far from the operator connection that was given a tag. */
  function OperatorInput(trace: seq<Event>, tag: int): Bytes {
    if trace == [] then
      []
    else
      var i := InputOf(Run(trace[..|trace| - 1]), trace[|trace| - 1], tag);
      OperatorInput(trace[..|trace| - 1], tag) + (if i.FromOp? then i.bytes else [])
  }

  /** The data the device sent for a tag while its bridge was live: a closing frame ends the bridge and brings
      nothing, and later frames find no bridge. */
  function DeviceInput(trace: seq<Event>, tag: int): Bytes {
    if trace == [] then
      []
    else
      var h, e := Run(trace[..|trace| - 1]), trace[|trace| - 1];
      DeviceInput(trace[..|trace| - 1], tag) +
      (if e.TunnelData? && e.tag == tag && tag in h.bridges && !e.close then e.data else [])
  }

  /** Operator bytes not yet sent: buffered in a live bridge, or dropped with one that was never paired. */
  function Unsent(v: View): Bytes {
    if v.bridge.Some? then v.bridge.value.buffered
    else if v.ending.Some? then v.ending.value.last.buffered
    else []
  }

  lemma {:induction false} PayloadConcat(a: seq<Message>, b: seq<Message>)
    ensures Payload(a + b) == Payload(a) + Payload(b)
  {
    if b == [] {
      assert a + b == a;
    } else {
      var init, m := b[..|b| - 1], b[|b| - 1];
      PayloadConcat(a, init);
      hide Payload;
      Last(b);
      Assoc(a, init, [m]);
      PayloadOfMore(a + init, m);
      PayloadOfMore(init, m);
      Assoc(Payload(a), Payload(init), if m.Data? then m.data else []);
    }
  }

  lemma PayloadOfMore(ms: seq<Message>, m: Message)
    ensures Payload(ms + [m]) == Payload(ms) + (if m.Data? then m.data else [])
  {
    assert (ms + [m])[..|ms|] == ms;
  }

  lemma TagStepConserves(v: View, tag: int, i: Input)
    requires TagInv(v, tag) && (i.Open? ==> v == UNBORN) && (i.FromOp? ==> v.bridge.Some?)
    ensures var v' := TagStep(v, tag, i);
            Payload(v'.frames) + Unsent(v') == Payload(v.frames) + Unsent(v) + (if i.FromOp? then i.bytes else [])
  {
    var v' := TagStep(v, tag, i);
    if v.bridge.Some? {
      var b := v.bridge.value;
      match i {
        case FromOp(bytes) =>
          PayloadOfMore(v.frames, Data(tag, bytes, false));
        case OpClosed =>
          PayloadOfMore(v.frames, Data(tag, [], true));
        case FromDev(_, _, _) =>
          PayloadOfMore(v.frames, Data(tag, b.buffered, false));
        case _ =>
      }
    }
  }

  /** Operator to device, over whole runs: the data of the frames sent for a tag, followed by what is still
      unsent, is exactly what the operator wrote. Nothing is lost, duplicated or reordered on the way. */
  lemma {:induction false} OperatorBytesConserved(trace: seq<Event>, tag: int)
    requires Legal(trace)
    ensures var h := Run(trace);
            OperatorInput(trace, tag) == Payload(Frames(h.sent, tag)) + Unsent(ViewOf(h, tag))
  {
    if trace != [] {
      var init := trace[..|trace| - 1];
      var h, e := Run(init), trace[|trace| - 1];
      OperatorBytesConserved(init, tag);
      RunKeepsInv(init);
      RunKeepsTagInv(init, tag);
      StepProjects(h, e, tag);
      OpenOnlyUnborn(h, e, tag);
      assert InputOf(h, e, tag).FromOp? ==> tag in h.bridges;
      TagStepConserves(ViewOf(h, tag), tag, InputOf(h, e, tag));
    }
  }

  lemma InputOfData(h: Hub, e: Event, tag: int)
    ensures InputOf(h, e, tag).FromDev? <==> e.TunnelData? && e.tag == tag
    ensures e.TunnelData? && e.tag == tag ==> InputOf(h, e, tag) == FromDev(e.stream, e.data, e.close)
  {
  }

  lemma TagStepWrites(v: View, tag: int, i: Input)
    ensures TagStep(v, tag, i).written ==
            v.written + (if i.FromDev? && v.bridge.Some? && !i.close then i.data else [])
  {
  }

  /** Device to operator, over whole runs: what is written to the operator socket of a tag is exactly the data
      received for it while its bridge was live. */
  lemma {:induction false} DeviceBytesConserved(trace: seq<Event>, tag: int)
    requires Legal(trace)
    ensures WrittenTo(Run(trace).written, tag) == DeviceInput(trace, tag)
  {
    if trace != [] {
      var init := trace[..|trace| - 1];
      var h, e := Run(init), trace[|trace| - 1];
      DeviceBytesConserved(init, tag);
      RunKeepsInv(init);
      StepProjects(h, e, tag);
      OpenOnlyUnborn(h, e, tag);
      TagStepWrites(ViewOf(h, tag), tag, InputOf(h, e, tag));
      InputOfData(h, e, tag);
      assert ViewOf(h, tag).bridge.Some? <==> tag in h.bridges;
      hide Step, TagStep, InputOf;
    }
  }
}
