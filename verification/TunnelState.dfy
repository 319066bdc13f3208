/**
 The dial-out tunnel as a state machine over values: the registry and bridges of `tunnel_hub`
 together with the operator connections of all its listeners. The classes of
 `TunnelHub` are proved to compute these functions; `TunnelRuns` proves what they promise.
 */
module TunnelState {
  import opened ByteStrings
  import opened Text

  /** A stream of one connection: the `grpc_session *` and stream id that the code keeps side by side. */
  datatype StreamId = StreamId(session: int, sid: int)

  /** An operator connection: the listener that accepted it, and its file descriptor. */
  datatype OperatorId = OperatorId(listener: int, fd: int)

  datatype Registration = Registration(stream: StreamId, kind: string)

  /** `paired` and `tunnel_grpc` are set together, so `tunnel.Some?` stands for both. */
  datatype Bridge = Bridge(tag: int, target: string, operator: OperatorId, tunnel: Option<StreamId>, buffered: Bytes)

  /** What the server sends with `stream_send`, before protobuf encoding. */
  datatype Message =
    | Session(tag: int, target: string, kind: string)
    | Data(tag: int, data: Bytes, close: bool)
    | TargetAck(op: int, target: string, kind: string)
    | SubscriptionAck(op: int, kind: string)

  /** A message on a Register stream. Enumerations of protobuf are open: an operation may be any number. */
  datatype RegisterOp =
    | Target(op: int, target: string, kind: string)
    | Subscription(op: int, kind: string)
    | SessionAck(tag: int, accept: bool)
    | Unset

  const ADD: int := 1
  const REMOVE: int := 2

  datatype Sent = Sent(stream: StreamId, msg: Message)

  datatype Cause = ByOperator | ByDevice | ByLoss

  datatype Ending = Ending(cause: Cause, last: Bridge)

  /**
   The first four fields are the program's. The others are its effects: messages sent, bytes
   written to operator sockets (by tag), the way each bridge ended, and the calls of
   `close_operator` (by tag).
   */
  datatype Hub = Hub(
    targets: map<string, Registration>,
    bridges: map<int, Bridge>,
    nextTag: int,
    conns: map<OperatorId, int>,
    sent: seq<Sent>,
    written: seq<(int, Bytes)>,
    ended: map<int, Ending>,
    closeCalls: multiset<int>)

  const INITIAL := Hub(map[], map[], 0, map[], [], [], map[], multiset{})

  const MAX_TAG: int := 0x7FFF_FFFF

  function Send(h: Hub, stream: StreamId, msg: Message): Hub {
    h.(sent := h.sent + [Sent(stream, msg)])
  }

  function AddTarget(h: Hub, target: string, kind: string, stream: StreamId): Hub {
    h.(targets := h.targets[target := Registration(stream, kind)])
  }

  function RemoveTarget(h: Hub, target: string): Hub {
    h.(targets := h.targets - {target})
  }

  /** The new tag, or 0 when the target is not connected. */
  function TagFor(h: Hub, target: string): int {
    if target in h.targets then h.nextTag + 1 else 0
  }

  function OpenBridge(h: Hub, target: string, operator: OperatorId): Hub {
    if target !in h.targets then
      h
    else
      var tag := h.nextTag + 1;
      var grown := h.(nextTag := tag, bridges := h.bridges[tag := Bridge(tag, target, operator, None, [])]);
      Send(grown, h.targets[target].stream, Session(tag, target, h.targets[target].kind))
  }

  function PairTunnel(h: Hub, tag: int, stream: StreamId): Hub {
    if tag !in h.bridges then
      h
    else
      var b := h.bridges[tag];
      var paired := h.(bridges := h.bridges[tag := b.(tunnel := Some(stream), buffered := [])]);
      if b.buffered == [] then paired else Send(paired, stream, Data(tag, b.buffered, false))
  }

  function FromOperator(h: Hub, tag: int, bytes: Bytes): Hub {
    if tag !in h.bridges then
      h
    else
      var b := h.bridges[tag];
      match b.tunnel
      case None => h.(bridges := h.bridges[tag := b.(buffered := b.buffered + bytes)])
      case Some(stream) => Send(h, stream, Data(tag, bytes, false))
  }

  function FromDevice(h: Hub, tag: int, bytes: Bytes): Hub {
    if tag in h.bridges then h.(written := h.written + [(tag, bytes)]) else h
  }

  /** Drops the bridge and its operator connection, and notes how. */
  function End(h: Hub, tag: int, cause: Cause): Hub
    requires tag in h.bridges
  {
    var b := h.bridges[tag];
    h.(bridges := h.bridges - {tag}, conns := h.conns - {b.operator},
       ended := h.ended[tag := Ending(cause, b)],
       closeCalls := if cause == ByOperator then h.closeCalls else h.closeCalls + multiset{tag})
  }

  function CloseFromDevice(h: Hub, tag: int): Hub {
    if tag in h.bridges then End(h, tag, ByDevice) else h
  }

  function CloseFromOperator(h: Hub, tag: int): Hub {
    if tag !in h.bridges then
      h
    else
      match h.bridges[tag].tunnel
      case None => End(h, tag, ByOperator)
      case Some(stream) => End(Send(h, stream, Data(tag, [], true)), tag, ByOperator)
  }

  function OwnedBy(h: Hub, session: int): set<string> {
    set target | target in h.targets && h.targets[target].stream.session == session
  }

  function BridgesOf(h: Hub, gone: set<string>): set<int> {
    set tag | tag in h.bridges && h.bridges[tag].target in gone
  }

  function OperatorsOf(bs: map<int, Bridge>, dead: set<int>): (ops: set<OperatorId>)
    requires dead <= bs.Keys
    ensures forall tag :: tag in dead ==> bs[tag].operator in ops
  {
    set tag | tag in dead :: bs[tag].operator
  }

  function Losses(bs: map<int, Bridge>, dead: set<int>): map<int, Ending>
    requires dead <= bs.Keys
  {
    map tag | tag in dead :: Ending(ByLoss, bs[tag])
  }

  /** Ends a set of bridges at once, because their target's session is gone. */
  function EndAll(h: Hub, dead: set<int>): Hub
    requires dead <= h.bridges.Keys
  {
    h.(bridges := h.bridges - dead,
       conns := h.conns - OperatorsOf(h.bridges, dead),
       ended := h.ended + Losses(h.bridges, dead),
       closeCalls := h.closeCalls + multiset(dead))
  }

  /** `remove_by_stream`: the session's targets go, and with them every bridge to one of those targets. */
  function RemoveByStream(h: Hub, session: int): Hub {
    var gone := OwnedBy(h, session);
    EndAll(h.(targets := h.targets - gone), BridgesOf(h, gone))
  }

  /** Operator connections and bridges are the two ends of the same tags. */
  ghost predicate Linked(h: Hub) {
    && (forall tag :: tag in h.bridges ==>
          h.bridges[tag].tag == tag && h.bridges[tag].operator in h.conns && h.conns[h.bridges[tag].operator] == tag)
    && (forall op :: op in h.conns ==> h.conns[op] in h.bridges && h.bridges[h.conns[op]].operator == op)
  }

  /** Everything that reaches the tunnel from outside. Each listener fronts one target. */
  datatype Event =
    | Register(stream: StreamId, op: RegisterOp)
    | Connect(operator: OperatorId, target: string)
    | OperatorData(operator: OperatorId, bytes: Bytes)
    | OperatorClose(operator: OperatorId)
    | TunnelData(stream: StreamId, tag: int, data: Bytes, close: bool)
    | SessionLost(session: int)

  /** The kernel hands out a descriptor that no live connection holds, and tags have not run out. */
  predicate Enabled(h: Hub, e: Event) {
    e.Connect? ==> e.operator !in h.conns && h.nextTag < MAX_TAG
  }

  function Connected(h: Hub, operator: OperatorId, target: string): Hub {
    var h' := OpenBridge(h, target, operator);
    if TagFor(h, target) == 0 then h' else h'.(conns := h'.conns[operator := TagFor(h, target)])
  }

  function Received(h: Hub, stream: StreamId, tag: int, data: Bytes, close: bool): Hub {
    var paired := PairTunnel(h, tag, stream);
    if close then CloseFromDevice(paired, tag)
    else if data != [] then FromDevice(paired, tag, data)
    else paired
  }

  /** Targets and subscriptions are acknowledged whatever the operation; only ADD and REMOVE do anything. */
  function Registered(h: Hub, stream: StreamId, op: RegisterOp): Hub {
    match op
    case Target(op, target, kind) =>
      var h' :=
        if op == ADD then AddTarget(h, target, kind, stream)
        else if op == REMOVE then RemoveTarget(h, target)
        else h;
      Send(h', stream, TargetAck(op, target, kind))
    case Subscription(op, kind) => Send(h, stream, SubscriptionAck(op, kind))
    case _ => h
  }

  function Step(h: Hub, e: Event): Hub {
    match e
    case Register(stream, op) => Registered(h, stream, op)
    case Connect(operator, target) => Connected(h, operator, target)
    case OperatorData(operator, bytes) =>
      if operator in h.conns && bytes != [] then FromOperator(h, h.conns[operator], bytes) else h
    case OperatorClose(operator) =>
      if operator in h.conns then CloseFromOperator(h, h.conns[operator]) else h
    case TunnelData(stream, tag, data, close) => Received(h, stream, tag, data, close)
    case SessionLost(session) => RemoveByStream(h, session)
  }
}
