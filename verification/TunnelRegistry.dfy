/**
 Which targets are registered, over whole runs, read off the events alone; and what that means for an operator
 that connects, and for a device that waits for its acknowledgements.
 */
module TunnelRegistry {
  import opened ByteStrings
  import opened Text
  import opened TunnelState
  import opened TunnelRuns

  /** The event replaces or ends a registration of the target that belongs to the session. */
  predicate Ends(e: Event, target: string, session: int) {
    || (e.Register? && e.op.Target? && e.op.target == target && (e.op.op == ADD || e.op.op == REMOVE))
    || e == SessionLost(session)
  }

  /** The `i`-th event registers the target on the stream, and nothing has ended that since. */
  ghost predicate StandsSince(trace: seq<Event>, i: int, target: string, stream: StreamId, kind: string) {
    0 <= i < |trace| && trace[i] == Register(stream, Target(ADD, target, kind)) &&
    forall j :: i < j < |trace| ==> !Ends(trace[j], target, stream.session)
  }

  ghost predicate Stands(trace: seq<Event>, target: string, stream: StreamId, kind: string) {
    exists i :: StandsSince(trace, i, target, stream, kind)
  }

  ghost predicate IsRegistered(h: Hub, target: string, stream: StreamId, kind: string) {
    target in h.targets && h.targets[target] == Registration(stream, kind)
  }

  lemma StandsMore(trace: seq<Event>, e: Event, target: string, stream: StreamId, kind: string)
    ensures Stands(trace + [e], target, stream, kind) <==>
            e == Register(stream, Target(ADD, target, kind)) ||
            (Stands(trace, target, stream, kind) && !Ends(e, target, stream.session))
  {
    var longer, n := trace + [e], |trace|;
    assert longer[n] == e && forall i :: 0 <= i < n ==> longer[i] == trace[i];
    hide Ends;
    if e == Register(stream, Target(ADD, target, kind)) {
      assert StandsSince(longer, n, target, stream, kind);
    }
    if Stands(trace, target, stream, kind) && !Ends(e, target, stream.session) {
      var i :| StandsSince(trace, i, target, stream, kind);
      assert StandsSince(longer, i, target, stream, kind);
    }
    if Stands(longer, target, stream, kind) {
      var i :| StandsSince(longer, i, target, stream, kind);
      assert i < n ==> StandsSince(trace, i, target, stream, kind) && !Ends(longer[n], target, stream.session);
    }
  }

  lemma ReceivedKeepsTargets(h: Hub, stream: StreamId, tag: int, data: Bytes, close: bool)
    ensures Received(h, stream, tag, data, close).targets == h.targets
  {
  }

  lemma StepRegisters(h: Hub, e: Event, target: string, stream: StreamId, kind: string)
    ensures IsRegistered(Step(h, e), target, stream, kind) <==>
            e == Register(stream, Target(ADD, target, kind)) ||
            (IsRegistered(h, target, stream, kind) && !Ends(e, target, stream.session))
  {
    match e {
      case TunnelData(s, t, data, close) =>
        ReceivedKeepsTargets(h, s, t, data, close);
        hide Received;
      case SessionLost(session) =>
        assert RemoveByStream(h, session).targets == h.targets - OwnedBy(h, session);
        hide RemoveByStream;
      case _ =>
        hide Received, RemoveByStream;
    }
  }

  /** Over every run: a target is registered, on a stream and with a type, exactly when some event announced it so
      and no later event announced it again, withdrew it, or lost the session of that stream. */
  lemma {:induction false} RegistryIsLastAdd(trace: seq<Event>, target: string, stream: StreamId, kind: string)
    ensures IsRegistered(Run(trace), target, stream, kind) <==> Stands(trace, target, stream, kind)
  {
    if trace == [] {
      assert Run(trace).targets == map[];
    } else {
      var init, e := trace[..|trace| - 1], trace[|trace| - 1];
      assert trace == init + [e];
      RegistryIsLastAdd(init, target, stream, kind);
      RunSnoc(init, e);
      hide Run, Step, Stands, IsRegistered, Ends;
      StandsMore(init, e, target, stream, kind);
      StepRegisters(Run(init), e, target, stream, kind);
    }
  }

  /** No announcement of the target stands. */
  ghost predicate Withdrawn(trace: seq<Event>, target: string) {
    forall stream, kind :: !Stands(trace, target, stream, kind)
  }

  /** An operator is refused exactly when no announcement of its target stands, and then it leaves no trace; otherwise
      the device that announced the target last, and no other, gets one Session message with the new tag, and the
      connection is kept under that tag. */
  lemma ConnectReachesLastAdd(trace: seq<Event>, operator: OperatorId, target: string)
    requires Legal(trace + [Connect(operator, target)])
    ensures var h, h' := Run(trace), Run(trace + [Connect(operator, target)]);
            (operator !in h'.conns <==> Withdrawn(trace, target)) && (Withdrawn(trace, target) ==> h' == h)
    ensures var h, h' := Run(trace), Run(trace + [Connect(operator, target)]);
            forall stream, kind :: Stands(trace, target, stream, kind) ==>
                                     h'.sent == h.sent + [Sent(stream, Session(h.nextTag + 1, target, kind))] &&
                                     operator in h'.conns && h'.conns[operator] == h.nextTag + 1
  {
    var h := Run(trace);
    RunSnoc(trace, Connect(operator, target));
    RunKeepsInv(trace);
    hide Run, Legal, Stands;
    forall stream, kind
      ensures IsRegistered(h, target, stream, kind) <==> Stands(trace, target, stream, kind)
    {
      RegistryIsLastAdd(trace, target, stream, kind);
    }
    if target in h.targets {
      var r := h.targets[target];
      assert IsRegistered(h, target, r.stream, r.kind);
      assert Stands(trace, target, r.stream, r.kind);
    } else {
      assert Withdrawn(trace, target);
    }
  }

  /** After a REMOVE with no later ADD nothing stands. */
  lemma RemovedIsWithdrawn(trace: seq<Event>, i: nat, stream: StreamId, target: string, kind: string)
    requires i < |trace| && trace[i] == Register(stream, Target(REMOVE, target, kind))
    requires forall j :: i < j < |trace| && trace[j].Register? && trace[j].op.Target? && trace[j].op.op == ADD ==>
                           trace[j].op.target != target
    ensures Withdrawn(trace, target)
  {
    forall s, k
      ensures !Stands(trace, target, s, k)
    {
      if Stands(trace, target, s, k) {
        var n :| StandsSince(trace, n, target, s, k);
        assert n < i && Ends(trace[i], target, s.session);
      }
    }
  }

  /** The `i`-th event is a message for the tag on the stream that found the bridge live, and no later one names the
      tag. */
  ghost predicate PairsLast(trace: seq<Event>, i: int, tag: int, stream: StreamId) {
    0 <= i < |trace| && trace[i].TunnelData? && trace[i].tag == tag && trace[i].stream == stream &&
    tag in Run(trace[..i]).bridges &&
    forall j :: i < j < |trace| ==> !(trace[j].TunnelData? && trace[j].tag == tag)
  }

  ghost predicate LastPaired(trace: seq<Event>, tag: int, stream: StreamId) {
    exists i :: PairsLast(trace, i, tag, stream)
  }

  lemma LastPairedMore(trace: seq<Event>, e: Event, tag: int, stream: StreamId)
    ensures LastPaired(trace + [e], tag, stream) <==>
            if e.TunnelData? && e.tag == tag then e.stream == stream && tag in Run(trace).bridges
            else LastPaired(trace, tag, stream)
  {
    var longer, n := trace + [e], |trace|;
    assert longer[n] == e && longer[..n] == trace;
    assert forall i :: 0 <= i < n ==> longer[i] == trace[i] && longer[..i] == trace[..i];
    hide Run;
    if e.TunnelData? && e.tag == tag {
      if e.stream == stream && tag in Run(trace).bridges {
        assert PairsLast(longer, n, tag, stream);
      }
    } else if LastPaired(trace, tag, stream) {
      var i :| PairsLast(trace, i, tag, stream);
      assert PairsLast(longer, i, tag, stream);
    }
    if LastPaired(longer, tag, stream) {
      var i :| PairsLast(longer, i, tag, stream);
      assert i < n ==> PairsLast(trace, i, tag, stream);
    }
  }

  /** What one event does to the stream of a live bridge. */
  lemma StepPairs(h: Hub, e: Event, tag: int)
    requires Inv(h) && Enabled(h, e) && tag in Step(h, e).bridges
    ensures Step(h, e).bridges[tag].tunnel ==
            if e.TunnelData? && e.tag == tag then Some(e.stream)
            else if tag in h.bridges then h.bridges[tag].tunnel
            else None
    ensures e.TunnelData? && e.tag == tag ==> tag in h.bridges
    ensures tag !in h.bridges ==> tag == h.nextTag + 1
  {
    StepProjects(h, e, tag);
    InputOfData(h, e, tag);
    OpenIsNextTag(h, e, tag);
    ViewLife(h, tag);
    ViewLife(Step(h, e), tag);
    BridgeOfView(h, tag);
    BridgeOfView(Step(h, e), tag);
    PairStep(ViewOf(h, tag), tag, InputOf(h, e, tag));
    OpenOnlyUnborn(h, e, tag);
    hide Step, InputOf, Inv, ViewOf, TagStep;
  }

  lemma PairStep(v: View, tag: int, i: Input)
    requires TagStep(v, tag, i).bridge.Some? && (i.Open? ==> v.bridge.None?)
    ensures TagStep(v, tag, i).bridge.value.tunnel ==
            if i.FromDev? then Some(i.stream) else if v.bridge.Some? then v.bridge.value.tunnel else None
    ensures v.bridge.None? ==> i.Open?
  {
  }

  lemma {:induction false} NeverLive(trace: seq<Event>, tag: int, stream: StreamId)
    requires Legal(trace) && tag > Run(trace).nextTag
    ensures !LastPaired(trace, tag, stream)
  {
    if trace != [] {
      var init, e := trace[..|trace| - 1], trace[|trace| - 1];
      assert trace == init + [e];
      RunSnoc(init, e);
      RunKeepsInv(init);
      StepNextTag(Run(init), e);
      assert tag !in Run(init).bridges;
      hide Run, Legal, Step, LastPaired, Inv;
      NeverLive(init, tag, stream);
      LastPairedMore(init, e, tag, stream);
    }
  }

  /** Over every run: a live bridge is paired with the stream of the last message that named its tag, whichever stream
      that was, and with none if there was no such message. */
  lemma {:induction false} PairedWithLast(trace: seq<Event>, tag: int, stream: StreamId)
    requires Legal(trace) && tag in Run(trace).bridges
    ensures Run(trace).bridges[tag].tunnel == Some(stream) <==> LastPaired(trace, tag, stream)
  {
    if trace != [] {
      var init, e := trace[..|trace| - 1], trace[|trace| - 1];
      assert trace == init + [e];
      RunSnoc(init, e);
      RunKeepsInv(init);
      hide Run, Legal, Step, LastPaired, Inv;
      StepPairs(Run(init), e, tag);
      LastPairedMore(init, e, tag, stream);
      if tag in Run(init).bridges {
        PairedWithLast(init, tag, stream);
      } else {
        NeverLive(init, tag, stream);
      }
    }
  }

  predicate IsAck(m: Message) {
    m.TargetAck? || m.SubscriptionAck?
  }

  /** The acknowledgements on a stream, in order. */
  function AcksOn(sent: seq<Sent>, stream: StreamId): seq<Message> {
    if sent == [] then [] else
      var last := sent[|sent| - 1];
      AcksOn(sent[..|sent| - 1], stream) + (if last.stream == stream && IsAck(last.msg) then [last.msg] else [])
  }

  /** What a device announced on a stream, as it expects it echoed. */
  function EchoOf(op: RegisterOp): seq<Message> {
    match op
    case Target(what, target, kind) => [TargetAck(what, target, kind)]
    case Subscription(what, kind) => [SubscriptionAck(what, kind)]
    case _ => []
  }

  function Echoes(trace: seq<Event>, stream: StreamId): seq<Message> {
    if trace == [] then [] else
      var e := trace[|trace| - 1];
      Echoes(trace[..|trace| - 1], stream) + (if e.Register? && e.stream == stream then EchoOf(e.op) else [])
  }

  lemma AcksOfSend(h: Hub, to: StreamId, msg: Message, stream: StreamId)
    ensures AcksOn(Send(h, to, msg).sent, stream) ==
            AcksOn(h.sent, stream) + (if to == stream && IsAck(msg) then [msg] else [])
  {
    var sent := h.sent + [Sent(to, msg)];
    assert sent[..|sent| - 1] == h.sent;
  }

  lemma AcksOfReceived(h: Hub, from: StreamId, tag: int, data: Bytes, close: bool, stream: StreamId)
    ensures AcksOn(Received(h, from, tag, data, close).sent, stream) == AcksOn(h.sent, stream)
  {
    var p := PairTunnel(h, tag, from);
    assert Received(h, from, tag, data, close).sent == p.sent;
    assert AcksOn(p.sent, stream) == AcksOn(h.sent, stream) by {
      if tag in h.bridges {
        AcksOfSend(h, from, Data(tag, h.bridges[tag].buffered, false), stream);
      }
      hide AcksOn;
    }
  }

  lemma AcksOfOperator(h: Hub, tag: int, bytes: Bytes, stream: StreamId)
    ensures AcksOn(FromOperator(h, tag, bytes).sent, stream) == AcksOn(h.sent, stream)
    ensures AcksOn(CloseFromOperator(h, tag).sent, stream) == AcksOn(h.sent, stream)
  {
    if tag in h.bridges && h.bridges[tag].tunnel.Some? {
      AcksOfSend(h, h.bridges[tag].tunnel.value, Data(tag, bytes, false), stream);
      AcksOfSend(h, h.bridges[tag].tunnel.value, Data(tag, [], true), stream);
    }
    hide AcksOn;
  }

  lemma AcksOfRegister(h: Hub, from: StreamId, op: RegisterOp, stream: StreamId)
    ensures AcksOn(Registered(h, from, op).sent, stream) ==
            AcksOn(h.sent, stream) + (if from == stream then EchoOf(op) else [])
  {
    match op {
      case Target(what, target, kind) => AcksOfSend(h, from, TargetAck(what, target, kind), stream);
      case Subscription(what, kind) => AcksOfSend(h, from, SubscriptionAck(what, kind), stream);
      case _ =>
    }
    assert AcksOn(h.sent, stream) + [] == AcksOn(h.sent, stream);
    hide AcksOn;
  }

  lemma StepAcks(h: Hub, e: Event, stream: StreamId)
    ensures AcksOn(Step(h, e).sent, stream) ==
            AcksOn(h.sent, stream) + (if e.Register? && e.stream == stream then EchoOf(e.op) else [])
  {
    assert AcksOn(h.sent, stream) + [] == AcksOn(h.sent, stream);
    hide Registered, Received, FromOperator, CloseFromOperator, AcksOn;
    match e {
      case Register(from, op) => AcksOfRegister(h, from, op, stream);
      case Connect(operator, target) =>
        if target in h.targets {
          var r := h.targets[target];
          AcksOfSend(h, r.stream, Session(h.nextTag + 1, target, r.kind), stream);
        }
      case OperatorData(operator, bytes) =>
        if operator in h.conns {
          AcksOfOperator(h, h.conns[operator], bytes, stream);
        }
      case OperatorClose(operator) =>
        if operator in h.conns {
          AcksOfOperator(h, h.conns[operator], [], stream);
        }
      case TunnelData(from, tag, data, close) => AcksOfReceived(h, from, tag, data, close, stream);
      case SessionLost(_) =>
    }
  }

  /** Over every run: a stream gets exactly one acknowledgement for each target or subscription announced on it, with
      its own words, in order, and none for anything else. */
  lemma {:induction false} EveryAnnouncementIsEchoed(trace: seq<Event>, stream: StreamId)
    ensures AcksOn(Run(trace).sent, stream) == Echoes(trace, stream)
  {
    if trace != [] {
      var init, e := trace[..|trace| - 1], trace[|trace| - 1];
      EveryAnnouncementIsEchoed(init, stream);
      StepAcks(Run(init), e, stream);
      hide Step, AcksOn, EchoOf;
    }
  }
}
