/** `tunnel_hub` and the operator side of its listeners, updated in place. */
module TunnelHub {
  import opened ByteStrings
  import opened Text
  import opened TunnelState

  /** The `m_conns` tables of all listeners, one per local port. */
  class Listeners {
    var conns: map<OperatorId, int>

    constructor ()
      ensures conns == map[]
    {
      conns := map[];
    }

    /** `tunnel_gnmi_listener::handle_close`, which is also what every `close_operator` callback runs. */
    method Drop(operator: OperatorId) returns (erased: nat)
      modifies this
      ensures conns == old(conns) - {operator}
      ensures erased == if operator in old(conns) then 1 else 0
    {
      erased := if operator in conns then 1 else 0;
      conns := conns - {operator};
    }

    /** Accepts an operator. A refused connection leaves no trace. */
    method HandleConnect(hub: TunnelHub, operator: OperatorId, target: string) returns (rc: int)
      requires hub.listeners == this && hub.nextTag < MAX_TAG && operator !in conns && 0 <= hub.nextTag
      modifies this, hub
      ensures hub.State() == Connected(old(hub.State()), operator, target)
      ensures rc == 0 <==> target in old(hub.targets)
    {
      var tag := hub.OpenBridge(target, operator);
      if tag == 0 {
        return -1;
      }
      conns := conns[operator := tag];
      return 0;
    }

    /** `tunnel_bridge::handle_read`. */
    method HandleRead(hub: TunnelHub, operator: OperatorId, data: Bytes)
      requires hub.listeners == this && operator in conns && Linked(hub.State())
      modifies hub
      ensures hub.State() == Step(old(hub.State()), OperatorData(operator, data))
    {
      if data != [] {
        hub.FromOperator(conns[operator], data);
      }
    }

    /** `tunnel_bridge::handle_close`: tell the device, then drop the connection. */
    method HandleClose(hub: TunnelHub, operator: OperatorId)
      requires hub.listeners == this && operator in conns
      requires Linked(hub.State())
      modifies this, hub
      ensures hub.State() == Step(old(hub.State()), OperatorClose(operator))
    {
      hub.CloseFromOperator(conns[operator]);
      var erased := Drop(operator);
    }
  }

  class TunnelHub {
    const listeners: Listeners
    var targets: map<string, Registration>
    var bridges: map<int, Bridge>
    var nextTag: int
    ghost var sent: seq<Sent>
    ghost var written: seq<(int, Bytes)>
    ghost var ended: map<int, Ending>
    ghost var closeCalls: multiset<int>

    ghost function State(): Hub
      reads this, listeners
    {
      Hub(targets, bridges, nextTag, listeners.conns, sent, written, ended, closeCalls)
    }

    constructor (listeners: Listeners)
      requires listeners.conns == map[]
      ensures State() == INITIAL && this.listeners == listeners
    {
      this.listeners := listeners;
      targets, bridges, nextTag := map[], map[], 0;
      sent, written, ended, closeCalls := [], [], map[], multiset{};
    }

    method StreamSend(stream: StreamId, msg: Message)
      modifies this`sent
      ensures sent == old(sent) + [Sent(stream, msg)]
    {
      sent := sent + [Sent(stream, msg)];
    }

    method AddTarget(target: string, kind: string, stream: StreamId)
      modifies this`targets
      ensures State() == TunnelState.AddTarget(old(State()), target, kind, stream)
    {
      targets := targets[target := Registration(stream, kind)];
    }

    method RemoveTarget(target: string)
      modifies this`targets
      ensures State() == TunnelState.RemoveTarget(old(State()), target)
    {
      targets := targets - {target};
    }

    method OpenBridge(target: string, operator: OperatorId) returns (tag: int)
      requires 0 <= nextTag < MAX_TAG
      modifies this
      ensures State() == TunnelState.OpenBridge(old(State()), target, operator)
      ensures tag == TagFor(old(State()), target)
    {
      if target !in targets {
        return 0;
      }
      nextTag := nextTag + 1;
      tag := nextTag;
      bridges := bridges[tag := Bridge(tag, target, operator, None, [])];
      StreamSend(targets[target].stream, Session(tag, target, targets[target].kind));
    }

    method PairTunnel(tag: int, stream: StreamId)
      requires Linked(State())
      modifies this
      ensures State() == TunnelState.PairTunnel(old(State()), tag, stream)
    {
      if tag !in bridges {
        return;
      }
      var b := bridges[tag].(tunnel := Some(stream));
      bridges := bridges[tag := b];
      if b.buffered != [] {
        StreamSend(stream, Data(b.tag, b.buffered, false));
        bridges := bridges[tag := b.(buffered := [])];
      }
    }

    method FromOperator(tag: int, bytes: Bytes)
      requires Linked(State())
      modifies this
      ensures State() == TunnelState.FromOperator(old(State()), tag, bytes)
    {
      if tag !in bridges {
        return;
      }
      var b := bridges[tag];
      match b.tunnel {
        case None => bridges := bridges[tag := b.(buffered := b.buffered + bytes)];
        case Some(stream) => StreamSend(stream, Data(b.tag, bytes, false));
      }
    }

    method FromDevice(tag: int, bytes: Bytes)
      modifies this`written
      ensures State() == TunnelState.FromDevice(old(State()), tag, bytes)
    {
      if tag in bridges {
        written := written + [(tag, bytes)];
      }
    }

    method CloseFromOperator(tag: int)
      requires Linked(State())
      modifies this
      ensures State() == TunnelState.CloseFromOperator(old(State()), tag).(conns := old(listeners.conns))
    {
      if tag !in bridges {
        return;
      }
      var b := bridges[tag];
      if b.tunnel.Some? {
        StreamSend(b.tunnel.value, Data(b.tag, [], true));
      }
      ended := ended[tag := Ending(ByOperator, b)];
      bridges := bridges - {tag};
    }

    method CloseFromDevice(tag: int)
      requires Linked(State())
      modifies this, listeners
      ensures State() == TunnelState.CloseFromDevice(old(State()), tag)
    {
      if tag !in bridges {
        return;
      }
      var b := bridges[tag];
      ended := ended[tag := Ending(ByDevice, b)];
      bridges := bridges - {tag};
      RunCloseOperator(b);
    }

    /** The `close_operator` callback of a bridge. */
    method RunCloseOperator(b: Bridge)
      modifies this`closeCalls, listeners
      ensures closeCalls == old(closeCalls) + multiset{b.tag}
      ensures listeners.conns == old(listeners.conns) - {b.operator}
    {
      closeCalls := closeCalls + multiset{b.tag};
      var erased := listeners.Drop(b.operator);
    }

    /** The loss of a bridge: it is erased, then its operator connection is dropped. */
    method LoseBridge(tag: int)
      requires tag in bridges && bridges[tag].tag == tag
      modifies this, listeners
      ensures State() == End(old(State()), tag, ByLoss)
      ensures bridges == old(bridges) - {tag}
    {
      var b := bridges[tag];
      ended := ended[tag := Ending(ByLoss, b)];
      bridges := bridges - {tag};
      RunCloseOperator(b);
    }

    /** Drops every registration of a closed connection. The iteration order is arbitrary. */
    method EraseTargets(session: int) returns (gone: set<string>)
      modifies this`targets
      ensures gone == OwnedBy(old(State()), session)
      ensures targets == old(targets) - gone
    {
      gone := {};
      var left := targets.Keys;
      while left != {}
        invariant left <= old(targets).Keys
        invariant gone == (set t | t in old(targets) && t !in left && old(targets)[t].stream.session == session)
        invariant targets == old(targets) - gone
        decreases |left|
      {
        var t :| t in left;
        left := left - {t};
        if targets[t].stream.session == session {
          gone := gone + {t};
          targets := targets - {t};
        }
      }
    }

    /** Ends every bridge to one lost target, in arbitrary order. */
    method EraseBridges(target: string)
      requires Linked(State())
      modifies this, listeners
      ensures State() == EndAll(old(State()), BridgesOf(old(State()), {target}))
    {
      ghost var start := State();
      ghost var dead: set<int> := {};
      EndNone(start);
      assert forall tag :: tag in bridges ==> bridges[tag].tag == tag;
      hide End, EndAll, Linked, BridgesOf;
      var left := bridges.Keys;
      while left != {}
        invariant left <= start.bridges.Keys && bridges == start.bridges - dead
        invariant dead !! left
        invariant forall tag :: tag in start.bridges && tag !in left ==>
                                  (tag in dead <==> start.bridges[tag].target == target)
        invariant dead <= start.bridges.Keys && State() == EndAll(start, dead)
        decreases |left|
      {
        var tag :| tag in left;
        left := left - {tag};
        if bridges[tag].target == target {
          EndOneMore(start, dead, tag);
          LoseBridge(tag);
          dead := dead + {tag};
        }
      }
      AllBridgesOf(start, dead, target);
    }

    /** Ends the bridges to all lost targets, one target after the other. */
    method EraseBridgesOf(gone: set<string>)
      requires Linked(State())
      modifies this, listeners
      ensures State() == EndAll(old(State()), BridgesOf(old(State()), gone))
    {
      ghost var start := State();
      ghost var done: set<string> := {};
      EndNone(start);
      assert BridgesOf(start, {}) == {};
      hide EndAll, Linked, BridgesOf;
      var left := gone;
      while left != {}
        invariant done == gone - left && left <= gone
        invariant State() == EndAll(start, BridgesOf(start, done))
        decreases |left|
      {
        var t :| t in left;
        assert gone - (left - {t}) == done + {t};
        TargetInTurn(start, done, t);
        EraseBridges(t);
        left, done := left - {t}, done + {t};
      }
      assert gone - {} == gone;
    }

    method RemoveByStream(session: int) returns (gone: set<string>)
      requires Linked(State())
      modifies this, listeners
      ensures State() == TunnelState.RemoveByStream(old(State()), session)
      ensures gone == OwnedBy(old(State()), session)
    {
      gone := EraseTargets(session);
      EraseBridgesOf(gone);
    }

    /** A message on a Tunnel stream: every frame pairs, then closes or relays. */
    method OnTunnelMessage(stream: StreamId, tag: int, data: Bytes, close: bool)
      requires Linked(State())
      modifies this, listeners
      ensures State() == Received(old(State()), stream, tag, data, close)
    {
      PairTunnel(tag, stream);
      if close {
        CloseFromDevice(tag);
        return;
      }
      if data != [] {
        FromDevice(tag, data);
      }
    }

    /** A message on a Register stream, acknowledged on the same stream. */
    method OnRegisterMessage(stream: StreamId, op: RegisterOp)
      modifies this
      ensures State() == Step(old(State()), Register(stream, op))
    {
      match op {
        case Target(what, target, kind) =>
          if what == ADD {
            AddTarget(target, kind, stream);
          } else if what == REMOVE {
            RemoveTarget(target);
          }
          StreamSend(stream, TargetAck(what, target, kind));
        case Subscription(what, kind) =>
          StreamSend(stream, SubscriptionAck(what, kind));
        case _ =>
      }
    }
  }

  lemma AllBridgesOf(h: Hub, dead: set<int>, target: string)
    requires dead <= h.bridges.Keys
    requires forall tag :: tag in h.bridges ==> (tag in dead <==> h.bridges[tag].target == target)
    ensures dead == BridgesOf(h, {target})
  {
    assert forall tag :: tag in dead <==> tag in BridgesOf(h, {target});
  }

  lemma EndNone(h: Hub)
    ensures EndAll(h, {}) == h
  {
    assert h.closeCalls + multiset({}) == h.closeCalls;
    assert h.bridges - {} == h.bridges && h.ended + Losses(h.bridges, {}) == h.ended;
    assert OperatorsOf(h.bridges, {}) == {} && h.conns - {} == h.conns;
  }

  lemma EndOneMore(h: Hub, dead: set<int>, tag: int)
    requires dead <= h.bridges.Keys && tag in h.bridges && tag !in dead
    ensures End(EndAll(h, dead), tag, ByLoss) == EndAll(h, dead + {tag})
  {
    var more := dead + {tag};
    var b := h.bridges[tag];
    assert multiset(more) == multiset(dead) + multiset{tag};
    assert h.closeCalls + multiset(more) == h.closeCalls + multiset(dead) + multiset{tag};
    assert OperatorsOf(h.bridges, more) == OperatorsOf(h.bridges, dead) + {b.operator};
    assert h.conns - OperatorsOf(h.bridges, more) == h.conns - OperatorsOf(h.bridges, dead) - {b.operator};
    assert h.ended + Losses(h.bridges, more) == (h.ended + Losses(h.bridges, dead))[tag := Ending(ByLoss, b)];
    assert h.bridges - more == h.bridges - dead - {tag};
  }

  lemma EndKeepsLinked(h: Hub, dead: set<int>)
    requires Linked(h) && dead <= h.bridges.Keys
    ensures Linked(EndAll(h, dead))
  {
    var h' := EndAll(h, dead);
    forall tag | tag in h'.bridges
      ensures h'.bridges[tag].operator in h'.conns
    {
      assert h.bridges[tag].operator !in OperatorsOf(h.bridges, dead);
    }
    forall op | op in h'.conns
      ensures h'.conns[op] in h'.bridges
    {
      assert h.conns[op] !in dead;
    }
  }

  lemma EndInTurn(h: Hub, done: set<string>, target: string)
    requires target !in done
    ensures var h' := EndAll(h, BridgesOf(h, done));
            EndAll(h', BridgesOf(h', {target})) == EndAll(h, BridgesOf(h, done + {target}))
  {
    var first := BridgesOf(h, done);
    var h' := EndAll(h, first);
    var second := BridgesOf(h', {target});
    assert BridgesOf(h, done + {target}) == first + second && first !! second;
    EndUnion(h, first, second);
  }

  lemma TargetInTurn(h: Hub, done: set<string>, target: string)
    requires Linked(h) && target !in done
    ensures var h' := EndAll(h, BridgesOf(h, done));
            Linked(h') && EndAll(h', BridgesOf(h', {target})) == EndAll(h, BridgesOf(h, done + {target}))
  {
    EndKeepsLinked(h, BridgesOf(h, done));
    EndInTurn(h, done, target);
  }

  lemma PartsOfUnion(bs: map<int, Bridge>, first: set<int>, second: set<int>)
    requires first <= bs.Keys && second <= bs.Keys && first !! second
    ensures OperatorsOf(bs, first + second) == OperatorsOf(bs, first) + OperatorsOf(bs - first, second)
    ensures Losses(bs, first + second) == Losses(bs, first) + Losses(bs - first, second)
  {
  }

  lemma EndUnion(h: Hub, first: set<int>, second: set<int>)
    requires first <= h.bridges.Keys && second <= h.bridges.Keys && first !! second
    ensures EndAll(EndAll(h, first), second) == EndAll(h, first + second)
  {
    var bs := h.bridges;
    PartsOfUnion(bs, first, second);
    hide OperatorsOf, Losses;
    var (o1, o2) := (OperatorsOf(bs, first), OperatorsOf(bs - first, second));
    var (l1, l2) := (Losses(bs, first), Losses(bs - first, second));
    RemoveUnion(h.conns, o1, o2);
    MergeAssoc(h.ended, l1, l2);
    RemoveUnion(bs, first, second);
    TagsOfUnion(h.closeCalls, first, second);
  }

  lemma TagsOfUnion(calls: multiset<int>, first: set<int>, second: set<int>)
    requires first !! second
    ensures calls + multiset(first + second) == calls + multiset(first) + multiset(second)
  {
    assert multiset(first + second) == multiset(first) + multiset(second);
  }
}
