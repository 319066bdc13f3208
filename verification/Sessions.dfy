/**
 The lifetime of a connection in the hubs that refer to it: after `connected_client::handle_close`
 no subscription, target or management session names the connection, and neither does a bridge, under
 a condition that is made exact.
 */
module Sessions {
  import opened ByteStrings
  import opened Text
  import opened TunnelState
  import opened TunnelRuns
  import opened TunnelHub
  import Subs = SubHub
  import GnmiPath

  datatype MgmtSession = MgmtSession(grpc: int, sid: int, id: int)

  /** The sessions on other connections, in order. */
  function Kept(ss: seq<MgmtSession>, grpc: int): seq<MgmtSession> {
    if ss == [] then [] else (if ss[0].grpc == grpc then [] else [ss[0]]) + Kept(ss[1..], grpc)
  }

  /** The identifiers of the sessions on one connection, in order. */
  function GoneIds(ss: seq<MgmtSession>, grpc: int): seq<int> {
    if ss == [] then [] else (if ss[0].grpc == grpc then [ss[0].id] else []) + GoneIds(ss[1..], grpc)
  }

  lemma {:induction false} KeptMembers(ss: seq<MgmtSession>, grpc: int)
    ensures forall s :: s in Kept(ss, grpc) <==> s in ss && s.grpc != grpc
  {
    if ss != [] {
      KeptMembers(ss[1..], grpc);
      assert ss == [ss[0]] + ss[1..];
    }
  }

  /** The identifiers handed back are those of the sessions that go, and nobody is forgotten. */
  lemma {:induction false} GoneMembers(ss: seq<MgmtSession>, grpc: int)
    ensures forall id :: id in GoneIds(ss, grpc) <==> exists s :: s in ss && s.grpc == grpc && s.id == id
    ensures |GoneIds(ss, grpc)| + |Kept(ss, grpc)| == |ss|
  {
    if ss != [] {
      GoneMembers(ss[1..], grpc);
      assert ss == [ss[0]] + ss[1..];
    }
  }

  lemma KeptCons(ss: seq<MgmtSession>, grpc: int)
    requires ss != []
    ensures Kept(ss, grpc) == (if ss[0].grpc == grpc then [] else [ss[0]]) + Kept(ss[1..], grpc)
    ensures GoneIds(ss, grpc) == (if ss[0].grpc == grpc then [ss[0].id] else []) + GoneIds(ss[1..], grpc)
  {
  }

  /** Both keep the order of the sessions: piece by piece. */
  lemma {:induction false} KeptConcat(a: seq<MgmtSession>, b: seq<MgmtSession>, grpc: int)
    ensures Kept(a + b, grpc) == Kept(a, grpc) + Kept(b, grpc)
    ensures GoneIds(a + b, grpc) == GoneIds(a, grpc) + GoneIds(b, grpc)
    decreases |a|
  {
    if a == [] {
      assert a + b == b;
    } else {
      KeptCons(a, grpc);
      KeptCons(a + b, grpc);
      KeptConcat(a[1..], b, grpc);
      TailConcat(a, b);
      hide Kept, GoneIds;
      Assoc(if a[0].grpc == grpc then [] else [a[0]], Kept(a[1..], grpc), Kept(b, grpc));
      Assoc(if a[0].grpc == grpc then [a[0].id] else [], GoneIds(a[1..], grpc), GoneIds(b, grpc));
    }
  }

  /** Identifiers increase strictly, from above `lo` to at most `max`. */
  ghost predicate Increasing(ss: seq<MgmtSession>, lo: int, max: int) {
    ss != [] ==> lo < ss[0].id <= max && Increasing(ss[1..], ss[0].id, max)
  }

  lemma {:induction false} IncreasingFrom(ss: seq<MgmtSession>, lo: int, lo': int, max: int)
    requires Increasing(ss, lo, max) && lo' <= lo
    ensures Increasing(ss, lo', max)
  {
  }

  lemma {:induction false} KeptIncreasing(ss: seq<MgmtSession>, grpc: int, lo: int, max: int)
    requires Increasing(ss, lo, max)
    ensures Increasing(Kept(ss, grpc), lo, max)
    decreases |ss|
  {
    if ss != [] {
      var rest := Kept(ss[1..], grpc);
      KeptIncreasing(ss[1..], grpc, ss[0].id, max);
      IncreasingFrom(rest, ss[0].id, lo, max);
      assert ([ss[0]] + rest)[1..] == rest && [] + rest == rest;
    }
  }

  lemma {:induction false} IncreasingMore(ss: seq<MgmtSession>, s: MgmtSession, lo: int, max: int)
    requires Increasing(ss, lo, max) && lo <= max && s.id == max + 1
    ensures Increasing(ss + [s], lo, max + 1)
    decreases |ss|
  {
    if ss != [] {
      IncreasingMore(ss[1..], s, ss[0].id, max);
      TailConcat(ss, [s]);
    } else {
      assert ss + [s] == [s] && [s][1..] == [];
    }
  }

  /** One turn of the erase loop, which looks at position `i`. */
  lemma EraseStep(ss: seq<MgmtSession>, i: nat, grpc: int)
    requires i < |ss|
    ensures ss[i].grpc == grpc ==>
              var ss' := ss[..i] + ss[i + 1..];
              ss'[..i] + Kept(ss'[i..], grpc) == ss[..i] + Kept(ss[i..], grpc) &&
              GoneIds(ss[i..], grpc) == [ss[i].id] + GoneIds(ss'[i..], grpc)
    ensures ss[i].grpc != grpc ==>
              ss[..i + 1] + Kept(ss[i + 1..], grpc) == ss[..i] + Kept(ss[i..], grpc) &&
              GoneIds(ss[i..], grpc) == GoneIds(ss[i + 1..], grpc)
  {
    assert ss[i..][1..] == ss[i + 1..];
    if ss[i].grpc == grpc {
      var ss' := ss[..i] + ss[i + 1..];
      assert ss'[..i] == ss[..i] && ss'[i..] == ss[i + 1..];
    } else {
      assert ss[..i + 1] == ss[..i] + [ss[i]];
      Assoc(ss[..i], [ss[i]], Kept(ss[i + 1..], grpc));
    }
  }

  class MgmtHub {
    var sessions: seq<MgmtSession>
    var nextId: int

    /** Identifiers are given out in increasing order, and never twice. */
    ghost predicate Valid()
      reads this
    {
      0 <= nextId && Increasing(sessions, 0, nextId)
    }

    constructor ()
      ensures Valid() && sessions == []
    {
      sessions, nextId := [], 0;
    }

    method AddSession(grpc: int, sid: int) returns (id: int)
      requires Valid()
      modifies this
      ensures Valid() && id == nextId == old(nextId) + 1
      ensures sessions == old(sessions) + [MgmtSession(grpc, sid, id)]
    {
      IncreasingMore(sessions, MgmtSession(grpc, sid, nextId + 1), 0, nextId);
      nextId := nextId + 1;
      id := nextId;
      sessions := sessions + [MgmtSession(grpc, sid, id)];
    }

    /** The erase loop. */
    method RemoveByStream(grpc: int) returns (gone: seq<int>)
      requires Valid()
      modifies this`sessions
      ensures Valid() && sessions == Kept(old(sessions), grpc)
      ensures gone == GoneIds(old(sessions), grpc)
    {
      KeptIncreasing(sessions, grpc, 0, nextId);
      ghost var all := sessions;
      gone := [];
      var i := 0;
      assert sessions[0..] == sessions;
      while i < |sessions|
        invariant i <= |sessions|
        invariant sessions[..i] + Kept(sessions[i..], grpc) == Kept(all, grpc)
        invariant gone + GoneIds(sessions[i..], grpc) == GoneIds(all, grpc)
        decreases |sessions| - i
      {
        EraseStep(sessions, i, grpc);
        hide Kept, GoneIds, Increasing;
        if sessions[i].grpc == grpc {
          gone := gone + [sessions[i].id];
          sessions := sessions[..i] + sessions[i + 1..];
        } else {
          i := i + 1;
        }
      }
      assert sessions[i..] == [] && sessions[..i] == sessions;
      assert sessions + [] == sessions && gone + [] == gone;
    }
  }

  /** A bridge sends over this session. */
  predicate Sends(b: Bridge, session: int) {
    b.tunnel.Some? && b.tunnel.value.session == session
  }

  ghost predicate NoBridgeOn(h: Hub, session: int) {
    forall tag :: tag in h.bridges ==> !Sends(h.bridges[tag], session)
  }

  predicate OwnsTarget(h: Hub, session: int, target: string) {
    target in h.targets && h.targets[target].stream.session == session
  }

  /** Closing a session leaves a bridge that still sends over it exactly when some bridge was paired by a session
      that does not own the bridge's target. */
  lemma LossLeavesNoBridge(h: Hub, session: int)
    ensures NoBridgeOn(RemoveByStream(h, session), session) <==>
            forall tag :: tag in h.bridges && Sends(h.bridges[tag], session) ==>
                            OwnsTarget(h, session, h.bridges[tag].target)
  {
    var h' := RemoveByStream(h, session);
    forall tag | tag in h.bridges && Sends(h.bridges[tag], session)
      ensures tag in h'.bridges <==> !OwnsTarget(h, session, h.bridges[tag].target)
    {
    }
    forall tag | tag in h'.bridges
      ensures tag in h.bridges && h'.bridges[tag] == h.bridges[tag]
    {
    }
    if NoBridgeOn(h', session) {
      forall tag | tag in h.bridges && Sends(h.bridges[tag], session)
        ensures OwnsTarget(h, session, h.bridges[tag].target)
      {
        assert tag !in h'.bridges;
      }
    }
  }

  /** The failing case is reachable: session 2 pairs a bridge to the target of session 1, and closes. */
  lemma StrangerMayLinger()
    ensures var trace := [Register(StreamId(1, 1), Target(ADD, "t", "")), Connect(OperatorId(0, 7), "t"),
                          TunnelData(StreamId(2, 1), 1, [], false), SessionLost(2)];
            Legal(trace) && !NoBridgeOn(Run(trace), 2)
  {
    var e1, e2 := Register(StreamId(1, 1), Target(ADD, "t", "")), Connect(OperatorId(0, 7), "t");
    var e3, e4 := TunnelData(StreamId(2, 1), 1, [], false), SessionLost(2);
    RunSnoc([], e1);
    RunSnoc([e1], e2);
    RunSnoc([e1, e2], e3);
    RunSnoc([e1, e2, e3], e4);
    assert [] + [e1] == [e1] && [e1] + [e2] == [e1, e2];
    assert [e1, e2] + [e3] == [e1, e2, e3] && [e1, e2, e3] + [e4] == [e1, e2, e3, e4];
    hide Run, Legal;
    var h1 := Step(INITIAL, e1);
    var h2 := Step(h1, e2);
    assert Run([]) == INITIAL && Legal([]) by {
      RunOfNothing();
    }
    assert h1.targets == map["t" := Registration(StreamId(1, 1), "")];
    assert h2.bridges == map[1 := Bridge(1, "t", OperatorId(0, 7), None, [])];
    var h3 := Step(h2, e3);
    assert h3.bridges[1].tunnel == Some(StreamId(2, 1)) && h3.targets == h1.targets;
    var h4 := Step(h3, e4);
    assert OwnedBy(h3, 2) == {};
    assert 1 in h4.bridges && Sends(h4.bridges[1], 2);
  }

  lemma RunOfNothing()
    ensures Run([]) == INITIAL && Legal([])
  {
  }

  /** Every paired bridge sends over the session that owns its target. */
  ghost predicate PairedByOwners(h: Hub) {
    forall tag :: tag in h.bridges && h.bridges[tag].tunnel.Some? ==>
                    OwnsTarget(h, h.bridges[tag].tunnel.value.session, h.bridges[tag].target)
  }

  ghost predicate HasBridge(h: Hub, target: string) {
    exists tag :: tag in h.bridges && h.bridges[tag].target == target
  }

  /** Devices pair only bridges of their own targets, and a target with bridges is neither moved nor removed. */
  ghost predicate Disciplined(h: Hub, e: Event) {
    match e
    case TunnelData(stream, tag, _, _) => tag in h.bridges ==> OwnsTarget(h, stream.session, h.bridges[tag].target)
    case Register(stream, Target(op, target, _)) =>
      HasBridge(h, target) ==> op != REMOVE && (op == ADD ==> OwnsTarget(h, stream.session, target))
    case _ => true
  }

  /** Where a bridge of the next state comes from: a new one is unpaired; the others keep their target, and their
      pairing too unless this event paired them. */
  lemma BridgeOrigin(h: Hub, e: Event, tag: int)
    requires Inv(h) && Enabled(h, e) && tag in Step(h, e).bridges
    ensures var b' := Step(h, e).bridges[tag];
            b'.tunnel == None ||
            (tag in h.bridges && b'.target == h.bridges[tag].target &&
             (b'.tunnel == h.bridges[tag].tunnel || (e.TunnelData? && e.tag == tag && b'.tunnel == Some(e.stream))))
  {
    StepProjects(h, e, tag);
    ViewLife(h, tag);
    ViewLife(Step(h, e), tag);
    InputOfData(h, e, tag);
    BridgeOfView(h, tag);
    BridgeOfView(Step(h, e), tag);
    TagStepOrigin(ViewOf(h, tag), tag, InputOf(h, e, tag));
    hide Step, InputOf, Inv, ViewOf, TagStep;
  }

  lemma LossKeepsOwners(h: Hub, session: int)
    requires PairedByOwners(h)
    ensures PairedByOwners(RemoveByStream(h, session))
  {
    var h' := RemoveByStream(h, session);
    forall tag | tag in h'.bridges && h'.bridges[tag].tunnel.Some?
      ensures OwnsTarget(h', h'.bridges[tag].tunnel.value.session, h'.bridges[tag].target)
    {
      assert h.bridges[tag].target !in OwnedBy(h, session);
    }
  }

  /** The ownership of a target with a bridge survives every disciplined event but the loss of its session. */
  lemma StepKeepsOwner(h: Hub, e: Event, session: int, target: string)
    requires Disciplined(h, e) && !e.SessionLost? && HasBridge(h, target) && OwnsTarget(h, session, target)
    ensures OwnsTarget(Step(h, e), session, target)
  {
  }

  lemma StepKeepsOwners(h: Hub, e: Event)
    requires Inv(h) && Enabled(h, e) && Disciplined(h, e) && PairedByOwners(h)
    ensures PairedByOwners(Step(h, e))
  {
    if e.SessionLost? {
      LossKeepsOwners(h, e.session);
    } else {
      var h' := Step(h, e);
      hide Step, Inv;
      forall tag | tag in h'.bridges && h'.bridges[tag].tunnel.Some?
        ensures OwnsTarget(h', h'.bridges[tag].tunnel.value.session, h'.bridges[tag].target)
      {
        BridgeOrigin(h, e, tag);
        var session, target := h'.bridges[tag].tunnel.value.session, h'.bridges[tag].target;
        assert HasBridge(h, target) && OwnsTarget(h, session, target);
        StepKeepsOwner(h, e, session, target);
      }
    }
  }

  ghost predicate DisciplinedRun(trace: seq<Event>) {
    trace != [] ==> DisciplinedRun(trace[..|trace| - 1]) && Disciplined(Run(trace[..|trace| - 1]), trace[|trace| - 1])
  }

  lemma {:induction false} RunKeepsOwners(trace: seq<Event>)
    requires Legal(trace) && DisciplinedRun(trace)
    ensures PairedByOwners(Run(trace))
  {
    if trace != [] {
      var init := trace[..|trace| - 1];
      RunKeepsOwners(init);
      RunKeepsInv(init);
      StepKeepsOwners(Run(init), trace[|trace| - 1]);
    }
  }

  /** After any disciplined run, closing a session leaves neither a target nor a bridge that names it. */
  lemma NoHubOutlivesASession(trace: seq<Event>, session: int)
    requires Legal(trace) && DisciplinedRun(trace)
    ensures var h := Step(Run(trace), SessionLost(session));
            NoBridgeOn(h, session) && forall t :: t in h.targets ==> h.targets[t].stream.session != session
  {
    RunKeepsOwners(trace);
    LossLeavesNoBridge(Run(trace), session);
  }

  /** In these subscriptions the client and its session stand for one another. */
  ghost predicate Exclusive(ss: seq<Subs.Sub>, owner: int, grpc: int) {
    forall s :: s in ss ==> (s.owner == owner <==> s.grpc == grpc)
  }

  lemma OthersNameOthers(ss: seq<Subs.Sub>, owner: int, grpc: int)
    ensures var others := Subs.Others(ss, owner);
            ((forall s :: s in others ==> s.grpc != grpc) <==>
             (forall s :: s in ss && s.grpc == grpc ==> s.owner == owner)) &&
            (Exclusive(ss, owner, grpc) ==> forall s :: s in others ==> s.grpc != grpc) &&
            (forall o, g :: Exclusive(ss, o, g) ==> Exclusive(others, o, g))
  {
  }

  lemma LossLeavesNoTarget(h: Hub, session: int)
    ensures var left := RemoveByStream(h, session).targets;
            forall t :: t in left ==> left[t].stream.session != session
  {
  }

  datatype SubEvent = Subscribed(owner: int, streamId: int, paths: seq<string>) | Closed(owner: int)

  /** The subscriptions after a list of events, each client using the session it owns. */
  function SubsAfter(trace: seq<SubEvent>, sessionOf: int -> int): seq<Subs.Sub> {
    if trace == [] then
      []
    else
      var before := SubsAfter(trace[..|trace| - 1], sessionOf);
      match trace[|trace| - 1]
      case Subscribed(owner, streamId, paths) => before + [Subs.Sub(owner, sessionOf(owner), streamId, paths)]
      case Closed(owner) => Subs.Others(before, owner)
  }

  lemma {:induction false} SubsNameOwnSession(trace: seq<SubEvent>, sessionOf: int -> int)
    ensures forall s :: s in SubsAfter(trace, sessionOf) ==> s.grpc == sessionOf(s.owner)
  {
    if trace != [] {
      SubsNameOwnSession(trace[..|trace| - 1], sessionOf);
    }
  }

  /** After any run in which no two clients share a session, no subscription names the session of a closed client. */
  lemma NoSubOutlivesItsSession(trace: seq<SubEvent>, sessionOf: int -> int, owner: int)
    requires forall a, b :: sessionOf(a) == sessionOf(b) ==> a == b
    ensures Exclusive(SubsAfter(trace, sessionOf), owner, sessionOf(owner))
    ensures forall s :: s in SubsAfter(trace + [Closed(owner)], sessionOf) ==> s.grpc != sessionOf(owner)
  {
    SubsNameOwnSession(trace, sessionOf);
    assert (trace + [Closed(owner)])[..|trace|] == trace;
  }

  /** A SubscribeRequest that could be parsed. */
  datatype SubscribeRequest = SubscribeRequest(paths: seq<GnmiPath.Path>, streaming: bool)

  /** What goes out on the response stream. */
  datatype StreamOp = SyncResponse | StreamFinish(status: int)

  const OK: int := 0
  const INVALID_ARGUMENT: int := 3

  /** `connected_client`, as far as the hubs know it: `grpc` is the identity of its session. */
  class ConnectedClient {
    const owner: int
    const grpc: int
    const subs: Subs.SubHub
    const tunnels: TunnelHub
    const mgmt: MgmtHub

    constructor (owner: int, grpc: int, subs: Subs.SubHub, tunnels: TunnelHub, mgmt: MgmtHub)
      ensures this.owner == owner && this.grpc == grpc
      ensures this.subs == subs && this.tunnels == tunnels && this.mgmt == mgmt
    {
      this.owner, this.grpc, this.subs, this.tunnels, this.mgmt := owner, grpc, subs, tunnels, mgmt;
    }

    /** `start_subscription`; `None` stands for a request that cannot be parsed. Only a STREAM subscription is kept. */
    method StartSubscription(streamId: int, request: Option<SubscribeRequest>) returns (sent: seq<StreamOp>)
      requires Subs.Complete(subs.enumerate)
      modifies subs
      ensures request == None ==> sent == [StreamFinish(INVALID_ARGUMENT)] && subs.subs == old(subs.subs)
      ensures request.Some? ==>
                var streaming, shown := request.value.streaming, Subs.ShowAll(request.value.paths, subs.enumerate);
                sent == (if streaming then [SyncResponse] else [SyncResponse, StreamFinish(OK)]) &&
                subs.subs == old(subs.subs) + (if streaming then [Subs.Sub(owner, grpc, streamId, shown)] else [])
      ensures forall o, g :: (o == owner <==> g == grpc) && Exclusive(old(subs.subs), o, g) ==>
                               Exclusive(subs.subs, o, g)
    {
      if request == None {
        return [StreamFinish(INVALID_ARGUMENT)];
      }
      var shown := ShowPaths(request.value.paths);
      sent := [SyncResponse];
      if request.value.streaming {
        subs.Add(owner, grpc, streamId, shown);
      } else {
        sent := sent + [StreamFinish(OK)];
      }
    }

    method ShowPaths(paths: seq<GnmiPath.Path>) returns (shown: seq<string>)
      requires Subs.Complete(subs.enumerate)
      ensures shown == Subs.ShowAll(paths, subs.enumerate)
    {
      ghost var goal := Subs.ShowAll(paths, subs.enumerate);
      shown := [];
      for i := 0 to |paths|
        invariant shown == goal[..i]
      {
        Subs.OrdersByComplete(paths[i], subs.enumerate);
        var text := GnmiPath.PathToString(paths[i], subs.enumerate);
        shown := shown + [text];
      }
    }

    method ForgetSubscriptions()
      modifies subs
      ensures forall s :: s in subs.subs <==> s in old(subs.subs) && s.owner != owner
      ensures (forall s :: s in subs.subs ==> s.grpc != grpc) <==>
              (forall s :: s in old(subs.subs) && s.grpc == grpc ==> s.owner == owner)
      ensures old(Exclusive(subs.subs, owner, grpc)) ==> forall s :: s in subs.subs ==> s.grpc != grpc
      ensures forall o, g :: Exclusive(old(subs.subs), o, g) ==> Exclusive(subs.subs, o, g)
    {
      ghost var before := subs.subs;
      subs.Remove(owner);
      OthersNameOthers(before, owner, grpc);
      hide Exclusive;
    }

    /** The connection is gone: every hub forgets it. */
    method HandleClose()
      requires Linked(tunnels.State()) && mgmt.Valid()
      modifies subs, tunnels, tunnels.listeners, mgmt
      ensures forall s :: s in subs.subs <==> s in old(subs.subs) && s.owner != owner
      ensures (forall s :: s in subs.subs ==> s.grpc != grpc) <==>
              (forall s :: s in old(subs.subs) && s.grpc == grpc ==> s.owner == owner)
      ensures old(Exclusive(subs.subs, owner, grpc)) ==> forall s :: s in subs.subs ==> s.grpc != grpc
      ensures forall o, g :: Exclusive(old(subs.subs), o, g) ==> Exclusive(subs.subs, o, g)
      ensures tunnels.State() == Step(old(tunnels.State()), SessionLost(grpc))
      ensures forall t :: t in tunnels.targets ==> tunnels.targets[t].stream.session != grpc
      ensures forall s :: s in mgmt.sessions <==> s in old(mgmt.sessions) && s.grpc != grpc
      ensures NoBridgeOn(tunnels.State(), grpc) <==>
              forall tag :: tag in old(tunnels.bridges) && Sends(old(tunnels.bridges)[tag], grpc) ==>
                              OwnsTarget(old(tunnels.State()), grpc, old(tunnels.bridges)[tag].target)
    {
      ForgetSubscriptions();
      LossLeavesNoBridge(tunnels.State(), grpc);
      LossLeavesNoTarget(tunnels.State(), grpc);
      hide Exclusive, NoBridgeOn, TunnelState.RemoveByStream, OwnsTarget, Linked, Kept, GoneIds;
      var targets := tunnels.RemoveByStream(grpc);
      KeptMembers(mgmt.sessions, grpc);
      var sessions := mgmt.RemoveByStream(grpc);
    }
  }
}
