/**
 What a Tunnel stream loses when it ends. `on_stream_close` erases the staging buffer and leaves the bridge; a
 stream that is finished and drained is at EOF, and the provider is never asked again. Both leave messages behind
 that the device never gets, and this module says exactly which.
 */
module RelayLoss {
  import opened ByteStrings
  import opened Text
  import opened Framing
  import opened GrpcFraming
  import opened TunnelState
  import opened TunnelRuns
  import opened Relay
  import Http2Stream

  /** From here on nghttp2 takes nothing more: the stream is gone, or its provider has said EOF. */
  predicate Settled(w: World) {
    w.phase == Gone || (w.phase == Live && w.chan.out.eof)
  }

  lemma {:induction false} PushAllKeepsTaken(w: World, c: Codec, ms: seq<Message>)
    ensures var w' := PushAll(w, c, ms);
            w'.phase == w.phase && w'.chan.out.read == w.chan.out.read && w'.chan.out.eof == w.chan.out.eof &&
            w.chan.accepted <= w'.chan.accepted
  {
    if ms != [] {
      PushAllKeepsTaken(w, c, ms[..|ms| - 1]);
    }
  }

  lemma ActKeepsSettled(w: World, a: Action, stream: StreamId, c: Codec)
    requires Settled(w) && MayAct(w, a, stream)
    ensures var w' := Act(w, a, stream, c);
            Settled(w') && w'.chan.out.read == w.chan.out.read && w.chan.accepted <= w'.chan.accepted
  {
    if a.HubEvent? {
      hide Step, SentBy, OnStream, PushAll, Enabled;
      PushAllKeepsTaken(w.(hub := Step(w.hub, a.e)), c, OnStream(SentBy(w.hub, a.e), stream));
    }
  }

  lemma {:induction false} SettledStays(acts: seq<Action>, more: seq<Action>, stream: StreamId, c: Codec)
    requires LegalWorld(acts + more, stream, c) && Settled(RunWorld(acts, stream, c))
    ensures var w, w' := RunWorld(acts, stream, c), RunWorld(acts + more, stream, c);
            Settled(w') && w'.chan.out.read == w.chan.out.read && w.chan.accepted <= w'.chan.accepted
    decreases |more|
  {
    if more == [] {
      assert acts + more == acts;
    } else {
      var init, a := more[..|more| - 1], more[|more| - 1];
      assert acts + more == (acts + init) + [a];
      RunWorldSnoc(acts + init, a, stream, c);
      hide RunWorld, LegalWorld, Act, MayAct;
      SettledStays(acts, init, stream, c);
      ActKeepsSettled(RunWorld(acts + init, stream, c), a, stream, c);
    }
  }

  /** The payloads of the frames that nghttp2 has taken whole. */
  function Taken(w: World): seq<Bytes> {
    Bodies(Parse(w.chan.out.read).frames)
  }

  lemma GotIsTaken(w: World, c: Codec)
    requires ChannelInv(Restored(w), c)
    ensures w.chan.got <= Taken(w)
  {
    var ch := w.chan;
    hide Parse, EncodeAll, FramesOf, Http2Stream.Sound;
    ParseConcat(ch.arrived, ch.wire);
    BodiesOfBoth(Parse(ch.arrived).frames, Parse(Parse(ch.arrived).rest + ch.wire).frames);
  }

  /** Once nghttp2 takes nothing more, the device never decodes more than was taken by then. */
  lemma NeverMore(acts: seq<Action>, more: seq<Action>, stream: StreamId, c: Codec)
    requires LegalWorld(acts + more, stream, c) && Settled(RunWorld(acts, stream, c))
    ensures RunWorld(acts + more, stream, c).chan.got <= Taken(RunWorld(acts, stream, c))
  {
    hide RunWorld, LegalWorld, ChannelInv;
    SettledStays(acts, more, stream, c);
    ChannelAtRun(acts + more, stream, c);
    GotIsTaken(RunWorld(acts + more, stream, c), c);
  }

  lemma DeliverAll(w: World, stream: StreamId, c: Codec)
    requires ChannelInv(Restored(w), c) && w.phase != Unopened
    ensures var a := Arrive(|w.chan.wire|);
            MayAct(w, a, stream) && Act(w, a, stream, c).chan.got == Taken(w) &&
            ChannelInv(Restored(Act(w, a, stream, c)), c) &&
            Act(w, a, stream, c).chan.accepted == w.chan.accepted
  {
    var n := |w.chan.wire|;
    DeliverKeepsChannel(Restored(w), c, n);
    var w' := Act(w, Arrive(n), stream, c);
    assert Restored(w') == DeliverChunk(Restored(w), n);
    hide Parse, EncodeAll, FramesOf, Http2Stream.Sound;
    assert w'.chan.wire == [] && w'.chan.arrived + [] == w'.chan.arrived;
  }

  /** All of that arrives, if the wire delivers what it has. */
  lemma RestArrives(acts: seq<Action>, stream: StreamId, c: Codec)
    requires LegalWorld(acts, stream, c) && RunWorld(acts, stream, c).phase != Unopened
    ensures var w := RunWorld(acts, stream, c);
            var acts' := acts + [Arrive(|w.chan.wire|)];
            LegalWorld(acts', stream, c) && RunWorld(acts', stream, c).chan.got == Taken(w)
  {
    var w := RunWorld(acts, stream, c);
    RunWorldSnoc(acts, Arrive(|w.chan.wire|), stream, c);
    hide RunWorld, LegalWorld, Act, MayAct, ChannelInv;
    ChannelAtRun(acts, stream, c);
    DeliverAll(w, stream, c);
  }

  /** Until then nothing is lost: on an open stream short of EOF, at most two more steps bring the device every
      message accepted so far. */
  lemma UntilThenAllArrive(acts: seq<Action>, stream: StreamId, c: Codec) returns (more: seq<Action>)
    requires LegalWorld(acts, stream, c) && Serialises(c, RunWorld(acts, stream, c).chan.accepted)
    requires RunWorld(acts, stream, c).phase == Live && !Settled(RunWorld(acts, stream, c))
    ensures |more| <= 2 && LegalWorld(acts + more, stream, c)
    ensures Understood(c, RunWorld(acts + more, stream, c).chan.got) == Somes(RunWorld(acts, stream, c).chan.accepted)
  {
    var w := RunWorld(acts, stream, c);
    var read := if w.chan.out.respBody == [] then [] else [ProviderRead(|w.chan.out.respBody|)];
    DrainStaging(acts, read, stream, c);
    hide RunWorld, LegalWorld, Serialises, ChannelInv, Taken;
    var w1 := RunWorld(acts + read, stream, c);
    RestArrives(acts + read, stream, c);
    more := read + [Arrive(|w1.chan.wire|)];
    Assoc(acts, read, [Arrive(|w1.chan.wire|)]);
    ChannelAtRun(acts + read, stream, c);
    TakenAll(w1, c);
  }

  lemma DrainStaging(acts: seq<Action>, read: seq<Action>, stream: StreamId, c: Codec)
    requires LegalWorld(acts, stream, c)
    requires RunWorld(acts, stream, c).phase == Live && !Settled(RunWorld(acts, stream, c))
    requires var body := RunWorld(acts, stream, c).chan.out.respBody;
             read == if body == [] then [] else [ProviderRead(|body|)]
    ensures LegalWorld(acts + read, stream, c)
    ensures var w, w' := RunWorld(acts, stream, c), RunWorld(acts + read, stream, c);
            w'.phase == Live && w'.chan.accepted == w.chan.accepted && Untaken(w') == []
  {
    var w := RunWorld(acts, stream, c);
    RunWorldKeepsInv(acts, stream, c);
    assert w.erased == [];
    assert Http2Stream.Sound(w.chan.out) by {
      NothingErased(w);
    }
    if read == [] {
      assert acts + read == acts;
    } else {
      RunWorldSnoc(acts, read[0], stream, c);
      hide RunWorld, LegalWorld, WorldInv;
    }
  }

  /** With nothing left untaken, the messages taken are the messages accepted. */
  lemma TakenAll(w: World, c: Codec)
    requires ChannelInv(Restored(w), c) && Serialises(c, w.chan.accepted) && Untaken(w) == []
    ensures Understood(c, Taken(w)) == Somes(w.chan.accepted)
  {
    hide ChannelInv, Parse, EncodeAll, FramesOf, Understood, Somes;
    var kept, lost := Division(w, c);
    hide Taken;
    LostSized(c, kept, lost);
    NothingLeft(w, c, kept, lost);
    assert kept + [] == kept;
  }

  /** The accepted messages: those taken whole, and the others. */
  lemma Division(w: World, c: Codec) returns (kept: seq<Message>, lost: seq<Message>)
    requires ChannelInv(Restored(w), c) && Serialises(c, w.chan.accepted)
    ensures kept + lost == w.chan.accepted && Understood(c, Taken(w)) == Somes(kept)
    ensures Parse(w.chan.out.read).rest + Untaken(w) == EncodeAll(FramesOf(c, lost))
  {
    hide ChannelInv, Parse, EncodeAll, FramesOf, Understood, Somes, Act, MayAct;
    var at := w.(phase := Live);
    assert Restored(at) == Restored(w);
    hide Untaken;
    DeliverAll(at, StreamId(0, 0), c);
    var all := Restored(Act(at, Arrive(|w.chan.wire|), StreamId(0, 0), c));
    ChannelDelivers(all, c);
    TakenIsPrefix(Restored(w), c);
    kept, lost := w.chan.accepted[..|all.got|], w.chan.accepted[|all.got|..];
  }

  /** A message is left exactly when a byte is. */
  lemma NothingLeft(w: World, c: Codec, kept: seq<Message>, lost: seq<Message>)
    requires Parse(w.chan.out.read).rest + Untaken(w) == EncodeAll(FramesOf(c, lost))
    requires forall i :: 0 <= i < |lost| ==> |c.ser(lost[i])| < TWO_TO_THE_32
    requires kept + lost == w.chan.accepted
    ensures lost == [] <==> Untaken(w) == []
  {
    var rest := Parse(w.chan.out.read).rest;
    ParseSound(w.chan.out.read);
    hide Parse, Untaken, FramesOf;
    if lost == [] {
      assert EncodeAll(FramesOf(c, lost)) == [];
    } else if Untaken(w) == [] {
      var fs := FramesOf(c, lost);
      assert rest + [] == rest;
      assert Sized(fs[0]);
      EncodeHead(fs[0], EncodeAll(fs[1..]));
      assert false;
    }
  }

  predicate CarriesBytes(m: Message, tag: int) {
    m.Data? && m.tag == tag && m.data != []
  }

  lemma CarriedLast(ms: seq<Message>, tag: int)
    requires ms != []
    ensures var init, m := ms[..|ms| - 1], ms[|ms| - 1];
            Carried(ms, tag) == [] <==> Carried(init, tag) == [] && !CarriesBytes(m, tag)
  {
    var init, m := ms[..|ms| - 1], ms[|ms| - 1];
    hide Carried;
    Last(ms);
    CarriedConcat(init, [m], tag);
    CarriedOne(m, tag);
  }

  lemma {:induction false} CarriedNothing(ms: seq<Message>, tag: int)
    ensures Carried(ms, tag) == [] <==> forall i :: 0 <= i < |ms| ==> !CarriesBytes(ms[i], tag)
  {
    if ms == [] {
      CarriedOne(Data(tag, [], false), tag);
    } else {
      var init, m := ms[..|ms| - 1], ms[|ms| - 1];
      hide Carried, CarriesBytes;
      CarriedNothing(init, tag);
      CarriedLast(ms, tag);
      assert forall i :: 0 <= i < |init| ==> init[i] == ms[i];
    }
  }

  /** The loss of a Tunnel stream, exactly. Once it is gone, or at EOF, the messages accepted on it divide in two.
      Those that nghttp2 has taken whole can all arrive; the others never do, whatever happens, and there are none of
      them exactly when nothing was staged. The bytes of a tag that are lost are those in these messages, and those
      sent on the stream when it was gone; there are none exactly when no such message carries a byte of the tag and
      its operator wrote none too late. */
  lemma LossIsExact(acts: seq<Action>, stream: StreamId, c: Codec, tag: int)
    returns (kept: seq<Message>, lost: seq<Message>)
    requires LegalWorld(acts, stream, c) && Serialises(c, RunWorld(acts, stream, c).chan.accepted)
    requires Settled(RunWorld(acts, stream, c))
    ensures var w := RunWorld(acts, stream, c);
            kept + lost == w.chan.accepted && Understood(c, Taken(w)) == Somes(kept) &&
            (lost == [] <==> Untaken(w) == [])
    ensures var w := RunWorld(acts, stream, c);
            RunWorld(acts + [Arrive(|w.chan.wire|)], stream, c).chan.got == Taken(w) &&
            forall more :: LegalWorld(acts + more, stream, c) ==> RunWorld(acts + more, stream, c).chan.got <= Taken(w)
    ensures SentVia(HubEvents(acts), tag, stream) ==
            Carried(kept, tag) + (Carried(lost, tag) + ReadLate(acts, stream, tag))
    ensures Carried(lost, tag) + ReadLate(acts, stream, tag) == [] <==>
            (forall i :: 0 <= i < |lost| ==> !CarriesBytes(lost[i], tag)) &&
            (forall i :: 0 <= i < |acts| ==> !LosesAt(acts, i, stream, tag))
  {
    var w := RunWorld(acts, stream, c);
    hide RunWorld, LegalWorld, ChannelInv, ReadLate, LosesAt, Carried, Understood, Somes, Taken, Parse, EncodeAll;
    hide FramesOf;
    ChannelAtRun(acts, stream, c);
    kept, lost := Division(w, c);
    LostSized(c, kept, lost);
    NothingLeft(w, c, kept, lost);
    RestArrives(acts, stream, c);
    forall more | LegalWorld(acts + more, stream, c)
      ensures RunWorld(acts + more, stream, c).chan.got <= Taken(w)
    {
      NeverMore(acts, more, stream, c);
    }
    BytesInMessages(acts, stream, c, tag);
    CarriedConcat(kept, lost, tag);
    Assoc(Carried(kept, tag), Carried(lost, tag), ReadLate(acts, stream, tag));
    CarriedNothing(lost, tag);
    NothingReadLate(acts, stream, tag);
  }

  lemma LostSized(c: Codec, kept: seq<Message>, lost: seq<Message>)
    requires Serialises(c, kept + lost)
    ensures forall i :: 0 <= i < |lost| ==> |c.ser(lost[i])| < TWO_TO_THE_32
  {
    assert forall i :: 0 <= i < |lost| ==> lost[i] == (kept + lost)[|kept| + i];
  }

  // Runs that lose bytes.

  /** A live run whose bridge is paired with the stream, which has not said EOF. */
  ghost predicate Flowing(acts: seq<Action>, operator: OperatorId, tag: int, stream: StreamId, c: Codec) {
    LegalWorld(acts, stream, c) &&
    var w := RunWorld(acts, stream, c);
    w.phase == Live && !w.chan.out.eof && operator in w.hub.conns && w.hub.conns[operator] == tag &&
    tag in w.hub.bridges && w.hub.bridges[tag].tunnel == Some(stream)
  }

  lemma WriteStep(h: Hub, operator: OperatorId, tag: int, bytes: Bytes, stream: StreamId)
    requires bytes != [] && operator in h.conns && h.conns[operator] == tag
    requires tag in h.bridges && h.bridges[tag].tunnel == Some(stream)
    ensures var e := OperatorData(operator, bytes);
            Enabled(h, e) && tag in Step(h, e).bridges && OnStream(SentBy(h, e), stream) == [Data(tag, bytes, false)]
  {
    var sent := Sent(stream, Data(tag, bytes, false));
    assert SentBy(h, OperatorData(operator, bytes)) == [sent];
    hide SentBy, OnStream;
    OnStreamOne(sent, stream);
  }

  /** Closing the stream leaves the bridge that is paired with it, and what its operator writes next is dropped. */
  lemma WriteToGone(w: World, operator: OperatorId, tag: int, bytes: Bytes, stream: StreamId, c: Codec)
    requires bytes != [] && w.phase == Live && operator in w.hub.conns && w.hub.conns[operator] == tag
    requires tag in w.hub.bridges && w.hub.bridges[tag].tunnel == Some(stream)
    ensures var a := HubEvent(OperatorData(operator, bytes));
            var closed := Act(w, CloseStream, stream, c);
            var after := Act(closed, a, stream, c);
            MayAct(w, CloseStream, stream) && MayAct(closed, a, stream) && after.phase == Gone &&
            tag in after.hub.bridges && after.dropped == w.dropped + [Data(tag, bytes, false)]
  {
    hide Step, SentBy, OnStream, PushAll, Enabled;
    WriteStep(w.hub, operator, tag, bytes, stream);
    var next := Close(w).(hub := Step(w.hub, OperatorData(operator, bytes)));
    PushAllDrops(next, c, [Data(tag, bytes, false)]);
    PushAllHub(next, c, [Data(tag, bytes, false)]);
  }

  lemma OpenAndPair(w: World, tag: int, stream: StreamId, c: Codec)
    requires w.phase == Unopened && tag in w.hub.bridges && w.hub.bridges[tag].buffered == []
    ensures var a := HubEvent(TunnelData(stream, tag, [], false));
            var live := Act(w, OpenStream, stream, c);
            var after := Act(live, a, stream, c);
            MayAct(w, OpenStream, stream) && MayAct(live, a, stream) && after.phase == Live &&
            after.dropped == w.dropped && after.hub.conns == w.hub.conns && after.chan == w.chan &&
            tag in after.hub.bridges && after.hub.bridges[tag].tunnel == Some(stream)
  {
    var e := TunnelData(stream, tag, [], false);
    assert SentBy(w.hub, e) == [];
    PushNothing(w.(phase := Live, hub := Step(w.hub, e)), c);
  }

  /** What an operator writes to a live stream is accepted and staged. */
  lemma WriteToLive(w: World, operator: OperatorId, tag: int, bytes: Bytes, stream: StreamId, c: Codec)
    requires bytes != [] && w.phase == Live && operator in w.hub.conns && w.hub.conns[operator] == tag
    requires tag in w.hub.bridges && w.hub.bridges[tag].tunnel == Some(stream)
    ensures var a := HubEvent(OperatorData(operator, bytes));
            var w' := Act(w, a, stream, c);
            MayAct(w, a, stream) && w'.phase == Live && tag in w'.hub.bridges && w'.dropped == w.dropped &&
            w'.chan == PushMessage(w.chan, c, Data(tag, bytes, false))
  {
    hide Step, SentBy, OnStream, Enabled;
    WriteStep(w.hub, operator, tag, bytes, stream);
    var m := Data(tag, bytes, false);
    var next := w.(hub := Step(w.hub, OperatorData(operator, bytes)));
    assert [m][..0] == [] && PushAll(next, c, []) == next;
    assert PushAll(next, c, [m]) == PushOne(next, c, m);
  }

  /** Whatever is accepted later than nghttp2's last read is never decoded. */
  lemma AcceptedTooLate(ch: Channel, c: Codec)
    requires ChannelInv(ch, c) && forall i :: 0 <= i < |ch.accepted| ==> |c.ser(ch.accepted[i])| < TWO_TO_THE_32
    ensures |Bodies(Parse(ch.out.read).frames)| <= |ch.accepted|
  {
    TakenIsPrefix(ch, c);
  }

  /** The loss is real, wherever an operator waits for its device: the Tunnel stream opens, pairs and closes, its bridge
      stays, and the next bytes of the operator are gone. */
  lemma BridgeOutlivesItsStream(acts: seq<Action>, operator: OperatorId, tag: int, bytes: Bytes, stream: StreamId,
                                c: Codec)
    requires var w := RunWorld(acts, stream, c);
             LegalWorld(acts, stream, c) && w.phase == Unopened &&
             operator in w.hub.conns && w.hub.conns[operator] == tag &&
             tag in w.hub.bridges && w.hub.bridges[tag].buffered == [] && bytes != []
    ensures var acts' := acts + [OpenStream] + [HubEvent(TunnelData(stream, tag, [], false))] + [CloseStream] +
                         [HubEvent(OperatorData(operator, bytes))];
            var w' := RunWorld(acts', stream, c);
            LegalWorld(acts', stream, c) && w'.phase == Gone && tag in w'.hub.bridges &&
            w'.dropped == RunWorld(acts, stream, c).dropped + [Data(tag, bytes, false)]
  {
    var pair, write := HubEvent(TunnelData(stream, tag, [], false)), HubEvent(OperatorData(operator, bytes));
    var w := RunWorld(acts, stream, c);
    OpenAndPair(w, tag, stream, c);
    WriteToGone(Act(Act(w, OpenStream, stream, c), pair, stream, c), operator, tag, bytes, stream, c);
    hide Act, RunWorld, LegalWorld, MayAct;
    RunWorldSnoc(acts, OpenStream, stream, c);
    RunWorldSnoc(acts + [OpenStream], pair, stream, c);
    RunWorldSnoc(acts + [OpenStream] + [pair], CloseStream, stream, c);
    RunWorldSnoc(acts + [OpenStream] + [pair] + [CloseStream], write, stream, c);
  }

  lemma FlowingFacts(acts: seq<Action>, stream: StreamId, c: Codec)
    requires LegalWorld(acts, stream, c) && RunWorld(acts, stream, c).phase == Live
    requires Serialises(c, RunWorld(acts, stream, c).chan.accepted)
    ensures var w := RunWorld(acts, stream, c);
            |Taken(w)| <= |w.chan.accepted| && w.dropped == []
  {
    hide RunWorld, LegalWorld, ChannelInv, Parse;
    ChannelAtRun(acts, stream, c);
    AcceptedTooLate(Restored(RunWorld(acts, stream, c)), c);
  }

  lemma MayClose(w: World, stream: StreamId, c: Codec)
    requires w.phase == Live
    ensures var w' := Act(w, CloseStream, stream, c);
            MayAct(w, CloseStream, stream) && w'.phase == Gone && w'.hub == w.hub && w'.dropped == w.dropped &&
            w'.chan.accepted == w.chan.accepted && Taken(w') == Taken(w)
  {
  }

  /** The request half ends while nothing is staged: the next read finds EOF, and takes nothing. */
  lemma FinishAndDrain(w: World, stream: StreamId, c: Codec) returns (w': World)
    requires w.phase == Live && !w.chan.out.eof && w.chan.out.respBody == []
    ensures var w1 := Act(w, FinishStream, stream, c);
            MayAct(w, FinishStream, stream) && MayAct(w1, ProviderRead(1), stream) &&
            w' == Act(w1, ProviderRead(1), stream, c)
    ensures w'.phase == Live && w'.hub == w.hub && w'.dropped == w.dropped && w'.chan.accepted == w.chan.accepted &&
            w'.chan.out.eof && Taken(w') == Taken(w)
  {
    hide Parse;
    w' := Act(Act(w, FinishStream, stream, c), ProviderRead(1), stream, c);
    assert w.chan.out.read + [] == w.chan.out.read;
  }

  /** What an operator writes last before the stream closes, and nghttp2 has not read, is erased with it. */
  lemma StagedIsErased(acts: seq<Action>, operator: OperatorId, tag: int, bytes: Bytes, stream: StreamId, c: Codec,
                       more: seq<Action>)
    requires Flowing(acts, operator, tag, stream, c) && bytes != []
    requires Serialises(c, RunWorld(acts, stream, c).chan.accepted)
    ensures var ms := RunWorld(acts, stream, c).chan.accepted;
            var acts' := acts + [HubEvent(OperatorData(operator, bytes))] + [CloseStream];
            var w' := RunWorld(acts', stream, c);
            LegalWorld(acts', stream, c) && w'.phase == Gone && tag in w'.hub.bridges && w'.dropped == [] &&
            w'.chan.accepted == ms + [Data(tag, bytes, false)] &&
            (LegalWorld(acts' + more, stream, c) ==> |RunWorld(acts' + more, stream, c).chan.got| <= |ms|)
  {
    hide RunWorld, LegalWorld, Act, ChannelInv, Parse;
    var w, write := RunWorld(acts, stream, c), HubEvent(OperatorData(operator, bytes));
    RunWorldSnoc(acts, write, stream, c);
    RunWorldSnoc(acts + [write], CloseStream, stream, c);
    WriteToLive(w, operator, tag, bytes, stream, c);
    hide MayAct, TunnelState.Enabled;
    FlowingFacts(acts, stream, c);
    MayClose(Act(w, write, stream, c), stream, c);
    var acts' := acts + [write] + [CloseStream];
    if LegalWorld(acts' + more, stream, c) {
      NeverMore(acts', more, stream, c);
    }
  }

  /** The same on a stream that is still open but at EOF: its request half has ended, and it was finished and
      drained. */
  lemma StagedBehindEof(acts: seq<Action>, operator: OperatorId, tag: int, bytes: Bytes, stream: StreamId, c: Codec,
                        more: seq<Action>)
    requires Flowing(acts, operator, tag, stream, c) && bytes != []
    requires Serialises(c, RunWorld(acts, stream, c).chan.accepted)
    requires RunWorld(acts, stream, c).chan.out.respBody == []
    ensures var ms := RunWorld(acts, stream, c).chan.accepted;
            var acts' := acts + [FinishStream] + [ProviderRead(1)] + [HubEvent(OperatorData(operator, bytes))];
            var w' := RunWorld(acts', stream, c);
            LegalWorld(acts', stream, c) && w'.phase == Live && tag in w'.hub.bridges && w'.dropped == [] &&
            w'.chan.accepted == ms + [Data(tag, bytes, false)] &&
            (LegalWorld(acts' + more, stream, c) ==> |RunWorld(acts' + more, stream, c).chan.got| <= |ms|)
  {
    hide RunWorld, LegalWorld, Act, MayAct, ChannelInv, Parse;
    var w, write := RunWorld(acts, stream, c), HubEvent(OperatorData(operator, bytes));
    RunWorldSnoc(acts, FinishStream, stream, c);
    RunWorldSnoc(acts + [FinishStream], ProviderRead(1), stream, c);
    RunWorldSnoc(acts + [FinishStream] + [ProviderRead(1)], write, stream, c);
    FlowingFacts(acts, stream, c);
    var w2 := FinishAndDrain(w, stream, c);
    WriteToLive(w2, operator, tag, bytes, stream, c);
    var acts' := acts + [FinishStream] + [ProviderRead(1)] + [write];
    if LegalWorld(acts' + more, stream, c) {
      NeverMore(acts', more, stream, c);
    }
  }

  /** The start of such runs: a device registers, an operator connects, and a Tunnel stream opens and pairs. */
  function Greeting(): seq<Action> {
    [HubEvent(Register(StreamId(1, 1), Target(ADD, "t", ""))), HubEvent(Connect(OperatorId(0, 7), "t"))] +
    [OpenStream] + [HubEvent(TunnelData(StreamId(1, 3), 1, [], false))]
  }

  lemma GreetingFlows(c: Codec)
    ensures Flowing(Greeting(), OperatorId(0, 7), 1, StreamId(1, 3), c)
    ensures var w := RunWorld(Greeting(), StreamId(1, 3), c);
            w.chan.accepted == [] && w.chan.out.respBody == [] && w.dropped == []
  {
    var (operator, stream) := (OperatorId(0, 7), StreamId(1, 3));
    var acts := [HubEvent(Register(StreamId(1, 1), Target(ADD, "t", ""))), HubEvent(Connect(operator, "t"))];
    var w := RegisteredAndConnected(c);
    OpenAndPair(w, 1, stream, c);
    RunWorldKeepsInv(acts, stream, c);
    RunWorldSnoc(acts, OpenStream, stream, c);
    RunWorldSnoc(acts + [OpenStream], HubEvent(TunnelData(stream, 1, [], false)), stream, c);
    hide RunWorld, LegalWorld, Act, MayAct, ChannelInv, Unknown;
  }

  /** Three complete runs. The byte 9 is written after the stream has closed... */
  lemma LostAfterClose(c: Codec)
    ensures var stream := StreamId(1, 3);
            var acts := Greeting() + [CloseStream] + [HubEvent(OperatorData(OperatorId(0, 7), [9]))];
            LegalWorld(acts, stream, c) &&
            var w := RunWorld(acts, stream, c);
            w.phase == Gone && 1 in w.hub.bridges && w.dropped == [Data(1, [9], false)]
  {
    hide RunWorld, LegalWorld;
    var acts := [HubEvent(Register(StreamId(1, 1), Target(ADD, "t", ""))), HubEvent(Connect(OperatorId(0, 7), "t"))];
    var w := RegisteredAndConnected(c);
    BridgeOutlivesItsStream(acts, OperatorId(0, 7), 1, [9], StreamId(1, 3), c);
    assert [] + [Data(1, [9], false)] == [Data(1, [9], false)];
  }

  /** ...or before, but nghttp2 has not read it when the stream closes... */
  lemma LostAtClose(c: Codec, more: seq<Action>)
    ensures var stream := StreamId(1, 3);
            var acts := Greeting() + [HubEvent(OperatorData(OperatorId(0, 7), [9]))] + [CloseStream];
            LegalWorld(acts, stream, c) && RunWorld(acts, stream, c).phase == Gone &&
            RunWorld(acts, stream, c).dropped == [] &&
            (LegalWorld(acts + more, stream, c) ==> RunWorld(acts + more, stream, c).chan.got == [])
  {
    GreetingFlows(c);
    hide RunWorld, LegalWorld, Flowing, Greeting;
    StagedIsErased(Greeting(), OperatorId(0, 7), 1, [9], StreamId(1, 3), c, more);
  }

  /** ...or on a stream that is at EOF because the device has ended its half. */
  lemma LostBehindEof(c: Codec, more: seq<Action>)
    ensures var stream := StreamId(1, 3);
            var acts := Greeting() + [FinishStream] + [ProviderRead(1)] +
                        [HubEvent(OperatorData(OperatorId(0, 7), [9]))];
            LegalWorld(acts, stream, c) && RunWorld(acts, stream, c).phase == Live &&
            RunWorld(acts, stream, c).dropped == [] &&
            (LegalWorld(acts + more, stream, c) ==> RunWorld(acts + more, stream, c).chan.got == [])
  {
    GreetingFlows(c);
    hide RunWorld, LegalWorld, Flowing, Greeting;
    StagedBehindEof(Greeting(), OperatorId(0, 7), 1, [9], StreamId(1, 3), c, more);
  }

  lemma RegisteredAndConnected(c: Codec) returns (w: World)
    ensures var (operator, control, stream) := (OperatorId(0, 7), StreamId(1, 1), StreamId(1, 3));
            var acts := [HubEvent(Register(control, Target(ADD, "t", ""))), HubEvent(Connect(operator, "t"))];
            LegalWorld(acts, stream, c) && w == RunWorld(acts, stream, c) && w.phase == Unopened && w.dropped == [] &&
            w.hub.bridges == map[1 := Bridge(1, "t", operator, None, [])] && w.hub.conns == map[operator := 1]
  {
    var (operator, control, stream) := (OperatorId(0, 7), StreamId(1, 1), StreamId(1, 3));
    var a1, a2 := HubEvent(Register(control, Target(ADD, "t", ""))), HubEvent(Connect(operator, "t"));
    RunWorldSnoc([], a1, stream, c);
    RunWorldSnoc([a1], a2, stream, c);
    assert [] + [a1] == [a1] && [a1] + [a2] == [a1, a2];
    assert RunWorld([], stream, c) == START && LegalWorld([], stream, c);
    hide RunWorld, LegalWorld;
    var w1 := ActQuietly(START, a1, stream, c, control, TargetAck(ADD, "t", ""));
    assert w1.hub.targets == map["t" := Registration(control, "")];
    w := ActQuietly(w1, a2, stream, c, control, Session(1, "t", ""));
  }

  /** A hub event that sends its one message on another stream. */
  lemma ActQuietly(w: World, a: Action, stream: StreamId, c: Codec, to: StreamId, msg: Message) returns (w': World)
    requires a.HubEvent? && SentBy(w.hub, a.e) == [Sent(to, msg)] && to != stream && !a.e.SessionLost?
    ensures w' == Act(w, a, stream, c) == w.(hub := Step(w.hub, a.e))
  {
    w' := Act(w, a, stream, c);
    OnStreamOne(Sent(to, msg), stream);
    PushNothing(w.(hub := Step(w.hub, a.e)), c);
  }
}
