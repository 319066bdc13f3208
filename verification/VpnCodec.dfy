/**
 The VPN tunnel's frame codec, which exists twice: in the server's `vpn_peer` and
 in `vpn_client`. Both receivers are proved against the one reference
 reading, `Framing.Parse`, so both are chunk-independent and agree.
 */
module VpnCodec {
  import opened ByteStrings
  import opened Framing
  import opened Text

  const TYPE_IP_ASSIGN: byte := 0x01
  const TYPE_DATA: byte := 0x02
  const TYPE_DISCONNECT: byte := 0x03

  const SPACE: byte := 0x20

  /** "255.255.255.0", the netmask a client assumes when IP_ASSIGN carries none. */
  const DEFAULT_NETMASK: Bytes := [50, 53, 53, 46, 50, 53, 53, 46, 50, 53, 53, 46, 48]

  /** What the server sends to one client: its address, then the packets routed to it. */
  function ServerFrames(ip: Bytes, mask: Bytes, packets: seq<Bytes>): seq<Frame> {
    [Frame(TYPE_IP_ASSIGN, ip + [SPACE] + mask)] + DataFrames(packets)
  }

  function DataFrames(packets: seq<Bytes>): (fs: seq<Frame>)
    ensures |fs| == |packets|
    ensures forall i :: 0 <= i < |fs| ==> fs[i] == Frame(TYPE_DATA, packets[i])
  {
    seq(|packets|, i requires 0 <= i < |packets| => Frame(TYPE_DATA, packets[i]))
  }

  lemma AssignFirst(ip: Bytes, mask: Bytes)
    ensures EncodeAll(ServerFrames(ip, mask, [])) == Encode(Frame(TYPE_IP_ASSIGN, ip + [SPACE] + mask))
  {
    var f := Frame(TYPE_IP_ASSIGN, ip + [SPACE] + mask);
    assert ServerFrames(ip, mask, []) == [f] + [];
    EncodeAllCons(f, []);
  }

  lemma PacketNext(ip: Bytes, mask: Bytes, packets: seq<Bytes>, packet: Bytes)
    ensures EncodeAll(ServerFrames(ip, mask, packets + [packet])) ==
            EncodeAll(ServerFrames(ip, mask, packets)) + Encode(Frame(TYPE_DATA, packet))
  {
    var fs, f := ServerFrames(ip, mask, packets), Frame(TYPE_DATA, packet);
    assert ServerFrames(ip, mask, packets + [packet]) == fs + [f];
    EncodeAllConcat(fs, [f]);
    EncodeAllCons(f, []);
    assert [f] + [] == [f];
  }

  /** One accepted client, seen from the server. */
  class VpnPeer {
    const assignedIp: Bytes
    const netmask: Bytes
    var recvBuf: Bytes
    var outgoing: Bytes            // bytes handed to the socket
    var dispatched: seq<Frame>     // frames the switch has seen, in order
    ghost var received: Bytes      // every byte the socket ever delivered
    ghost var forwarded: seq<Bytes> // every packet routed to this client

    /** After any cutting of the incoming stream, exactly its frames have been dispatched; what went out is the
        assignment and the forwarded packets. */
    ghost predicate Valid()
      reads this
    {
      && Parse(received) == Parsed(dispatched, recvBuf)
      && outgoing == EncodeAll(ServerFrames(assignedIp, netmask, forwarded))
    }

    constructor (ip: Bytes, mask: Bytes)
      ensures Valid() && received == [] && dispatched == [] && assignedIp == ip && netmask == mask
      ensures forwarded == []
    {
      assignedIp, netmask := ip, mask;
      recvBuf, dispatched, received, outgoing, forwarded := [], [], [], [], [];
      new;
      SendFrame(TYPE_IP_ASSIGN, ip + [SPACE] + mask);
      AssignFirst(ip, mask);
    }

    method SendFrame(kind: byte, payload: Bytes)
      modifies this`outgoing
      ensures outgoing == old(outgoing) + Encode(Frame(kind, payload))
    {
      var len := |payload| % TWO_TO_THE_32;
      var frame: Bytes := [kind];
      frame := frame + Be32(len);
      frame := frame + payload;
      outgoing := outgoing + frame;
    }

    /** A packet for this client. With `ServerStreamReachesTun`, it is what the client's TUN device gets next. */
    method ForwardData(packet: Bytes)
      requires Valid()
      modifies this`outgoing, this`forwarded
      ensures Valid() && forwarded == old(forwarded) + [packet]
    {
      SendFrame(TYPE_DATA, packet);
      PacketNext(assignedIp, netmask, forwarded, packet);
      forwarded := forwarded + [packet];
    }

    method ProcessFrames(buf: Bytes) returns (consumed: nat)
      modifies this`dispatched
      ensures consumed <= |buf| && buf[consumed..] == Parse(buf).rest
      ensures dispatched == old(dispatched) + Parse(buf).frames
    {
      hide Parse, Un32, Encode, EncodeAll;
      consumed := 0;
      ghost var goal, more := dispatched + Parse(buf).frames, Parse(buf).frames;
      assert buf[0..] == buf;
      while |buf| - consumed >= HEADER_LEN
        invariant consumed <= |buf|
        invariant Parse(buf[consumed..]) == Parsed(more, Parse(buf).rest)
        invariant dispatched + more == goal
        decreases |buf| - consumed
      {
        ParseFrom(buf, consumed);
        var kind := buf[consumed];
        var len := Un32(buf[consumed + 1..consumed + HEADER_LEN]);
        if |buf| - consumed < HEADER_LEN + len {
          break;
        }
        var next := consumed + HEADER_LEN + len;
        var f := Frame(kind, buf[consumed + HEADER_LEN..next]);
        ghost var tail := Parse(buf[next..]).frames;
        assert more == [f] + tail;
        Assoc(dispatched, [f], tail);
        dispatched, consumed, more := dispatched + [f], next, tail;
      }
      ParseFrom(buf, consumed);
      assert more == [] && dispatched + more == dispatched;
    }

    method HandleRead(data: Bytes) returns (consumed: nat)
      requires Valid()
      modifies this`recvBuf, this`dispatched, this`received
      ensures Valid() && received == old(received) + data
      ensures consumed <= |old(recvBuf)| + |data|
    {
      ParseConcat(received, data);
      received := received + data;
      recvBuf := recvBuf + data;
      consumed := ProcessFrames(recvBuf);
      recvBuf := recvBuf[consumed..];
    }
  }

  /** What the client has made of the frames so far. */
  datatype Link = Link(
    assignedIp: Bytes, ipAssigned: bool, tunOpen: bool,
    configured: seq<(Bytes, Bytes)>, written: seq<Bytes>)

  const DOWN := Link([], false, false, [], [])

  /** The client's switch over frame types. `tunAvailable` is the outcome of `open_tun`. */
  function Apply(link: Link, f: Frame, tunAvailable: bool): Link {
    if f.kind == TYPE_IP_ASSIGN then
      var sp := IndexOf(f.body, SPACE);
      var ip := f.body[..sp];
      var mask := if sp < |f.body| then f.body[sp + 1..] else DEFAULT_NETMASK;
      link.(assignedIp := ip, ipAssigned := true, tunOpen := tunAvailable,
            configured := if tunAvailable then link.configured + [(ip, mask)] else link.configured)
    else if f.kind == TYPE_DATA then
      if link.tunOpen then link.(written := link.written + [f.body]) else link
    else if f.kind == TYPE_DISCONNECT then
      link.(tunOpen := false)
    else
      link
  }

  function ApplyAll(link: Link, fs: seq<Frame>, tunAvailable: bool): Link {
    if fs == [] then link else Apply(ApplyAll(link, fs[..|fs| - 1], tunAvailable), fs[|fs| - 1], tunAvailable)
  }

  lemma ApplyAllSnoc(link: Link, fs: seq<Frame>, f: Frame, tunAvailable: bool)
    ensures ApplyAll(link, fs + [f], tunAvailable) == Apply(ApplyAll(link, fs, tunAvailable), f, tunAvailable)
  {
    assert (fs + [f])[..|fs|] == fs;
  }

  lemma {:induction false} ApplyAllConcat(link: Link, fs: seq<Frame>, gs: seq<Frame>, tunAvailable: bool)
    ensures ApplyAll(link, fs + gs, tunAvailable) == ApplyAll(ApplyAll(link, fs, tunAvailable), gs, tunAvailable)
  {
    if gs == [] {
      assert fs + gs == fs;
    } else {
      ApplyAllConcat(link, fs, gs[..|gs| - 1], tunAvailable);
      assert (fs + gs)[..|fs + gs| - 1] == fs + gs[..|gs| - 1];
    }
  }

  lemma ApplyNothing(link: Link, tunAvailable: bool)
    ensures ApplyAll(link, [], tunAvailable) == link
  {
  }

  lemma ApplyFirst(link: Link, f: Frame, fs: seq<Frame>, tunAvailable: bool)
    ensures ApplyAll(link, [f] + fs, tunAvailable) == ApplyAll(Apply(link, f, tunAvailable), fs, tunAvailable)
  {
    ApplyAllConcat(link, [f], fs, tunAvailable);
    ApplyAllSnoc(link, [], f, tunAvailable);
    assert [] + [f] == [f];
  }

  /** An assignment is read up to its first space; without one the netmask is the default. */
  lemma AssignmentIsRead(link: Link, ip: Bytes, mask: Bytes, tunAvailable: bool)
    requires SPACE !in ip
    ensures var l := Apply(link, Frame(TYPE_IP_ASSIGN, ip + [SPACE] + mask), tunAvailable);
            l.assignedIp == ip && l.ipAssigned &&
            l.configured == link.configured + (if tunAvailable then [(ip, mask)] else [])
    ensures var l := Apply(link, Frame(TYPE_IP_ASSIGN, ip), tunAvailable);
            l.assignedIp == ip && l.ipAssigned &&
            l.configured == link.configured + (if tunAvailable then [(ip, DEFAULT_NETMASK)] else [])
  {
    IndexBehind(ip, SPACE, mask);
    IndexAbsent(ip, SPACE);
    var body := ip + [SPACE] + mask;
    assert body[..|ip|] == ip && body[|ip| + 1..] == mask && ip[..|ip|] == ip;
  }

  /** An assignment opens the TUN device, a disconnect closes it, and nothing else does either. */
  ghost predicate OpenBefore(fs: seq<Frame>, i: int)
    requires 0 <= i <= |fs|
  {
    exists j :: 0 <= j < i && fs[j].kind == 0x01 && forall k :: j < k < i ==> fs[k].kind != 0x03
  }

  /** The bodies of the DATA frames that came while it was open. */
  ghost function PacketsIn(fs: seq<Frame>, tunAvailable: bool): seq<Bytes> {
    if fs == [] then [] else
      var n := |fs| - 1;
      PacketsIn(fs[..n], tunAvailable) +
      (if tunAvailable && fs[n].kind == 0x02 && OpenBefore(fs, n) then [fs[n].body] else [])
  }

  lemma OpenInPrefix(fs: seq<Frame>, n: nat, i: nat)
    requires i <= n <= |fs|
    ensures OpenBefore(fs[..n], i) == OpenBefore(fs, i)
  {
    assert forall k :: 0 <= k < n ==> fs[..n][k] == fs[k];
    if OpenBefore(fs, i) {
      var j :| 0 <= j < i && fs[j].kind == 0x01 && forall k :: j < k < i ==> fs[k].kind != 0x03;
      assert fs[..n][j].kind == 0x01;
    }
    if OpenBefore(fs[..n], i) {
      var j :| 0 <= j < i && fs[..n][j].kind == 0x01 && forall k :: j < k < i ==> fs[..n][k].kind != 0x03;
      assert forall k :: j < k < i ==> fs[..n][k] == fs[k];
    }
  }

  lemma OpenNext(fs: seq<Frame>, i: nat)
    requires i < |fs|
    ensures OpenBefore(fs, i + 1) <==> fs[i].kind == 0x01 || (OpenBefore(fs, i) && fs[i].kind != 0x03)
  {
    if fs[i].kind == 0x01 {
      assert OpenBefore(fs, i + 1);
    } else if OpenBefore(fs, i) && fs[i].kind != 0x03 {
      var j :| 0 <= j < i && fs[j].kind == 0x01 && forall k :: j < k < i ==> fs[k].kind != 0x03;
      assert forall k :: j < k < i + 1 ==> fs[k].kind != 0x03;
    }
    if OpenBefore(fs, i + 1) && fs[i].kind != 0x01 {
      var j :| 0 <= j < i + 1 && fs[j].kind == 0x01 && forall k :: j < k < i + 1 ==> fs[k].kind != 0x03;
      assert j < i && fs[i].kind != 0x03;
      assert OpenBefore(fs, i);
    }
  }

  /** Over every list of frames: the client writes exactly the packets that came while its TUN device was open, and a
      client that has none writes nothing; frames of other types change nothing. */
  lemma {:induction false} LinkHistory(fs: seq<Frame>, tunAvailable: bool)
    ensures var link := ApplyAll(DOWN, fs, tunAvailable);
            (link.tunOpen <==> tunAvailable && OpenBefore(fs, |fs|)) && link.written == PacketsIn(fs, tunAvailable) &&
            (link.ipAssigned <==> exists i :: 0 <= i < |fs| && fs[i].kind == 0x01)
  {
    if fs != [] {
      var n := |fs| - 1;
      LinkHistory(fs[..n], tunAvailable);
      OpenInPrefix(fs, n, n);
      OpenNext(fs, n);
      assert forall i :: 0 <= i < n ==> fs[..n][i] == fs[i];
      hide OpenBefore;
    }
  }

  class VpnClient {
    const tunAvailable: bool
    var recvBuf: Bytes
    var link: Link
    ghost var received: Bytes      // every byte since the connection came up

    /** After any cutting of the incoming stream, the link is what its frames, in order, make of it. */
    ghost predicate Valid()
      reads this
    {
      recvBuf == Parse(received).rest && link == ApplyAll(DOWN, Parse(received).frames, tunAvailable)
    }

    constructor (tunAvailable: bool)
      ensures Valid() && received == [] && this.tunAvailable == tunAvailable
    {
      this.tunAvailable := tunAvailable;
      recvBuf, link, received := [], DOWN, [];
    }

    static method EncodeFrame(kind: byte, payload: Bytes) returns (frame: Bytes)
      ensures frame == Encode(Frame(kind, payload))
    {
      var len := |payload| % TWO_TO_THE_32;
      frame := [kind];
      frame := frame + Be32(len);
      frame := frame + payload;
    }

    /** Decodes the frame at `offset`; the out-parameters mean nothing unless `ok`. */
    static method TryDecodeFrame(buf: Bytes, offset: nat) returns (ok: bool, kind: byte, payload: Bytes, used: nat)
      requires offset <= |buf|
      ensures ok <==> Complete(buf[offset..])
      ensures ok ==> Head(buf[offset..]) == Frame(kind, payload)
      ensures ok ==> offset + used <= |buf| && buf[offset + used..] == Tail(buf[offset..])
    {
      ok, kind, payload, used := false, 0, [], 0;
      if |buf| - offset < HEADER_LEN {
        return;
      }
      ParseAt(buf, offset);
      var len := Un32(buf[offset + 1..offset + HEADER_LEN]);
      if |buf| - offset < HEADER_LEN + len {
        return;
      }
      ok, kind := true, buf[offset];
      payload := buf[offset + HEADER_LEN..offset + HEADER_LEN + len];
      used := HEADER_LEN + len;
    }

    method ProcessFrames() returns (consumed: nat)
      modifies this`link
      ensures consumed <= |recvBuf| && recvBuf[consumed..] == Parse(recvBuf).rest
      ensures link == ApplyAll(old(link), Parse(recvBuf).frames, tunAvailable)
    {
      consumed := 0;
      ghost var buf, more := recvBuf, Parse(recvBuf).frames;
      ghost var goal := ApplyAll(link, more, tunAvailable);
      assert buf[0..] == buf;
      while true
        invariant consumed <= |buf| && recvBuf == buf
        invariant Parse(buf[consumed..]) == Parsed(more, Parse(buf).rest)
        invariant ApplyAll(link, more, tunAvailable) == goal
        decreases |buf| - consumed
      {
        ParseUnfold(buf[consumed..]);
        hide Parse, Complete, Head, Tail, AnnouncedLen, Un32, Encode, EncodeAll, ApplyAll, Apply;
        var ok, kind, payload, used := TryDecodeFrame(recvBuf, consumed);
        if !ok {
          ApplyNothing(link, tunAvailable);
          break;
        }
        var f := Frame(kind, payload);
        ghost var tail := Parse(buf[consumed + used..]).frames;
        assert more == [f] + tail;
        ApplyFirst(link, f, tail, tunAvailable);
        link, consumed, more := Apply(link, f, tunAvailable), consumed + used, tail;
      }
    }

    method HandleRead(data: Bytes) returns (consumed: nat)
      requires Valid()
      modifies this`recvBuf, this`link, this`received
      ensures Valid() && received == old(received) + data
    {
      ParseConcat(received, data);
      ApplyAllConcat(DOWN, Parse(received).frames, Parse(recvBuf + data).frames, tunAvailable);
      received := received + data;
      recvBuf := recvBuf + data;
      consumed := ProcessFrames();
      recvBuf := recvBuf[consumed..];
    }

    /** Connection lost: the buffer goes, and the next connection starts a stream of its own. */
    method HandleClose()
      modifies this
      ensures Valid() && received == []
    {
      recvBuf, link, received := [], DOWN, [];
    }
  }

  lemma {:induction false} ApplyPackets(link: Link, pre: seq<Frame>, packets: seq<Bytes>)
    requires ApplyAll(DOWN, pre, true) == link && link.tunOpen
    ensures ApplyAll(DOWN, pre + DataFrames(packets), true) == link.(written := link.written + packets)
  {
    if packets == [] {
      assert pre + DataFrames(packets) == pre;
      assert link.written + packets == link.written;
    } else {
      var init := packets[..|packets| - 1];
      ApplyPackets(link, pre, init);
      var fs := pre + DataFrames(packets);
      assert fs[..|fs| - 1] == pre + DataFrames(init);
      assert link.written + packets == link.written + init + [packets[|packets| - 1]];
    }
  }

  /** Server to client, end to end: however the TCP stream is cut, a client that can open its TUN device takes
      exactly the address and netmask the server assigned, and writes exactly the forwarded packets, in order. */
  lemma ServerStreamReachesTun(ip: Bytes, mask: Bytes, packets: seq<Bytes>, chunks: seq<Bytes>)
    requires SPACE !in ip
    requires AllSized(ServerFrames(ip, mask, packets))
    requires Flatten(chunks) == EncodeAll(ServerFrames(ip, mask, packets))
    ensures Receive(chunks) == Parsed(ServerFrames(ip, mask, packets), [])
    ensures ApplyAll(DOWN, Receive(chunks).frames, true) == Link(ip, true, true, [(ip, mask)], packets)
  {
    var fs := ServerFrames(ip, mask, packets);
    ChunkIndependence(chunks);
    assert EncodeAll(fs) + [] == EncodeAll(fs);
    ParseUnique(fs, []);
    var assign := fs[0];
    IndexBehind(ip, SPACE, mask);
    assert assign.body[..|ip|] == ip && assign.body[|ip| + 1..] == mask;
    var link := Link(ip, true, true, [(ip, mask)], []);
    assert ApplyAll(DOWN, [assign], true) == link;
    ApplyPackets(link, [assign], packets);
  }
}
