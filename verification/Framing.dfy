/**
 The length-prefixed framing that the gRPC layer and the VPN tunnel share: one
 leading byte (Compressed-Flag, or frame type), a 32-bit big-endian body length,
 and the body. `Parse` is the reference reading of a byte stream; it is shown
 to be the inverse of encoding, and independent of how the stream is cut.
 */
module Framing {
  import opened ByteStrings
  import opened Text

  const HEADER_LEN: nat := 5

  datatype Frame = Frame(kind: byte, body: Bytes)

  /** What a reading of a byte stream yields: the complete frames and the undecoded tail. */
  datatype Parsed = Parsed(frames: seq<Frame>, rest: Bytes)

  /** The length field holds the low 32 bits of the body size (`static_cast<uint32_t>`). */
  function Encode(f: Frame): (b: Bytes)
    ensures |b| == HEADER_LEN + |f.body|
  {
    [f.kind] + Be32(|f.body| % TWO_TO_THE_32) + f.body
  }

  /** A frame byte by byte. */
  lemma AFrame()
    ensures Encode(Frame(2, [7, 8])) == [2, 0, 0, 0, 2, 7, 8]
  {
  }

  function EncodeAll(fs: seq<Frame>): Bytes {
    if fs == [] then [] else Encode(fs[0]) + EncodeAll(fs[1..])
  }

  function AnnouncedLen(b: Bytes): (n: nat)
    requires HEADER_LEN <= |b|
    ensures n < TWO_TO_THE_32
  {
    Un32(b[1..HEADER_LEN])
  }

  predicate Complete(b: Bytes) {
    HEADER_LEN <= |b| && HEADER_LEN + AnnouncedLen(b) <= |b|
  }

  function Head(b: Bytes): Frame
    requires Complete(b)
  {
    Frame(b[0], b[HEADER_LEN..HEADER_LEN + AnnouncedLen(b)])
  }

  function Tail(b: Bytes): (t: Bytes)
    requires Complete(b)
    ensures |t| < |b|
  {
    b[HEADER_LEN + AnnouncedLen(b)..]
  }

  function Parse(b: Bytes): (p: Parsed)
    decreases |b|
  {
    if Complete(b) then
      var p := Parse(Tail(b));
      Parsed([Head(b)] + p.frames, p.rest)
    else
      Parsed([], b)
  }

  lemma ParseUnfold(b: Bytes)
    ensures Complete(b) ==> Parse(b).frames == [Head(b)] + Parse(Tail(b)).frames && Parse(b).rest == Parse(Tail(b)).rest
    ensures !Complete(b) ==> Parse(b) == Parsed([], b)
  {
  }

  /** One step of a loop that reads `b` at a moving offset. */
  lemma ParseAt(b: Bytes, at: nat)
    requires at + HEADER_LEN <= |b|
    ensures b[at..][1..HEADER_LEN] == b[at + 1..at + HEADER_LEN]
    ensures var n := Un32(b[at + 1..at + HEADER_LEN]);
            if at + HEADER_LEN + n <= |b| then
              Complete(b[at..]) &&
              Head(b[at..]) == Frame(b[at], b[at + HEADER_LEN..at + HEADER_LEN + n]) &&
              Tail(b[at..]) == b[at + HEADER_LEN + n..]
            else
              !Complete(b[at..])
  {
  }

  /** The same for whole readings. */
  lemma ParseFrom(b: Bytes, at: nat)
    requires at <= |b|
    ensures var n := if at + HEADER_LEN <= |b| then Un32(b[at + 1..at + HEADER_LEN]) else 0;
            var next := at + HEADER_LEN + n;
            Parse(b[at..]) ==
              if next <= |b| then
                Parsed([Frame(b[at], b[at + HEADER_LEN..next])] + Parse(b[next..]).frames, Parse(b[next..]).rest)
              else
                Parsed([], b[at..])
  {
    if at + HEADER_LEN <= |b| {
      ParseAt(b, at);
    }
    ParseUnfold(b[at..]);
    hide Parse, Complete, Head, Tail, AnnouncedLen, Un32;
    assert at + HEADER_LEN > |b| ==> |b[at..]| < HEADER_LEN;
    ShortIsPartial(b[at..]);
  }

  lemma ShortIsPartial(b: Bytes)
    ensures |b| < HEADER_LEN ==> !Complete(b)
  {
  }

  /** A body whose size its length field can hold. */
  predicate Sized(f: Frame) {
    |f.body| < TWO_TO_THE_32
  }

  predicate AllSized(fs: seq<Frame>) {
    forall i :: 0 <= i < |fs| ==> Sized(fs[i])
  }

  lemma EncodeHead(f: Frame, t: Bytes)
    requires Sized(f)
    ensures Complete(Encode(f) + t)
    ensures Head(Encode(f) + t) == f && Tail(Encode(f) + t) == t
  {
    var b := Encode(f) + t;
    assert b[1..HEADER_LEN] == Be32(|f.body|);
    Un32OfBe32(|f.body|);
    assert b[HEADER_LEN..HEADER_LEN + |f.body|] == f.body;
  }

  /** A frame reads back as itself exactly when its size fits the length field. */
  lemma EncodeReadsBack(f: Frame)
    ensures Parse(Encode(f)) == Parsed([f], []) <==> Sized(f)
  {
    var b := Encode(f);
    if Sized(f) {
      assert EncodeAll([f]) + [] == b + [] == b;
      ParseUnique([f], []);
    } else {
      assert b[1..HEADER_LEN] == Be32(|f.body| % TWO_TO_THE_32);
      Un32OfBe32(|f.body| % TWO_TO_THE_32);
      assert AnnouncedLen(b) < |f.body|;
      ParseUnfold(b);
    }
  }

  lemma HeadTail(b: Bytes)
    requires Complete(b)
    ensures Sized(Head(b)) && Encode(Head(b)) + Tail(b) == b
  {
    var n := HEADER_LEN + AnnouncedLen(b);
    Be32OfUn32(b[1..HEADER_LEN]);
    assert |Head(b).body| == AnnouncedLen(b);
    assert b[..n] == Encode(Head(b)) by {
      hide Un32, Be32;
      assert b[..n] == [b[0]] + b[1..HEADER_LEN] + b[HEADER_LEN..n];
    }
  }

  lemma EncodeAllCons(f: Frame, fs: seq<Frame>)
    ensures EncodeAll([f] + fs) == Encode(f) + EncodeAll(fs)
  {
    assert ([f] + fs)[1..] == fs;
  }

  lemma {:induction false} EncodeAllConcat(fs: seq<Frame>, gs: seq<Frame>)
    ensures EncodeAll(fs + gs) == EncodeAll(fs) + EncodeAll(gs)
  {
    if fs == [] {
      assert fs + gs == gs;
    } else {
      EncodeAllConcat(fs[1..], gs);
      hide Encode;
      Assoc(Encode(fs[0]), EncodeAll(fs[1..]), EncodeAll(gs));
      assert (fs + gs)[0] == fs[0] && (fs + gs)[1..] == fs[1..] + gs;
    }
  }

  /** Reading loses nothing: the frames, encoded again and followed by the tail, are the input. */
  lemma {:induction false} ParseSound(b: Bytes)
    ensures EncodeAll(Parse(b).frames) + Parse(b).rest == b
    ensures AllSized(Parse(b).frames) && !Complete(Parse(b).rest)
    decreases |b|
  {
    if Complete(b) {
      var p := Parse(Tail(b));
      ParseSound(Tail(b));
      HeadTail(b);
      hide Encode, Head, Tail, Complete, AnnouncedLen;
      EncodeAllCons(Head(b), p.frames);
      Assoc(Encode(Head(b)), EncodeAll(p.frames), p.rest);
    }
  }

  /** There is only one way to read a stream: any split into sized frames and a partial tail is `Parse`. */
  lemma {:induction false} ParseUnique(fs: seq<Frame>, rest: Bytes)
    requires AllSized(fs) && !Complete(rest)
    ensures Parse(EncodeAll(fs) + rest) == Parsed(fs, rest)
  {
    var b := EncodeAll(fs) + rest;
    if fs == [] {
      assert b == rest;
    } else {
      var t := EncodeAll(fs[1..]) + rest;
      assert b == Encode(fs[0]) + t;
      EncodeHead(fs[0], t);
      ParseUnique(fs[1..], rest);
      assert fs == [fs[0]] + fs[1..];
    }
  }

  /** Reading `a` and then `c` behind the tail of `a` is reading `a + c`. */
  lemma ParseConcat(a: Bytes, c: Bytes)
    ensures Parse(a + c) ==
            var p := Parse(a); var q := Parse(p.rest + c); Parsed(p.frames + q.frames, q.rest)
  {
    var p := Parse(a);
    var q := Parse(p.rest + c);
    ParseSound(a);
    ParseSound(p.rest + c);
    hide Parse, EncodeAll, Complete;
    EncodeAllConcat(p.frames, q.frames);
    Assoc(EncodeAll(p.frames), p.rest, c);
    Assoc(EncodeAll(p.frames), EncodeAll(q.frames), q.rest);
    ParseUnique(p.frames + q.frames, q.rest);
  }

  function Flatten(chunks: seq<Bytes>): Bytes {
    if chunks == [] then [] else Flatten(chunks[..|chunks| - 1]) + chunks[|chunks| - 1]
  }

  /** The state of a receiver that reads after every chunk and keeps the tail. */
  function Receive(chunks: seq<Bytes>): Parsed {
    if chunks == [] then
      Parsed([], [])
    else
      var p := Receive(chunks[..|chunks| - 1]);
      var q := Parse(p.rest + chunks[|chunks| - 1]);
      Parsed(p.frames + q.frames, q.rest)
  }

  /** However a stream is cut into chunks, the same frames come out and the same tail remains. */
  lemma {:induction false} ChunkIndependence(chunks: seq<Bytes>)
    ensures Receive(chunks) == Parse(Flatten(chunks))
  {
    if chunks != [] {
      var init := chunks[..|chunks| - 1];
      ChunkIndependence(init);
      ParseConcat(Flatten(init), chunks[|chunks| - 1]);
    }
  }

  /** A receiver that has seen only a prefix of an encoded stream has a prefix of the frames, and its tail
      together with the bytes still to come encodes exactly the remaining frames. */
  lemma {:induction false} ParsePrefix(fs: seq<Frame>, seen: Bytes, unseen: Bytes)
    requires AllSized(fs) && EncodeAll(fs) == seen + unseen
    ensures var p := Parse(seen);
            |p.frames| <= |fs| && p.frames == fs[..|p.frames|] &&
            p.rest + unseen == EncodeAll(fs[|p.frames|..])
    decreases |fs|
  {
    if Complete(seen) {
      var t := Tail(seen);
      HeadTail(seen);
      assert Encode(Head(seen)) + (t + unseen) == EncodeAll(fs);
      EncodeHead(Head(seen), t + unseen);
      if fs == [] {
        assert false;
      } else {
        EncodeHead(fs[0], EncodeAll(fs[1..]));
        assert Head(seen) == fs[0] && t + unseen == EncodeAll(fs[1..]);
        ParsePrefix(fs[1..], t, unseen);
        var k := |Parse(t).frames|;
        assert Parse(seen).frames == [fs[0]] + fs[1..][..k] == fs[..k + 1];
        assert fs[1..][k..] == fs[k + 1..];
      }
    } else {
      assert Parse(seen) == Parsed([], seen);
      assert fs[0..] == fs && fs[..0] == [];
    }
  }
}
