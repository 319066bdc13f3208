/** `json_escape` against the string syntax of section 7 of RFC 8259. */
module JsonEscape {
  import opened ByteStrings
  import opened Text

  const QUOTE: byte := 0x22
  const BACKSLASH: byte := 0x5C
  const LOWER_U: byte := 0x75

  /** A lower-case hexadecimal digit, as `%x` prints it. */
  function HexDigit(n: nat): byte
    requires n < 16
  {
    if n < 10 then (0x30 + n) as byte else (0x57 + n) as byte
  }

  function EscapeByte(c: byte): Bytes {
    if c == QUOTE then [BACKSLASH, QUOTE]
    else if c == BACKSLASH then [BACKSLASH, BACKSLASH]
    else if c == 0x0A then [BACKSLASH, 0x6E]
    else if c == 0x0D then [BACKSLASH, 0x72]
    else if c == 0x09 then [BACKSLASH, 0x74]
    else if c < 0x20 then [BACKSLASH, LOWER_U, 0x30, 0x30, HexDigit(c as nat / 16), HexDigit(c as nat % 16)]
    else [c]
  }

  function Escape(s: Bytes): Bytes {
    if s == [] then [] else Escape(s[..|s| - 1]) + EscapeByte(s[|s| - 1])
  }

  method JsonEscape(s: Bytes) returns (o: Bytes)
    ensures o == Escape(s)
  {
    o := [];
    for i := 0 to |s|
      invariant o == Escape(s[..i])
    {
      assert s[..i + 1][..i] == s[..i];
      var c := s[i];
      match c {
        case 0x22 => o := o + [BACKSLASH, QUOTE];
        case 0x5C => o := o + [BACKSLASH, BACKSLASH];
        case 0x0A => o := o + [BACKSLASH, 0x6E];
        case 0x0D => o := o + [BACKSLASH, 0x72];
        case 0x09 => o := o + [BACKSLASH, 0x74];
        case _ =>
          if c < 0x20 {
            var buf := [BACKSLASH, LOWER_U, 0x30, 0x30, HexDigit(c as nat / 16), HexDigit(c as nat % 16)];
            o := o + buf;
          } else {
            o := o + [c];
          }
      }
    }
    assert s[..|s|] == s;
  }

  // The reader of RFC 8259: section 7 for the syntax, UTF-8 for the characters that \u names.

  function HexValue(c: byte): Option<nat> {
    if 0x30 <= c <= 0x39 then Some((c - 0x30) as nat)
    else if 0x41 <= c <= 0x46 then Some((c - 0x37) as nat)
    else if 0x61 <= c <= 0x66 then Some((c - 0x57) as nat)
    else None
  }

  function HexValues(b: Bytes): (r: Option<nat>)
    ensures r.Some? && |b| == 4 ==> r.value < 0x1_0000
    ensures r.Some? && |b| == 3 ==> r.value < 0x1000
    ensures r.Some? && |b| == 2 ==> r.value < 0x100
    ensures r.Some? && |b| == 1 ==> r.value < 0x10
    ensures r.Some? && |b| == 0 ==> r.value == 0
  {
    if b == [] then
      Some(0)
    else
      match (HexValues(b[..|b| - 1]), HexValue(b[|b| - 1]))
      case (Some(high), Some(low)) => Some(high * 16 + low)
      case _ => None
  }

  function Utf8(cp: nat): Bytes
    requires cp < 0x11_0000
  {
    if cp < 0x80 then
      [cp as byte]
    else if cp < 0x800 then
      [(0xC0 + cp / 0x40) as byte, (0x80 + cp % 0x40) as byte]
    else if cp < 0x1_0000 then
      [(0xE0 + cp / 0x1000) as byte, (0x80 + cp / 0x40 % 0x40) as byte, (0x80 + cp % 0x40) as byte]
    else
      [(0xF0 + cp / 0x4_0000) as byte, (0x80 + cp / 0x1000 % 0x40) as byte,
       (0x80 + cp / 0x40 % 0x40) as byte, (0x80 + cp % 0x40) as byte]
  }

  /** What a piece of syntax stands for, and what follows it. */
  datatype Taken = Taken(value: Bytes, rest: Bytes)

  /** A `\uXXXX` whose four digits start at `b[2]`, or a surrogate pair of them. */
  function TakeUnicode(b: Bytes): (r: Option<Taken>)
    requires |b| >= 2
    ensures r.Some? ==> |r.value.rest| < |b|
  {
    if |b| < 6 then
      None
    else
      match HexValues(b[2..6])
      case None => None
      case Some(unit) =>
        if unit < 0xD800 || unit >= 0xE000 then
          Some(Taken(Utf8(unit), b[6..]))
        else if unit >= 0xDC00 || |b| < 12 || b[6] != BACKSLASH || b[7] != LOWER_U then
          None
        else
          match HexValues(b[8..12])
          case Some(low) =>
            if 0xDC00 <= low < 0xE000 then
              Some(Taken(Utf8(0x1_0000 + (unit - 0xD800) * 0x400 + (low - 0xDC00)), b[12..]))
            else None
          case None => None
  }

  function TakeEscape(b: Bytes): (r: Option<Taken>)
    requires b != [] && b[0] == BACKSLASH
    ensures r.Some? ==> |r.value.rest| < |b|
  {
    if |b| < 2 then
      None
    else
      var e := b[1];
      if e == QUOTE || e == BACKSLASH || e == 0x2F then Some(Taken([e], b[2..]))
      else if e == 0x62 then Some(Taken([0x08], b[2..]))
      else if e == 0x66 then Some(Taken([0x0C], b[2..]))
      else if e == 0x6E then Some(Taken([0x0A], b[2..]))
      else if e == 0x72 then Some(Taken([0x0D], b[2..]))
      else if e == 0x74 then Some(Taken([0x09], b[2..]))
      else if e == LOWER_U then TakeUnicode(b)
      else None
  }

  /** One character: an escape, or any byte from 0x20 on but a quote. */
  function TakeChar(b: Bytes): (r: Option<Taken>)
    requires b != [] && b[0] != QUOTE
    ensures r.Some? ==> |r.value.rest| < |b|
  {
    if b[0] < 0x20 then None
    else if b[0] == BACKSLASH then TakeEscape(b)
    else Some(Taken([b[0]], b[1..]))
  }

  /** Reads a string literal behind its opening quote, up to and with the first bare quote. */
  function ReadLiteral(b: Bytes): Option<Taken>
    decreases |b|
  {
    if b == [] then
      None
    else if b[0] == QUOTE then
      Some(Taken([], b[1..]))
    else
      match TakeChar(b)
      case None => None
      case Some(Taken(value, rest)) =>
        match ReadLiteral(rest)
        case None => None
        case Some(Taken(more, end)) => Some(Taken(value + more, end))
  }

  lemma HexDigitValue(n: nat)
    requires n < 16
    ensures HexValue(HexDigit(n)) == Some(n)
  {
  }

  lemma TakeEscaped(c: byte, t: Bytes)
    ensures EscapeByte(c)[0] != QUOTE
    ensures TakeChar(EscapeByte(c) + t) == Some(Taken([c], t))
  {
    var e := EscapeByte(c);
    var b := e + t;
    assert b[|e|..] == t;
    if |e| == 6 {
      var hi, lo := c as nat / 16, c as nat % 16;
      var four := [0x30, 0x30, HexDigit(hi), HexDigit(lo)];
      assert b[2..6] == four;
      HexDigitValue(hi);
      HexDigitValue(lo);
      assert four[..3] == [0x30, 0x30, HexDigit(hi)] && four[..3][..2] == [0x30, 0x30] && four[..3][..2][..1] == [0x30];
      assert HexValues(four[..3][..2][..1]) == Some(0);
      assert HexValues(four[..3][..2]) == Some(0);
      assert HexValues(four[..3]) == Some(hi);
      assert HexValues(four) == Some(hi * 16 + lo);
    }
  }

  lemma {:induction false} EscapeCons(c: byte, s: Bytes)
    ensures Escape([c] + s) == EscapeByte(c) + Escape(s)
  {
    hide EscapeByte;
    if s == [] {
      assert [c] + s == [c] && [c][..0] == [];
    } else {
      var all := [c] + s;
      assert all[..|all| - 1] == [c] + s[..|s| - 1];
      EscapeCons(c, s[..|s| - 1]);
      Assoc(EscapeByte(c), Escape(s[..|s| - 1]), EscapeByte(s[|s| - 1]));
    }
  }

  /** A JSON reader gets every byte string back from its escaped form, and finds the end of the literal exactly at
      the quote behind it: the escaped text holds no bare quote and no byte a reader must reject. */
  lemma {:induction false} EscapedLiteralReadsBack(s: Bytes, rest: Bytes)
    ensures ReadLiteral(Escape(s) + [QUOTE] + rest) == Some(Taken(s, rest))
    decreases |s|
  {
    if s == [] {
      assert Escape(s) + [QUOTE] + rest == [QUOTE] + rest;
    } else {
      var t := Escape(s[1..]) + [QUOTE] + rest;
      assert s == [s[0]] + s[1..];
      EscapeCons(s[0], s[1..]);
      TakeEscaped(s[0], t);
      EscapedLiteralReadsBack(s[1..], rest);
      hide EscapeByte, Escape, TakeChar;
      Assoc(EscapeByte(s[0]), Escape(s[1..]), [QUOTE]);
      Assoc(EscapeByte(s[0]), Escape(s[1..]) + [QUOTE], rest);
      assert Escape(s) + [QUOTE] + rest == EscapeByte(s[0]) + t;
      assert (EscapeByte(s[0]) + t)[0] == EscapeByte(s[0])[0];
    }
  }

  /** No control character is left. */
  lemma {:induction false} EscapedHasNoControl(s: Bytes)
    ensures forall i :: 0 <= i < |Escape(s)| ==> Escape(s)[i] >= 0x20
  {
    if s != [] {
      EscapedHasNoControl(s[..|s| - 1]);
    }
  }

  /** The five short escapes are used where there is one, the hexadecimal form for the other control characters and
      in lower case, and every other byte is left as it is. */
  lemma EscapeForm(c: byte)
    ensures var e := Escape([c]);
            if c in {0x22, 0x5C, 0x0A, 0x0D, 0x09} then |e| == 2
            else if c < 0x20 then |e| == 6 && forall i :: 0 <= i < 6 ==> !(0x41 <= e[i] <= 0x46)
            else e == [c]
  {
    assert [c][..0] == [] && Escape([]) == [];
    assert Escape([c]) == [] + EscapeByte(c) == EscapeByte(c);
  }

  /** Different texts stay different. */
  lemma EscapeInjective(s: Bytes, t: Bytes)
    requires Escape(s) == Escape(t)
    ensures s == t
  {
    EscapedLiteralReadsBack(s, []);
    EscapedLiteralReadsBack(t, []);
  }
}
