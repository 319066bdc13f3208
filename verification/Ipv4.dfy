/** Dotted-decimal addresses: `inet_ntop` and `inet_pton` as `ip_pool` uses them. */
module Ipv4 {
  import opened ByteStrings
  import opened Text

  function Digit(n: nat): char
    requires n < 10
  {
    '0' + n as char
  }

  /** An octet in decimal without leading zeros. */
  function Decimal(n: nat): (s: string)
    requires n < 256
    ensures 1 <= |s| <= 3
  {
    if n < 10 then [Digit(n)]
    else if n < 100 then [Digit(n / 10), Digit(n % 10)]
    else [Digit(n / 100), Digit(n / 10 % 10), Digit(n % 10)]
  }

  function Octets(addr: nat): (os: seq<nat>)
    requires addr < TWO_TO_THE_32
    ensures |os| == 4 && forall i :: 0 <= i < 4 ==> os[i] < 256
  {
    [addr / 0x100_0000, addr / 0x1_0000 % 0x100, addr / 0x100 % 0x100, addr % 0x100]
  }

  /** `ip_pool::to_str`. */
  function ToStr(addr: nat): string
    requires addr < TWO_TO_THE_32
  {
    var os := Octets(addr);
    Join([Decimal(os[0]), Decimal(os[1]), Decimal(os[2]), Decimal(os[3])], '.')
  }

  predicate IsDigit(c: char) {
    '0' <= c <= '9'
  }

  function DigitValue(c: char): nat
    requires IsDigit(c)
  {
    c as nat - '0' as nat
  }

  function DigitsValue(s: string): nat
    requires forall i :: 0 <= i < |s| ==> IsDigit(s[i])
  {
    if s == "" then 0 else DigitsValue(s[..|s| - 1]) * 10 + DigitValue(s[|s| - 1])
  }

  /** An octet as `inet_pton` accepts it: one to three digits, no leading zero, at most 255. */
  function ParseOctet(s: string): (r: Option<nat>)
    ensures r.Some? ==> r.value < 256
  {
    if && 1 <= |s| <= 3 && (forall i :: 0 <= i < |s| ==> IsDigit(s[i]))
       && (|s| > 1 ==> s[0] != '0') && DigitsValue(s) < 256
    then Some(DigitsValue(s)) else None
  }

  function ParseQuad(s: string): (r: Option<nat>)
    ensures r.Some? ==> r.value < TWO_TO_THE_32
  {
    var fields := Split(s, '.');
    if |fields| != 4 then
      None
    else
      match (ParseOctet(fields[0]), ParseOctet(fields[1]), ParseOctet(fields[2]), ParseOctet(fields[3]))
      case (Some(a), Some(b), Some(c), Some(d)) => Some(a * 0x100_0000 + b * 0x1_0000 + c * 0x100 + d)
      case _ => None
  }

  /** `ip_pool::to_u32`: text that is no address leaves the zeroed structure alone. */
  function ToU32(s: string): (addr: nat)
    ensures addr < TWO_TO_THE_32
  {
    ParseQuad(s).GetOr(0)
  }

  lemma OctetRoundTrip(n: nat)
    requires n < 256
    ensures ParseOctet(Decimal(n)) == Some(n)
    ensures '.' !in Decimal(n)
  {
    var s := Decimal(n);
    if n < 10 {
      assert DigitsValue(s[..0]) == 0;
    } else if n < 100 {
      assert s[..1] == [Digit(n / 10)] && s[..1][..0] == "";
      assert DigitsValue(s[..1]) == n / 10;
    } else {
      assert s[..2] == [Digit(n / 100), Digit(n / 10 % 10)] && s[..2][..1] == [Digit(n / 100)];
      assert s[..2][..1][..0] == "";
      assert DigitsValue(s[..2][..1]) == n / 100;
      assert DigitsValue(s[..2]) == n / 10;
    }
  }

  lemma OctetsSum(addr: nat)
    requires addr < TWO_TO_THE_32
    ensures var os := Octets(addr); os[0] * 0x100_0000 + os[1] * 0x1_0000 + os[2] * 0x100 + os[3] == addr
  {
    var q, r := addr / 0x100, addr / 0x1_0000;
    assert addr == q * 0x100 + addr % 0x100;
    assert q == r * 0x100 + q % 0x100 && r == addr / 0x1_0000;
    assert r == addr / 0x100_0000 * 0x100 + r % 0x100;
  }

  /** `to_u32` inverts `to_str` on every 32-bit address. */
  lemma ToU32OfToStr(addr: nat)
    requires addr < TWO_TO_THE_32
    ensures ToU32(ToStr(addr)) == addr
  {
    var os := Octets(addr);
    var fields := [Decimal(os[0]), Decimal(os[1]), Decimal(os[2]), Decimal(os[3])];
    forall i | 0 <= i < 4
      ensures '.' !in fields[i] && ParseOctet(fields[i]) == Some(os[i])
    {
      OctetRoundTrip(os[i]);
    }
    SplitOfJoin(fields, '.');
    OctetsSum(addr);
    hide Decimal, Split, Join, ParseOctet, Octets;
    assert Split(ToStr(addr), '.') == fields;
  }

  /** Two digits and more, from the front. */
  lemma DigitsUnfold(s: string)
    requires 1 <= |s| <= 3 && forall i :: 0 <= i < |s| ==> IsDigit(s[i])
    ensures DigitsValue(s) ==
            if |s| == 1 then DigitValue(s[0])
            else if |s| == 2 then DigitValue(s[0]) * 10 + DigitValue(s[1])
            else DigitValue(s[0]) * 100 + DigitValue(s[1]) * 10 + DigitValue(s[2])
  {
    assert DigitsValue(s[..0]) == 0;
    if |s| == 1 {
    } else if |s| == 2 {
      assert s[..1][..0] == "" && DigitsValue(s[..1]) == DigitValue(s[0]);
    } else {
      assert s[..2][..1] == s[..1] && s[..1][..0] == "" && DigitsValue(s[..1]) == DigitValue(s[0]);
      assert DigitsValue(s[..2]) == DigitValue(s[0]) * 10 + DigitValue(s[1]);
    }
  }

  lemma OctetIsPrinted(s: string)
    requires ParseOctet(s).Some?
    ensures Decimal(ParseOctet(s).value) == s
  {
    DigitsUnfold(s);
    forall c: char | IsDigit(c)
      ensures Digit(DigitValue(c)) == c
    {
    }
    var n := ParseOctet(s).value;
    var d := seq(|s|, i requires 0 <= i < |s| => DigitValue(s[i]));
    if |s| == 3 {
      assert d[0] > 0;
      ThreeDigits(d[0], d[1], d[2]);
    }
    hide DigitsValue;
  }

  lemma ThreeDigits(a: nat, b: nat, c: nat)
    requires 0 < a < 10 && b < 10 && c < 10 && a * 100 + b * 10 + c < 256
    ensures Decimal(a * 100 + b * 10 + c) == [Digit(a), Digit(b), Digit(c)]
  {
    var n := a * 100 + b * 10 + c;
    assert n / 100 == a && n / 10 == a * 10 + b;
  }

  /** And nothing else is an address: any other text is read as 0.0.0.0. */
  lemma OnlyPrintedIsRead(s: string)
    ensures ToU32(s) == 0 || ToStr(ToU32(s)) == s
    ensures ParseQuad(s) == None ==> ToU32(s) == 0
  {
    var fields := Split(s, '.');
    if ParseQuad(s).Some? {
      var a, b, c, d := ParseOctet(fields[0]).value, ParseOctet(fields[1]).value, ParseOctet(fields[2]).value,
                        ParseOctet(fields[3]).value;
      OctetIsPrinted(fields[0]);
      OctetIsPrinted(fields[1]);
      OctetIsPrinted(fields[2]);
      OctetIsPrinted(fields[3]);
      var n := ToU32(s);
      assert Octets(n) == [a, b, c, d] by {
        OctetsOfSum(a, b, c, d);
      }
      JoinOfSplit(s, '.');
      assert fields == [fields[0], fields[1], fields[2], fields[3]];
      hide Decimal, Octets, Split, Join, ParseOctet;
    }
  }

  lemma OctetsOfSum(a: nat, b: nat, c: nat, d: nat)
    requires a < 256 && b < 256 && c < 256 && d < 256
    ensures Octets(a * 0x100_0000 + b * 0x1_0000 + c * 0x100 + d) == [a, b, c, d]
  {
    var n := a * 0x100_0000 + b * 0x1_0000 + c * 0x100 + d;
    assert n / 0x100_0000 == a;
    assert n / 0x1_0000 == a * 0x100 + b;
    assert n / 0x100 == a * 0x1_0000 + b * 0x100 + c;
  }

  lemma ToStrInjective(a: nat, b: nat)
    requires a < TWO_TO_THE_32 && b < TWO_TO_THE_32 && ToStr(a) == ToStr(b)
    ensures a == b
  {
    ToU32OfToStr(a);
    ToU32OfToStr(b);
  }

  lemma OctetsAreBytes(b: Bytes)
    requires |b| == 4
    ensures Octets(Un32(b)) == [b[0] as nat, b[1] as nat, b[2] as nat, b[3] as nat]
  {
    Be32OfUn32(b);
    OctetsOfBe32(Un32(b));
    hide Un32, Octets, Be32;
  }

  lemma OctetsOfBe32(n: nat)
    requires n < TWO_TO_THE_32
    ensures var b := Be32(n);
            Octets(n) == [b[0] as nat, b[1] as nat, b[2] as nat, b[3] as nat]
  {
  }

  /** Four bytes of a packet are printed in their order. */
  lemma BytesInOrder(b: Bytes)
    requires |b| == 4
    ensures ToStr(Un32(b)) ==
            Decimal(b[0] as nat) + "." + Decimal(b[1] as nat) + "." + Decimal(b[2] as nat) + "." + Decimal(b[3] as nat)
  {
    OctetsAreBytes(b);
    var d := [Decimal(b[0] as nat), Decimal(b[1] as nat), Decimal(b[2] as nat), Decimal(b[3] as nat)];
    hide Decimal, Un32, Octets;
    assert ToStr(Un32(b)) == Join(d, '.');
    JoinFour(d[0], d[1], d[2], d[3]);
  }

  lemma JoinFour(a: string, b: string, c: string, d: string)
    ensures Join([a, b, c, d], '.') == a + "." + b + "." + c + "." + d
  {
    assert [a] + [b, c, d] == [a, b, c, d] && [b] + [c, d] == [b, c, d] && [c] + [d] == [c, d];
    hide Join;
    JoinCons(a, [b, c, d], '.');
    JoinCons(b, [c, d], '.');
    JoinCons(c, [d], '.');
    JoinOne(d, '.');
  }

  /** One address in full. */
  lemma AnAddress()
    ensures ToStr(Un32([10, 8, 0, 254])) == "10.8.0.254"
  {
    BytesInOrder([10, 8, 0, 254]);
    assert Decimal(10) == "10" && Decimal(8) == "8" && Decimal(0) == "0" && Decimal(254) == "254";
  }

  /** A printed address is never empty, so it cannot be taken for `assign`'s refusal. */
  lemma ToStrNotEmpty(addr: nat)
    requires addr < TWO_TO_THE_32
    ensures ToStr(addr) != ""
  {
  }
}
