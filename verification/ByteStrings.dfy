/** Octets and the big-endian 32-bit integers that both wire formats carry. */
module ByteStrings {

  newtype byte = x: int | 0 <= x < 256

  type Bytes = seq<byte>

  const TWO_TO_THE_32: nat := 0x1_0000_0000

  /** The four bytes `htonl` followed by `memcpy` leaves in a buffer. */
  function Be32(n: nat): (b: Bytes)
    requires n < TWO_TO_THE_32
    ensures |b| == 4
  {
    [(n / 0x100_0000) as byte, (n / 0x1_0000 % 0x100) as byte, (n / 0x100 % 0x100) as byte, (n % 0x100) as byte]
  }

  /** `memcpy` followed by `ntohl`. */
  function Un32(b: Bytes): (n: nat)
    requires |b| == 4
    ensures n < TWO_TO_THE_32
  {
    b[0] as nat * 0x100_0000 + b[1] as nat * 0x1_0000 + b[2] as nat * 0x100 + b[3] as nat
  }

  lemma Un32OfBe32(n: nat)
    requires n < TWO_TO_THE_32
    ensures Un32(Be32(n)) == n
  {
    var q, r, t := n / 0x100, n / 0x1_0000, n / 0x100_0000;
    assert n == q * 0x100 + n % 0x100;
    assert q == r * 0x100 + q % 0x100 && r == n / 0x1_0000;
    assert r == t * 0x100 + r % 0x100;
  }

  lemma Be32OfUn32(b: Bytes)
    requires |b| == 4
    ensures Be32(Un32(b)) == b
  {
    var n := Un32(b);
    assert n / 0x100_0000 == b[0] as nat;
    assert n / 0x1_0000 == b[0] as nat * 0x100 + b[1] as nat;
    assert n / 0x100 == b[0] as nat * 0x1_0000 + b[1] as nat * 0x100 + b[2] as nat;
  }

  /** Network order: comparing numbers is comparing their bytes from the front. */
  lemma Be32Ordered(m: nat, n: nat)
    requires m < n < TWO_TO_THE_32
    ensures var a, b := Be32(m), Be32(n);
            exists i :: 0 <= i < 4 && a[i] < b[i] && a[..i] == b[..i]
  {
    var a, b := Be32(m), Be32(n);
    Un32OfBe32(m);
    Un32OfBe32(n);
    if a[0] != b[0] {
      assert a[0] < b[0] && a[..0] == b[..0];
    } else if a[1] != b[1] {
      assert a[1] < b[1] && a[..1] == b[..1];
    } else if a[2] != b[2] {
      assert a[2] < b[2] && a[..2] == b[..2];
    } else {
      assert a[3] < b[3] && a[..3] == b[..3];
    }
  }
}
