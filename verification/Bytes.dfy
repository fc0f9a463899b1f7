/** Octets, 32-bit integers as they travel on the wire, and an optional value. */
module Bytes {

  type Byte = b: int | 0 <= b < 256

  const TWO31 := 0x8000_0000
  const TWO32 := 0x1_0000_0000
  const TWO64 := 0x1_0000_0000_0000_0000

  datatype Option<+T> = None | Some(value: T)

  /** The value a C++ int32_t holds after a cast from the unsigned value u. */
  function ToInt32(u: int): (i: int)
    ensures -TWO31 <= i < TWO31
    ensures (i - u) % TWO32 == 0
  {
    (u + TWO31) % TWO32 - TWO31
  }

  /** Network byte order, most significant octet first. */
  function BigEndian(n: nat): (s: seq<Byte>)
    requires n < TWO32
    ensures |s| == 4
  {
    [n / 0x100_0000, n / 0x1_0000 % 256, n / 256 % 256, n % 256]
  }

  function FromBigEndian(s: seq<Byte>): (n: nat)
    requires |s| == 4
    ensures n < TWO32
  {
    s[0] as int * 0x100_0000 + s[1] as int * 0x1_0000 + s[2] as int * 256 + s[3] as int
  }

  lemma BigEndianRoundTrip(n: nat)
    requires n < TWO32
    ensures FromBigEndian(BigEndian(n)) == n
  {
    assert n == n / 256 * 256 + n % 256;
    var n1 := n / 256;
    assert n1 == n1 / 256 * 256 + n1 % 256;
    assert n1 / 256 == n / 0x1_0000;
    var n2 := n / 0x1_0000;
    assert n2 == n2 / 256 * 256 + n2 % 256;
    assert n2 / 256 == n / 0x100_0000;
  }

  /** Two different groups of four octets never denote the same number. */
  lemma FromBigEndianInjective(s: seq<Byte>, t: seq<Byte>)
    requires |s| == |t| == 4 && FromBigEndian(s) == FromBigEndian(t)
    ensures s == t
  {
    assert s == [s[0], s[1], s[2], s[3]] && t == [t[0], t[1], t[2], t[3]];
    assert s[0] == t[0];
    assert s[1] == t[1];
    assert s[2] == t[2];
  }

  /** The characters of an ASCII text as octets. */
  function Ascii(s: string): (b: seq<Byte>)
    ensures |b| == |s|
  {
    seq(|s|, i requires 0 <= i < |s| => s[i] as int % 128)
  }

  lemma Regroup<T>(a: seq<T>, b: seq<T>, c: seq<T>)
    ensures a + (b + c) == (a + b) + c
  {
  }
}
