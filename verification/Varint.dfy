/** Base 128 varints: little-endian groups of seven bits, the top bit of an octet says "more follows". */
module Varint {
  import opened Bytes

  /** A value taken from the front of a byte sequence, and what is left behind it. */
  datatype Read<+T> = Read(value: T, rest: seq<Byte>)

  const MAX_VARINT_BYTES := 10

  function Encode(n: nat): (s: seq<Byte>)
    ensures |s| >= 1
  {
    if n < 128 then [n] else [n % 128 + 128] + Encode(n / 128)
  }

  /** Reads at most limit octets; the caller reduces the value to its own width. */
  function Decode(s: seq<Byte>, limit: nat): (r: Option<Read<nat>>)
    ensures r.Some? ==> |r.value.rest| < |s| && r.value.rest == s[|s| - |r.value.rest|..]
  {
    if limit == 0 || s == [] then None
    else if s[0] < 128 then Some(Read(s[0], s[1..]))
    else
      match Decode(s[1..], limit - 1)
      case None => None
      case Some(Read(high, rest)) => Some(Read(s[0] - 128 + 128 * high, rest))
  }

  function ReadVarint(s: seq<Byte>): (r: Option<Read<nat>>)
    ensures r.Some? ==> |r.value.rest| < |s| && r.value.rest == s[|s| - |r.value.rest|..]
  {
    Decode(s, MAX_VARINT_BYTES)
  }

  /** VarintSize32, by the thresholds that ByteSize uses. */
  function Size32(n: nat): (k: nat)
    requires n < TWO32
  {
    if n < 0x80 then 1
    else if n < 0x4000 then 2
    else if n < 0x20_0000 then 3
    else if n < 0x1000_0000 then 4
    else 5
  }

  function Pow128(k: nat): (p: nat)
    ensures p >= 1
  {
    if k == 0 then 1 else 128 * Pow128(k - 1)
  }

  lemma {:induction false} EncodeLength(n: nat, k: nat)
    requires k >= 1 && n < Pow128(k)
    ensures |Encode(n)| <= k
    ensures k >= 2 && n >= Pow128(k - 1) ==> |Encode(n)| == k
    decreases k
  {
    if n >= 128 {
      assert Pow128(1) == 128 * Pow128(0);
      EncodeLength(n / 128, k - 1);
    }
  }

  lemma Size32IsLength(n: nat)
    requires n < TWO32
    ensures |Encode(n)| == Size32(n) <= 5
  {
    assert Pow128(1) == 0x80 && Pow128(2) == 0x4000 && Pow128(3) == 0x20_0000;
    assert Pow128(4) == 0x1000_0000 && Pow128(5) == 128 * 0x1000_0000;
    EncodeLength(n, if n < 0x80 then 1 else Size32(n));
  }

  lemma {:induction false} DecodeEncode(n: nat, rest: seq<Byte>, limit: nat)
    requires |Encode(n)| <= limit
    ensures Decode(Encode(n) + rest, limit) == Some(Read(n, rest))
    decreases n
  {
    var s := Encode(n) + rest;
    if n < 128 {
      assert s[1..] == rest;
    } else {
      assert s[1..] == Encode(n / 128) + rest;
      DecodeEncode(n / 128, rest, limit - 1);
    }
  }

  /** Reading back what was written, whatever follows it, for every unsigned 64-bit value. */
  lemma ReadVarintEncode(n: nat, rest: seq<Byte>)
    requires n < TWO64
    ensures ReadVarint(Encode(n) + rest) == Some(Read(n, rest))
  {
    assert Pow128(5) == 0x8_0000_0000;
    assert Pow128(10) == 0x8_0000_0000 * 0x8_0000_0000 by {
      assert Pow128(6) == 128 * Pow128(5) && Pow128(7) == 128 * Pow128(6);
      assert Pow128(8) == 128 * Pow128(7) && Pow128(9) == 128 * Pow128(8);
    }
    EncodeLength(n, 10);
    DecodeEncode(n, rest, 10);
  }

  /** A successful read does not look past the octets it consumes. */
  lemma {:induction false} DecodeLocal(s: seq<Byte>, tail: seq<Byte>, limit: nat)
    requires Decode(s, limit).Some?
    ensures Decode(s + tail, limit) ==
            Some(Read(Decode(s, limit).value.value, Decode(s, limit).value.rest + tail))
    decreases limit
  {
    assert (s + tail)[1..] == s[1..] + tail;
    if s[0] >= 128 {
      DecodeLocal(s[1..], tail, limit - 1);
    }
  }
}
