/** What a varint is, told from its octets: groups of seven bits, the least significant first. */
module VarintTheorems {
  import opened Bytes
  import opened Varint

  /** The number that groups of seven bits stand for, whatever their top bits are. */
  function Value(s: seq<Byte>): nat {
    if s == [] then 0 else s[0] as int % 128 + 128 * Value(s[1..])
  }

  /** Every octet but the last announces another one. */
  predicate Chained(s: seq<Byte>) {
    s != [] && s[|s| - 1] < 128 && forall i :: 0 <= i < |s| - 1 ==> s[i] >= 128
  }

  /** An encoding is a chain of groups that stand for the number, without a superfluous one. */
  lemma {:induction false} EncodeIs(n: nat)
    ensures Chained(Encode(n)) && Value(Encode(n)) == n
    ensures |Encode(n)| > 1 ==> Encode(n)[|Encode(n)| - 1] != 0
  {
    if n >= 128 {
      EncodeIs(n / 128);
      assert Encode(n)[1..] == Encode(n / 128);
    }
  }

  /** A number is read off the front exactly if there is a chain of at most limit octets, which then stands for it. */
  lemma {:induction false} DecodeIs(s: seq<Byte>, limit: nat, k: nat)
    requires k <= |s| && Chained(s[..k])
    ensures Decode(s, limit) == if k <= limit then Some(Read(Value(s[..k]), s[k..])) else None
  {
    assert s[..k][0] == s[0] && s[..k][k - 1] == s[k - 1];
    if k > 1 {
      assert s[..k][1..] == s[1..][..k - 1] && s[k..] == s[1..][k - 1..];
      if limit > 0 {
        assert Chained(s[1..][..k - 1]);
        DecodeIs(s[1..], limit - 1, k - 1);
      }
    } else if limit > 0 {
      assert Value(s[..1]) == s[0] as int % 128 + 128 * Value(s[..1][1..]);
    }
  }

  lemma {:induction false} NothingToDecode(s: seq<Byte>, limit: nat)
    requires forall i :: 0 <= i < |s| ==> s[i] >= 128
    ensures Decode(s, limit).None?
  {
    if s != [] && limit > 0 {
      NothingToDecode(s[1..], limit - 1);
    }
  }

  /** Ten octets are read at most. */
  lemma ReadVarintIs(s: seq<Byte>)
    ensures forall k :: 0 < k <= |s| && Chained(s[..k]) ==>
              ReadVarint(s) == if k <= 10 then Some(Read(Value(s[..k]), s[k..])) else None
    ensures (forall i :: 0 <= i < |s| ==> s[i] >= 128) ==> ReadVarint(s).None?
  {
    forall k | 0 < k <= |s| && Chained(s[..k])
      ensures ReadVarint(s) == if k <= 10 then Some(Read(Value(s[..k]), s[k..])) else None
    {
      DecodeIs(s, 10, k);
    }
    if forall i :: 0 <= i < |s| ==> s[i] >= 128 {
      NothingToDecode(s, 10);
    }
  }
}
