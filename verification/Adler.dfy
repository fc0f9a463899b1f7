/** Adler-32 as sections 2.2 and 9 of RFC 1950 define it, and the damage it is certain to notice. */
module Adler {
  import opened Bytes

  const BASE := 65521

  /** One plus the sum of the octets. */
  function Sum1(s: seq<Byte>): nat {
    if s == [] then 1 else Sum1(s[..|s| - 1]) + s[|s| - 1]
  }

  /** The sum of the values Sum1 takes after each octet. */
  function Sum2(s: seq<Byte>): nat {
    if s == [] then 0 else Sum2(s[..|s| - 1]) + Sum1(s)
  }

  /** adler32(1, s): both sums modulo 65521, Sum2 in the upper half. */
  function Checksum(s: seq<Byte>): (c: nat)
    ensures c < TWO32
  {
    Sum2(s) % BASE * 0x1_0000 + Sum1(s) % BASE
  }

  /** The sum of the octets, and the sum of the octets each weighted with the number of octets from it to the end. */
  function Total(s: seq<Byte>): nat {
    if s == [] then 0 else s[0] as int + Total(s[1..])
  }

  function Weighted(s: seq<Byte>): nat {
    if s == [] then 0 else |s| * s[0] as int + Weighted(s[1..])
  }

  lemma {:induction false} TotalOfOne(s: seq<Byte>, x: Byte)
    ensures Total(s + [x]) == Total(s) + x as int
    ensures Weighted(s + [x]) == Weighted(s) + Total(s) + x as int
  {
    if s == [] {
      assert [] + [x] == [x];
    } else {
      assert (s + [x])[1..] == s[1..] + [x];
      TotalOfOne(s[1..], x);
      assert (|s| + 1) * s[0] as int == |s| * s[0] as int + s[0] as int;
    }
  }

  lemma {:induction false} SumsAre(s: seq<Byte>)
    ensures Sum1(s) == 1 + Total(s) && Sum2(s) == |s| + Weighted(s)
  {
    if s != [] {
      var init, last := s[..|s| - 1], s[|s| - 1];
      assert s == init + [last];
      SumsAre(init);
      TotalOfOne(init, last);
    }
  }

  /** What the two halves of a checksum are. */
  lemma ChecksumIs(s: seq<Byte>)
    ensures Checksum(s) % 65536 == (1 + Total(s)) % 65521
    ensures Checksum(s) / 65536 == (|s| + Weighted(s)) % 65521
  {
    SumsAre(s);
    hide Sum1, Sum2, Total, Weighted;
    Halves(Sum2(s) % BASE, Sum1(s) % BASE);
  }

  lemma Halves(x: nat, y: nat)
    requires y < 65536
    ensures (x * 0x1_0000 + y) % 65536 == y && (x * 0x1_0000 + y) / 65536 == x
  {
  }

  /** The running form: zlib folds one octet at a time into the two halves. */
  method Adler32(s: seq<Byte>) returns (c: nat)
    ensures c == Checksum(s)
    ensures c % 65536 == (1 + Total(s)) % 65521 && c / 65536 == (|s| + Weighted(s)) % 65521
  {
    var a, b := 1, 0;
    for i := 0 to |s|
      invariant a == Sum1(s[..i]) % BASE && b == Sum2(s[..i]) % BASE
    {
      assert s[..i + 1][..i] == s[..i];
      ghost var a0, b0 := Sum1(s[..i]), Sum2(s[..i]);
      a := (a + s[i]) % BASE;
      ModAdd(a0, s[i]);
      b := (b + a) % BASE;
      ModAdd(b0, a);
      ModAdd(Sum1(s[..i + 1]), b0);
    }
    assert s[..|s|] == s;
    c := b * 0x1_0000 + a;
    ChecksumIs(s);
  }

  lemma ModAdd(x: int, y: int)
    ensures (x % BASE + y) % BASE == (x + y) % BASE
  {
  }

  lemma ChecksumHalves(s: seq<Byte>, t: seq<Byte>)
    ensures Checksum(s) == Checksum(t) <==>
            Sum1(s) % BASE == Sum1(t) % BASE && Sum2(s) % BASE == Sum2(t) % BASE
  {
  }

  /** Replacing octet j moves Sum1 by the difference and Sum2 by the difference times the distance to the end. */
  lemma OneMoreTime(k: int, d: int)
    ensures (k + 1) * d == k * d + d
  {
  }

  lemma {:induction false} SumsAfterUpdate(s: seq<Byte>, j: nat, y: Byte)
    requires j < |s|
    ensures Sum1(s[j := y]) - Sum1(s) == y as int - s[j]
    ensures Sum2(s[j := y]) - Sum2(s) == (|s| - j) * (y as int - s[j])
  {
    var n := |s| - 1;
    var t := s[j := y];
    if j == n {
      assert t[..n] == s[..n];
    } else {
      assert t[..n] == s[..n][j := y];
      SumsAfterUpdate(s[..n], j, y);
      OneMoreTime(n - j, y as int - s[j]);
    }
  }

  lemma CongruentDifference(x: int, y: int)
    ensures x % BASE == y % BASE <==> (x - y) % BASE == 0
  {
  }

  /** Any change of a single octet is noticed. */
  lemma SingleOctetDetected(s: seq<Byte>, j: nat, y: Byte)
    requires j < |s| && y != s[j]
    ensures Checksum(s[j := y]) != Checksum(s)
  {
    hide Sum1, Sum2, Checksum;
    SumsAfterUpdate(s, j, y);
    ChecksumHalves(s[j := y], s);
    CongruentDifference(Sum1(s[j := y]), Sum1(s));
  }

  function Swapped(s: seq<Byte>, i: nat, j: nat): seq<Byte>
    requires i < j < |s|
  {
    s[i := s[j]][j := s[i]]
  }

  lemma SwapMovesSum2(s: seq<Byte>, i: nat, j: nat)
    requires i < j < |s|
    ensures Sum1(Swapped(s, i, j)) == Sum1(s)
    ensures Sum2(Swapped(s, i, j)) - Sum2(s) == (j - i) * (s[j] as int - s[i])
  {
    hide Sum1, Sum2;
    var u := s[i := s[j]];
    var d: int := s[j] as int - s[i];
    SumsAfterUpdate(s, i, s[j]);
    SumsAfterUpdate(u, j, s[i]);
    assert s[i] as int - u[j] == -d;
    calc {
      Sum2(Swapped(s, i, j)) - Sum2(s);
      (|s| - j) * -d + (|s| - i) * d;
      { Factor(|s| - i, |s| - j, d); }
      (|s| - i - (|s| - j)) * d;
      (j - i) * d;
    }
  }

  lemma Factor(a: int, b: int, d: int)
    ensures b * -d + a * d == (a - b) * d
  {
  }

  /** Exchanging two octets is noticed exactly when 65521 does not divide distance times difference. */
  lemma SwapDetectedIff(s: seq<Byte>, i: nat, j: nat)
    requires i < j < |s|
    ensures Checksum(Swapped(s, i, j)) != Checksum(s) <==> (j - i) * (s[j] as int - s[i]) % BASE != 0
  {
    SwapMovesSum2(s, i, j);
    ChecksumHalves(Swapped(s, i, j), s);
    CongruentDifference(Sum2(Swapped(s, i, j)), Sum2(s));
  }

  /** Unequal octets at most 256 places apart, adjacent ones in particular, are never exchanged unnoticed. */
  lemma NearSwapDetected(s: seq<Byte>, i: nat, j: nat)
    requires i < j < |s| && j - i <= 256 && s[i] != s[j]
    ensures Checksum(Swapped(s, i, j)) != Checksum(s)
  {
    SwapDetectedIff(s, i, j);
    var d: int := s[j] as int - s[i];
    assert -65280 <= (j - i) * d <= 65280 && (j - i) * d != 0 by {
      if d > 0 {
        ProductBounds(j - i, d);
      } else {
        ProductBounds(j - i, -d);
        assert (j - i) * -d == -((j - i) * d);
      }
    }
  }

  lemma {:induction false} ProductBounds(a: int, b: int)
    requires 1 <= a <= 256 && 1 <= b
    ensures 1 <= a * b <= 256 * b
  {
    if b > 1 {
      ProductBounds(a, b - 1);
      assert a * b == a * (b - 1) + a;
    }
  }
}
