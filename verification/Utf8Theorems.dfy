/** Which strings the parser accepts: the UTF-8 encodings of sequences of Unicode scalar values. */
module Utf8Theorems {
  import opened Bytes
  import opened Wire

  /** A code point that is not a surrogate. */
  predicate Scalar(c: int) {
    0 <= c < 0xD800 || 0xE000 <= c < 0x11_0000
  }

  /** RFC 3629, section 3 */
  function Utf8Of(c: int): (s: seq<Byte>)
    requires Scalar(c)
    ensures 1 <= |s| <= 4
  {
    if c < 0x80 then [c]
    else if c < 0x800 then [0xC0 + c / 64, 0x80 + c % 64]
    else if c < 0x1_0000 then [0xE0 + c / 4096, 0x80 + c / 64 % 64, 0x80 + c % 64]
    else [0xF0 + c / 26_2144, 0x80 + c / 4096 % 64, 0x80 + c / 64 % 64, 0x80 + c % 64]
  }

  function Utf8OfAll(cs: seq<int>): seq<Byte>
    requires forall c <- cs :: Scalar(c)
  {
    if cs == [] then [] else Utf8Of(cs[0]) + Utf8OfAll(cs[1..])
  }

  lemma CharOfEncoding(c: int, rest: seq<Byte>)
    requires Scalar(c)
    ensures Utf8Char(Utf8Of(c) + rest) == |Utf8Of(c)|
  {
    var s, e := Utf8Of(c) + rest, Utf8Of(c);
    assert forall i :: 0 <= i < |e| ==> s[i] == e[i];
  }

  lemma ThreeGroups(a: nat, b: nat, d: nat)
    requires b < 64 && d < 64
    ensures var c := (a * 64 + b) * 64 + d; c / 4096 == a && c / 64 % 64 == b && c % 64 == d
  {
  }

  lemma FourGroups(a: nat, b: nat, d: nat, e: nat)
    requires b < 64 && d < 64 && e < 64
    ensures var c := ((a * 64 + b) * 64 + d) * 64 + e;
            c / 26_2144 == a && c / 4096 % 64 == b && c / 64 % 64 == d && c % 64 == e
  {
    ThreeGroups(a * 64 + b, d, e);
  }

  lemma EncodingOfChar(s: seq<Byte>) returns (c: int)
    requires Utf8Char(s) > 0
    ensures Scalar(c) && Utf8Of(c) == s[..Utf8Char(s)]
  {
    var n := Utf8Char(s);
    if n == 1 {
      c := s[0];
    } else if n == 2 {
      c := (s[0] as int - 0xC0) * 64 + (s[1] as int - 0x80);
      assert Utf8Of(c) == [s[0], s[1]];
    } else if n == 3 {
      c := LongerChar(s);
    } else {
      c := LongestChar(s);
    }
  }

  lemma LongerChar(s: seq<Byte>) returns (c: int)
    requires Utf8Char(s) == 3
    ensures Scalar(c) && Utf8Of(c) == s[..3]
  {
    var a, b, d := s[0] as int - 0xE0, s[1] as int - 0x80, s[2] as int - 0x80;
    c := (a * 64 + b) * 64 + d;
    ThreeGroups(a, b, d);
    assert s[..3] == [s[0], s[1], s[2]];
  }

  lemma LongestChar(s: seq<Byte>) returns (c: int)
    requires Utf8Char(s) > 3
    ensures Utf8Char(s) == 4 && Scalar(c) && Utf8Of(c) == s[..4]
  {
    var a, b, d, e := s[0] as int - 0xF0, s[1] as int - 0x80, s[2] as int - 0x80, s[3] as int - 0x80;
    c := ((a * 64 + b) * 64 + d) * 64 + e;
    FourGroups(a, b, d, e);
    assert s[..4] == [s[0], s[1], s[2], s[3]];
  }

  lemma {:induction false} EncodingsPass(cs: seq<int>)
    requires forall c <- cs :: Scalar(c)
    ensures Utf8(Utf8OfAll(cs))
  {
    if cs != [] {
      var s := Utf8OfAll(cs);
      CharOfEncoding(cs[0], Utf8OfAll(cs[1..]));
      EncodingsPass(cs[1..]);
      hide Utf8Of, Utf8Char;
      assert s[|Utf8Of(cs[0])|..] == Utf8OfAll(cs[1..]);
    }
  }

  lemma {:induction false} PassingIsEncoding(s: seq<Byte>) returns (cs: seq<int>)
    requires Utf8(s)
    ensures (forall c <- cs :: Scalar(c)) && Utf8OfAll(cs) == s
    decreases |s|
  {
    hide Utf8Of, Utf8Char;
    if s == [] {
      cs := [];
    } else {
      var c := EncodingOfChar(s);
      var rest := PassingIsEncoding(s[Utf8Char(s)..]);
      cs := [c] + rest;
      assert cs[1..] == rest;
    }
  }

  /** A string passes if and only if it is the encoding of some sequence of scalar values. */
  lemma Utf8Iff(s: seq<Byte>)
    ensures Utf8(s) <==> exists cs :: (forall c <- cs :: Scalar(c)) && Utf8OfAll(cs) == s
  {
    if Utf8(s) {
      var cs := PassingIsEncoding(s);
    }
    if cs :| (forall c <- cs :: Scalar(c)) && Utf8OfAll(cs) == s {
      EncodingsPass(cs);
    }
    hide Utf8;
  }
}
