/** Fields that a message type does not have, as a newer version might send them, are passed over. */
module UnknownFields {
  import opened Bytes
  import opened Varint
  import opened Wire
  import WireTheorems

  /** A group carries the number that its end names, which in a well-formed message is that of the group. */
  datatype Extra =
    | Integer(field: nat, n: nat)
    | Eight(field: nat, octets: seq<Byte>)
    | Text(field: nat, octets: seq<Byte>)
    | Group(field: nat, inner: seq<Extra>, end: nat)
    | Four(field: nat, octets: seq<Byte>)

  /** What is behind the tag. */
  function Body(x: Extra): seq<Byte>
    decreases x, 0
  {
    match x
    case Integer(_, n) => Encode(n)
    case Text(_, octets) => Encode(|octets|) + octets
    case Group(_, inner, end) => AllOctets(inner) + Encode(end * 8 + 4)
    case _ => x.octets
  }

  function Tagged(x: Extra): nat {
    match x
    case Integer(field, _) => field * 8
    case Eight(field, _) => field * 8 + 1
    case Text(field, _) => field * 8 + 2
    case Group(field, _, _) => field * 8 + 3
    case Four(field, _) => field * 8 + 5
  }

  function AllOctets(xs: seq<Extra>): seq<Byte>
    decreases xs, 1
  {
    if xs == [] then [] else Encode(Tagged(xs[0])) + Body(xs[0]) + AllOctets(xs[1..])
  }

  predicate Numbered(n: nat) {
    0 < n < 0x2000_0000
  }

  /** The sizes that protobuf can send. */
  predicate Legal(x: Extra)
    decreases x, 0
  {
    Numbered(x.field) &&
    match x
    case Integer(_, n) => n < TWO64
    case Eight(_, octets) => |octets| == 8
    case Text(_, octets) => |octets| < TWO31
    case Group(_, inner, end) => Numbered(end) && AllLegal(inner)
    case Four(_, octets) => |octets| == 4
  }

  predicate AllLegal(xs: seq<Extra>)
    decreases xs, 1
  {
    forall x <- xs :: Legal(x)
  }

  /** Every group ends as it began, and groups are at most depth levels deep. */
  predicate Closed(x: Extra, depth: nat)
    decreases x, 0
  {
    x.Group? ==> depth > 0 && x.end == x.field && AllClosed(x.inner, depth - 1)
  }

  predicate AllClosed(xs: seq<Extra>, depth: nat)
    decreases xs, 1
  {
    forall x <- xs :: Closed(x, depth)
  }

  lemma LegalTag(x: Extra)
    requires Legal(x)
    ensures 8 <= Tagged(x) < TWO32 && Tagged(x) / 8 == x.field && Tagged(x) % 8 != 4
  {
  }

  lemma {:induction false} SkipBody(x: Extra, rest: seq<Byte>, depth: nat)
    requires Legal(x)
    ensures SkipField(Tagged(x), Body(x) + rest, depth) == if Closed(x, depth) then Some(rest) else None
    decreases x, 0
  {
    hide Encode, Decode, ReadRecord, SkipGroup, AllOctets, AllLegal, AllClosed;
    LegalTag(x);
    match x {
      case Integer(_, n) => ReadVarintEncode(n, rest);
      case Text(_, octets) => WireTheorems.ReadRecordPrefixed(octets, rest);
      case Group(field, inner, end) =>
        assert Body(x) + rest == AllOctets(inner) + (Encode(end * 8 + 4) + rest);
        if depth > 0 {
          SkipInner(field, inner, end, rest, depth - 1);
        }
      case _ => assert (x.octets + rest)[|x.octets|..] == rest;
    }
  }

  /** One turn of SkipMessage within a group. */
  lemma GroupTurn(field: nat, b: seq<Byte>, tag: nat, after: seq<Byte>, depth: nat)
    requires ReadVarint(b) == Some(Read(tag, after)) && 8 <= tag < TWO32 && tag % 8 != 4
    ensures SkipGroup(field, b, depth) ==
            match SkipField(tag, after, depth) { case None => None case Some(more) => SkipGroup(field, more, depth) }
  {
    hide SkipField, ReadVarint;
  }

  lemma GroupEnd(field: nat, b: seq<Byte>, end: nat, rest: seq<Byte>, depth: nat)
    requires Numbered(end) && ReadVarint(b) == Some(Read(end * 8 + 4, rest))
    ensures SkipGroup(field, b, depth) == if end == field then Some(rest) else None
  {
    hide SkipField, ReadVarint;
  }

  lemma {:induction false} SkipInner(field: nat, xs: seq<Extra>, end: nat, rest: seq<Byte>, depth: nat)
    requires Numbered(end) && AllLegal(xs)
    ensures SkipGroup(field, AllOctets(xs) + (Encode(end * 8 + 4) + rest), depth) ==
            if AllClosed(xs, depth) && end == field then Some(rest) else None
    decreases xs, 1
  {
    hide Encode, Decode, Body, SkipField, SkipGroup, Legal, Closed, Tagged;
    var last := Encode(end * 8 + 4) + rest;
    if xs == [] {
      assert AllOctets(xs) + last == last;
      ReadVarintEncode(end * 8 + 4, rest);
      GroupEnd(field, last, end, rest, depth);
    } else {
      var x, more := xs[0], AllOctets(xs[1..]) + last;
      assert AllOctets(xs) + last == Encode(Tagged(x)) + (Body(x) + more);
      LegalTag(x);
      ReadVarintEncode(Tagged(x), Body(x) + more);
      SkipBody(x, more, depth);
      GroupTurn(field, AllOctets(xs) + last, Tagged(x), Body(x) + more, depth);
      SkipInner(field, xs[1..], end, rest, depth);
    }
  }

  /** Unknown fields of any kind leave a message as it is, unless a group ends wrongly or goes too deep. */
  lemma {:induction false} UnknownAreSkipped(s: Schema, f: Fields, xs: seq<Extra>, rest: seq<Byte>, depth: nat)
    requires ShapedAll(s, f) && AllLegal(xs) && forall x <- xs :: x.field > |s|
    ensures Parse(s, f, AllOctets(xs) + rest, depth) ==
            if AllClosed(xs, depth) then Parse(s, f, rest, depth) else Failed
  {
    hide NextToken, SkipField, Encode, Body, Tagged, Closed, Legal;
    if xs == [] {
      assert AllOctets(xs) + rest == rest;
    } else {
      var x, more := xs[0], AllOctets(xs[1..]) + rest;
      assert AllOctets(xs) + rest == Encode(Tagged(x)) + (Body(x) + more);
      UnknownToken(s, x, Body(x) + more);
      SkipBody(x, more, depth);
      UnknownAreSkipped(s, f, xs[1..], rest, depth);
    }
  }

  lemma TagFirst(s: Schema, b: seq<Byte>, tag: nat, rest: seq<Byte>)
    requires |s| <= 15 && b != [] && ReadVarint(b) == Some(Read(tag, rest)) && tag < TWO32
    ensures NextToken(s, b) == if tag == 0 then Halt else Classify(s, tag, rest)
  {
    hide ReadVarint, Classify;
  }

  lemma UnknownToken(s: Schema, x: Extra, b: seq<Byte>)
    requires |s| <= 15 && Legal(x) && x.field > |s|
    ensures NextToken(s, Encode(Tagged(x)) + b) == Unknown(Tagged(x), b)
  {
    hide Encode, Tagged, ReadVarint, NextToken;
    LegalTag(x);
    ReadVarintEncode(Tagged(x), b);
    TagFirst(s, Encode(Tagged(x)) + b, Tagged(x), b);
  }

  // ---- The end of the input -------------------------------------------------------------------------------

  /** What ends the reading before the end: a zero tag, a stray end of a group or a tag that is cut short. */
  datatype Stray = ZeroTag(rest: seq<Byte>) | EndOf(field: nat, rest: seq<Byte>) | CutTag(octets: seq<Byte>)

  function StrayOctets(t: Stray): seq<Byte> {
    match t
    case ZeroTag(rest) => [0] + rest
    case EndOf(field, rest) => Encode(field * 8 + 4) + rest
    case CutTag(octets) => octets
  }

  predicate IsStray(t: Stray) {
    match t
    case ZeroTag(_) => true
    case EndOf(field, _) => Numbered(field)
    case CutTag(octets) => 0 < |octets| < 10 && forall i :: 0 <= i < |octets| ==> octets[i] >= 128
  }

  lemma {:induction false} CutVarint(octets: seq<Byte>)
    requires |octets| < 10 && forall i :: 0 <= i < |octets| ==> octets[i] >= 128
    ensures ReadVarint(octets) == None
  {
    CutDecode(octets, 10);
  }

  lemma {:induction false} CutDecode(octets: seq<Byte>, max: nat)
    requires |octets| < max && forall i :: 0 <= i < |octets| ==> octets[i] >= 128
    ensures Decode(octets, max) == None
  {
    if octets != [] {
      CutDecode(octets[1..], max - 1);
    }
  }

  lemma ZeroIsZero(rest: seq<Byte>)
    ensures ReadVarint([0] + rest) == Some(Read(0, rest))
  {
    assert ([0] + rest)[1..] == rest;
  }

  lemma NoTag(s: Schema, b: seq<Byte>)
    requires |s| <= 15 && b != [] && ReadVarint(b) == None
    ensures NextToken(s, b) == Halt
  {
    hide ReadVarint;
  }

  lemma StrayHalts(s: Schema, t: Stray)
    requires |s| <= 15 && IsStray(t)
    ensures NextToken(s, StrayOctets(t)) == Halt
  {
    hide Encode, ReadVarint, NextToken;
    match t {
      case ZeroTag(rest) =>
        ZeroIsZero(rest);
        TagFirst(s, [0] + rest, 0, rest);
      case EndOf(field, rest) =>
        ReadVarintEncode(field * 8 + 4, rest);
        TagFirst(s, Encode(field * 8 + 4) + rest, field * 8 + 4, rest);
      case CutTag(octets) =>
        CutVarint(octets);
        NoTag(s, octets);
    }
  }

  /**
   * A whole message of unknown fields parses, to the default, exactly when its groups end as they began and are at
   * most a hundred levels deep; with anything stray behind them it does not parse.
   */
  lemma WholeInput(s: Schema, xs: seq<Extra>, t: Stray)
    requires Small(s) && AllLegal(xs) && (forall x <- xs :: x.field > |s|) && IsStray(t)
    ensures ParseFromArray(s, AllOctets(xs)) == if AllClosed(xs, 100) then Some(Default(s)) else None
    ensures ParseFromArray(s, AllOctets(xs) + StrayOctets(t)) == None
  {
    hide AllOctets, AllClosed, AllLegal, StrayOctets, IsStray;
    assert AllOctets(xs) + [] == AllOctets(xs);
    UnknownAreSkipped(s, Default(s), xs, [], 100);
    UnknownAreSkipped(s, Default(s), xs, StrayOctets(t), 100);
    StrayHalts(s, t);
  }
}
