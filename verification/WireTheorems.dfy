/** What the generated code promises: printing and parsing are inverse, concatenating encodings merges messages. */
module WireTheorems {
  import opened Bytes
  import opened Varint
  import opened Wire

  // ---- Reading what was written ---------------------------------------------------------------------------

  /** A one-octet tag in front of b makes the parser read the field it names. */
  lemma {:induction false} TagIsKnown(s: Schema, i: nat, b: seq<Byte>)
    requires i < |s| <= 15
    ensures NextToken(s, [Tag(s, i)] + b) == Known(i, b)
  {
    var input := [Tag(s, i)] + b;
    assert input[1..] == b;
    assert ReadVarint(input) == Some(Read(Tag(s, i) as nat, b));
  }

  lemma {:induction false} ParseTagged(s: Schema, f: Fields, i: nat, b: seq<Byte>, depth: nat)
    requires ShapedAll(s, f) && i < |s|
    ensures Parse(s, f, [Tag(s, i)] + b, depth) == Continue(s, f, i, b, depth)
  {
    TagIsKnown(s, i, b);
  }

  lemma {:induction false} ReadRecordPrefixed(data: seq<Byte>, rest: seq<Byte>)
    requires |data| < TWO31
    ensures ReadRecord(Prefixed(data) + rest) == Some(Read(data, rest))
  {
    assert Prefixed(data) + rest == Encode(|data|) + (data + rest);
    ReadVarintEncode(|data|, data + rest);
    assert (data + rest)[..|data|] == data && (data + rest)[|data|..] == rest;
  }

  lemma {:induction false} NarrowWiden(k: Kind, n: int)
    requires FitsScalar(k, Num(n))
    ensures Narrow(k, Widen(n)) == n
  {
  }

  lemma {:induction false} ReadScalarBack(k: Kind, v: Value, rest: seq<Byte>)
    requires FitsScalar(k, v) && |Payload(v)| < TWO31
    ensures ReadScalar(k, Payload(v) + rest) == Some(Read(v, rest))
  {
    if v.Octets? {
      ReadRecordPrefixed(v.data, rest);
    } else {
      ReadVarintEncode(Widen(v.n), rest);
      NarrowWiden(k, v.n);
    }
  }

  /** A field that is not repeated: its encoding overwrites the old value, and an omitted default leaves it. */
  lemma {:induction false} ParseScalar(s: Schema, f: Fields, i: nat, v: Value, rest: seq<Byte>, depth: nat)
    requires ShapedAll(s, f) && i < |s| && !s[i].Repeated? && Fits(s[i], v)
    requires |SerField(s, i, v)| < TWO31
    ensures Parse(s, f, SerField(s, i, v) + rest, depth) == Parse(s, f[i := MergeValue(f[i], v)], rest, depth)
  {
    var out := SerField(s, i, v);
    if out == [] {
      assert out + rest == rest;
      assert f[i := f[i]] == f;
    } else {
      assert out + rest == [Tag(s, i)] + (Payload(v) + rest);
      ParseTagged(s, f, i, Payload(v) + rest, depth);
      ReadScalarBack(s[i], v, rest);
    }
  }

  lemma {:induction false} ReadNestedBack(k: Kind, old_: Value, x: Fields, rest: seq<Byte>, depth: nat)
    requires k.Repeated? && Shaped(k, old_) && Small(k.schema) && depth > 0 && Nests(k.schema, depth - 1)
    requires FitsAll(k.schema, x) && |Serialize(k.schema, x)| < TWO31
    ensures ReadField(k, old_, Prefixed(Serialize(k.schema, x)) + rest, depth) ==
            Some(Read(Items(old_.items + [x]), rest))
    decreases k.schema, 4
  {
    var body := Serialize(k.schema, x);
    ReadRecordPrefixed(body, rest);
    assert ReadNested(k.schema, body, depth - 1) == Some(x) by {
      ParseSerialize(k.schema, Default(k.schema), x, [], depth - 1);
      assert body + [] == body;
      MergeDefault(k.schema, x);
    }
  }

  function Extended(s: Schema, f: Fields, i: nat, items: seq<Fields>): (g: Fields)
    requires ShapedAll(s, f) && i < |s| && s[i].Repeated?
    ensures ShapedAll(s, g)
  {
    f[i := Items(f[i].items + items)]
  }

  lemma {:induction false} ExtendedSteps(s: Schema, f: Fields, i: nat, items: seq<Fields>)
    requires ShapedAll(s, f) && i < |s| && s[i].Repeated?
    ensures Extended(s, f, i, []) == f
    ensures items != [] ==> Extended(s, Extended(s, f, i, [items[0]]), i, items[1..]) == Extended(s, f, i, items)
  {
    assert f[i].items + [] == f[i].items;
    if items != [] {
      assert f[i].items + [items[0]] + items[1..] == f[i].items + items;
    }
  }

  /** One occurrence of a repeated field appends one item. */
  lemma {:induction false} ParseOneItem(s: Schema, f: Fields, i: nat, x: Fields, rest: seq<Byte>, depth: nat)
    requires ShapedAll(s, f) && i < |s| && s[i].Repeated? && Nests(s, depth)
    requires FitsAll(s[i].schema, x) && |Serialize(s[i].schema, x)| < TWO31
    ensures Parse(s, f, [Tag(s, i)] + Prefixed(Serialize(s[i].schema, x)) + rest, depth) ==
            Parse(s, Extended(s, f, i, [x]), rest, depth)
    decreases s, 0
  {
    var record := Prefixed(Serialize(s[i].schema, x));
    assert [Tag(s, i)] + record + rest == [Tag(s, i)] + (record + rest);
    ParseTagged(s, f, i, record + rest, depth);
    assert s[i] in s;
    ReadNestedBack(s[i], f[i], x, rest, depth);
  }

  lemma {:induction false} ParseItems(s: Schema, f: Fields, i: nat, items: seq<Fields>, rest: seq<Byte>, depth: nat)
    requires ShapedAll(s, f) && i < |s| && s[i].Repeated? && Nests(s, depth)
    requires forall x <- items :: FitsAll(s[i].schema, x)
    requires |SerItems(Tag(s, i), s[i].schema, items)| < TWO31
    ensures Parse(s, f, SerItems(Tag(s, i), s[i].schema, items) + rest, depth) ==
            Parse(s, Extended(s, f, i, items), rest, depth)
    decreases s, 1, |items|
  {
    var sub := s[i].schema;
    var tag := Tag(s, i);
    ExtendedSteps(s, f, i, items);
    if items == [] {
      assert SerItems(tag, sub, items) + rest == rest;
    } else {
      var more := SerItems(tag, sub, items[1..]);
      assert SerItems(tag, sub, items) + rest == [tag] + Prefixed(Serialize(sub, items[0])) + (more + rest);
      ParseOneItem(s, f, i, items[0], more + rest, depth);
      ParseItems(s, Extended(s, f, i, [items[0]]), i, items[1..], rest, depth);
    }
  }

  lemma RepeatedField(s: Schema, i: nat, v: Value)
    requires i < |s| <= 15 && Fits(s[i], v)
    ensures s[i].Repeated? ==> v.Items? && forall x <- v.items :: FitsAll(s[i].schema, x)
    ensures s[i].Repeated? ==> SerField(s, i, v) == SerItems(Tag(s, i), s[i].schema, v.items)
  {
    hide SerItems;
  }

  lemma {:induction false} ParseSerTail(s: Schema, f: Fields, g: Fields, i: nat, rest: seq<Byte>, depth: nat)
    requires ShapedAll(s, f) && FitsAll(s, g) && i <= |s| && Nests(s, depth)
    requires |SerTail(s, g, i)| < TWO31
    ensures Parse(s, f, SerTail(s, g, i) + rest, depth) == Parse(s, MergeTail(s, f, g, i), rest, depth)
    decreases s, 2, |s| - i
  {
    hide Parse, SerField;
    if i == |s| {
      assert SerTail(s, g, i) + rest == rest;
    } else {
      var more := SerTail(s, g, i + 1);
      RepeatedField(s, i, g[i]);
      assert SerTail(s, g, i) + rest == SerField(s, i, g[i]) + (more + rest);
      if s[i].Repeated? {
        ParseItems(s, f, i, g[i].items, more + rest, depth);
      } else {
        ParseScalar(s, f, i, g[i], more + rest, depth);
      }
      ParseSerTail(s, f[i := MergeValue(f[i], g[i])], g, i + 1, rest, depth);
    }
  }

  /** Parsing the encoding of g into a message that already holds f is f.MergeFrom(g), whatever follows. */
  lemma {:induction false} ParseSerialize(s: Schema, f: Fields, g: Fields, rest: seq<Byte>, depth: nat)
    requires ShapedAll(s, f) && FitsAll(s, g) && Nests(s, depth)
    requires |Serialize(s, g)| < TWO31
    ensures Parse(s, f, Serialize(s, g) + rest, depth) == Parse(s, MergeFrom(s, f, g), rest, depth)
    decreases s, 3
  {
    ParseSerTail(s, f, g, 0, rest, depth);
  }

  lemma {:induction false} MergeTailAt(s: Schema, a: Fields, b: Fields, i: nat, k: nat)
    requires ShapedAll(s, a) && ShapedAll(s, b) && i <= |s| && k < |s|
    ensures MergeTail(s, a, b, i)[k] == if k < i then a[k] else MergeValue(a[k], b[k])
    decreases |s| - i
  {
    if i < |s| {
      MergeTailAt(s, a[i := MergeValue(a[i], b[i])], b, i + 1, k);
    }
  }

  /** MergeFrom acts on each field by itself. */
  lemma {:induction false} MergeFromAt(s: Schema, a: Fields, b: Fields, k: nat)
    requires ShapedAll(s, a) && ShapedAll(s, b) && k < |s|
    ensures MergeFrom(s, a, b)[k] == MergeValue(a[k], b[k])
  {
    MergeTailAt(s, a, b, 0, k);
  }

  lemma {:induction false} MergeDefault(s: Schema, g: Fields)
    requires FitsAll(s, g)
    ensures MergeFrom(s, Default(s), g) == g
  {
    var m := MergeFrom(s, Default(s), g);
    forall k | 0 <= k < |s| ensures m[k] == g[k] {
      MergeFromAt(s, Default(s), g, k);
      if g[k].Items? {
        assert [] + g[k].items == g[k].items;
      }
    }
  }

  lemma {:induction false} MergeAssociative(s: Schema, a: Fields, b: Fields, c: Fields)
    requires ShapedAll(s, a) && ShapedAll(s, b) && ShapedAll(s, c)
    ensures MergeFrom(s, MergeFrom(s, a, b), c) == MergeFrom(s, a, MergeFrom(s, b, c))
  {
    var l, r := MergeFrom(s, MergeFrom(s, a, b), c), MergeFrom(s, a, MergeFrom(s, b, c));
    forall k | 0 <= k < |s| ensures l[k] == r[k] {
      MergeFromAt(s, a, b, k);
      MergeFromAt(s, b, c, k);
      MergeFromAt(s, MergeFrom(s, a, b), c, k);
      MergeFromAt(s, a, MergeFrom(s, b, c), k);
      if a[k].Items? {
        assert a[k].items + b[k].items + c[k].items == a[k].items + (b[k].items + c[k].items);
      }
    }
  }

  /** Message round trip, default fields left off the wire included. */
  lemma {:induction false} RoundTrip(s: Schema, g: Fields)
    requires FitsAll(s, g) && Nests(s, RECURSION_LIMIT)
    requires |Serialize(s, g)| < TWO31
    ensures ParseFromArray(s, Serialize(s, g)) == Some(g)
  {
    ParseSerialize(s, Default(s), g, [], RECURSION_LIMIT);
    assert Serialize(s, g) + [] == Serialize(s, g);
    MergeDefault(s, g);
  }

  /** Two encodings, one after the other, parse as the merge of the two messages. */
  lemma {:induction false} ConcatenationIsMerge(s: Schema, a: Fields, b: Fields)
    requires FitsAll(s, a) && FitsAll(s, b) && Nests(s, RECURSION_LIMIT)
    requires |Serialize(s, a)| < TWO31 && |Serialize(s, b)| < TWO31
    ensures ParseFromArray(s, Serialize(s, a) + Serialize(s, b)) == Some(MergeFrom(s, a, b))
  {
    ParseSerialize(s, Default(s), a, Serialize(s, b), RECURSION_LIMIT);
    MergeDefault(s, a);
    ParseSerialize(s, a, b, [], RECURSION_LIMIT);
    assert Serialize(s, b) + [] == Serialize(s, b);
  }

  // ---- Arbitrary input ------------------------------------------------------------------------------------

  lemma {:induction false} VarintLocal(b: seq<Byte>, tail: seq<Byte>)
    requires ReadVarint(b).Some?
    ensures ReadVarint(b + tail) == Some(Read(ReadVarint(b).value.value, ReadVarint(b).value.rest + tail))
  {
    DecodeLocal(b, tail, MAX_VARINT_BYTES);
  }

  lemma {:induction false} RecordLocal(b: seq<Byte>, tail: seq<Byte>)
    requires ReadRecord(b).Some?
    ensures ReadRecord(b + tail) == Some(Read(ReadRecord(b).value.value, ReadRecord(b).value.rest + tail))
  {
    VarintLocal(b, tail);
    var x := ReadVarint(b).value;
    var len := x.value % TWO32;
    assert (x.rest + tail)[..len] == x.rest[..len];
    assert (x.rest + tail)[len..] == x.rest[len..] + tail;
  }

  lemma {:induction false} SkipFieldLocal(tag: nat, b: seq<Byte>, depth: nat, tail: seq<Byte>)
    requires SkipField(tag, b, depth).Some?
    ensures SkipField(tag, b + tail, depth) == Some(SkipField(tag, b, depth).value + tail)
    decreases |b|, 1
  {
    match tag % 8
    case 0 => VarintLocal(b, tail);
    case 1 => assert (b + tail)[8..] == b[8..] + tail;
    case 2 => RecordLocal(b, tail);
    case 3 => SkipGroupLocal(tag / 8, b, depth - 1, tail);
    case 5 => assert (b + tail)[4..] == b[4..] + tail;
    case _ =>
  }

  lemma {:induction false} SkipGroupLocal(number: nat, b: seq<Byte>, depth: nat, tail: seq<Byte>)
    requires SkipGroup(number, b, depth).Some?
    ensures SkipGroup(number, b + tail, depth) == Some(SkipGroup(number, b, depth).value + tail)
    decreases |b|, 0
  {
    VarintLocal(b, tail);
    var x := ReadVarint(b).value;
    var tag := x.value % TWO32;
    if tag % 8 != 4 {
      SkipFieldLocal(tag, x.rest, depth, tail);
      SkipGroupLocal(number, SkipField(tag, x.rest, depth).value, depth, tail);
    }
  }

  /** A field whose record is not cut short. */
  lemma {:induction false} FieldLocal(k: Kind, old_: Value, b: seq<Byte>, depth: nat, tail: seq<Byte>)
    requires Shaped(k, old_) && (k.Repeated? ==> Small(k.schema) && ReadRecord(b).Some?)
    requires ReadField(k, old_, b, depth).Some?
    ensures ReadField(k, old_, b + tail, depth) ==
            Some(Read(ReadField(k, old_, b, depth).value.value, ReadField(k, old_, b, depth).value.rest + tail))
  {
    if k.U32? || k.Enum? || k.Bool? {
      VarintLocal(b, tail);
    } else {
      RecordLocal(b, tail);
    }
  }

  lemma {:induction false} TokenLocal(s: Schema, b: seq<Byte>, tail: seq<Byte>)
    requires |s| <= 15
    ensures match NextToken(s, b)
            case Known(i, rest) => NextToken(s, b + tail) == Known(i, rest + tail)
            case Unknown(tag, rest) => NextToken(s, b + tail) == Unknown(tag, rest + tail)
            case _ => true
  {
    if NextToken(s, b).Known? || NextToken(s, b).Unknown? {
      VarintLocal(b, tail);
    }
  }

  /** No nested message is cut short by the end of the input. */
  predicate Unclipped(s: Schema, f: Fields, x: seq<Byte>, depth: nat)
    requires ShapedAll(s, f)
    decreases |x|
  {
    match NextToken(s, x)
    case Known(i, rest) =>
      (s[i].Repeated? ==> ReadRecord(rest).Some?)
      && (match ReadField(s[i], f[i], rest, depth)
          case None => true
          case Some(w) => Unclipped(s, f[i := w.value], w.rest, depth))
    case Unknown(tag, rest) =>
      (match SkipField(tag, rest, depth)
       case None => true
       case Some(after) => Unclipped(s, f, after, depth))
    case _ => true
  }

  predicate ParsesToEnd(s: Schema, f: Fields, x: seq<Byte>, depth: nat)
    requires ShapedAll(s, f)
  {
    Parse(s, f, x, depth).Stopped? && Parse(s, f, x, depth).atEnd
  }

  lemma FewFields(s: Schema, f: Fields)
    requires ShapedAll(s, f)
    ensures |s| == |f| <= 15
    ensures forall i :: 0 <= i < |s| ==> Shaped(s[i], f[i]) && (s[i].Repeated? ==> Small(s[i].schema))
  {
  }

  lemma EmptyAtEnd(s: Schema, x: seq<Byte>, y: seq<Byte>)
    requires |s| <= 15 && NextToken(s, x).End?
    ensures x + y == y
  {
  }

  /**
   * For any bytes x that parse to their end and do not end within a nested message, whoever wrote them and whatever
   * unknown fields they hold, parsing x followed by y is parsing y into the result.
   */
  lemma {:induction false} ParseConcatenation(s: Schema, f: Fields, x: seq<Byte>, y: seq<Byte>, depth: nat)
    requires ShapedAll(s, f) && ParsesToEnd(s, f, x, depth) && Unclipped(s, f, x, depth)
    ensures Parse(s, f, x + y, depth) == Parse(s, Parse(s, f, x, depth).fields, y, depth)
    decreases |x|
  {
    hide ReadField, SkipField, NextToken, ReadRecord;
    FewFields(s, f);
    TokenLocal(s, x, y);
    match NextToken(s, x)
    case End => EmptyAtEnd(s, x, y);
    case Known(i, rest) =>
      assert Parse(s, f, x, depth) == Continue(s, f, i, rest, depth);
      FieldLocal(s[i], f[i], rest, depth, y);
      var w := ReadField(s[i], f[i], rest, depth).value;
      ParseConcatenation(s, f[i := w.value], w.rest, y, depth);
    case Unknown(tag, rest) =>
      SkipFieldLocal(tag, rest, depth, y);
      ParseConcatenation(s, f, SkipField(tag, rest, depth).value, y, depth);
  }

  /** A length that the input ends within is completed by a zero octet. */
  lemma {:induction false} ZeroCompletes(b: seq<Byte>, limit: nat)
    requires Decode(b, limit).None? && |b| < limit
    ensures Decode(b + [0], limit).Some? && Decode(b + [0], limit).value.rest == []
  {
    if b != [] {
      assert (b + [0])[1..] == b[1..] + [0];
      ZeroCompletes(b[1..], limit - 1);
    }
  }

  /** A record that is cut short by the end of the input takes an octet that follows, or its length does. */
  lemma ClippedRecord(b: seq<Byte>)
    requires ReadRecord(b).None? && (ReadVarint(b).None? ==> |b| < MAX_VARINT_BYTES)
    ensures var x, y := NestedRecord(b), NestedRecord(b + [0]);
            x.rest == [] && y.rest == []
            && if ReadVarint(b).None? then x.value == y.value == [] else y.value == x.value + [0]
  {
    if ReadVarint(b).None? {
      ZeroCompletes(b, MAX_VARINT_BYTES);
    } else {
      VarintLocal(b, [0]);
      var rest := ReadVarint(b).value.rest;
      assert (rest + [0])[..|rest| + 1] == rest + [0];
    }
  }

  /** A zero tag stops the parser before the end. */
  lemma ZeroStops(s: Schema, f: Fields, depth: nat)
    requires ShapedAll(s, f)
    ensures Parse(s, f, [0], depth) == Stopped(f, false)
  {
    assert ReadVarint([0]) == Some(Read(0, []));
  }

  lemma AtEndOfAll(s: Schema, f: Fields, depth: nat)
    requires ShapedAll(s, f)
    ensures Parse(s, f, [], depth) == Stopped(f, true)
  {
  }

  /** An unreadable length is no way to reach the end. */
  lemma UnreadableIsNotEnd(s: Schema, f: Fields, b: seq<Byte>, depth: nat)
    requires ShapedAll(s, f) && ReadVarint(b).None? && b != []
    ensures Parse(s, f, b, depth) == Stopped(f, false)
  {
  }

  /** The parser does not stop before the end. */
  predicate GoesOn(o: Outcome) {
    o.Failed? || o.atEnd
  }

  /** If a nested message is cut short by the end of x, a zero octet behind x is not seen as a zero tag. */
  lemma {:induction false} ClippedSwallows(s: Schema, f: Fields, x: seq<Byte>, depth: nat)
    requires ShapedAll(s, f) && ParsesToEnd(s, f, x, depth) && !Unclipped(s, f, x, depth)
    ensures GoesOn(Parse(s, f, x + [0], depth))
    decreases |x|
  {
    hide ReadField, SkipField, NextToken, ReadRecord;
    FewFields(s, f);
    TokenLocal(s, x, [0]);
    match NextToken(s, x)
    case End =>
    case Known(i, rest) =>
      assert Parse(s, f, x, depth) == Continue(s, f, i, rest, depth);
      assert Parse(s, f, x + [0], depth) == Continue(s, f, i, rest + [0], depth);
      if s[i].Repeated? && ReadRecord(rest).None? {
        ClippedItem(s, f, i, rest, depth);
      } else {
        FieldLocal(s[i], f[i], rest, depth, [0]);
        var w := ReadField(s[i], f[i], rest, depth).value;
        ClippedSwallows(s, f[i := w.value], w.rest, depth);
      }
    case Unknown(tag, rest) =>
      SkipFieldLocal(tag, rest, depth, [0]);
      ClippedSwallows(s, f, SkipField(tag, rest, depth).value, depth);
  }

  /** Behind a record that reaches the end the parser is at the end. */
  lemma ItemGoesOn(s: Schema, f: Fields, i: nat, b: seq<Byte>, depth: nat)
    requires ShapedAll(s, f) && i < |s| && s[i].Repeated? && NestedRecord(b).rest == []
    ensures GoesOn(Continue(s, f, i, b, depth))
  {
    hide ReadNested, NestedRecord;
    match ReadField(s[i], f[i], b, depth)
    case None =>
    case Some(w) => AtEndOfAll(s, f[i := w.value], depth);
  }

  lemma {:induction false} ClippedItem(s: Schema, f: Fields, i: nat, rest: seq<Byte>, depth: nat)
    requires ShapedAll(s, f) && i < |s| && s[i].Repeated? && ReadRecord(rest).None?
    requires var o := Continue(s, f, i, rest, depth); o.Stopped? && o.atEnd
    ensures GoesOn(Continue(s, f, i, rest + [0], depth))
  {
    hide Parse, ReadNested;
    if ReadVarint(rest).None? && |rest| >= MAX_VARINT_BYTES {
      UnreadableIsNotEnd(s, f[i := ReadField(s[i], f[i], rest, depth).value.value], rest, depth);
    } else {
      ClippedRecord(rest);
      ItemGoesOn(s, f, i, rest + [0], depth);
    }
  }

  /** A nested message announced with five octets of which none follows is read as an empty one. */
  lemma CutShort(s: Schema, f: Fields, i: nat, depth: nat)
    requires ShapedAll(s, f) && i < |s| && s[i].Repeated? && depth > 0
    ensures var x := [Tag(s, i), 5];
            Parse(s, f, x, depth) == Stopped(f[i := Items(f[i].items + [Default(s[i].schema)])], true)
            && !Unclipped(s, f, x, depth)
  {
    var b: seq<Byte> := [5];
    assert [Tag(s, i), 5] == [Tag(s, i)] + b;
    TagIsKnown(s, i, b);
    ParseTagged(s, f, i, b, depth);
    assert ReadVarint(b) == Some(Read(5, b[1..]));
    assert NestedRecord(b).value == [] && NestedRecord(b).rest == [];
    AtEndOfAll(s[i].schema, Default(s[i].schema), depth - 1);
    var all := Items(f[i].items + [Default(s[i].schema)]);
    assert ReadField(s[i], f[i], b, depth) == Some(Read(all, []));
    AtEndOfAll(s, f[i := all], depth);
    hide Parse;
  }

  /**
   * For bytes x that parse to their end, parsing x followed by y is parsing y into the result, whatever y is, exactly
   * when x does not end within a nested message.
   */
  lemma ConcatenationIff(s: Schema, f: Fields, x: seq<Byte>, depth: nat)
    requires ShapedAll(s, f) && ParsesToEnd(s, f, x, depth)
    ensures Unclipped(s, f, x, depth) <==>
              forall y :: Parse(s, f, x + y, depth) == Parse(s, Parse(s, f, x, depth).fields, y, depth)
  {
    hide Parse, Unclipped;
    if Unclipped(s, f, x, depth) {
      forall y ensures Parse(s, f, x + y, depth) == Parse(s, Parse(s, f, x, depth).fields, y, depth) {
        ParseConcatenation(s, f, x, y, depth);
      }
    } else {
      ClippedSwallows(s, f, x, depth);
      ZeroStops(s, Parse(s, f, x, depth).fields, depth);
      assert Parse(s, f, x + [0], depth) != Parse(s, Parse(s, f, x, depth).fields, [0], depth);
    }
  }

  // ---- Sizes ----------------------------------------------------------------------------------------------

  lemma {:induction false} SizeScalarAgrees(tag: Byte, k: Kind, v: Value)
    requires FitsScalar(k, v) && |SerScalar(tag, k, v)| < TWO32
    ensures SizeScalar(k, v) == |SerScalar(tag, k, v)|
  {
    if v.Octets? {
      Size32IsLength(|v.data|);
    } else if v.n >= 0 {
      Size32IsLength(v.n);
    } else {
      assert Pow128(5) == 0x8_0000_0000;
      assert Pow128(9) == 0x8_0000_0000 * 0x1000_0000 by {
        assert Pow128(6) == 128 * Pow128(5) && Pow128(7) == 128 * Pow128(6);
        assert Pow128(8) == 128 * Pow128(7);
      }
      assert Pow128(10) == 128 * Pow128(9);
      EncodeLength(v.n + TWO64, 10);
    }
  }

  lemma {:induction false} SizeFieldAgrees(s: Schema, i: nat, v: Value)
    requires i < |s| <= 15 && Fits(s[i], v) && |SerField(s, i, v)| < TWO32
    ensures SizeField(s[i], v) == |SerField(s, i, v)|
    decreases s, 0, 0
  {
    if s[i].Repeated? {
      SizeItemsAgrees(Tag(s, i), s[i].schema, v.items);
    } else {
      SizeScalarAgrees(Tag(s, i), s[i], v);
    }
  }

  lemma {:induction false} SizeItemsAgrees(tag: Byte, sub: Schema, items: seq<Fields>)
    requires forall x <- items :: FitsAll(sub, x)
    requires |SerItems(tag, sub, items)| < TWO32
    ensures |items| + SizeItems(sub, items) == |SerItems(tag, sub, items)|
    decreases sub, 3, |items|
  {
    if items != [] {
      ByteSizeAgrees(sub, items[0]);
      Size32IsLength(|Serialize(sub, items[0])|);
      SizeItemsAgrees(tag, sub, items[1..]);
    }
  }

  lemma {:induction false} SizeTailAgrees(s: Schema, f: Fields, i: nat)
    requires FitsAll(s, f) && i <= |s| && |SerTail(s, f, i)| < TWO32
    ensures SizeTail(s, f, i) == |SerTail(s, f, i)|
    decreases s, 1, |s| - i
  {
    if i < |s| {
      SizeFieldAgrees(s, i, f[i]);
      SizeTailAgrees(s, f, i + 1);
    }
  }

  /** ByteSize announces exactly the number of octets that serializing writes. */
  lemma {:induction false} ByteSizeAgrees(s: Schema, f: Fields)
    requires FitsAll(s, f) && |Serialize(s, f)| < TWO32
    ensures ByteSize(s, f) == |Serialize(s, f)|
    decreases s, 2
  {
    SizeTailAgrees(s, f, 0);
  }
}
