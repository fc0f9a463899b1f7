/**
 * The octets of the seven messages, with the tags that lkpProto.pb.cc writes and expects: the number of a field
 * times eight, plus two for strings, bytes and nested messages.
 */
module Layouts {
  import opened Bytes
  import opened Varint
  import opened Wire
  import opened WireTheorems
  import opened Messages
  import CachedSizes

  /** A tag as it stands in the generated code, and the kind of its field. */
  datatype Slot = Slot(tag: Byte, kind: Kind)

  const NODE_INFO_SHEET: seq<Slot> := [Slot(8, U32), Slot(18, Str)]

  function Sheet(t: Type): seq<Slot> {
    match t
    case Command => [Slot(8, Enum), Slot(16, Bool), Slot(26, Str), Slot(32, U32), Slot(40, U32), Slot(48, U32)]
    case File =>
      [Slot(8, Enum), Slot(18, Str), Slot(24, U32), Slot(32, U32), Slot(40, Bool), Slot(50, Blob), Slot(56, U32)]
    case CommandAck => [Slot(8, Bool), Slot(16, Enum), Slot(26, Str), Slot(32, U32)]
    case HeartBeat => [Slot(8, Bool)]
    case PushAck => [Slot(8, Bool), Slot(18, Str), Slot(24, U32)]
    case Return => [Slot(8, U32), Slot(16, U32), Slot(24, Enum), Slot(34, Repeated([U32, Str]))]
    case NodeInfo => NODE_INFO_SHEET
  }

  // ---- Writing --------------------------------------------------------------------------------------------

  /** The octets of a field that is not repeated. */
  function Plain(tag: Byte, k: Kind, v: Value): seq<Byte>
    requires FitsScalar(k, v)
  {
    match k
    case U32 => if v.n == 0 then [] else [tag] + Encode(v.n)
    case Enum => if v.n == 0 then [] else [tag] + Encode(if v.n < 0 then v.n + 0x1_0000_0000_0000_0000 else v.n)
    case Bool => if v.n == 0 then [] else [tag, 1]
    case _ => if v.data == [] then [] else [tag] + Encode(|v.data|) + v.data
  }

  /** The octets of a NodeInfo. */
  function NodeOctets(x: Fields): seq<Byte>
    requires FitsAll(NODE_INFO, x)
  {
    Plain(8, U32, x[0]) + Plain(18, Str, x[1])
  }

  function NodesOctets(tag: Byte, items: seq<Fields>): seq<Byte>
    requires forall x <- items :: FitsAll(NODE_INFO, x)
  {
    if items == [] then []
    else [tag] + (Encode(|NodeOctets(items[0])|) + NodeOctets(items[0])) + NodesOctets(tag, items[1..])
  }

  function OctetsOf(slot: Slot, v: Value): seq<Byte>
    requires Fits(slot.kind, v) && (slot.kind.Repeated? ==> slot.kind == Repeated(NODE_INFO))
  {
    if slot.kind.Repeated? then NodesOctets(slot.tag, v.items) else Plain(slot.tag, slot.kind, v)
  }

  /** The fields from index i on, one after the other. */
  function Written(sheet: seq<Slot>, f: Fields, i: nat): seq<Byte>
    requires i <= |sheet| == |f|
    requires forall j :: 0 <= j < |sheet| ==>
      Fits(sheet[j].kind, f[j]) && (sheet[j].kind.Repeated? ==> sheet[j].kind == Repeated(NODE_INFO))
    decreases |sheet| - i
  {
    if i == |sheet| then [] else OctetsOf(sheet[i], f[i]) + Written(sheet, f, i + 1)
  }

  /** The sheet names the kinds of the schema and the tags that the parser and the serializer compute. */
  predicate Matches(sheet: seq<Slot>, s: Schema) {
    && Small(s) && |sheet| == |s|
    && forall i :: 0 <= i < |s| ==>
         sheet[i].kind == s[i] && sheet[i].tag == Tag(s, i) && (s[i].Repeated? ==> s[i] == Repeated(NODE_INFO))
  }

  lemma SheetMatches(t: Type)
    ensures Matches(Sheet(t), SchemaOf(t))
  {
    hide Small;
    match t {
      case Command =>
      case File =>
      case _ =>
    }
  }

  lemma PlainIs(tag: Byte, k: Kind, v: Value)
    requires FitsScalar(k, v)
    ensures SerScalar(tag, k, v) == Plain(tag, k, v)
  {
  }

  lemma NodeOctetsIs(x: Fields)
    requires FitsAll(NODE_INFO, x)
    ensures Serialize(NODE_INFO, x) == NodeOctets(x)
  {
    CachedSizes.NodeInfoLayout(x);
    PlainIs(8, U32, x[0]);
    PlainIs(18, Str, x[1]);
    hide *;
  }

  lemma {:induction false} NodesOctetsIs(tag: Byte, items: seq<Fields>)
    requires forall x <- items :: FitsAll(NODE_INFO, x)
    ensures SerItems(tag, NODE_INFO, items) == NodesOctets(tag, items)
  {
    if items != [] {
      NodeOctetsIs(items[0]);
      NodesOctetsIs(tag, items[1..]);
      hide NodeOctets, Serialize;
    }
  }

  lemma OneField(s: Schema, i: nat, slot: Slot, v: Value)
    requires i < |s| <= 15 && Fits(s[i], v) && slot.kind == s[i] && slot.tag == Tag(s, i)
    requires s[i].Repeated? ==> s[i] == Repeated(NODE_INFO)
    ensures SerField(s, i, v) == OctetsOf(slot, v)
  {
    if s[i].Repeated? {
      NodesOctetsIs(slot.tag, v.items);
    } else {
      PlainIs(slot.tag, s[i], v);
    }
    hide SerItems, SerScalar, NodesOctets, Plain;
  }

  lemma {:induction false} WrittenIs(sheet: seq<Slot>, s: Schema, f: Fields, i: nat)
    requires Matches(sheet, s) && FitsAll(s, f) && i <= |s|
    ensures SerTail(s, f, i) == Written(sheet, f, i)
    decreases |s| - i
  {
    hide Tag, OctetsOf, SerField, Fits;
    if i < |s| {
      OneField(s, i, sheet[i], f[i]);
      WrittenIs(sheet, s, f, i + 1);
    }
  }

  lemma SheetFits(t: Type, f: Fields)
    requires WellFormed(Msg(t, f))
    ensures |Sheet(t)| == |f|
    ensures forall i :: 0 <= i < |f| ==>
      Fits(Sheet(t)[i].kind, f[i]) && (Sheet(t)[i].kind.Repeated? ==> Sheet(t)[i].kind == Repeated(NODE_INFO))
  {
    SheetMatches(t);
    hide Sheet, SchemaOf, Fits;
  }

  /** What is written for each type of message: its fields in order, each behind its own tag, defaults left off. */
  lemma SerializeIs(t: Type, f: Fields)
    requires WellFormed(Msg(t, f))
    ensures |Sheet(t)| == |f| && forall i :: 0 <= i < |f| ==>
              Fits(Sheet(t)[i].kind, f[i]) && (Sheet(t)[i].kind.Repeated? ==> Sheet(t)[i].kind == Repeated(NODE_INFO))
    ensures Serialize(SchemaOf(t), f) == Written(Sheet(t), f, 0)
  {
    SheetFits(t, f);
    SheetMatches(t);
    hide Sheet, SchemaOf, Fits, Matches;
    WrittenIs(Sheet(t), SchemaOf(t), f, 0);
  }

  /** A heartbeat is two octets, or none. */
  lemma HeartBeatOctets(status: bool)
    ensures WellFormed(Msg(HeartBeat, [Num(if status then 1 else 0)]))
    ensures Serialize(SchemaOf(HeartBeat), [Num(if status then 1 else 0)]) == if status then [8, 1] else []
  {
    var f := [Num(if status then 1 else 0)];
    assert Fits(SchemaOf(HeartBeat)[0], f[0]);
    SerializeIs(HeartBeat, f);
    assert Written(Sheet(HeartBeat), f, 1) == [];
  }

  // ---- Reading --------------------------------------------------------------------------------------------

  /** The number that a varint of the value n stands for. */
  function Number(k: Kind, n: nat): int {
    var word := n % 0x1_0000_0000;
    if k.Bool? then (if n % 0x1_0000_0000_0000_0000 == 0 then 0 else 1)
    else if k.Enum? && word >= 0x8000_0000 then word - 0x1_0000_0000
    else word
  }

  /** What the parser makes of the octets behind the tag of field i. */
  function Takes(s: Schema, f: Fields, i: nat, b: seq<Byte>, depth: nat): Outcome
    requires ShapedAll(s, f) && i < |s| && (s[i].Repeated? ==> s[i] == Repeated(NODE_INFO))
  {
    if s[i].Repeated? then
      var record := NestedRecord(b);
      if depth == 0 then Failed
      else
        var nested := Parse(NODE_INFO, [Num(0), Octets([])], record.value, depth - 1);
        if nested.Failed? || !nested.atEnd then Failed
        else Parse(s, f[i := Items(f[i].items + [nested.fields])], record.rest, depth)
    else if ReadVarint(b).None? then Failed
    else
      var n, rest := ReadVarint(b).value.value, ReadVarint(b).value.rest;
      if !s[i].Str? && !s[i].Blob? then Parse(s, f[i := Num(Number(s[i], n))], rest, depth)
      else
        var len := n % 0x1_0000_0000;
        if len >= 0x8000_0000 || len > |rest| || (s[i].Str? && !Utf8(rest[..len])) then Failed
        else Parse(s, f[i := Octets(rest[..len])], rest[len..], depth)
  }

  lemma NumberIs(k: Kind, n: nat)
    requires k.U32? || k.Enum? || k.Bool?
    ensures Narrow(k, n) == Number(k, n)
  {
  }

  lemma FreshNode()
    ensures Default(NODE_INFO) == [Num(0), Octets([])]
  {
  }

  lemma ContinueIs(s: Schema, f: Fields, i: nat, b: seq<Byte>, depth: nat)
    requires ShapedAll(s, f) && i < |s| && (s[i].Repeated? ==> s[i] == Repeated(NODE_INFO))
    ensures Continue(s, f, i, b, depth) == Takes(s, f, i, b, depth)
  {
    hide Parse, Utf8, NestedRecord, Narrow, Number;
    if s[i].Repeated? {
      FreshNode();
      hide Default;
      if depth > 0 {
        var nested := Parse(NODE_INFO, Default(NODE_INFO), NestedRecord(b).value, depth - 1);
        assert ReadNested(NODE_INFO, NestedRecord(b).value, depth - 1)
            == if nested.Stopped? && nested.atEnd then Some(nested.fields) else None;
      }
    } else if ReadVarint(b).Some? && (s[i].U32? || s[i].Enum? || s[i].Bool?) {
      NumberIs(s[i], ReadVarint(b).value.value);
    }
  }

  /** Behind each tag of the generated code the parser reads exactly the field that the tag stands for. */
  lemma ParserIs(t: Type, f: Fields, i: nat, b: seq<Byte>, depth: nat)
    requires ShapedAll(SchemaOf(t), f) && i < |Sheet(t)|
    ensures i < |SchemaOf(t)| && SchemaOf(t)[i] == Sheet(t)[i].kind
            && (Sheet(t)[i].kind.Repeated? ==> Sheet(t)[i].kind == Repeated(NODE_INFO))
    ensures Parse(SchemaOf(t), f, [Sheet(t)[i].tag] + b, depth) == Takes(SchemaOf(t), f, i, b, depth)
  {
    SheetMatches(t);
    hide Sheet, SchemaOf, Parse, Continue, Takes, ShapedAll;
    ParseTagged(SchemaOf(t), f, i, b, depth);
    ContinueIs(SchemaOf(t), f, i, b, depth);
  }

  /** Any other octet in the place of a tag ends the message or starts a field that is skipped. */
  lemma OtherTags(t: Type, f: Fields, tag: Byte, b: seq<Byte>, depth: nat)
    requires ShapedAll(SchemaOf(t), f) && tag < 128 && forall slot <- Sheet(t) :: slot.tag != tag
    ensures Parse(SchemaOf(t), f, [tag] + b, depth) ==
            if tag == 0 || tag % 8 == 4 then Stopped(f, false)
            else
              match SkipField(tag, b, depth)
              case None => Failed
              case Some(rest) => Parse(SchemaOf(t), f, rest, depth)
  {
    SheetMatches(t);
    hide Sheet, SchemaOf, SkipField, Continue, ShapedAll;
    NoSlot(Sheet(t), SchemaOf(t), tag);
    SkippedTag(SchemaOf(t), f, tag, b, depth);
  }

  lemma NoSlot(sheet: seq<Slot>, s: Schema, tag: Byte)
    requires Matches(sheet, s) && forall slot <- sheet :: slot.tag != tag
    ensures forall i :: 0 <= i < |s| ==> Tag(s, i) != tag
  {
    assert forall i :: 0 <= i < |s| ==> sheet[i] in sheet;
  }

  lemma SkippedTag(s: Schema, f: Fields, tag: Byte, b: seq<Byte>, depth: nat)
    requires ShapedAll(s, f) && tag < 128 && forall i :: 0 <= i < |s| ==> Tag(s, i) != tag
    ensures Parse(s, f, [tag] + b, depth) ==
            if tag == 0 || tag % 8 == 4 then Stopped(f, false)
            else match SkipField(tag, b, depth) case None => Failed case Some(rest) => Parse(s, f, rest, depth)
  {
    hide SkipField, Continue, NextToken;
    SkippedToken(s, tag, b);
  }

  lemma SkippedToken(s: Schema, tag: Byte, b: seq<Byte>)
    requires |s| <= 15 && tag < 128 && forall i :: 0 <= i < |s| ==> Tag(s, i) != tag
    ensures NextToken(s, [tag] + b) == if tag == 0 || tag % 8 == 4 then Halt else Unknown(tag, b)
  {
    var input := [tag] + b;
    assert input[1..] == b;
    assert ReadVarint(input) == Some(Read(tag as nat, b));
    hide Tag;
  }
}
