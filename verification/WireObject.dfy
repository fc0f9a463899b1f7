/** Message objects: the parser as it is generated, with its jumps between fields, and the size-caching writer. */
module WireObject {
  import opened Bytes
  import opened Varint
  import opened Wire

  class Message {
    const schema: Schema
    var fields: Fields

    ghost predicate Valid()
      reads this
    {
      ShapedAll(schema, fields)
    }

    constructor (schema: Schema)
      requires Small(schema)
      ensures Valid() && this.schema == schema && fields == Default(schema)
    {
      this.schema := schema;
      fields := Default(schema);
    }

    /**
     * MergePartialFromCodedStream. After a field the generated code looks for the one-octet tag of the field that
     * usually comes next (for a repeated field: its own tag again) and, when it is there, jumps straight into that
     * field without going back to the top of the loop.
     */
    method MergePartialFromCodedStream(input: seq<Byte>, depth: nat) returns (ok: bool, atEnd: bool)
      requires Valid()
      modifies this
      ensures Valid()
      ensures ok <==> Parse(schema, old(fields), input, depth).Stopped?
      ensures ok ==> Parse(schema, old(fields), input, depth) == Stopped(fields, atEnd)
      decreases depth, |input|
    {
      var rest := input;
      var next := Loop;
      while true
        invariant Valid() && |rest| <= |input| && (next.Loop? || next.Field?)
        invariant next.Field? ==> next.index < |schema| && |rest| < |input|
        invariant Parse(schema, old(fields), input, depth) == Rest(schema, fields, next, rest, depth)
        decreases |rest|, next.Field?
      {
        if next.Loop? {
          next, rest := TopOfLoop(schema, fields, rest, depth);
        }
        if next.Return? {
          return next.ok, next.atEnd;
        }
        if next.Field? {
          var i := next.index;
          var done, value, behind := ReadInto(schema[i], fields[i], rest, depth);
          if !done {
            return false, false;
          }
          fields := fields[i := value];
          next, rest := AfterField(schema, fields, i, behind, depth);
          if next.Return? {
            return next.ok, next.atEnd;
          }
        }
      }
    }
  }

  /** Where control goes: back to the top of the loop, into field index whose tag is consumed, or out. */
  datatype Next = Loop | Field(index: nat) | Return(ok: bool, atEnd: bool)

  /** What remains to be done, in terms of the plain loop. */
  ghost function Rest(s: Schema, f: Fields, next: Next, b: seq<Byte>, depth: nat): Outcome
    requires ShapedAll(s, f) && (next.Field? ==> next.index < |s|)
  {
    match next
    case Loop => Parse(s, f, b, depth)
    case Field(i) => Continue(s, f, i, b, depth)
    case Return(ok, atEnd) => if ok then Stopped(f, atEnd) else Failed
  }

  /** One turn of the plain loop, given what is at the front of the input. */
  ghost function ParseFrom(s: Schema, f: Fields, token: Token, depth: nat): Outcome
    requires ShapedAll(s, f) && (token.Known? ==> token.index < |s|)
  {
    match token
    case End => Stopped(f, true)
    case Halt => Stopped(f, false)
    case Known(i, rest) => Continue(s, f, i, rest, depth)
    case Unknown(tag, rest) =>
      match SkipField(tag, rest, depth)
      case None => Failed
      case Some(after) => Parse(s, f, after, depth)
  }

  /** ReadTagWithCutoff(127), the switch on the field number, and handle_unusual. */
  method TopOfLoop(s: Schema, ghost f: Fields, b: seq<Byte>, depth: nat) returns (next: Next, rest: seq<Byte>)
    requires ShapedAll(s, f)
    ensures next.Field? ==> next.index < |s|
    ensures !next.Return? ==> |rest| < |b|
    ensures Parse(s, f, b, depth) == Rest(s, f, next, rest, depth)
  {
    assert Parse(s, f, b, depth) == ParseFrom(s, f, NextToken(s, b), depth);
    hide Parse, Continue, SkipField, Tag;
    var read := TagAt(b);
    rest := read.rest;
    if read.value == 0 {  // end of input, a zero tag, or a tag that cannot be read
      return Return(true, b == []), rest;
    }
    match Classify(s, read.value, rest)
    case Known(i, _) => next := Field(i);
    case Halt => next := Return(true, false);
    case Unknown(tag, _) =>
      match SkipField(tag, rest, depth) {
        case None => next := Return(false, false);
        case Some(behind) => next, rest := Loop, behind;
      }
  }

  /** The jumps at the end of a case label. */
  method AfterField(s: Schema, ghost f: Fields, i: nat, b: seq<Byte>, ghost depth: nat)
    returns (next: Next, rest: seq<Byte>)
    requires ShapedAll(s, f) && i < |s|
    ensures next.Field? ==> next.index < |s| && |rest| < |b|
    ensures |rest| <= |b|
    ensures Parse(s, f, b, depth) == Rest(s, f, next, rest, depth)
  {
    next, rest := Loop, b;
    if s[i].Repeated? && ExpectTag(b, Tag(s, i)) {
      next, rest := Field(i), TakeTag(s, f, i, b, depth);
    } else if i + 1 < |s| {
      if ExpectTag(b, Tag(s, i + 1)) {
        next, rest := Field(i + 1), TakeTag(s, f, i + 1, b, depth);
      }
    } else if b == [] {  // ExpectAtEnd
      next := Return(true, true);
    }
  }

  predicate ExpectTag(b: seq<Byte>, tag: Byte) {
    b != [] && b[0] == tag
  }

  /** The input behind an expected tag. Taking the tag here or at the top of the loop leads to the same field. */
  function TakeTag(s: Schema, ghost f: Fields, i: nat, b: seq<Byte>, ghost depth: nat): (rest: seq<Byte>)
    requires ShapedAll(s, f) && i < |s| && ExpectTag(b, Tag(s, i))
    ensures |rest| < |b|
    ensures Parse(s, f, b, depth) == Continue(s, f, i, rest, depth)
  {
    assert b == [b[0]] + b[1..];
    assert NextToken(s, b) == Token.Known(i, b[1..]) by {
      assert ReadVarint(b) == Some(Read(b[0] as nat, b[1..]));
    }
    b[1..]
  }

  /** Reads field k; a nested message is parsed into an object of its own. */
  method ReadInto(k: Kind, old_: Value, b: seq<Byte>, depth: nat) returns (ok: bool, value: Value, rest: seq<Byte>)
    requires Shaped(k, old_) && (k.Repeated? ==> Small(k.schema))
    ensures ok <==> ReadField(k, old_, b, depth).Some?
    ensures ok ==> ReadField(k, old_, b, depth) == Some(Read(value, rest))
    ensures |rest| <= |b|
    decreases depth, |b|
  {
    hide Parse, Default, ReadScalar;
    ok, value, rest := false, old_, b;
    if !k.Repeated? {
      match ReadScalar(k, b)
      case None =>
      case Some(x) => ok, value, rest := true, x.value, x.rest;
    } else if depth > 0 {
      var x := NestedRecord(b);
      var item := new Message(k.schema);
      var parsed, atEnd := item.MergePartialFromCodedStream(x.value, depth - 1);
      ok, value, rest := parsed && atEnd, Items(old_.items + [item.fields]), x.rest;
    }
  }
}
