/**
 * The generated proto3 code of lkpProto.pb.cc. protoc emits the same template for every message type, so the
 * template is modelled once, over a schema: the list of field kinds, field i of the list having number i + 1.
 * Field numbers stay below 16, as they do in every message of this system, so that every tag is a single octet.
 */
module Wire {
  import opened Bytes
  import opened Varint

  datatype Kind = U32 | Enum | Bool | Str | Blob | Repeated(schema: seq<Kind>)

  type Schema = seq<Kind>

  /** Num holds U32, Enum and Bool fields, Octets holds Str and Blob fields, Items a repeated nested message. */
  datatype Value = Num(n: int) | Octets(data: seq<Byte>) | Items(items: seq<seq<Value>>)

  type Fields = seq<Value>

  /** The length of the well-formed UTF-8 sequence at the front of s, or 0 when there is none. */
  function Utf8Char(s: seq<Byte>): (n: nat)
    ensures n <= |s|
  {
    if s == [] then 0
    else if s[0] < 0x80 then 1
    else if |s| >= 2 && 0xC2 <= s[0] <= 0xDF && Trail(s[1], 0x80, 0xBF) then 2
    else if |s| >= 3 && 0xE0 <= s[0] <= 0xEF && Trail(s[2], 0x80, 0xBF)
            && Trail(s[1], if s[0] == 0xE0 then 0xA0 else 0x80, if s[0] == 0xED then 0x9F else 0xBF) then 3
    else if |s| >= 4 && 0xF0 <= s[0] <= 0xF4 && Trail(s[2], 0x80, 0xBF) && Trail(s[3], 0x80, 0xBF)
            && Trail(s[1], if s[0] == 0xF0 then 0x90 else 0x80, if s[0] == 0xF4 then 0x8F else 0xBF) then 4
    else 0
  }

  predicate Trail(b: Byte, low: int, high: int) {
    low <= b <= high
  }

  /** Well-formed UTF-8: no overlong form, no surrogate, nothing above U+10FFFF. */
  predicate Utf8(s: seq<Byte>) {
    s == [] || (Utf8Char(s) > 0 && Utf8(s[Utf8Char(s)..]))
  }

  /** At every level the field numbers fit a one-octet tag. */
  predicate Small(s: Schema)
    decreases s
  {
    |s| <= 15 && forall k <- s :: k.Repeated? ==> Small(k.schema)
  }

  // ---- What a field may hold ------------------------------------------------------------------------------

  /** The constructor of the value matches the kind, with no bound on the contents. */
  predicate Shaped(k: Kind, v: Value) {
    match k
    case U32 => v.Num?
    case Enum => v.Num?
    case Bool => v.Num?
    case Str => v.Octets?
    case Blob => v.Octets?
    case Repeated(_) => v.Items?
  }

  predicate ShapedAll(s: Schema, f: Fields) {
    Small(s) && |s| == |f| && forall i :: 0 <= i < |s| ==> Shaped(s[i], f[i])
  }

  /** The values the C++ types can hold, with strings that are valid UTF-8; an enum is open, any int32_t. */
  predicate FitsScalar(k: Kind, v: Value) {
    match k
    case U32 => v.Num? && 0 <= v.n < TWO32
    case Enum => v.Num? && -TWO31 <= v.n < TWO31
    case Bool => v.Num? && 0 <= v.n <= 1
    case Str => v.Octets? && Utf8(v.data)
    case Blob => v.Octets?
    case Repeated(_) => false
  }

  predicate Fits(k: Kind, v: Value)
    ensures Fits(k, v) ==> Shaped(k, v)
    decreases k
  {
    if k.Repeated? then v.Items? && forall x <- v.items :: FitsAll(k.schema, x)
    else FitsScalar(k, v)
  }

  predicate FitsAll(s: Schema, f: Fields)
    ensures FitsAll(s, f) ==> ShapedAll(s, f)
    decreases s
  {
    Small(s) && |s| == |f| && forall i :: 0 <= i < |s| ==> Fits(s[i], f[i])
  }

  /** Nested messages go at most depth levels down. */
  predicate Nests(s: Schema, depth: nat)
    decreases depth
  {
    forall k <- s :: k.Repeated? ==> depth > 0 && Nests(k.schema, depth - 1)
  }

  function DefaultValue(k: Kind): (v: Value)
    ensures Shaped(k, v)
  {
    match k
    case U32 => Num(0)
    case Enum => Num(0)
    case Bool => Num(0)
    case Str => Octets([])
    case Blob => Octets([])
    case Repeated(_) => Items([])
  }

  /** A freshly constructed message. */
  function Default(s: Schema): (f: Fields)
    requires Small(s)
    ensures ShapedAll(s, f)
  {
    seq(|s|, i requires 0 <= i < |s| => DefaultValue(s[i]))
  }

  // ---- MergeFrom ------------------------------------------------------------------------------------------

  /** The value of b wins unless it is the default; repeated fields are appended. */
  function MergeValue(a: Value, b: Value): (v: Value)
    requires a.Num? == b.Num? && a.Octets? == b.Octets?
  {
    match b
    case Num(n) => if n != 0 then b else a
    case Octets(data) => if data != [] then b else a
    case Items(items) => Items(a.items + items)
  }

  /** MergeFrom restricted to the fields from index i on. */
  function MergeTail(s: Schema, a: Fields, b: Fields, i: nat): (f: Fields)
    requires ShapedAll(s, a) && ShapedAll(s, b) && i <= |s|
    ensures ShapedAll(s, f)
    decreases |s| - i
  {
    if i == |s| then a else MergeTail(s, a[i := MergeValue(a[i], b[i])], b, i + 1)
  }

  function MergeFrom(s: Schema, a: Fields, b: Fields): (f: Fields)
    requires ShapedAll(s, a) && ShapedAll(s, b)
    ensures ShapedAll(s, f)
  {
    MergeTail(s, a, b, 0)
  }

  // ---- Serializing ----------------------------------------------------------------------------------------

  function WireType(k: Kind): (w: nat)
    ensures w == 0 || w == 2
  {
    if k.U32? || k.Enum? || k.Bool? then 0 else 2
  }

  function Tag(s: Schema, i: nat): (t: Byte)
    requires i < |s| <= 15
    ensures 8 <= t < 128 && t / 8 == i + 1 && t % 8 == WireType(s[i])
  {
    (i + 1) * 8 + WireType(s[i])
  }

  function Prefixed(data: seq<Byte>): seq<Byte> {
    Encode(|data|) + data
  }

  predicate IsDefault(v: Value) {
    v == Num(0) || v == Octets([])
  }

  /** A negative enum value is sign-extended to 64 bits. */
  function Widen(n: int): nat
    requires -TWO31 <= n < TWO64
  {
    if n < 0 then n + TWO64 else n
  }

  /** What follows the tag. */
  function Payload(v: Value): seq<Byte>
    requires v.Octets? || (v.Num? && -TWO31 <= v.n < TWO32)
  {
    if v.Octets? then Prefixed(v.data) else Encode(Widen(v.n))
  }

  /** Fields that hold their default are left off the wire. */
  function SerScalar(tag: Byte, k: Kind, v: Value): seq<Byte>
    requires FitsScalar(k, v)
  {
    if IsDefault(v) then [] else [tag] + Payload(v)
  }

  function SerField(s: Schema, i: nat, v: Value): seq<Byte>
    requires i < |s| <= 15 && Fits(s[i], v)
    decreases s, 0, 0
  {
    if s[i].Repeated? then SerItems(Tag(s, i), s[i].schema, v.items) else SerScalar(Tag(s, i), s[i], v)
  }

  function SerItems(tag: Byte, sub: Schema, items: seq<Fields>): seq<Byte>
    requires forall x <- items :: FitsAll(sub, x)
    decreases sub, 2, |items|
  {
    if items == [] then []
    else [tag] + Prefixed(Serialize(sub, items[0])) + SerItems(tag, sub, items[1..])
  }

  function SerTail(s: Schema, f: Fields, i: nat): seq<Byte>
    requires FitsAll(s, f) && i <= |s|
    decreases s, 1, |s| - i
  {
    if i == |s| then [] else SerField(s, i, f[i]) + SerTail(s, f, i + 1)
  }

  function Serialize(s: Schema, f: Fields): seq<Byte>
    requires FitsAll(s, f)
    decreases s, 1, |s| + 1
  {
    SerTail(s, f, 0)
  }

  // ---- ByteSize -------------------------------------------------------------------------------------------

  function SizeScalar(k: Kind, v: Value): nat
    requires FitsScalar(k, v)
  {
    if IsDefault(v) then 0
    else if k.Bool? then 1 + 1
    else if v.Octets? then 1 + PrefixedSize(|v.data|)
    else 1 + (if v.n < 0 then 10 else Size32(v.n))
  }

  function SizeField(k: Kind, v: Value): nat
    requires Fits(k, v)
    decreases k, 0, 0
  {
    if k.Repeated? then |v.items| + SizeItems(k.schema, v.items) else SizeScalar(k, v)
  }

  /** LengthDelimitedSize: the size of the length prefix, an unsigned 32-bit value, plus the record. */
  function PrefixedSize(n: nat): nat {
    Size32(n % TWO32) + n
  }

  function SizeItems(sub: Schema, items: seq<Fields>): nat
    requires forall x <- items :: FitsAll(sub, x)
    decreases sub, 2, |items|
  {
    if items == [] then 0 else PrefixedSize(ByteSize(sub, items[0])) + SizeItems(sub, items[1..])
  }

  function SizeTail(s: Schema, f: Fields, i: nat): nat
    requires FitsAll(s, f) && i <= |s|
    decreases s, 1, |s| - i
  {
    if i == |s| then 0 else SizeField(s[i], f[i]) + SizeTail(s, f, i + 1)
  }

  function ByteSize(s: Schema, f: Fields): nat
    requires FitsAll(s, f)
    decreases s, 1, |s| + 1
  {
    SizeTail(s, f, 0)
  }

  // ---- Reading --------------------------------------------------------------------------------------------

  /** A string or an unknown record: its length is a signed 32-bit int and may not exceed what is left. */
  function ReadRecord(b: seq<Byte>): (r: Option<Read<seq<Byte>>>)
    ensures r.Some? ==> |r.value.rest| < |b| && |r.value.value| < |b|
  {
    match ReadVarint(b)
    case None => None
    case Some(Read(n, rest)) =>
      var len := n % TWO32;
      if len >= TWO31 || len > |rest| then None else Some(Read(rest[..len], rest[len..]))
  }

  function Drop(b: seq<Byte>, n: nat): (r: Option<seq<Byte>>)
    ensures r.Some? ==> |r.value| == |b| - n
  {
    if n <= |b| then Some(b[n..]) else None
  }

  /** SkipField: steps over an unknown field. Groups nest, and each level costs one unit of depth. */
  function SkipField(tag: nat, b: seq<Byte>, depth: nat): (r: Option<seq<Byte>>)
    ensures r.Some? ==> |r.value| <= |b|
    decreases |b|, 1
  {
    match tag % 8
    case 0 => (match ReadVarint(b) case None => None case Some(x) => Some(x.rest))
    case 1 => Drop(b, 8)
    case 2 => (match ReadRecord(b) case None => None case Some(x) => Some(x.rest))
    case 3 => if depth == 0 then None else SkipGroup(tag / 8, b, depth - 1)
    case 5 => Drop(b, 4)
    case _ => None
  }

  /** SkipMessage up to the END_GROUP tag that carries the same field number. */
  function SkipGroup(number: nat, b: seq<Byte>, depth: nat): (r: Option<seq<Byte>>)
    ensures r.Some? ==> |r.value| <= |b|
    decreases |b|, 0
  {
    match ReadVarint(b)
    case None => None
    case Some(Read(v, rest)) =>
      var tag := v % TWO32;
      if tag == 0 then None
      else if tag % 8 == 4 then (if tag / 8 == number then Some(rest) else None)
      else
        match SkipField(tag, rest, depth)
        case None => None
        case Some(after) => SkipGroup(number, after, depth)
  }

  /**
   * How MergePartialFromCodedStream ends: false; or true with the fields it has set, where atEnd says that it
   * stopped because the input was used up and not at a zero tag, an unreadable tag or a stray END_GROUP.
   */
  datatype Outcome = Failed | Stopped(fields: Fields, atEnd: bool)

  /** The width and the sign of the C++ field a varint is stored in. */
  function Narrow(k: Kind, n: nat): int {
    if k.U32? then n % TWO32
    else if k.Enum? then ToInt32(n)
    else if n % TWO64 != 0 then 1 else 0
  }

  /** A field that is not a nested message. */
  function ReadScalar(k: Kind, b: seq<Byte>): (r: Option<Read<Value>>)
    requires !k.Repeated?
    ensures r.Some? ==> Shaped(k, r.value.value) && |r.value.rest| < |b|
  {
    if k.Str? || k.Blob? then
      match ReadRecord(b)
      case None => None
      case Some(x) => if k.Blob? || Utf8(x.value) then Some(Read(Octets(x.value), x.rest)) else None
    else
      match ReadVarint(b)
      case None => None
      case Some(x) =>
        Some(Read(Num(Narrow(k, x.value)), x.rest))
  }

  /**
   * ReadLengthAndPushLimit: the record of a nested message and what is behind it. A length that reaches beyond the
   * input, or is no int, is cut down to what is left. A length that cannot be read counts as zero; if the input ends
   * within it, it has been used up.
   */
  function NestedRecord(b: seq<Byte>): (r: Read<seq<Byte>>)
    ensures |r.rest| <= |b|
    ensures ReadRecord(b).Some? ==> r == ReadRecord(b).value
  {
    match ReadVarint(b)
    case None => if |b| < MAX_VARINT_BYTES then Read([], []) else Read([], b)
    case Some(Read(n, rest)) =>
      var len := n % TWO32;
      if len < TWO31 && len <= |rest| then Read(rest[..len], rest[len..]) else Read(rest, [])
  }

  function ReadField(k: Kind, old_: Value, b: seq<Byte>, depth: nat): (r: Option<Read<Value>>)
    requires Shaped(k, old_) && (k.Repeated? ==> Small(k.schema))
    ensures r.Some? ==> Shaped(k, r.value.value) && |r.value.rest| <= |b|
    decreases depth, |b|, 0
  {
    if !k.Repeated? then ReadScalar(k, b)
    else if depth == 0 then None
    else
      var x := NestedRecord(b);
      match ReadNested(k.schema, x.value, depth - 1)
      case None => None
      case Some(item) => Some(Read(Items(old_.items + [item]), x.rest))
  }

  /** A nested message must use up exactly its record. */
  function ReadNested(sub: Schema, record: seq<Byte>, depth: nat): Option<Fields>
    requires Small(sub)
    decreases depth, |record|, 2
  {
    match Parse(sub, Default(sub), record, depth)
    case Failed => None
    case Stopped(item, atEnd) => if atEnd then Some(item) else None
  }

  /** What ReadTag and the switch on the tag find at the front of the input. */
  datatype Token = End | Halt | Known(index: nat, rest: seq<Byte>) | Unknown(tag: nat, rest: seq<Byte>)

  /** ReadTag: the tag at the front, 0 when there is none or it cannot be read, and what is behind it. */
  function TagAt(b: seq<Byte>): (r: Read<nat>)
    ensures r.value != 0 ==> |r.rest| < |b|
  {
    match ReadVarint(b)
    case None => Read(0, b)
    case Some(Read(v, rest)) => Read(v % TWO32, rest)
  }

  function Classify(s: Schema, tag: nat, rest: seq<Byte>): (t: Token)
    requires |s| <= 15
    ensures t.Known? ==> t.index < |s| && t.rest == rest && tag <= 127
    ensures t.Unknown? ==> t.rest == rest
    ensures !t.End?
  {
    if 1 <= tag / 8 <= |s| && tag == Tag(s, tag / 8 - 1) then Token.Known(tag / 8 - 1, rest)
    else if tag % 8 == 4 then Halt
    else Unknown(tag, rest)
  }

  function NextToken(s: Schema, b: seq<Byte>): (t: Token)
    requires |s| <= 15
    ensures t.Known? ==> t.index < |s| && |t.rest| < |b|
    ensures t.Unknown? ==> |t.rest| < |b|
  {
    var tag := TagAt(b);
    if b == [] then End
    else if tag.value == 0 then Halt
    else Classify(s, tag.value, tag.rest)
  }

  /**
   * The plain reading loop: take a tag, then switch on it. Merges what the bytes hold into f.
   */
  function Parse(s: Schema, f: Fields, b: seq<Byte>, depth: nat): (o: Outcome)
    requires ShapedAll(s, f)
    ensures o.Stopped? ==> ShapedAll(s, o.fields)
    decreases depth, |b|, 1
  {
    match NextToken(s, b)
    case End => Stopped(f, true)
    case Halt => Stopped(f, false)
    case Known(i, rest) => Continue(s, f, i, rest, depth)
    case Unknown(tag, rest) =>
      match SkipField(tag, rest, depth)
      case None => Failed
      case Some(after) => Parse(s, f, after, depth)
  }

  /** Field i is next and its tag is already consumed. */
  function Continue(s: Schema, f: Fields, i: nat, b: seq<Byte>, depth: nat): (o: Outcome)
    requires ShapedAll(s, f) && i < |s|
    ensures o.Stopped? ==> ShapedAll(s, o.fields)
    decreases depth, |b|, 2
  {
    match ReadField(s[i], f[i], b, depth)
    case None => Failed
    case Some(x) => Parse(s, f[i := x.value], x.rest, depth)
  }

  /** The recursion limit of a CodedInputStream. */
  const RECURSION_LIMIT := 100

  /** ParseFromArray: a fresh message that must use up the whole input. */
  function ParseFromArray(s: Schema, b: seq<Byte>): (r: Option<Fields>)
    requires Small(s)
    ensures r.Some? ==> ShapedAll(s, r.value)
  {
    var o := Parse(s, Default(s), b, RECURSION_LIMIT);
    if o.Stopped? && o.atEnd then Some(o.fields) else None
  }
}
