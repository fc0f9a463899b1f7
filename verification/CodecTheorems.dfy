/** What the frames and the reassembly loop promise. */
module CodecTheorems {
  import opened Bytes
  import opened Wire
  import opened WireTheorems
  import opened Messages
  import opened Adler
  import opened Codec

  // ---- One frame ------------------------------------------------------------------------------------------

  lemma AsInt32BigEndian(n: nat)
    requires n < TWO31
    ensures AsInt32(BigEndian(n)) == n
  {
    BigEndianRoundTrip(n);
  }

  /** Where the four parts of a frame's contents lie. */
  lemma Parts(length: seq<Byte>, name: seq<Byte>, data: seq<Byte>, sum: seq<Byte>)
    requires |length| == |sum| == 4
    ensures var p := length + (name + [0]) + data + sum;
            p[..|p| - 4] == length + (name + [0]) + data && p[|p| - 4..] == sum && p[..4] == length
            && p[4..4 + |name|] == name && p[..|p| - 4][4 + |name| + 1..] == data
  {
    var p := length + (name + [0]) + data + sum;
    assert p[..|p| - 4] == length + (name + [0]) + data;
    assert (length + (name + [0]) + data)[4 + |name| + 1..] == data;
  }

  /** A frame that was built from a name and data is taken apart into them. */
  lemma ParseSealed(name: seq<Byte>, data: seq<Byte>)
    requires name != [] && |name| + |data| + 9 < TWO31
    ensures |Sealed(BodyOf(name, data))| >= MIN_MESSAGE_LEN
    ensures ParseFrame(Sealed(BodyOf(name, data))) == ParseNamed(name, data)
  {
    hide BigEndian, FromBigEndian, Checksum, AsInt32, ParseNamed;
    var body := BodyOf(name, data);
    BigEndianRoundTrip(Checksum(body));
    AsInt32BigEndian(|name| + 1);
    Parts(BigEndian(|name| + 1), name, data, BigEndian(Checksum(body)));
  }

  lemma ParseNamedBack(m: Msg)
    requires WellFormed(m) && |Serialize(SchemaOf(m.kind), m.fields)| < TWO31
    ensures ParseNamed(TypeName(m.kind), Serialize(SchemaOf(m.kind), m.fields)) == Ok(m)
  {
    FindTypeOfName(m.kind);
    NestsMore(SchemaOf(m.kind), 1, RECURSION_LIMIT);
    RoundTrip(SchemaOf(m.kind), m.fields);
  }

  /** parse undoes fillEmptyBuffer. */
  lemma ParseContents(m: Msg)
    requires Sendable(m)
    ensures |Contents(m)| >= MIN_MESSAGE_LEN
    ensures ParseFrame(Contents(m)) == Ok(m)
  {
    ParseNamedBack(m);
    NameNotEmpty(m.kind);
    ParseSealed(TypeName(m.kind), Serialize(SchemaOf(m.kind), m.fields));
  }

  lemma NameNotEmpty(t: Type)
    ensures TypeName(t) != []
  {
    assert |"lkpMessage."| == 11;
  }

  /** The receiver's limit on a frame. */
  predicate WithinLimit(m: Msg)
    requires Sendable(m)
  {
    |Contents(m)| <= MAX_MESSAGE_LEN
  }

  lemma HeadWithLength(p: seq<Byte>, rest: seq<Byte>)
    requires MIN_MESSAGE_LEN <= |p| < TWO31
    ensures HeadOf(WithLength(p) + rest) ==
            if |p| > MAX_MESSAGE_LEN then Bad(InvalidLength)
            else match ParseFrame(p) case Ok(m) => Got(m, rest) case Err(e) => Bad(e)
  {
    AsInt32BigEndian(|p|);
    hide BigEndian, AsInt32, ParseFrame;
    var b := WithLength(p) + rest;
    assert b[..4] == BigEndian(|p|);
    assert b[4..4 + |p|] == p;
    assert b[4 + |p|..] == rest;
  }

  /** A frame at the front of the buffer is delivered if it is within the limit and refused if it is not. */
  lemma HeadOfFrame(m: Msg, rest: seq<Byte>)
    requires Sendable(m)
    ensures HeadOf(Frame(m) + rest) == if WithinLimit(m) then Got(m, rest) else Bad(InvalidLength)
  {
    ParseContents(m);
    HeadWithLength(Contents(m), rest);
  }

  // ---- What is on the wire --------------------------------------------------------------------------------

  /** Four octets in network byte order. */
  function Word(b: seq<Byte>, at: nat): (n: nat)
    requires at + 4 <= |b|
    ensures n < 0x1_0000_0000
  {
    b[at] as int * 16777216 + b[at + 1] as int * 65536 + b[at + 2] as int * 256 + b[at + 3] as int
  }

  function Signed(n: nat): int {
    if n < 0x8000_0000 then n else n - 0x1_0000_0000
  }

  /** The checksum of Adler-32 over body, as a number. */
  predicate IsChecksum(n: nat, body: seq<Byte>) {
    n % 65536 == (1 + Total(body)) % 65521 && n / 65536 == (|body| + Weighted(body)) % 65521
  }

  lemma WordIs(b: seq<Byte>, at: nat)
    requires at + 4 <= |b|
    ensures FromBigEndian(b[at..at + 4]) == Word(b, at) && AsInt32(b[at..at + 4]) == Signed(Word(b, at))
  {
  }

  lemma ChecksumUnique(n: nat, body: seq<Byte>)
    ensures IsChecksum(n, body) <==> n == Checksum(body)
  {
    ChecksumIs(body);
    hide Total, Weighted, Checksum;
  }

  /** A frame, octet by octet: length, length of the name, name, zero, data, checksum. */
  lemma FrameLayout(m: Msg)
    requires Sendable(m)
    ensures var b, name, data := Frame(m), TypeName(m.kind), Serialize(SchemaOf(m.kind), m.fields);
            var end := 9 + |name| + |data|;
            |b| == end + 4 && Word(b, 0) == |b| - 4 && Word(b, 4) == |name| + 1
            && b[8..8 + |name|] == name && b[8 + |name|] == 0 && b[9 + |name|..end] == data
            && IsChecksum(Word(b, end), b[4..end])
  {
    hide TypeName, Serialize, Checksum, BigEndian, FromBigEndian, AsInt32, Word, IsChecksum, SchemaOf, FitsAll;
    hide Frame, Assembled;
    var name, data := TypeName(m.kind), Serialize(SchemaOf(m.kind), m.fields);
    var body := BodyOf(name, data);
    var sum := BigEndian(Checksum(body));
    Slices(BigEndian(|body| + 4), BigEndian(|name| + 1), name, data, sum);
    var b, end := Frame(m), 9 + |name| + |data|;
    FrameIs(m);
    WordBack(b, 0, |body| + 4);
    WordBack(b, 4, |name| + 1);
    WordBack(b, end, Checksum(body));
    ChecksumUnique(Checksum(body), body);
  }

  function Assembled(
    length: seq<Byte>, nameLen: seq<Byte>, name: seq<Byte>, data: seq<Byte>, sum: seq<Byte>): seq<Byte>
  {
    length + (nameLen + (name + [0]) + data + sum)
  }

  lemma FrameIs(m: Msg)
    requires Sendable(m)
    ensures var name, data := TypeName(m.kind), Serialize(SchemaOf(m.kind), m.fields);
            var body := BodyOf(name, data);
            Frame(m) == Assembled(BigEndian(|body| + 4), BigEndian(|name| + 1), name, data, BigEndian(Checksum(body)))
  {
    hide TypeName, Serialize, Checksum, BigEndian, SchemaOf, FitsAll;
  }

  lemma Slices(length: seq<Byte>, nameLen: seq<Byte>, name: seq<Byte>, data: seq<Byte>, sum: seq<Byte>)
    requires |length| == |nameLen| == |sum| == 4
    ensures var b, end := Assembled(length, nameLen, name, data, sum), 9 + |name| + |data|;
            |b| == end + 4 && b[..4] == b[0..4] == length && b[4..8] == nameLen && b[8..8 + |name|] == name
            && b[8 + |name|] == 0 && b[9 + |name|..end] == data && b[end..end + 4] == sum
            && b[4..end] == nameLen + (name + [0]) + data
  {
  }

  lemma WordBack(b: seq<Byte>, at: nat, n: nat)
    requires at + 4 <= |b| && n < TWO32 && b[at..at + 4] == BigEndian(n)
    ensures Word(b, at) == n
  {
    WordIs(b, at);
    BigEndianRoundTrip(n);
  }

  /** The names that travel in the frames. */
  function FullName(t: Type): string {
    match t
    case Command => "lkpMessage.Command"
    case File => "lkpMessage.File"
    case CommandAck => "lkpMessage.CommandACK"
    case HeartBeat => "lkpMessage.HeartBeat"
    case PushAck => "lkpMessage.PushACK"
    case Return => "lkpMessage.Return"
    case NodeInfo => "lkpMessage.Return.NodeInfo"
  }

  lemma RequestNames(t: Type)
    requires t.Command? || t.File? || t.HeartBeat?
    ensures FullName(t) == "lkpMessage." + ShortName(t)
  {
  }

  lemma ReplyNames(t: Type)
    requires t.CommandAck? || t.PushAck? || t.Return? || t.NodeInfo?
    ensures FullName(t) == "lkpMessage." + ShortName(t)
  {
  }

  lemma NamesAre(t: Type)
    ensures TypeName(t) == Ascii(FullName(t))
  {
    hide FullName, ShortName;
    if t.Command? || t.File? || t.HeartBeat? {
      RequestNames(t);
    } else {
      ReplyNames(t);
    }
    assert Ascii("lkpMessage." + ShortName(t)) == Ascii("lkpMessage.") + Ascii(ShortName(t));
  }

  lemma AsciiIs(s: string, i: nat)
    requires i < |s| && s[i] < 128 as char
    ensures Ascii(s)[i] == s[i] as int
  {
  }

  /** Which fault of a frame is reported as what, in the order in which the faults are looked for. */
  lemma Verdicts(p: seq<Byte>)
    requires |p| >= 10
    ensures var end, n := |p| - 4, Signed(Word(p, 0));
            var right, named := IsChecksum(Word(p, end), p[..end]), 2 <= n <= |p| - 8;
            (ParseFrame(p) == Err(CheckSumError) <==> !right)
            && (ParseFrame(p) == Err(InvalidNameLen) <==> right && !named)
            && (right && named ==> IsNamedVerdict(p[4..3 + n], p[4 + n..end], ParseFrame(p)))
            && ParseFrame(p) != Err(InvalidLength)
  {
    hide TypeName, Checksum, FromBigEndian, AsInt32, Word, IsChecksum, Signed, ParseNamed, IsNamedVerdict;
    var end := |p| - 4;
    assert p[0..4] == p[..4] && p[end..end + 4] == p[end..];
    WordIs(p, 0);
    WordIs(p, end);
    ChecksumUnique(Word(p, end), p[..end]);
    var n := Signed(Word(p, 0));
    if 2 <= n <= |p| - 8 {
      assert p[..end][4 + n..] == p[4 + n..end];
      NamedVerdict(p[4..3 + n], p[4 + n..end]);
    }
  }

  /** A name that no type has, data that the type it names cannot be parsed from, or a message. */
  predicate IsNamedVerdict(name: seq<Byte>, data: seq<Byte>, r: Parsed) {
    match r
    case Err(UnknownMessageType) => forall t: Type :: TypeName(t) != name
    case Err(ParseError) => exists t: Type :: TypeName(t) == name && ParseFromArray(SchemaOf(t), data).None?
    case Err(_) => false
    case Ok(m) => TypeName(m.kind) == name && ParseFromArray(SchemaOf(m.kind), data) == Some(m.fields)
  }

  lemma NamedVerdict(name: seq<Byte>, data: seq<Byte>)
    ensures IsNamedVerdict(name, data, ParseNamed(name, data))
    ensures ParseNamed(name, data).Err? ==> ParseNamed(name, data).error in [UnknownMessageType, ParseError]
  {
    hide TypeName, ParseFromArray, SchemaOf, FindType;
    forall t | TypeName(t) == name ensures FindType(name) == Some(t) {
      FindTypeOfName(t);
    }
  }

  /** When the loop waits, and which lengths it refuses. */
  lemma LengthsAre(b: seq<Byte>)
    ensures |b| < 14 ==> HeadOf(b).Wait?
    ensures |b| >= 14 ==>
              var len := Signed(Word(b, 0));
              (HeadOf(b).Wait? <==> 10 <= len <= 67108864 && |b| < len + 4)
              && (HeadOf(b) == Bad(InvalidLength) <==> !(10 <= len <= 67108864))
              && (HeadOf(b).Got? ==>
                    HeadOf(b).rest == b[len + 4..] && ParseFrame(b[4..len + 4]) == Ok(HeadOf(b).message))
  {
    hide Word, AsInt32, ParseFrame, Signed, IsChecksum;
    if |b| >= 14 {
      assert b[0..4] == b[..4];
      WordIs(b, 0);
      var len := Signed(Word(b, 0));
      if 10 <= len && |b| >= len + 4 {
        NotALength(b[4..len + 4]);
      }
    }
  }

  lemma NotALength(p: seq<Byte>)
    requires |p| >= 10
    ensures ParseFrame(p) != Err(InvalidLength)
  {
    Verdicts(p);
  }

  // ---- Damage ---------------------------------------------------------------------------------------------

  /** A frame whose checksum is right. */
  predicate Intact(p: seq<Byte>) {
    |p| >= MIN_MESSAGE_LEN && Checksum(p[..|p| - HEADER_LEN]) == FromBigEndian(p[|p| - HEADER_LEN..])
  }

  /** Changing any one octet of an intact frame, in the body or in the checksum, is reported as such. */
  lemma CorruptionDetected(p: seq<Byte>, j: nat, y: Byte)
    requires Intact(p) && j < |p| && y != p[j]
    ensures ParseFrame(p[j := y]) == Err(CheckSumError)
  {
    hide Checksum, FromBigEndian, AsInt32, ParseNamed;
    var k := |p| - HEADER_LEN;
    var q := p[j := y];
    if j < k {
      assert q[..k] == p[..k][j := y] && q[k..] == p[k..];
      SingleOctetDetected(p[..k], j, y);
    } else {
      assert q[..k] == p[..k];
      assert q[k..][j - k] == y && p[k..][j - k] == p[j];
      if FromBigEndian(q[k..]) == FromBigEndian(p[k..]) {
        FromBigEndianInjective(q[k..], p[k..]);
        assert false;
      }
    }
  }

  lemma SwappedFront(p: seq<Byte>, i: nat, j: nat, k: nat)
    requires i < j < k <= |p|
    ensures |Swapped(p, i, j)| == |p|
    ensures Swapped(p, i, j)[..k] == Swapped(p[..k], i, j) && Swapped(p, i, j)[k..] == p[k..]
  {
  }

  /** So is exchanging two unequal octets of the body that are at most 256 places apart. */
  lemma TranspositionDetected(p: seq<Byte>, i: nat, j: nat)
    requires Intact(p) && i < j < |p| - HEADER_LEN && j - i <= 256 && p[i] != p[j]
    ensures ParseFrame(Swapped(p, i, j)) == Err(CheckSumError)
  {
    hide Checksum, FromBigEndian, AsInt32, ParseNamed, Swapped;
    var k := |p| - HEADER_LEN;
    SwappedFront(p, i, j, k);
    NearSwapDetected(p[..k], i, j);
  }

  // ---- The stream -----------------------------------------------------------------------------------------

  /** More input changes the verdict on the front of the buffer only if there was none yet. */
  lemma HeadIsStable(b: seq<Byte>, more: seq<Byte>)
    ensures match HeadOf(b)
            case Wait => true
            case Bad(e) => HeadOf(b + more) == Bad(e)
            case Got(m, rest) => HeadOf(b + more) == Got(m, rest + more)
  {
    hide ParseFrame, AsInt32;
    if |b| >= MIN_MESSAGE_LEN + HEADER_LEN {
      assert (b + more)[..4] == b[..4];
      var len := AsInt32(b[..4]);
      if MIN_MESSAGE_LEN <= len <= MAX_MESSAGE_LEN && |b| >= len + 4 {
        assert (b + more)[4..4 + len] == b[4..4 + len];
        assert (b + more)[4 + len..] == b[4 + len..] + more;
      }
    }
  }

  /** Draining in two steps is draining once. */
  lemma {:induction false} DrainInTwoSteps(b: seq<Byte>, more: seq<Byte>)
    ensures var first, second := Drain(b), Drain(Drain(b).rest + more);
            Drain(b + more) == second.(messages := first.messages + second.messages)
    ensures Drain(b).error.Some? ==> Drain(b + more).error == Drain(b).error
    decreases |b|
  {
    HeadIsStable(b, more);
    hide HeadOf;
    match HeadOf(b)
    case Wait =>
    case Bad(e) =>
    case Got(m, rest) => DrainInTwoSteps(rest, more);
  }

  /**
   * However the stream is cut, the messages delivered and the bytes left over are those of the whole stream taken
   * at once, and an error is reported along the way only if the whole stream ends in one.
   */
  lemma {:induction false} ChunkingIndependence(pieces: seq<seq<Byte>>)
    ensures var c, d := ReceiveAll(FRESH, pieces), Drain(Flatten(pieces));
            c.delivered == d.messages && c.buffer == d.rest
            && (c.errors != [] ==> d.error.Some?) && (forall e <- c.errors :: d.error == Some(e))
    ensures pieces != [] && Drain(Flatten(pieces)).error.Some? ==> ReceiveAll(FRESH, pieces).errors != []
  {
    hide HeadOf;
    if pieces != [] {
      var init, last := pieces[..|pieces| - 1], pieces[|pieces| - 1];
      ChunkingIndependence(init);
      DrainInTwoSteps(Flatten(init), last);
    }
  }

  /** Once the front of the buffer is bad, no later call delivers anything, and each reports the same error. */
  lemma {:induction false} ErrorsAreSticky(c: Connection, pieces: seq<seq<Byte>>)
    requires HeadOf(c.buffer).Bad?
    ensures var after := ReceiveAll(c, pieces);
            after.delivered == c.delivered && after.buffer == c.buffer + Flatten(pieces)
            && HeadOf(after.buffer) == HeadOf(c.buffer)
            && after.errors == c.errors + seq(|pieces|, i => HeadOf(c.buffer).error)
  {
    hide HeadOf;
    if pieces == [] {
      assert c.buffer + [] == c.buffer;
    } else {
      var init, last := pieces[..|pieces| - 1], pieces[|pieces| - 1];
      ErrorsAreSticky(c, init);
      HeadIsStable(c.buffer, Flatten(pieces));
      assert c.buffer + Flatten(init) + last == c.buffer + Flatten(pieces);
      var e := HeadOf(c.buffer).error;
      assert seq(|init|, i => e) + [e] == seq(|pieces|, i => e);
    }
  }

  // ---- End to end -----------------------------------------------------------------------------------------

  predicate AllSendable(ms: seq<Msg>) {
    forall m <- ms :: Sendable(m)
  }

  /** The bytes the sender puts on the connection. */
  function Stream(ms: seq<Msg>): seq<Byte>
    requires AllSendable(ms)
  {
    if ms == [] then [] else Frame(ms[0]) + Stream(ms[1..])
  }

  lemma TailSendable(ms: seq<Msg>)
    requires AllSendable(ms) && ms != []
    ensures Sendable(ms[0]) && AllSendable(ms[1..])
  {
    hide Sendable;
  }

  /** The messages before the first one that exceeds the receiver's limit. */
  function Deliverable(ms: seq<Msg>): (prefix: seq<Msg>)
    requires AllSendable(ms)
    ensures prefix <= ms
  {
    if ms == [] then []
    else
      TailSendable(ms);
      if WithinLimit(ms[0]) then [ms[0]] + Deliverable(ms[1..]) else []
  }

  lemma {:induction false} AllDeliverable(ms: seq<Msg>)
    requires AllSendable(ms)
    ensures Deliverable(ms) == ms <==> forall m <- ms :: WithinLimit(m)
  {
    hide WithinLimit, Sendable;
    if ms != [] {
      AllDeliverable(ms[1..]);
      assert ms == [ms[0]] + ms[1..];
    }
  }

  lemma {:induction false} DrainStream(ms: seq<Msg>)
    requires AllSendable(ms)
    ensures Drain(Stream(ms)).messages == Deliverable(ms)
    ensures Deliverable(ms) == ms ==> Drain(Stream(ms)).rest == [] && Drain(Stream(ms)).error.None?
    ensures Deliverable(ms) != ms ==> Drain(Stream(ms)).error == Some(InvalidLength)
  {
    if ms != [] {
      assert AllSendable(ms[1..]);
      assert ms == [ms[0]] + ms[1..];
      HeadOfFrame(ms[0], Stream(ms[1..]));
      DrainStream(ms[1..]);
    }
  }

  /**
   * For every sequence of messages and every way of cutting their frames into pieces, exactly the messages before
   * the first oversized one are delivered, in order. All of them arrive, the buffer is left empty and no error is
   * reported, if and only if every frame is within 64 MiB.
   */
  lemma StreamRoundTrip(ms: seq<Msg>, pieces: seq<seq<Byte>>)
    requires AllSendable(ms) && Flatten(pieces) == Stream(ms)
    ensures ReceiveAll(FRESH, pieces).delivered == Deliverable(ms)
    ensures ReceiveAll(FRESH, pieces) == Connection([], ms, []) <==> forall m <- ms :: WithinLimit(m)
  {
    ChunkingIndependence(pieces);
    DrainStream(ms);
    AllDeliverable(ms);
  }
}
