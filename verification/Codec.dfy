/**
 * lkpCodec: a frame is a length, a type name, the protobuf data and an Adler-32 checksum, and a connection takes
 * frames off a byte stream that arrives in arbitrary pieces.
 */
module Codec {
  import opened Bytes
  import opened Wire
  import opened WireTheorems
  import opened Messages
  import opened Adler

  const HEADER_LEN := 4
  const MIN_MESSAGE_LEN := 2 * HEADER_LEN + 2
  const MAX_MESSAGE_LEN := 64 * 1024 * 1024

  datatype ErrorCode = InvalidLength | CheckSumError | InvalidNameLen | UnknownMessageType | ParseError

  datatype Parsed = Ok(message: Msg) | Err(error: ErrorCode)

  /** asInt32 */
  function AsInt32(s: seq<Byte>): int
    requires |s| == 4
  {
    ToInt32(FromBigEndian(s))
  }

  // ---- Frames ---------------------------------------------------------------------------------------------

  /** nameLen, the name with its closing zero, and the data. */
  function BodyOf(name: seq<Byte>, data: seq<Byte>): (b: seq<Byte>)
    requires |name| + 1 < TWO31
    ensures |b| == HEADER_LEN + |name| + 1 + |data|
  {
    BigEndian(|name| + 1) + (name + [0]) + data
  }

  /** The body and its checksum. */
  function Sealed(body: seq<Byte>): (p: seq<Byte>)
    ensures |p| == |body| + HEADER_LEN
  {
    body + BigEndian(Checksum(body))
  }

  function WithLength(p: seq<Byte>): seq<Byte>
    requires |p| < TWO31
  {
    BigEndian(|p|) + p
  }

  /** Everything in a frame behind its length field. */
  function Contents(m: Msg): seq<Byte>
    requires WellFormed(m)
  {
    Sealed(BodyOf(TypeName(m.kind), Serialize(SchemaOf(m.kind), m.fields)))
  }

  /** ByteSize, and with it every length in the frame, is an int. */
  predicate Sendable(m: Msg) {
    WellFormed(m) && |Contents(m)| < TWO31
  }

  /** fillEmptyBuffer */
  function Frame(m: Msg): seq<Byte>
    requires Sendable(m)
  {
    WithLength(Contents(m))
  }

  /** createMessage and ParseFromArray */
  function ParseNamed(name: seq<Byte>, data: seq<Byte>): Parsed {
    match FindType(name)
    case None => Err(UnknownMessageType)
    case Some(t) =>
      match ParseFromArray(SchemaOf(t), data)
      case None => Err(ParseError)
      case Some(fields) => Ok(Msg(t, fields))
  }

  /** parse: the bytes behind the length field. */
  function ParseFrame(p: seq<Byte>): (r: Parsed)
    requires |p| >= MIN_MESSAGE_LEN
  {
    var len := |p|;
    var body := p[..len - HEADER_LEN];
    if Checksum(body) != FromBigEndian(p[len - HEADER_LEN..]) then Err(CheckSumError)
    else
      var nameLen := AsInt32(p[..HEADER_LEN]);
      if !(2 <= nameLen <= len - 2 * HEADER_LEN) then Err(InvalidNameLen)
      else ParseNamed(p[HEADER_LEN..HEADER_LEN + nameLen - 1], body[HEADER_LEN + nameLen..])
  }

  // ---- The stream -----------------------------------------------------------------------------------------

  /** What the loop of onMessage finds at the front of the buffer. */
  datatype Head = Wait | Bad(error: ErrorCode) | Got(message: Msg, rest: seq<Byte>)

  function HeadOf(b: seq<Byte>): (h: Head)
    ensures h.Got? ==> |h.rest| + MIN_MESSAGE_LEN + HEADER_LEN <= |b|
  {
    if |b| < MIN_MESSAGE_LEN + HEADER_LEN then Wait
    else
      var len := AsInt32(b[..HEADER_LEN]);
      if len > MAX_MESSAGE_LEN || len < MIN_MESSAGE_LEN then Bad(InvalidLength)
      else if |b| >= len + HEADER_LEN then
        match ParseFrame(b[HEADER_LEN..HEADER_LEN + len])
        case Ok(m) => Got(m, b[HEADER_LEN + len..])
        case Err(e) => Bad(e)
      else Wait
  }

  /** The messages one call of onMessage delivers, the bytes it leaves in the buffer, the error it reports. */
  datatype Drained = Drained(messages: seq<Msg>, rest: seq<Byte>, error: Option<ErrorCode>)

  function Drain(b: seq<Byte>): (d: Drained)
    decreases |b|
  {
    match HeadOf(b)
    case Wait => Drained([], b, None)
    case Bad(e) => Drained([], b, Some(e))
    case Got(m, rest) => var d := Drain(rest); d.(messages := [m] + d.messages)
  }

  /** A connection: its input buffer, what it has delivered, the errors it has reported. */
  datatype Connection = Connection(buffer: seq<Byte>, delivered: seq<Msg>, errors: seq<ErrorCode>)

  const FRESH := Connection([], [], [])

  /** onMessage runs. */
  function Settle(c: Connection): Connection {
    var d := Drain(c.buffer);
    Connection(d.rest, c.delivered + d.messages, c.errors + (if d.error.Some? then [d.error.value] else []))
  }

  /** A piece of the stream arrives and onMessage runs. */
  function Receive(c: Connection, piece: seq<Byte>): Connection {
    Settle(c.(buffer := c.buffer + piece))
  }

  function ReceiveAll(c: Connection, pieces: seq<seq<Byte>>): Connection {
    if pieces == [] then c else Receive(ReceiveAll(c, pieces[..|pieces| - 1]), pieces[|pieces| - 1])
  }

  function Flatten(pieces: seq<seq<Byte>>): seq<Byte> {
    if pieces == [] then [] else Flatten(pieces[..|pieces| - 1]) + pieces[|pieces| - 1]
  }

  /** One turn of the loop leads to the same end. */
  lemma SettleStep(c: Connection)
    ensures Settle(c) ==
            match HeadOf(c.buffer)
            case Got(m, rest) => Settle(Connection(rest, c.delivered + [m], c.errors))
            case Bad(e) => c.(errors := c.errors + [e])
            case Wait => c
  {
    hide HeadOf;
    if HeadOf(c.buffer).Got? {
      var d := Drain(HeadOf(c.buffer).rest);
      Regroup(c.delivered, [HeadOf(c.buffer).message], d.messages);
    }
  }

  // ---- Imperative form ------------------------------------------------------------------------------------

  /** The part of muduo's Buffer that the codec uses. */
  class Buffer {
    var readable: seq<Byte>

    constructor ()
      ensures readable == []
    {
      readable := [];
    }

    method Append(data: seq<Byte>)
      modifies this
      ensures readable == old(readable) + data
    {
      readable := readable + data;
    }

    method Prepend(data: seq<Byte>)
      modifies this
      ensures readable == data + old(readable)
    {
      readable := data + readable;
    }

    method Retrieve(n: nat)
      requires n <= |readable|
      modifies this
      ensures readable == old(readable)[n..]
    {
      readable := readable[n..];
    }
  }

  class LkpCodec {
    /** The calls made to messageCallback_ and errorCallback_. */
    var delivered: seq<Msg>
    var errors: seq<ErrorCode>

    constructor ()
      ensures delivered == [] && errors == []
    {
      delivered, errors := [], [];
    }

    /** ByteSizeConsistencyError cannot happen: what is written is as long as ByteSize announced. */
    method FillEmptyBuffer(buf: Buffer, m: Msg)
      requires buf.readable == [] && Sendable(m)
      modifies buf
      ensures buf.readable == Frame(m)
    {
      var byteSize := ByteSize(SchemaOf(m.kind), m.fields);
      var written := Serialize(SchemaOf(m.kind), m.fields);
      ByteSizeAgrees(SchemaOf(m.kind), m.fields);
      assert |written| == byteSize;
      FillWith(buf, TypeName(m.kind), written);
    }

    method FillWith(buf: Buffer, name: seq<Byte>, written: seq<Byte>)
      requires buf.readable == [] && |name| + |written| + 2 * HEADER_LEN + 1 < TWO31
      modifies buf
      ensures buf.readable == WithLength(Sealed(BodyOf(name, written)))
    {
      hide BigEndian, Checksum;
      var nameLen := |name| + 1;
      buf.Append(BigEndian(nameLen));
      buf.Append(name + [0]);
      buf.Append(written);
      assert buf.readable == BodyOf(name, written);
      var checkSum := Adler32(buf.readable);
      buf.Append(BigEndian(checkSum));
      buf.Prepend(BigEndian(|buf.readable|));
    }

    /** One turn of that loop: a callback for a complete frame, which then leaves the buffer. */
    method TakeFrame(buf: Buffer) returns (again: bool)
      modifies this, buf
      ensures match HeadOf(old(buf.readable))
              case Got(m, rest) => again && delivered == old(delivered) + [m] && buf.readable == rest
                                   && errors == old(errors)
              case Bad(e) => !again && delivered == old(delivered) && buf.readable == old(buf.readable)
                             && errors == old(errors) + [e]
              case Wait => !again && delivered == old(delivered) && buf.readable == old(buf.readable)
                           && errors == old(errors)
    {
      hide ParseFrame, AsInt32;
      again := false;
      if |buf.readable| >= MIN_MESSAGE_LEN + HEADER_LEN {
        var len := AsInt32(buf.readable[..HEADER_LEN]);
        if len > MAX_MESSAGE_LEN || len < MIN_MESSAGE_LEN {
          errors := errors + [InvalidLength];
        } else if |buf.readable| >= len + HEADER_LEN {
          match ParseFrame(buf.readable[HEADER_LEN..HEADER_LEN + len]) {
            case Ok(message) =>
              delivered := delivered + [message];
              buf.Retrieve(HEADER_LEN + len);
              again := true;
            case Err(error) =>
              errors := errors + [error];
          }
        }
      }
    }

    ghost function View(buf: Buffer): Connection
      reads this, buf
    {
      Connection(buf.readable, delivered, errors)
    }

    /** onMessage: frames are taken until one is incomplete or bad. */
    method OnMessage(buf: Buffer)
      modifies this, buf
      ensures View(buf) == Settle(old(View(buf)))
    {
      hide HeadOf, Settle;
      var again := true;
      while again
        invariant if again then Settle(View(buf)) == Settle(old(View(buf))) else View(buf) == Settle(old(View(buf)))
        decreases again, |buf.readable|
      {
        SettleStep(View(buf));
        again := TakeFrame(buf);
      }
    }
  }
}
