/**
 * Files in pieces of 64 KiB: the sender reads on whenever the previous write has completed, the receiver appends and
 * compares sizes at the end. The server pushes test cases this way, the clients send their results back.
 */
module Transfer {
  import opened Bytes

  const CHUNK := 64 * 1024

  /** What the receiver looks at in a File message: TESTCASE or RESULT, or END. */
  datatype Piece = Data(first: bool, fileSize: nat, patchLen: nat, content: seq<Byte>) | End

  // ---- C strings ------------------------------------------------------------------------------------------

  /** set_content(const char*): everything before the first zero. */
  function CString(s: seq<Byte>): seq<Byte> {
    if s == [] || s[0] == 0 then [] else [s[0]] + CString(s[1..])
  }

  /** fwrite(content.c_str(), 1, patchLen, fp), where junk lies in memory behind the terminating zero. */
  function Written(content: seq<Byte>, patchLen: nat, junk: seq<Byte>): (w: seq<Byte>)
    requires |junk| >= patchLen
    ensures |w| == patchLen
  {
    (content + [0] + junk)[..patchLen]
  }

  // ---- The sender -----------------------------------------------------------------------------------------

  /** The open file, how far it has been read, and whether the write-complete callback is installed. */
  datatype Sender = Sender(file: seq<Byte>, pos: nat, armed: bool)

  /** fread(buf, 1, sizeof buf, fp) */
  function NextChunk(s: Sender): (data: seq<Byte>)
    requires s.pos <= |s.file|
    ensures |data| <= |s.file| - s.pos && |data| <= CHUNK && (data == [] <==> s.pos == |s.file|)
  {
    if s.pos + CHUNK <= |s.file| then s.file[s.pos..s.pos + CHUNK] else s.file[s.pos..]
  }

  /** The message for a chunk; tail is what the stack holds from the end of the chunk on. */
  function Carry(s: Sender, first: bool, tail: seq<Byte>): Piece
    requires s.pos <= |s.file|
  {
    var data := NextChunk(s);
    Data(first, if first then |s.file| % TWO32 else 0, |data|, CString(data + tail))
  }

  function Advance(s: Sender): (t: Sender)
    requires s.pos <= |s.file|
    ensures t.pos <= |t.file|
  {
    s.(pos := s.pos + |NextChunk(s)|)
  }

  function Opened(file: seq<Byte>): Sender {
    Sender(file, 0, true)
  }

  /** onWriteComplete */
  function Continue(s: Sender, tail: seq<Byte>): (r: (Sender, Piece))
    requires s.pos <= |s.file|
    ensures r.0.pos <= |r.0.file|
  {
    if NextChunk(s) != [] then (Advance(s), Carry(s, false, tail)) else (s.(armed := false), End)
  }

  // ---- The receiver ---------------------------------------------------------------------------------------

  /**
   * Whether the file is open, its announced size, what has been written to it, and the outcome of the size check.
   * crashed says that a file was written or closed which had been closed before.
   */
  datatype Receiver = Receiver(open: bool, fileSize: int, output: seq<Byte>, verdict: Option<bool>, crashed: bool)

  function MemoryNeeded(p: Piece): nat {
    if p.Data? then p.patchLen else 0
  }

  /** onFileMsg; a first piece opens and truncates the file, END closes it before anything else. */
  function Accept(r: Receiver, p: Piece, junk: seq<Byte>): Receiver
    requires |junk| >= MemoryNeeded(p)
  {
    match p
    case End =>
      if r.open then r.(open := false, verdict := Some(ToInt32(|r.output|) == r.fileSize)) else r.(crashed := true)
    case Data(first, fileSize, patchLen, content) =>
      var w := Written(content, patchLen, junk);
      if first then r.(open := true, fileSize := ToInt32(fileSize), output := w)
      else if r.open then r.(output := r.output + w)
      else r.(crashed := true)
  }

  // ---- One connection -------------------------------------------------------------------------------------

  /**
   * queued counts the write-complete callbacks that are due, and pending says that the connection has output it could
   * not write yet. wire holds the messages in flight. extra counts the other messages that were sent while the
   * callback was installed and no output was pending, so that they complete a write of their own.
   */
  datatype Link = Link(
    sender: Sender, queued: nat, pending: bool, wire: seq<Piece>, receiver: Receiver, extra: nat)

  /** now: the whole message can be written at once. Other is a message that is not part of the transfer. */
  datatype Event = WriteComplete(tail: seq<Byte>, now: bool) | Drain | Deliver(junk: seq<Byte>) | Other(now: bool)

  /**
   * The callbacks due to sending something: output that joins pending output completes together with it, and whether
   * the callback is installed matters when the write completes.
   */
  function Write(l: Link, now: bool): Link {
    if l.pending then l
    else if now then l.(queued := if l.sender.armed then l.queued + 1 else l.queued)
    else l.(pending := true)
  }

  /**
   * What a transfer finds: the sender's stack behind the first chunk, whether that chunk can be written at once, and
   * what an earlier transfer left with the receiver.
   */
  datatype Setting = Setting(tail: seq<Byte>, now: bool, open: bool, fileSize: int, output: seq<Byte>)

  /** The first chunk is on its way. */
  function Begin(file: seq<Byte>, x: Setting): Link {
    var s := Opened(file);
    Write(Link(Advance(s), 0, false, [Carry(s, true, x.tail)], Receiver(x.open, x.fileSize, x.output, None, false), 0),
          x.now)
  }

  predicate Enabled(l: Link, e: Event) {
    !l.receiver.crashed && match e
      case WriteComplete(_, _) => l.queued > 0 && l.sender.pos <= |l.sender.file|
      case Drain => l.pending
      case Deliver(junk) => l.wire != [] && |junk| >= MemoryNeeded(l.wire[0])
      case Other(_) => true
  }

  function Step(l: Link, e: Event): Link
    requires Enabled(l, e)
  {
    match e
    case WriteComplete(tail, now) =>
      var (s, p) := Continue(l.sender, tail);
      Write(l.(sender := s, queued := l.queued - 1, wire := l.wire + [p]), now)
    case Drain => l.(pending := false, queued := if l.sender.armed then l.queued + 1 else l.queued)
    case Deliver(junk) => l.(wire := l.wire[1..], receiver := Accept(l.receiver, l.wire[0], junk))
    case Other(now) => Write(if Alone(l) then l.(extra := l.extra + 1) else l, now)
  }

  /** Another message sent now completes a write of its own while the callback is installed. */
  predicate Alone(l: Link) {
    l.sender.armed && !l.pending
  }

  predicate Possible(l: Link, events: seq<Event>)
    decreases |events|
  {
    events != [] ==> Enabled(l, events[0]) && Possible(Step(l, events[0]), events[1..])
  }

  function Run(l: Link, events: seq<Event>): Link
    requires Possible(l, events)
    decreases |events|
  {
    if events == [] then l else Run(Step(l, events[0]), events[1..])
  }

  /** The callbacks that will be made, now or when pending output has been written. */
  function Due(l: Link): nat {
    l.queued + if l.pending && l.sender.armed then 1 else 0
  }

  /** Nothing is in flight and no callback is due. */
  predicate Settled(l: Link) {
    Due(l) == 0 && l.wire == []
  }

  // ---- What is kept ---------------------------------------------------------------------------------------

  /** The total patch_len of messages in flight. */
  function Load(wire: seq<Piece>): nat {
    if wire == [] then 0 else MemoryNeeded(wire[0]) + Load(wire[1..])
  }

  function Ends(wire: seq<Piece>): nat {
    if wire == [] then 0 else (if wire[0].End? then 1 else 0) + Ends(wire[1..])
  }

  /** The ENDs sent so far: in flight, checked, and one that closed the file again. */
  function EndsSent(l: Link): nat {
    Ends(l.wire) + (if l.receiver.verdict.Some? then 1 else 0) + (if l.receiver.crashed then 1 else 0)
  }

  /** The first message of the transfer has not arrived. */
  predicate Unopened(l: Link) {
    l.wire != [] && l.wire[0].Data? && l.wire[0].first
  }

  /** What has been written of the file being transferred. */
  function Arrived(l: Link): seq<Byte> {
    if Unopened(l) then [] else l.receiver.output
  }

  /** Whole chunks have been read, or the whole file. */
  predicate Cursor(s: Sender) {
    s.pos <= |s.file| && (s.pos == |s.file| || s.pos % CHUNK == 0)
  }

  /** Behind an END come only ENDs, and only the first message may open the file. */
  predicate InOrder(wire: seq<Piece>) {
    && (forall i, j :: 0 <= i < j < |wire| && wire[i].End? ==> wire[j].End?)
    && (forall i :: 0 < i < |wire| && wire[i].Data? ==> !wire[i].first)
  }

  /** The receiver knows, or is about to learn, the size of the file, and has it open until the first END. */
  predicate Announced(l: Link) {
    var size, r := |l.sender.file|, l.receiver;
    if Unopened(l) then l.wire[0].fileSize == size % TWO32 && r.verdict.None? && !r.crashed
    else
      && r.fileSize == ToInt32(size) && (r.open <==> r.verdict.None?) && (r.crashed ==> r.verdict.Some?)
      && (r.verdict.Some? ==> r.verdict.value && forall i :: 0 <= i < |l.wire| ==> l.wire[i].End?)
  }

  /** While the callback is installed at least one is due, and afterwards an END has been sent. */
  predicate Counted(l: Link) {
    && (l.sender.armed <==> EndsSent(l) == 0) && (l.sender.armed ==> Due(l) >= 1)
    && EndsSent(l) + Due(l) <= 1 + l.extra
  }

  predicate Inv(l: Link) {
    && Cursor(l.sender) && InOrder(l.wire) && Announced(l) && Counted(l)
    && (!l.sender.armed ==> l.sender.pos == |l.sender.file|)
    // bytes written, in flight and unread
    && |Arrived(l)| + Load(l.wire) == l.sender.pos
  }
}
