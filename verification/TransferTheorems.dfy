/** A transfer loses and repeats nothing, its size check never fails, and when the bytes themselves are right. */
module TransferTheorems {
  import opened Bytes
  import opened Transfer

  // ---- One chunk ------------------------------------------------------------------------------------------

  lemma {:induction false} CStringIsPrefix(s: seq<Byte>)
    ensures CString(s) <= s && forall i :: 0 <= i < |CString(s)| ==> s[i] != 0
    ensures |CString(s)| < |s| ==> s[|CString(s)|] == 0
  {
    if s != [] && s[0] != 0 {
      CStringIsPrefix(s[1..]);
    }
  }

  /** No zero before the last byte. */
  predicate Safe(data: seq<Byte>) {
    forall i :: 0 <= i < |data| - 1 ==> data[i] != 0
  }

  /** The string for a safe chunk is the chunk, except that a zero at its end may be left to the terminator. */
  lemma SafeString(data: seq<Byte>, tail: seq<Byte>)
    requires Safe(data)
    ensures var c := CString(data + tail); |c| + 1 >= |data| && (c + [0])[..|data|] == data
  {
    CStringIsPrefix(data + tail);
    var c := CString(data + tail);
    hide CString;
    assert |c| < |data| ==> (data + tail)[|c|] == 0 && data[|c|] == 0;
    assert |c| >= |data| - 1;
    forall i | 0 <= i < |data| ensures (c + [0])[i] == data[i] {
      assert data[i] == (data + tail)[i];
    }
  }

  lemma SafeChunkArrives(data: seq<Byte>, tail: seq<Byte>, junk: seq<Byte>)
    requires Safe(data) && |junk| >= |data|
    ensures Written(CString(data + tail), |data|, junk) == data
  {
    SafeString(data, tail);
    hide CString, Safe;
  }

  /** The byte behind the first zero is lost: what lies in memory behind the string takes its place. */
  lemma UnsafeChunkIsCut(data: seq<Byte>, tail: seq<Byte>, junk: seq<Byte>)
    requires !Safe(data) && |junk| >= |data|
    ensures var k := |CString(data + tail)| + 1;
            k < |data| && Written(CString(data + tail), |data|, junk)[k] == junk[0]
  {
    CStringIsPrefix(data + tail);
    var z :| 0 <= z < |data| - 1 && data[z] == 0;
    assert (data + tail)[z] == 0;
  }

  /** Some memory contents other than the byte x. */
  function Junk(n: nat, x: Byte): (junk: seq<Byte>)
    ensures |junk| == n && forall i :: 0 <= i < n ==> junk[i] != x
  {
    seq(n, _ => if x == 0 then 1 else 0)
  }

  /** A chunk arrives whatever lies in memory behind it exactly when it holds no zero before its last byte. */
  lemma ChunkIntactIff(data: seq<Byte>, tail: seq<Byte>)
    ensures Safe(data) <==>
              forall junk: seq<Byte> | |junk| >= |data| :: Written(CString(data + tail), |data|, junk) == data
  {
    if Safe(data) {
      forall junk: seq<Byte> | |junk| >= |data| ensures Written(CString(data + tail), |data|, junk) == data {
        SafeChunkArrives(data, tail, junk);
      }
    } else {
      UnsafeChunkIsCut(data, tail, Junk(|data|, 0));
      var k := |CString(data + tail)| + 1;
      UnsafeChunkIsCut(data, tail, Junk(|data|, data[k]));
      assert Written(CString(data + tail), |data|, Junk(|data|, data[k]))[k] != data[k];
    }
  }

  /** 64 KiB are read at a time, or what is left of the file. */
  lemma ChunkIs(s: Sender)
    requires s.pos <= |s.file|
    ensures NextChunk(s) == if s.pos + 65536 <= |s.file| then s.file[s.pos..s.pos + 65536] else s.file[s.pos..]
    ensures Advance(s).pos == if s.pos + 65536 <= |s.file| then s.pos + 65536 else |s.file|
  {
  }

  // ---- What every step keeps ------------------------------------------------------------------------------

  lemma {:induction false} SumsOfOne(wire: seq<Piece>, p: Piece)
    ensures Load(wire + [p]) == Load(wire) + MemoryNeeded(p)
    ensures Ends(wire + [p]) == Ends(wire) + if p.End? then 1 else 0
  {
    if wire == [] {
      assert [] + [p] == [p];
    } else {
      assert (wire + [p])[1..] == wire[1..] + [p];
      SumsOfOne(wire[1..], p);
    }
  }

  lemma {:induction false} EndsOnly(wire: seq<Piece>)
    requires wire != [] && wire[0].End? && forall i, j :: 0 <= i < j < |wire| && wire[i].End? ==> wire[j].End?
    ensures Load(wire) == 0 && Ends(wire) == |wire|
  {
    if |wire| > 1 {
      EndsOnly(wire[1..]);
    }
  }

  lemma {:induction false} NoEnd(wire: seq<Piece>)
    ensures Ends(wire) == 0 <==> forall i :: 0 <= i < |wire| ==> wire[i].Data?
  {
    if wire != [] {
      NoEnd(wire[1..]);
      assert forall i :: 0 < i < |wire| ==> wire[i] == wire[1..][i - 1];
    }
  }

  lemma BeginInv(file: seq<Byte>, x: Setting)
    ensures Inv(Begin(file, x)) && Begin(file, x).sender == Advance(Opened(file))
  {
    hide CString;
    var p := Carry(Opened(file), true, x.tail);
    SumsOfOne([], p);
    assert [] + [p] == [p];
  }

  lemma SentInOrder(wire: seq<Piece>, p: Piece)
    requires InOrder(wire) && (p.Data? ==> Ends(wire) == 0 && !p.first)
    ensures InOrder(wire + [p])
  {
    NoEnd(wire);
  }

  /** Only what concerns callbacks is changed by writing to the connection. */
  lemma WriteKeeps(l: Link, now: bool)
    ensures var t := Write(l, now);
            t == l.(queued := t.queued, pending := t.pending)
            && t.queued + (if t.pending && l.sender.armed then 1 else 0)
               <= Due(l) + (if l.sender.armed && !l.pending then 1 else 0)
            && (l.sender.armed ==> Due(t) >= 1)
            && (l.sender.armed && !l.pending ==> Due(t) == Due(l) + 1)
            && (!l.sender.armed ==> Due(t) == Due(l))
            && (l.pending ==> Due(t) == Due(l))
  {
  }

  lemma SentCounted(l: Link, tail: seq<Byte>, now: bool)
    requires Inv(l) && Enabled(l, WriteComplete(tail, now))
    ensures var t := Step(l, WriteComplete(tail, now)); EndsSent(t) + Due(t) <= EndsSent(l) + Due(l) && Counted(t)
  {
    hide Load, Ends, Arrived, InOrder, Announced, CString;
    var (s, p) := Continue(l.sender, tail);
    SumsOfOne(l.wire, p);
    WriteKeeps(l.(sender := s, queued := l.queued - 1, wire := l.wire + [p]), now);
  }

  lemma SentAnnounced(l: Link, tail: seq<Byte>, now: bool)
    requires Inv(l) && Enabled(l, WriteComplete(tail, now))
    ensures Announced(Step(l, WriteComplete(tail, now)))
    ensures Arrived(Step(l, WriteComplete(tail, now))) == Arrived(l)
  {
    hide Load, Ends, InOrder, CString;
    var (s, p) := Continue(l.sender, tail);
    WriteKeeps(l.(sender := s, queued := l.queued - 1, wire := l.wire + [p]), now);
    var t := Step(l, WriteComplete(tail, now));
    assert Unopened(t) <==> Unopened(l);
  }

  lemma SentKeepsInv(l: Link, tail: seq<Byte>, now: bool)
    requires Inv(l) && Enabled(l, WriteComplete(tail, now))
    ensures Inv(Step(l, WriteComplete(tail, now)))
  {
    hide Load, Ends, InOrder, Announced, Arrived, CString, Due, Counted;
    SentCounted(l, tail, now);
    SentAnnounced(l, tail, now);
    SentBytes(l, tail, now);
  }

  lemma SentBytes(l: Link, tail: seq<Byte>, now: bool)
    requires Inv(l) && Enabled(l, WriteComplete(tail, now))
    ensures var t := Step(l, WriteComplete(tail, now));
            Cursor(t.sender) && InOrder(t.wire) && (!t.sender.armed ==> t.sender.pos == |t.sender.file|)
            && Load(t.wire) - t.sender.pos == Load(l.wire) - l.sender.pos
  {
    hide Load, Ends, InOrder, Announced, Arrived, CString, Due;
    var (s, p) := Continue(l.sender, tail);
    WriteKeeps(l.(sender := s, queued := l.queued - 1, wire := l.wire + [p]), now);
    SumsOfOne(l.wire, p);
    SentInOrder(l.wire, p);
  }

  lemma RestInOrder(wire: seq<Piece>)
    requires InOrder(wire) && wire != []
    ensures InOrder(wire[1..]) && Load(wire) == MemoryNeeded(wire[0]) + Load(wire[1..])
    ensures Ends(wire) == Ends(wire[1..]) + if wire[0].End? then 1 else 0
    ensures wire[0].End? ==> Load(wire[1..]) == 0 && forall i :: 0 <= i < |wire[1..]| ==> wire[1..][i].End?
    ensures wire[1..] != [] && wire[1..][0].Data? ==> !wire[1..][0].first
  {
    if wire[0].End? {
      EndsOnly(wire);
    }
  }

  lemma DeliveredBytes(l: Link, junk: seq<Byte>)
    requires Inv(l) && Enabled(l, Deliver(junk))
    ensures var t := Step(l, Deliver(junk)); |Arrived(t)| + Load(t.wire) == |Arrived(l)| + Load(l.wire) && !Unopened(t)
  {
    hide Load, Ends, InOrder, Written, Counted, Cursor;
    RestInOrder(l.wire);
  }

  lemma DeliveredAnnounced(l: Link, junk: seq<Byte>)
    requires Inv(l) && Enabled(l, Deliver(junk)) && !Unopened(Step(l, Deliver(junk)))
    ensures Announced(Step(l, Deliver(junk)))
  {
    hide Load, Ends, InOrder, Written, Cursor;
    RestInOrder(l.wire);
  }

  lemma DeliveredCounted(l: Link, junk: seq<Byte>)
    requires Inv(l) && Enabled(l, Deliver(junk))
    ensures var t := Step(l, Deliver(junk)); Counted(t) && EndsSent(t) == EndsSent(l) && Due(t) == Due(l)
  {
    hide Load, Ends, InOrder, Written, Cursor, Arrived;
    RestInOrder(l.wire);
  }

  lemma DeliveredKeepsInv(l: Link, junk: seq<Byte>)
    requires Inv(l) && Enabled(l, Deliver(junk))
    ensures Inv(Step(l, Deliver(junk)))
    ensures EndsSent(Step(l, Deliver(junk))) == EndsSent(l) && Due(Step(l, Deliver(junk))) == Due(l)
  {
    hide Load, Ends, InOrder, Announced, Counted, Arrived, Unopened, EndsSent, Due, Accept;
    RestInOrder(l.wire);
    DeliveredBytes(l, junk);
    DeliveredAnnounced(l, junk);
    DeliveredCounted(l, junk);
  }

  lemma StepKeepsInv(l: Link, e: Event)
    requires Inv(l) && Enabled(l, e)
    ensures Inv(Step(l, e))
  {
    match e {
      case WriteComplete(tail, now) => SentKeepsInv(l, tail, now);
      case Drain => DrainKeepsInv(l);
      case Deliver(junk) => DeliveredKeepsInv(l, junk);
      case Other(now) => OtherKeepsInv(l, now);
    }
  }

  lemma DrainKeepsInv(l: Link)
    requires Inv(l) && Enabled(l, Drain)
    ensures Inv(Step(l, Drain)) && Due(Step(l, Drain)) == Due(l) && EndsSent(Step(l, Drain)) == EndsSent(l)
  {
    hide Load, Ends, InOrder;
  }

  lemma OtherKeepsInv(l: Link, now: bool)
    requires Inv(l) && Enabled(l, Other(now))
    ensures var t := Step(l, Other(now)); Inv(t) && t.sender == l.sender && EndsSent(t) == EndsSent(l)
    ensures Due(Step(l, Other(now))) == Due(l) + if Alone(l) then 1 else 0
  {
    hide Load, Ends, InOrder;
    WriteKeeps(if Alone(l) then l.(extra := l.extra + 1) else l, now);
  }

  // ---- Whole runs -----------------------------------------------------------------------------------------

  lemma {:induction false} RunKeepsInv(l: Link, events: seq<Event>)
    requires Inv(l) && Possible(l, events)
    ensures Inv(Run(l, events)) && Run(l, events).sender.file == l.sender.file
    decreases |events|
  {
    if events != [] {
      StepKeepsInv(l, events[0]);
      hide Inv;
      RunKeepsInv(Step(l, events[0]), events[1..]);
    }
  }

  /** Bytes written, bytes in flight and bytes unread add up to the file, and the size check never fails. */
  lemma Conservation(file: seq<Byte>, x: Setting, events: seq<Event>)
    requires Possible(Begin(file, x), events)
    ensures var r := Run(Begin(file, x), events);
            r.sender.pos <= |file| && |Arrived(r)| + Load(r.wire) + (|file| - r.sender.pos) == |file|
            && r.receiver.verdict != Some(false)
  {
    BeginInv(file, x);
    RunKeepsInv(Begin(file, x), events);
  }

  /**
   * The number of ENDs: none while the callback is installed, then at least one and at most one more for every other
   * message that completed a write of its own. If everything settles without a second close, exactly one END was
   * sent, and the whole length of the file has arrived.
   */
  lemma EndsBounded(file: seq<Byte>, x: Setting, events: seq<Event>)
    requires Possible(Begin(file, x), events)
    ensures var r := Run(Begin(file, x), events);
            (if r.sender.armed then EndsSent(r) == 0 else 1 <= EndsSent(r) <= 1 + r.extra)
            && (Settled(r) && !r.receiver.crashed ==>
                  EndsSent(r) == 1 && r.receiver.verdict == Some(true) && |r.receiver.output| == |file|)
  {
    BeginInv(file, x);
    RunKeepsInv(Begin(file, x), events);
  }

  lemma VerdictIsPositive(l: Link)
    requires Inv(l)
    ensures l.receiver.verdict != Some(false)
  {
  }

  /** A bound on the number of steps that are left unless other traffic intervenes. */
  function Steps(l: Link): int {
    3 * (|l.sender.file| - l.sender.pos) + 3 * l.queued + |l.wire|
    + if l.pending then if l.sender.armed then 4 else 1 else 0
  }

  lemma StepDecreases(l: Link, e: Event)
    requires Inv(l) && Enabled(l, e) && !e.Other?
    ensures 0 <= Steps(Step(l, e)) < Steps(l)
  {
    StepKeepsInv(l, e);
    hide Inv, Accept, CString;
  }

  // ---- When the bytes are right ---------------------------------------------------------------------------

  /** Zeros only at the end of a chunk. */
  predicate SafeFile(file: seq<Byte>) {
    forall i :: 0 <= i < |file| - 1 && file[i] == 0 ==> i % CHUNK == CHUNK - 1
  }

  lemma InChunk(pos: nat, i: nat)
    requires pos % CHUNK == 0 && i < CHUNK
    ensures (pos + i) % CHUNK == i
  {
    assert pos == pos / CHUNK * CHUNK;
  }

  lemma ChunkOfSafeFile(s: Sender)
    requires SafeFile(s.file) && Cursor(s)
    ensures Safe(NextChunk(s))
  {
    var data := NextChunk(s);
    forall i | 0 <= i < |data| - 1 ensures data[i] != 0 {
      assert data[i] == s.file[s.pos + i];
      InChunk(s.pos, i);
    }
  }

  /** The bytes a message stands for when its chunk was safe. */
  function Payload(p: Piece): seq<Byte> {
    if p.Data? && p.patchLen <= |p.content| + 1 then (p.content + [0])[..p.patchLen] else []
  }

  function Payloads(wire: seq<Piece>): seq<Byte> {
    if wire == [] then [] else Payload(wire[0]) + Payloads(wire[1..])
  }

  predicate Whole(p: Piece) {
    p.Data? ==> p.patchLen <= |p.content| + 1
  }

  /** Bytes written, bytes in flight and bytes unread, put together, are the file. */
  predicate Exact(l: Link) {
    var s := l.sender;
    && s.pos <= |s.file| && (forall i :: 0 <= i < |l.wire| ==> Whole(l.wire[i]))
    && Arrived(l) + Payloads(l.wire) == s.file[..s.pos]
  }

  lemma {:induction false} PayloadsOfOne(wire: seq<Piece>, p: Piece)
    ensures Payloads(wire + [p]) == Payloads(wire) + Payload(p)
  {
    if wire == [] {
      assert [] + [p] == [p];
    } else {
      assert (wire + [p])[1..] == wire[1..] + [p];
      PayloadsOfOne(wire[1..], p);
    }
  }

  lemma SafePayload(data: seq<Byte>, tail: seq<Byte>, first: bool, fileSize: nat)
    requires Safe(data)
    ensures var p := Data(first, fileSize, |data|, CString(data + tail)); Whole(p) && Payload(p) == data
  {
    SafeString(data, tail);
  }

  lemma ReadOn(s: Sender)
    requires s.pos <= |s.file|
    ensures s.file[..s.pos] + NextChunk(s) == s.file[..Advance(s).pos]
  {
  }

  lemma SafeCarry(s: Sender, first: bool, tail: seq<Byte>)
    requires SafeFile(s.file) && Cursor(s)
    ensures var p := Carry(s, first, tail);
            Whole(p) && s.file[..s.pos] + Payload(p) == s.file[..Advance(s).pos]
  {
    ChunkOfSafeFile(s);
    SafePayload(NextChunk(s), tail, first, if first then |s.file| % TWO32 else 0);
    ReadOn(s);
  }

  lemma WrittenPayload(p: Piece, junk: seq<Byte>)
    requires p.Data? && Whole(p) && |junk| >= p.patchLen
    ensures Written(p.content, p.patchLen, junk) == Payload(p)
  {
  }

  lemma BeginExact(file: seq<Byte>, x: Setting)
    requires SafeFile(file)
    ensures Exact(Begin(file, x))
  {
    SafeCarry(Opened(file), true, x.tail);
    PayloadsOfOne([], Carry(Opened(file), true, x.tail));
  }

  lemma SentPayload(s: Sender, tail: seq<Byte>)
    requires SafeFile(s.file) && Cursor(s)
    ensures var (t, p) := Continue(s, tail);
            t.file == s.file && Whole(p) && s.file[..s.pos] + Payload(p) == s.file[..t.pos]
  {
    SafeCarry(s, false, tail);
  }

  lemma SentKeepsExact(l: Link, tail: seq<Byte>, now: bool)
    requires SafeFile(l.sender.file) && Inv(l) && Exact(l) && Enabled(l, WriteComplete(tail, now))
    ensures Exact(Step(l, WriteComplete(tail, now)))
  {
    var p, t := Continue(l.sender, tail).1, Step(l, WriteComplete(tail, now));
    SentPayload(l.sender, tail);
    PayloadsOfOne(l.wire, p);
    SentAnnounced(l, tail, now);
    assert t.sender.pos <= |t.sender.file| && t.wire == l.wire + [p];
    hide Payload, Payloads, Inv, Arrived, SafeFile, Continue, Step;
    Regroup(Arrived(l), Payloads(l.wire), Payload(p));
  }

  lemma ArrivedGrows(l: Link, junk: seq<Byte>)
    requires Inv(l) && Enabled(l, Deliver(junk))
    ensures var out := Step(l, Deliver(junk)).receiver.output;
            out == (if l.wire[0].Data? then Arrived(l) + Written(l.wire[0].content, l.wire[0].patchLen, junk)
                    else Arrived(l))
            && Arrived(Step(l, Deliver(junk))) == out
  {
    hide Load, Ends, InOrder, Written, Cursor, Counted;
    RestInOrder(l.wire);
  }

  lemma DeliveredKeepsExact(l: Link, junk: seq<Byte>)
    requires Inv(l) && Exact(l) && Enabled(l, Deliver(junk))
    ensures Exact(Step(l, Deliver(junk)))
  {
    var p, t := l.wire[0], Step(l, Deliver(junk));
    var rest := Payloads(l.wire[1..]);
    assert Whole(p) && Payloads(l.wire) == Payload(p) + rest;
    ArrivedGrows(l, junk);
    hide Payload, Payloads, Inv, Arrived, Written, Accept;
    if p.Data? {
      WrittenPayload(p, junk);
      Regroup(Arrived(l), Payload(p), rest);
    } else {
      EndPayload(p, rest);
    }
  }

  lemma EndPayload(p: Piece, rest: seq<Byte>)
    requires p.End?
    ensures Payload(p) + rest == rest
  {
  }

  lemma StepKeepsExact(l: Link, e: Event)
    requires SafeFile(l.sender.file) && Inv(l) && Exact(l) && Enabled(l, e)
    ensures Exact(Step(l, e))
  {
    match e {
      case WriteComplete(tail, now) => SentKeepsExact(l, tail, now);
      case Deliver(junk) => DeliveredKeepsExact(l, junk);
      case _ =>
        hide Payloads, Inv, SafeFile;
        assert Step(l, e).sender == l.sender && Step(l, e).wire == l.wire && Step(l, e).receiver == l.receiver;
    }
  }

  lemma {:induction false} RunKeepsExact(l: Link, events: seq<Event>)
    requires SafeFile(l.sender.file) && Inv(l) && Exact(l) && Possible(l, events)
    ensures Exact(Run(l, events))
    decreases |events|
  {
    if events != [] {
      StepKeepsInv(l, events[0]);
      StepKeepsExact(l, events[0]);
      RunKeepsExact(Step(l, events[0]), events[1..]);
    }
  }

  /** In a state that keeps the file exact, it is there once an END has been checked. */
  lemma CheckedIsWhole(l: Link)
    requires Inv(l) && Exact(l) && (l.receiver.verdict.Some? || (l.wire == [] && !l.sender.armed))
    ensures l.receiver.output == l.sender.file
  {
    assert forall i :: 0 <= i < |l.wire| ==> l.wire[i].End?;
    NoPayload(l.wire);
    hide InOrder, Load, Ends, Payloads, Whole;
    assert l.sender.file[..|l.sender.file|] == l.sender.file;
  }

  lemma {:induction false} NoPayload(wire: seq<Piece>)
    requires forall i :: 0 <= i < |wire| ==> wire[i].End?
    ensures Payloads(wire) == [] && (wire != [] ==> Ends(wire) > 0)
  {
    if wire != [] {
      NoPayload(wire[1..]);
    }
  }

  /** The transfer has been carried out and nothing is left to do. */
  predicate Finished(file: seq<Byte>, x: Setting, events: seq<Event>) {
    Possible(Begin(file, x), events) && Settled(Run(Begin(file, x), events))
  }

  function Result(file: seq<Byte>, x: Setting, events: seq<Event>): seq<Byte>
    requires Finished(file, x, events)
  {
    Run(Begin(file, x), events).receiver.output
  }

  /** A file with zeros at the ends of chunks only arrives intact, whatever else lies in memory on either side. */
  lemma SafeFileArrives(file: seq<Byte>, x: Setting, events: seq<Event>)
    requires SafeFile(file) && Finished(file, x, events)
    ensures Result(file, x, events) == file
  {
    var l := Begin(file, x);
    BeginInv(file, x);
    BeginExact(file, x);
    RunKeepsInv(l, events);
    RunKeepsExact(l, events);
    CheckedIsWhole(Run(l, events));
  }

  lemma RunFirst(l: Link, e: Event, rest: seq<Event>)
    requires Enabled(l, e) && Possible(Step(l, e), rest)
    ensures Possible(l, [e] + rest) && Run(l, [e] + rest) == Run(Step(l, e), rest)
  {
    assert ([e] + rest)[1..] == rest;
  }

  /** An event that can be next: messages are delivered before output is written, and that before callbacks are made. */
  function Next(l: Link): Event {
    if l.wire != [] then Deliver(Junk(MemoryNeeded(l.wire[0]), 0))
    else if l.pending then Drain
    else WriteComplete([], true)
  }

  /** No event of the transfer itself is possible any more. */
  predicate Over(l: Link) {
    l.receiver.crashed || (l.wire == [] && !l.pending && l.queued == 0)
  }

  lemma NextStep(l: Link)
    requires Inv(l) && !Over(l)
    ensures Enabled(l, Next(l)) && !Next(l).Other?
    ensures var t := Step(l, Next(l));
            Inv(t) && EndsSent(t) + Due(t) == EndsSent(l) + Due(l) && t.extra == l.extra
            && (!Unopened(l) ==> !Unopened(t) && l.receiver.output <= t.receiver.output)
  {
    var e := Next(l);
    match e {
      case Deliver(junk) =>
        DeliveredKeepsInv(l, junk);
        RestInOrder(l.wire);
      case Drain => DrainKeepsInv(l);
      case WriteComplete(tail, now) =>
        SentKeepsInv(l, tail, now);
        SumsOfOne(l.wire, Continue(l.sender, tail).1);
    }
    hide Inv, InOrder, Load, Ends, CString, Written;
  }

  /** Every transfer can be brought to its end, and what has been written stays as it is. */
  lemma {:induction false} Complete(l: Link) returns (events: seq<Event>)
    requires Inv(l)
    ensures Possible(l, events) && forall e <- events :: !e.Other?
    ensures var r := Run(l, events);
            Over(r) && Inv(r) && EndsSent(r) + Due(r) == EndsSent(l) + Due(l) && r.extra == l.extra
            && (!Unopened(l) ==> l.receiver.output <= r.receiver.output)
    decreases Steps(l)
  {
    hide Inv, Step, Enabled, EndsSent, Due, Unopened, Over, Next, Steps;
    if Over(l) {
      events := [];
    } else {
      var e := Next(l);
      NextStep(l);
      StepDecreases(l, e);
      var rest := Complete(Step(l, e));
      RunFirst(l, e, rest);
      events := [e] + rest;
    }
  }

  /** Without other traffic the file is not closed twice, and what is over has settled. */
  lemma QuietSettles(l: Link)
    requires Inv(l) && l.extra == 0
    ensures !l.receiver.crashed && (Over(l) ==> Settled(l))
  {
    hide Load, InOrder, Ends;
  }

  /** A chunk with an early zero may be delivered wrongly. */
  lemma BadDelivery(l: Link, s: Sender, first: bool) returns (junk: seq<Byte>, at: nat)
    requires Inv(l) && s.pos <= |s.file| && l.wire == [Carry(s, first, [])] && l.sender == Advance(s)
    requires !Safe(NextChunk(s)) && !l.receiver.crashed
    ensures Enabled(l, Deliver(junk))
    ensures var out := Step(l, Deliver(junk)).receiver.output; at < |out| && at < |s.file| && out[at] != s.file[at]
  {
    var data, n := NextChunk(s), |Arrived(l)|;
    UnsafeChunkIsCut(data, [], Junk(|data|, 0));
    var k := |CString(data + [])| + 1;
    junk := Junk(|data|, data[k]);
    UnsafeChunkIsCut(data, [], junk);
    at := n + k;
    assert Load(l.wire) == |data|;
    assert s.file[at] == data[k];
    ArrivedGrows(l, junk);
    hide Inv, Load, CString, NextChunk, Safe, Step, Arrived, Advance, Written;
    assert (Arrived(l) + Written(CString(data + []), |data|, junk))[at] == junk[0];
  }

  lemma Corrupt(l: Link, s: Sender, first: bool) returns (events: seq<Event>)
    requires Inv(l) && s.pos <= |s.file| && l.wire == [Carry(s, first, [])] && l.sender == Advance(s) && l.extra == 0
    requires !Safe(NextChunk(s))
    ensures Possible(l, events) && Settled(Run(l, events)) && Run(l, events).receiver.output != s.file
    ensures Run(l, events).extra == 0
  {
    QuietSettles(l);
    var junk, at := BadDelivery(l, s, first);
    DeliveredKeepsInv(l, junk);
    var t := Step(l, Deliver(junk));
    var rest := Complete(t);
    RunFirst(l, Deliver(junk), rest);
    events := [Deliver(junk)] + rest;
    QuietSettles(Run(l, events));
    assert !Unopened(t);
    hide Inv, Run, Possible, Step, Over, Settled, EndsSent, Due;
    assert t.receiver.output[at] == Run(l, events).receiver.output[at];
  }

  /** The callback has been called for, nothing is pending, and there has been no other traffic. */
  predicate Prompt(l: Link) {
    l.queued > 0 && !l.pending && l.extra == 0
  }

  /** One chunk is delivered and the next one sent. */
  lemma NextRound(l: Link, s: Sender, first: bool) returns (w: Event, d: Event)
    requires Inv(l) && Cursor(s) && l.wire == [Carry(s, first, [])] && l.sender == Advance(s) && Prompt(l)
    requires s.pos + CHUNK < |s.file|
    ensures Enabled(l, d) && Enabled(Step(l, d), w)
    ensures var t := Step(Step(l, d), w);
            Inv(t) && t.wire == [Carry(l.sender, false, [])] && t.sender == Advance(l.sender) && Prompt(t)
    ensures Cursor(l.sender) && l.sender.pos == s.pos + CHUNK && l.sender.file == s.file
  {
    d, w := Deliver(Junk(CHUNK, 0)), WriteComplete([], true);
    QuietSettles(l);
    StepKeepsInv(l, d);
    QuietSettles(Step(l, d));
    StepKeepsInv(Step(l, d), w);
    hide Inv, InOrder, Load, Ends, CString, Written, Settled, Over;
  }

  lemma CursorBound(s: Sender)
    requires Cursor(s)
    ensures s.pos <= |s.file|
  {
  }

  lemma EarlyZero(s: Sender, bad: nat)
    requires s.pos % CHUNK == 0 && s.pos <= bad < s.pos + CHUNK && bad < |s.file| - 1
    requires s.file[bad] == 0 && bad % CHUNK != CHUNK - 1
    ensures !Safe(NextChunk(s))
  {
    assert NextChunk(s)[bad - s.pos] == 0;
  }

  lemma {:induction false} CorruptLater(l: Link, s: Sender, first: bool, bad: nat) returns (events: seq<Event>)
    requires Inv(l) && Cursor(s) && l.wire == [Carry(s, first, [])] && l.sender == Advance(s) && Prompt(l)
    requires s.pos % CHUNK == 0 && s.pos <= bad < |s.file| - 1 && s.file[bad] == 0 && bad % CHUNK != CHUNK - 1
    ensures Possible(l, events) && Settled(Run(l, events)) && Run(l, events).receiver.output != s.file
    ensures Run(l, events).extra == 0
    decreases bad - s.pos
  {
    hide Inv, Carry, Step, Safe, NextChunk, Advance, Run, Possible, Settled;
    assert l.extra == 0;
    hide Prompt;
    CursorBound(s);
    if bad < s.pos + CHUNK {
      EarlyZero(s, bad);
      events := Corrupt(l, s, first);
    } else {
      var w, d := NextRound(l, s, first);
      var t := Step(l, d);
      var rest := CorruptLater(Step(t, w), l.sender, false, bad);
      RunFirst(t, w, rest);
      RunFirst(l, d, [w] + rest);
      events := [d] + ([w] + rest);
    }
  }

  /** Any other file can be corrupted on the way although its size check succeeds. */
  lemma OthersCanBeCorrupted(file: seq<Byte>, open: bool, fileSize: int, output: seq<Byte>) returns (events: seq<Event>)
    requires !SafeFile(file)
    ensures var x := Setting([], true, open, fileSize, output);
            Finished(file, x, events) && Result(file, x, events) != file
            && Run(Begin(file, x), events).receiver.verdict == Some(true)
  {
    var x := Setting([], true, open, fileSize, output);
    var l := Begin(file, x);
    var bad :| 0 <= bad < |file| - 1 && file[bad] == 0 && bad % CHUNK != CHUNK - 1;
    BeginInv(file, x);
    events := CorruptLater(l, Opened(file), true, bad);
    RunKeepsInv(l, events);
    QuietSettles(Run(l, events));
    EndsBounded(file, x, events);
  }

  /** A file is sure to arrive intact exactly when it has zeros at the end of a chunk only. */
  lemma ArrivesIff(file: seq<Byte>, open: bool, fileSize: int, output: seq<Byte>)
    ensures SafeFile(file) <==>
              forall tail, now, events | Finished(file, Setting(tail, now, open, fileSize, output), events) ::
                Result(file, Setting(tail, now, open, fileSize, output), events) == file
  {
    if SafeFile(file) {
      forall tail, now, events | Finished(file, Setting(tail, now, open, fileSize, output), events)
        ensures Result(file, Setting(tail, now, open, fileSize, output), events) == file
      {
        SafeFileArrives(file, Setting(tail, now, open, fileSize, output), events);
      }
    } else {
      var events := OthersCanBeCorrupted(file, open, fileSize, output);
    }
  }
}
