/** The log as the classes hold it: buffers of octets, owned by one slot at a time, and a backend that moves them. */
module LogObject {
  import opened Bytes
  import opened AsyncLog
  import opened AsyncLogTheorems

  type Buffer = seq<Byte>

  /** What goes to the log file: the octets of a buffer, or the line that announces dropped buffers. */
  datatype Entry = Data(octets: Buffer) | DropNotice(count: nat)

  // ---- Octets against lines -------------------------------------------------------------------------------

  ghost function Texts(chunks: seq<Chunk>): (t: seq<Buffer>)
    ensures |t| == |chunks|
  {
    seq(|chunks|, i requires 0 <= i < |chunks| => Text(chunks[i]))
  }

  ghost function SlotText(slot: Option<Chunk>): Option<Buffer> {
    if slot.Some? then Some(Text(slot.value)) else None
  }

  ghost function DataOf(buffers: seq<Buffer>): (d: seq<Entry>)
    ensures |d| == |buffers|
  {
    seq(|buffers|, i requires 0 <= i < |buffers| => Data(buffers[i]))
  }

  ghost function NoticeOf(announced: Option<nat>): seq<Entry> {
    if announced.Some? then [DropNotice(announced.value)] else []
  }

  /** The log file after the given turns. */
  ghost function FileOf(turns: seq<Turn>): seq<Entry> {
    if turns == [] then []
    else
      var last := turns[|turns| - 1];
      FileOf(turns[..|turns| - 1]) + NoticeOf(last.announced) + DataOf(Texts(last.written))
  }

  /** The fields that mutex_ guards. */
  ghost predicate Front(l: Log, current: Buffer, next: Option<Buffer>, buffers: seq<Buffer>) {
    current == Text(l.current) && next == SlotText(l.next) && buffers == Texts(l.buffers)
  }

  /** The backend's own variables. */
  ghost predicate Back(l: Log, spare1: Option<Buffer>, spare2: Option<Buffer>, toWrite: seq<Buffer>, file: seq<Entry>) {
    spare1 == SlotText(l.spare1) && spare2 == SlotText(l.spare2) && toWrite == Texts(l.toWrite)
    && file == FileOf(l.turns)
  }

  /** FixedBuffer::append */
  function PutText(b: Buffer, line: Line): Buffer {
    if CAPACITY - |b| > |line| then b + line else b
  }

  lemma TextOfPut(c: Chunk, line: Line)
    ensures Text(Put(c, line)) == PutText(Text(c), line)
  {
    TextOfOne(c, line);
  }

  lemma FrontAppends(l: Log, line: Line, current: Buffer, next: Option<Buffer>, buffers: seq<Buffer>)
    requires Front(l, current, next, buffers)
    ensures if CAPACITY - |current| > |line| then
              Front(AppendLine(l, line), PutText(current, line), next, buffers)
            else
              Front(AppendLine(l, line), PutText(if next.Some? then next.value else [], line), None,
                    buffers + [current])
  {
    TextOfPut(l.current, line);
    TextOfPut(if l.next.Some? then l.next.value else [], line);
    assert Text([]) == [];
    hide Text, Put, PutText;
    assert Texts(l.buffers + [l.current]) == Texts(l.buffers) + [Text(l.current)];
  }

  lemma BackAppends(l: Log, line: Line, spare1: Option<Buffer>, spare2: Option<Buffer>, toWrite: seq<Buffer>,
                    file: seq<Entry>)
    requires Back(l, spare1, spare2, toWrite, file)
    ensures Back(AppendLine(l, line), spare1, spare2, toWrite, file)
  {
    hide Text, Put, Texts, FileOf, SlotText;
  }

  lemma Swaps(l: Log, current: Buffer, next: Option<Buffer>, buffers: seq<Buffer>,
              spare1: Option<Buffer>, spare2: Option<Buffer>, toWrite: seq<Buffer>, file: seq<Entry>)
    requires Front(l, current, next, buffers) && Back(l, spare1, spare2, toWrite, file) && l.spare1.Some?
    ensures Front(Grab(l), spare1.value, if next.None? then spare2 else next, toWrite)
    ensures Back(Grab(l), None, if next.None? then None else spare2, buffers + [current], file)
  {
    hide Text, FileOf;
    assert Texts(l.buffers + [l.current]) == Texts(l.buffers) + [Text(l.current)];
  }

  lemma BackWrites(l: Log, spare1: Option<Buffer>, spare2: Option<Buffer>, toWrite: seq<Buffer>, file: seq<Entry>)
    requires Back(l, spare1, spare2, toWrite, file) && Missing(l) <= |Cut(l.toWrite)|
    ensures var announced := if |toWrite| > MAX_BACKLOG then Some(|toWrite| - KEPT_BUFFERS) else None;
            var kept := if |toWrite| > MAX_BACKLOG then toWrite[..KEPT_BUFFERS] else toWrite;
            Back(WriteOut(l), if spare1.None? then Some([]) else spare1, if spare2.None? then Some([]) else spare2, [],
                 file + NoticeOf(announced) + DataOf(kept))
  {
    var turn := WriteOut(l).turns[|l.turns|];
    assert (l.turns + [turn])[..|l.turns|] == l.turns;
    assert Text([]) == [];
    hide Text, DataOf;
    assert Texts(Cut(l.toWrite)) == Texts(l.toWrite)[..|Cut(l.toWrite)|];
    assert Texts([]) == [];
  }

  lemma StillRunning(l: Log, line: Line)
    ensures AppendLine(l, line).running == l.running
  {
  }

  lemma SparesThere(l: Log, spare1: Option<Buffer>, spare2: Option<Buffer>, toWrite: seq<Buffer>, file: seq<Entry>)
    requires Inv(l) && Back(l, spare1, spare2, toWrite, file) && (l.phase.Top? || l.phase.Waiting?)
    ensures l.spare1.Some? && spare1.Some? && Grab(l).running == l.running
  {
  }

  lemma EnoughWritten(l: Log, spare1: Option<Buffer>, spare2: Option<Buffer>, toWrite: seq<Buffer>, file: seq<Entry>)
    requires Back(l, spare1, spare2, toWrite, file) && Missing(l) <= |Cut(l.toWrite)|
    ensures WriteOut(l).running == l.running && |toWrite| == |l.toWrite|
    ensures (if spare1.None? then 1 else 0) + (if spare2.None? then 1 else 0) <= |Cut(l.toWrite)|
  {
    hide Texts, FileOf, Text;
  }

  // ---- The object -----------------------------------------------------------------------------------------

  class Logger {
    // guarded by mutex_
    var currentBuffer: Buffer
    var nextBuffer: Option<Buffer>
    var buffers: seq<Buffer>
    // the backend's own
    var newBuffer1: Option<Buffer>
    var newBuffer2: Option<Buffer>
    var buffersToWrite: seq<Buffer>
    var running: bool
    var file: seq<Entry>

    /** The same log at the level of lines, with its history. */
    ghost var log: Log

    ghost predicate Valid()
      reads this
    {
      && Inv(log)
      && Front(log, currentBuffer, nextBuffer, buffers)
      && Back(log, newBuffer1, newBuffer2, buffersToWrite, file)
      && running == log.running
    }

    constructor ()
      ensures Valid() && log == START
    {
      currentBuffer, nextBuffer, buffers := [], Some([]), [];
      newBuffer1, newBuffer2, buffersToWrite := Some([]), Some([]), [];
      running, file, log := true, [], START;
    }

    method Append(logline: Line)
      requires Valid()
      modifies this
      ensures Valid() && log == AppendLine(old(log), logline)
    {
      hide Inv, Front, Back, AppendLine, PutText;
      AppendKeepsInv(log, logline);
      FrontAppends(log, logline, currentBuffer, nextBuffer, buffers);
      BackAppends(log, logline, newBuffer1, newBuffer2, buffersToWrite, file);
      StillRunning(log, logline);
      if CAPACITY - |currentBuffer| > |logline| {
        currentBuffer := PutText(currentBuffer, logline);
      } else {
        buffers := buffers + [currentBuffer];
        if nextBuffer.Some? {
          currentBuffer, nextBuffer := nextBuffer.value, None;
        } else {
          currentBuffer := [];
        }
        currentBuffer := PutText(currentBuffer, logline);
      }
      log := AppendLine(log, logline);
    }

    /** The swap at the end of the critical section. */
    method SwapBuffers()
      requires Valid() && (log.phase.Top? || log.phase.Waiting?)
      modifies this
      ensures Valid() && log == Grab(old(log))
    {
      hide Inv, Front, Back, Grab;
      SparesThere(log, newBuffer1, newBuffer2, buffersToWrite, file);
      GrabKeepsInv(log);
      Swaps(log, currentBuffer, nextBuffer, buffers, newBuffer1, newBuffer2, buffersToWrite, file);
      buffers := buffers + [currentBuffer];
      currentBuffer, newBuffer1 := newBuffer1.value, None;
      buffersToWrite, buffers := buffers, buffersToWrite;
      if nextBuffer.None? {
        nextBuffer, newBuffer2 := newBuffer2, None;
      }
      log := Grab(log);
    }

    /** From the loop test up to the wait, or through the critical section if there is no need to wait. */
    method Enter()
      requires Valid() && log.phase.Top?
      modifies this
      ensures Valid() && log == EnterLoop(old(log))
    {
      if !running {
        log := log.(phase := Stopped);
      } else if buffers == [] {
        log := log.(phase := Waiting);
      } else {
        SwapBuffers();
      }
    }

    /** waitForSeconds returns. */
    method WakeUp()
      requires Valid() && log.phase.Waiting?
      modifies this
      ensures Valid() && log == Grab(old(log))
    {
      SwapBuffers();
    }

    /** The part of the loop outside the lock. */
    method WriteBuffers()
      requires Valid() && log.phase.Writing?
      modifies this
      ensures Valid() && log == WriteOut(old(log))
    {
      hide Inv, Front, Back, WriteOut;
      WriteKeepsInv(log);
      BackWrites(log, newBuffer1, newBuffer2, buffersToWrite, file);
      FrontWrites(log, currentBuffer, nextBuffer, buffers);
      EnoughWritten(log, newBuffer1, newBuffer2, buffersToWrite, file);
      CutBacklog();
      OutputAll();
      Recycle();
      log := WriteOut(log);
    }

    /** A backlog above 25 is announced and cut down to its first two buffers. */
    method CutBacklog()
      modifies this`buffersToWrite, this`file
      ensures if |old(buffersToWrite)| > MAX_BACKLOG
              then buffersToWrite == old(buffersToWrite)[..KEPT_BUFFERS]
                   && file == old(file) + NoticeOf(Some(|old(buffersToWrite)| - KEPT_BUFFERS))
              else buffersToWrite == old(buffersToWrite) && file == old(file) + NoticeOf(None)
    {
      if |buffersToWrite| > MAX_BACKLOG {
        file := file + [DropNotice(|buffersToWrite| - KEPT_BUFFERS)];
        buffersToWrite := buffersToWrite[..KEPT_BUFFERS];
      }
    }

    method OutputAll()
      modifies this`file
      ensures file == old(file) + DataOf(buffersToWrite)
    {
      for i := 0 to |buffersToWrite|
        invariant file == old(file) + DataOf(buffersToWrite[..i])
      {
        file := file + [Data(buffersToWrite[i])];
        assert DataOf(buffersToWrite[..i + 1]) == DataOf(buffersToWrite[..i]) + [Data(buffersToWrite[i])];
      }
      assert buffersToWrite[..|buffersToWrite|] == buffersToWrite;
    }

    /** Written buffers become the spares that were given away, emptied; the rest are freed. */
    method Recycle()
      requires (if newBuffer1.None? then 1 else 0) + (if newBuffer2.None? then 1 else 0) <= |buffersToWrite|
      modifies this`newBuffer1, this`newBuffer2, this`buffersToWrite
      ensures newBuffer1 == if old(newBuffer1).None? then Some([]) else old(newBuffer1)
      ensures newBuffer2 == if old(newBuffer2).None? then Some([]) else old(newBuffer2)
      ensures buffersToWrite == []
    {
      if |buffersToWrite| > KEPT_BUFFERS {
        buffersToWrite := buffersToWrite[..KEPT_BUFFERS];
      }
      if newBuffer1.None? {
        newBuffer1 := Some(buffersToWrite[|buffersToWrite| - 1]);
        buffersToWrite := buffersToWrite[..|buffersToWrite| - 1];
        newBuffer1 := Some([]);  // reset()
      }
      if newBuffer2.None? {
        newBuffer2 := Some(buffersToWrite[|buffersToWrite| - 1]);
        buffersToWrite := buffersToWrite[..|buffersToWrite| - 1];
        newBuffer2 := Some([]);
      }
      buffersToWrite := [];
    }

    /** The destructor, up to the join. */
    method StopRunning()
      requires Valid()
      modifies this
      ensures Valid() && log == old(log).(running := false)
    {
      running := false;
      log := log.(running := false);
    }
  }

  lemma FrontWrites(l: Log, current: Buffer, next: Option<Buffer>, buffers: seq<Buffer>)
    requires Front(l, current, next, buffers) && Missing(l) <= |Cut(l.toWrite)|
    ensures Front(WriteOut(l), current, next, buffers)
  {
    hide Text, Texts, SlotText;
  }
}
