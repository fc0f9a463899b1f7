/**
 * The double-buffered log of lkpServer and lkpClient. Every producer call and every critical section of the backend
 * thread is one step; the wait on the condition variable may end at any time. A buffer has exactly one owner (it
 * is held by a unique_ptr), so it is modelled as a value in the slot that owns it, None being a null pointer.
 */
module AsyncLog {
  import opened Bytes

  type Line = seq<Byte>

  /** The lines in one buffer. */
  type Chunk = seq<Line>

  /** kLargeBuffer */
  const CAPACITY := 4000 * 1000

  /** Longer lists of full buffers are cut down to KEPT_BUFFERS. */
  const MAX_BACKLOG := 25
  const KEPT_BUFFERS := 2

  function Text(c: Chunk): seq<Byte> {
    if c == [] then [] else Text(c[..|c| - 1]) + c[|c| - 1]
  }

  function Lines(chunks: seq<Chunk>): seq<Line> {
    if chunks == [] then [] else Lines(chunks[..|chunks| - 1]) + chunks[|chunks| - 1]
  }

  /** The lines a buffer can take at all; longer ones are silently ignored. */
  function Fitting(lines: seq<Line>): seq<Line> {
    if lines == [] then []
    else
      var init, last := lines[..|lines| - 1], lines[|lines| - 1];
      Fitting(init) + (if |last| < CAPACITY then [last] else [])
  }

  /** Where the backend thread is: at its loop test, in the wait, between the lock and the next turn, or finished. */
  datatype Phase = Top | Waiting | Writing | Stopped

  /**
   * One turn of the backend: what it appended to the log file, a notice with a count first if it dropped anything,
   * and the buffers it dropped.
   */
  datatype Turn = Turn(announced: Option<nat>, written: seq<Chunk>, lost: seq<Chunk>)

  /**
   * The log with its history: appended lists every line passed to append and turns every turn the backend has
   * finished. Both are there to state what happened and are never read by a step.
   */
  datatype Log = Log(
    current: Chunk, next: Option<Chunk>, buffers: seq<Chunk>, running: bool,
    phase: Phase, spare1: Option<Chunk>, spare2: Option<Chunk>, toWrite: seq<Chunk>,
    appended: seq<Line>, turns: seq<Turn>)

  datatype Event = Append(line: Line) | Enter | Wake | Write | Stop

  const START := Log([], Some([]), [], true, Top, Some([]), Some([]), [], [], [])

  // ---- The steps ------------------------------------------------------------------------------------------

  /** FixedBuffer::append */
  function Put(c: Chunk, line: Line): Chunk {
    if CAPACITY - |Text(c)| > |line| then c + [line] else c
  }

  function AppendLine(l: Log, line: Line): Log {
    var l := l.(appended := l.appended + [line]);
    if CAPACITY - |Text(l.current)| > |line| then
      l.(current := Put(l.current, line))
    else
      var spare := if l.next.Some? then l.next.value else [];
      l.(buffers := l.buffers + [l.current], next := None, current := Put(spare, line))
  }

  /** The rest of the critical section, after the wait if there was one. */
  function Grab(l: Log): Log
    requires l.spare1.Some?
  {
    var refill := l.next.None?;
    l.(toWrite := l.buffers + [l.current], buffers := l.toWrite, current := l.spare1.value, spare1 := None,
       next := if refill then l.spare2 else l.next, spare2 := if refill then None else l.spare2,
       phase := Writing)
  }

  function EnterLoop(l: Log): Log
    requires l.spare1.Some?
  {
    if !l.running then l.(phase := Stopped)
    else if l.buffers == [] then l.(phase := Waiting)
    else Grab(l)
  }

  function Cut(chunks: seq<Chunk>): seq<Chunk> {
    if |chunks| > MAX_BACKLOG then chunks[..KEPT_BUFFERS] else chunks
  }

  /** The buffers the backend needs back before its next turn. */
  function Missing(l: Log): nat {
    (if l.spare1.None? then 1 else 0) + (if l.spare2.None? then 1 else 0)
  }

  /** Outside the lock: cut the backlog, write it, and turn written buffers into empty spares. */
  function WriteOut(l: Log): Log
    requires Missing(l) <= |Cut(l.toWrite)|
  {
    var n, kept := |l.toWrite|, Cut(l.toWrite);
    var announced := if n > MAX_BACKLOG then Some(n - KEPT_BUFFERS) else None;
    l.(turns := l.turns + [Turn(announced, kept, l.toWrite[|kept|..])],
       spare1 := if l.spare1.None? then Some([]) else l.spare1,
       spare2 := if l.spare2.None? then Some([]) else l.spare2,
       toWrite := [], phase := Top)
  }

  predicate Enabled(l: Log, e: Event) {
    match e
    case Append(_) => true
    case Stop => true
    case Enter => l.phase.Top?
    case Wake => l.phase.Waiting?
    case Write => l.phase.Writing?
  }

  /** No null buffer is dereferenced and nothing is popped from an empty list. */
  predicate Safe(l: Log, e: Event) {
    match e
    case Enter => l.spare1.Some?
    case Wake => l.spare1.Some?
    case Write => Missing(l) <= |Cut(l.toWrite)|
    case _ => true
  }

  function Step(l: Log, e: Event): Log
    requires Enabled(l, e) ==> Safe(l, e)
  {
    if !Enabled(l, e) then l else
    match e
    case Append(line) => AppendLine(l, line)
    case Enter => EnterLoop(l)
    case Wake => Grab(l)
    case Write => WriteOut(l)
    case Stop => l.(running := false)
  }

  // ---- The invariant --------------------------------------------------------------------------------------

  /** The lines of all buffers the backend has dealt with, in order. */
  function HandledLines(turns: seq<Turn>): seq<Line> {
    if turns == [] then []
    else
      var last := turns[|turns| - 1];
      HandledLines(turns[..|turns| - 1]) + Lines(last.written) + Lines(last.lost)
  }

  /** The lines in the log file. */
  function OutputLines(turns: seq<Turn>): seq<Line> {
    if turns == [] then [] else OutputLines(turns[..|turns| - 1]) + Lines(turns[|turns| - 1].written)
  }

  /** The lines of the buffers that were dropped. */
  function LostLines(turns: seq<Turn>): seq<Line> {
    if turns == [] then [] else LostLines(turns[..|turns| - 1]) + Lines(turns[|turns| - 1].lost)
  }

  /** The assertions at the head of the loop, and what holds instead while the backend is writing. */
  predicate Owned(l: Log) {
    && (l.next.Some? ==> l.next.value == [])
    && (l.next.None? <==> l.buffers != [])
    && (!l.phase.Writing? ==> l.spare1 == Some([]) && l.spare2 == Some([]) && l.toWrite == [])
    && (l.phase.Writing? ==> l.spare1.None? && l.toWrite != []
                             && (l.spare2 == Some([]) || (l.spare2.None? && |l.toWrite| >= 2)))
  }

  /** Every line that fits is in exactly one place, and the places follow each other in the order of arrival. */
  predicate Conserved(l: Log) {
    Fitting(l.appended) == HandledLines(l.turns) + Lines(l.toWrite) + Lines(l.buffers) + l.current
  }

  /** A turn drops all but the first two buffers of a backlog above 25, says how many, and drops nothing otherwise. */
  predicate Honest(t: Turn) {
    if t.lost == [] then t.announced.None? && 1 <= |t.written| <= MAX_BACKLOG
    else t.announced == Some(|t.lost|) && |t.written| == KEPT_BUFFERS && |t.written| + |t.lost| > MAX_BACKLOG
  }

  predicate Inv(l: Log) {
    Owned(l) && Conserved(l) && (forall t <- l.turns :: Honest(t)) && |Text(l.current)| < CAPACITY
  }
}
