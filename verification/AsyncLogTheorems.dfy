/** Safety and conservation of the log over every interleaving of producers and backend. */
module AsyncLogTheorems {
  import opened Bytes
  import opened AsyncLog

  // ---- List facts -----------------------------------------------------------------------------------------

  lemma {:induction false} LinesAppend(a: seq<Chunk>, b: seq<Chunk>)
    ensures Lines(a + b) == Lines(a) + Lines(b)
    decreases |b|
  {
    if b == [] {
      assert a + b == a;
    } else {
      var init, last := b[..|b| - 1], b[|b| - 1];
      assert (a + b)[..|a + b| - 1] == a + init;
      LinesAppend(a, init);
    }
  }

  lemma LinesOfOne(a: seq<Chunk>, c: Chunk)
    ensures Lines(a + [c]) == Lines(a) + c
  {
    assert (a + [c])[..|a|] == a;
  }

  lemma HandledOfOne(turns: seq<Turn>, t: Turn)
    ensures HandledLines(turns + [t]) == HandledLines(turns) + Lines(t.written) + Lines(t.lost)
  {
    assert (turns + [t])[..|turns|] == turns;
  }

  lemma TextOfOne(c: Chunk, line: Line)
    ensures Text(c + [line]) == Text(c) + line
  {
    assert (c + [line])[..|c|] == c;
  }

  lemma FittingOfOne(lines: seq<Line>, line: Line)
    ensures Fitting(lines + [line]) == Fitting(lines) + (if |line| < CAPACITY then [line] else [])
  {
    assert (lines + [line])[..|lines|] == lines;
  }

  // ---- Every step keeps the invariant ---------------------------------------------------------------------

  lemma TextOfNone()
    ensures Text([]) == []
  {
  }

  lemma AppendConserves(l: Log, line: Line)
    requires Inv(l)
    ensures Conserved(AppendLine(l, line))
  {
    hide Lines, Fitting, HandledLines, Text, Honest;
    FittingOfOne(l.appended, line);
    LinesOfOne(l.buffers, l.current);
    TextOfNone();
    var dealt := HandledLines(l.turns) + Lines(l.toWrite);
    if CAPACITY - |Text(l.current)| > |line| {
      Regroup(dealt + Lines(l.buffers), l.current, [line]);
    } else {
      Regroup(dealt, Lines(l.buffers), l.current);
      assert [] + [line] == [line];
    }
  }

  lemma AppendKeepsInv(l: Log, line: Line)
    requires Inv(l)
    ensures Inv(AppendLine(l, line))
  {
    hide Lines, Fitting, HandledLines, Conserved, Honest, Text;
    AppendConserves(l, line);
    TextOfOne(l.current, line);
    TextOfOne([], line);
    TextOfNone();
  }

  lemma GrabConserves(l: Log)
    requires Inv(l) && (l.phase.Top? || l.phase.Waiting?)
    ensures Conserved(Grab(l))
  {
    LinesOfOne(l.buffers, l.current);
    assert Lines([]) == [];
    hide Lines, Fitting, HandledLines, Honest, Text;
    var f := HandledLines(l.turns);
    assert f + [] + Lines(l.buffers) + l.current == f + (Lines(l.buffers) + l.current) + [] + [];
  }

  lemma GrabKeepsInv(l: Log)
    requires Inv(l) && (l.phase.Top? || l.phase.Waiting?)
    ensures Inv(Grab(l))
  {
    hide Conserved, Honest;
    GrabConserves(l);
    assert Text([]) == [];
  }

  lemma CutSplits(chunks: seq<Chunk>)
    ensures var kept := Cut(chunks);
            |kept| <= |chunks| && Lines(chunks) == Lines(kept) + Lines(chunks[|kept|..])
  {
    var kept := Cut(chunks);
    assert chunks == kept + chunks[|kept|..];
    hide Cut;
    LinesAppend(kept, chunks[|kept|..]);
  }

  lemma WriteConserves(l: Log)
    requires Inv(l) && l.phase.Writing? && Safe(l, Event.Write)
    ensures Conserved(WriteOut(l))
  {
    hide Lines, Fitting, HandledLines, Cut, Text, Honest, Owned;
    var kept := Cut(l.toWrite);
    CutSplits(l.toWrite);
    HandledOfOne(l.turns, WriteOut(l).turns[|l.turns|]);
    NoLines();
    MoveOver(HandledLines(l.turns), Lines(kept), Lines(l.toWrite[|kept|..]), Lines(l.buffers), l.current);
  }

  lemma NoLines()
    ensures Lines([]) == []
  {
  }

  lemma MoveOver(f: seq<Line>, kept: seq<Line>, lost: seq<Line>, b: seq<Line>, c: seq<Line>)
    ensures f + (kept + lost) + b + c == f + kept + lost + [] + b + c
  {
  }

  lemma WriteKeepsInv(l: Log)
    requires Inv(l) && l.phase.Writing?
    ensures Safe(l, Event.Write)
    ensures Inv(WriteOut(l))
  {
    hide Conserved, Text;
    WriteConserves(l);
    var w := WriteOut(l);
    forall t | t in w.turns ensures Honest(t) {
      assert t in l.turns || t == w.turns[|l.turns|];
    }
  }

  /** In every reachable state every step that can happen is safe and leads to a good state again. */
  lemma StepKeepsInv(l: Log, e: Event)
    requires Inv(l)
    ensures Enabled(l, e) ==> Safe(l, e)
    ensures Inv(Step(l, e))
  {
    hide Conserved, Grab, AppendLine, WriteOut, Text, Cut;
    match e
    case Append(line) => AppendKeepsInv(l, line);
    case Enter =>
      if l.phase.Top? {
        GrabKeepsInv(l);
        SameParts(l, l.(phase := Stopped));
        SameParts(l, l.(phase := Waiting));
      }
    case Wake => if l.phase.Waiting? { GrabKeepsInv(l); }
    case Write => if l.phase.Writing? { WriteKeepsInv(l); }
    case Stop => SameParts(l, l.(running := false));
  }

  lemma SameParts(l: Log, k: Log)
    requires Conserved(l) && k == l.(phase := k.phase, running := k.running)
    ensures Conserved(k)
  {
  }

  // ---- Runs -----------------------------------------------------------------------------------------------

  /** The state after a list of events; an event that is not possible where it stands changes nothing. */
  function Run(events: seq<Event>): (l: Log)
    ensures Inv(l)
  {
    if events == [] then
      assert Inv(START);
      START
    else
      var l := Run(events[..|events| - 1]);
      var e := events[|events| - 1];
      StepKeepsInv(l, e);
      Step(l, e)
  }

  function AppendedIn(events: seq<Event>): seq<Line> {
    if events == [] then []
    else
      var e := events[|events| - 1];
      AppendedIn(events[..|events| - 1]) + (if e.Append? then [e.line] else [])
  }

  lemma StepAppended(l: Log, e: Event)
    requires Enabled(l, e) ==> Safe(l, e)
    ensures Step(l, e).appended == l.appended + (if e.Append? then [e.line] else [])
  {
    hide Text, Cut;
    assert l.appended + [] == l.appended;
  }

  lemma {:induction false} RunAppended(events: seq<Event>)
    ensures Run(events).appended == AppendedIn(events)
  {
    if events != [] {
      hide Step;
      RunAppended(events[..|events| - 1]);
      StepAppended(Run(events[..|events| - 1]), events[|events| - 1]);
    }
  }

  /**
   * Conservation. After any interleaving the lines the log was given and could hold are, in the order they came,
   * those of the buffers the backend has dealt with, those it is about to write, the full buffers and the current
   * one. What a turn dropped is whole buffers, only from a backlog above 25, and its notice counts them.
   */
  lemma LogConservation(events: seq<Event>)
    ensures var l := Run(events);
            Fitting(AppendedIn(events)) == HandledLines(l.turns) + Lines(l.toWrite) + Lines(l.buffers) + l.current
            && forall t <- l.turns :: Honest(t)
  {
    RunAppended(events);
  }

  /** Ownership. The assertions at the loop head hold, and a missing spare buffer is never taken from an empty list. */
  lemma BackendOwnership(events: seq<Event>)
    ensures var l := Run(events);
            (l.phase.Top? ==> l.spare1 == Some([]) && l.spare2 == Some([]) && l.toWrite == [])
            && (l.next.None? <==> l.buffers != [])
            && (l.phase.Writing? ==> l.toWrite != [] && Missing(l) <= |Cut(l.toWrite)|)
  {
    var l := Run(events);
    if l.phase.Writing? {
      WriteKeepsInv(l);
    }
  }

  /** The handled lines are those in the file and those dropped; the file has them all if nothing was dropped. */
  lemma {:induction false} HandledCounts(turns: seq<Turn>)
    ensures |HandledLines(turns)| == |OutputLines(turns)| + |LostLines(turns)|
    ensures LostLines(turns) == [] ==> OutputLines(turns) == HandledLines(turns)
  {
    if turns != [] {
      HandledCounts(turns[..|turns| - 1]);
    }
  }

  // ---- What the log file lacks in the end -----------------------------------------------------------------

  /** The backend goes through the swap of its critical section. */
  predicate IsSwap(l: Log, e: Event) {
    (e.Enter? && l.phase.Top? && l.running && l.buffers != []) || (e.Wake? && l.phase.Waiting?)
  }

  /** What was appended since the last swap. */
  function SinceSwap(events: seq<Event>): seq<Line> {
    if events == [] then []
    else
      var init, e := events[..|events| - 1], events[|events| - 1];
      if IsSwap(Run(init), e) then []
      else SinceSwap(init) + if e.Append? then [e.line] else []
  }

  /** The backend would find more than 25 buffers, and a line behind the second. */
  predicate Backlogged(chunks: seq<Chunk>) {
    |chunks| > MAX_BACKLOG && Lines(chunks[KEPT_BUFFERS..]) != []
  }

  /** At some swap the backend did find that. */
  predicate Overflowed(events: seq<Event>) {
    events != [] &&
      var init := events[..|events| - 1];
      var l := Run(init);
      Overflowed(init) || (IsSwap(l, events[|events| - 1]) && Backlogged(l.buffers + [l.current]))
  }

  lemma StepPending(l: Log, e: Event, since: seq<Line>)
    requires Inv(l) && (Enabled(l, e) ==> Safe(l, e)) && Lines(l.buffers) + l.current == Fitting(since)
    ensures var t := Step(l, e);
            Lines(t.buffers) + t.current
            == Fitting(if IsSwap(l, e) then [] else since + if e.Append? then [e.line] else [])
  {
    hide Lines, Fitting, Text, Conserved, Honest;
    match e {
      case Append(line) =>
        FittingOfOne(since, line);
        LinesOfOne(l.buffers, l.current);
        TextOfNone();
        Regroup(Lines(l.buffers), l.current, [line]);
        assert [] + [line] == [line];
      case _ =>
        assert since + [] == since;
        NothingAtAll();
    }
  }

  lemma NothingAtAll()
    ensures Lines([]) == [] && Fitting([]) == [] && Lines([]) + [] == []
  {
  }

  /** The full buffers and the current one hold exactly what was appended since the last swap and fits. */
  lemma {:induction false} PendingIs(events: seq<Event>)
    ensures Lines(Run(events).buffers) + Run(events).current == Fitting(SinceSwap(events))
  {
    hide Lines, Fitting, Step, Inv, Safe, IsSwap;
    if events != [] {
      var init, e := events[..|events| - 1], events[|events| - 1];
      PendingIs(init);
      StepIsSafe(Run(init), e);
      StepPending(Run(init), e, SinceSwap(init));
      assert SinceSwap(init) + [] == SinceSwap(init);
    } else {
      NothingAtAll();
    }
  }

  lemma StepIsSafe(l: Log, e: Event)
    requires Inv(l)
    ensures Enabled(l, e) ==> Safe(l, e)
  {
    StepKeepsInv(l, e);
  }

  /** Lines have been dropped, or will be by the write that comes next. */
  predicate Drops(l: Log) {
    LostLines(l.turns) != [] || (l.phase.Writing? && Backlogged(l.toWrite))
  }

  lemma LostOfOne(turns: seq<Turn>, t: Turn)
    ensures LostLines(turns + [t]) == LostLines(turns) + Lines(t.lost)
  {
    assert (turns + [t])[..|turns|] == turns;
  }

  lemma StepDrops(l: Log, e: Event)
    requires Inv(l) && (Enabled(l, e) ==> Safe(l, e))
    ensures Drops(Step(l, e)) <==> Drops(l) || (IsSwap(l, e) && Backlogged(l.buffers + [l.current]))
  {
    hide Lines, LostLines, Text, Conserved, Honest;
    if e.Write? && Enabled(l, e) {
      var kept := Cut(l.toWrite);
      NothingAtAll();
      assert kept == l.toWrite ==> l.toWrite[|kept|..] == [];
      LostOfOne(l.turns, Step(l, e).turns[|l.turns|]);
    }
  }

  lemma {:induction false} DropsIs(events: seq<Event>)
    ensures Drops(Run(events)) <==> Overflowed(events)
  {
    hide Drops, Step, Inv, Safe, IsSwap, Backlogged;
    if events != [] {
      var init, e := events[..|events| - 1], events[|events| - 1];
      DropsIs(init);
      StepIsSafe(Run(init), e);
      StepDrops(Run(init), e);
    } else {
      NoDropsAtStart();
    }
  }

  lemma NoDropsAtStart()
    ensures !Drops(Run([]))
  {
  }

  lemma {:induction false} NoneFits(lines: seq<Line>)
    ensures Fitting(lines) == [] <==> forall line <- lines :: |line| >= CAPACITY
  {
    if lines != [] {
      var init, last := lines[..|lines| - 1], lines[|lines| - 1];
      NoneFits(init);
      assert lines == init + [last];
    }
  }

  lemma FileIsComplete(l: Log, given: seq<Line>)
    requires Inv(l) && l.phase.Stopped? && Fitting(given) == HandledLines(l.turns) + Lines(l.buffers) + l.current
    ensures OutputLines(l.turns) == Fitting(given) <==>
              LostLines(l.turns) == [] && Lines(l.buffers) + l.current == []
  {
    HandledCounts(l.turns);
    hide Fitting, Lines, HandledLines, OutputLines, LostLines, Inv;
    assert |Fitting(given)| == |HandledLines(l.turns)| + |Lines(l.buffers)| + |l.current|;
  }

  /**
   * Once the backend has stopped, the log file holds every line that fits, in order, exactly when no line that fits
   * was appended after the last swap and no swap found more than 25 buffers with a line behind the second.
   */
  lemma CompleteIff(events: seq<Event>)
    requires Run(events).phase.Stopped?
    ensures Stop in events
    ensures OutputLines(Run(events).turns) == Fitting(AppendedIn(events)) <==>
              (forall line <- SinceSwap(events) :: |line| >= CAPACITY) && !Overflowed(events)
  {
    hide Run, Inv, Fitting, Lines, HandledLines, OutputLines, LostLines, SinceSwap, Overflowed;
    var l := Run(events);
    StopsOnlyWhenTold(events);
    LogConservation(events);
    PendingIs(events);
    DropsIs(events);
    NoneFits(SinceSwap(events));
    StoppedHasNone(l);
    assert HandledLines(l.turns) + [] == HandledLines(l.turns);
    FileIsComplete(l, AppendedIn(events));
  }

  lemma StoppedHasNone(l: Log)
    requires Inv(l) && l.phase.Stopped?
    ensures Lines(l.toWrite) == []
  {
  }

  /** Stopping the log loses what was appended since the backend's last turn: one line is enough. */
  lemma StopLosesTheTail(line: Line)
    requires |line| < CAPACITY
    ensures var events := [Event.Append(line), Stop, Enter];
            Run(events).phase.Stopped? && OutputLines(Run(events).turns) == [] && Fitting(AppendedIn(events)) == [line]
  {
    var e: seq<Event> := [Event.Append(line), Stop, Enter];
    assert e[..2][..1] == e[..1] && e[..1][..0] == [];
    assert Text([]) == [];
    assert AppendedIn(e[..1]) == [line] && AppendedIn(e[..2]) == [line] && AppendedIn(e) == [line];
    FittingOfOne([], line);
    assert [] + [line] == [line];
    StoppedEarly(line, e);
  }

  lemma StoppedEarly(line: Line, e: seq<Event>)
    requires |line| < CAPACITY && e == [Event.Append(line), Stop, Enter]
    ensures Run(e).phase.Stopped? && Run(e).turns == []
  {
    hide Text, Put, Inv;
    assert e[..2][..1] == e[..1] && e[..1][..0] == [];
    assert Run(e[..1]) == AppendLine(START, line);
    assert Run(e[..2]) == Run(e[..1]).(running := false);
  }

  /** A critical section followed by an undisturbed write leaves nothing behind that was appended before it. */
  lemma QuietTurnTakesEverything(l: Log)
    requires Inv(l) && (l.phase.Top? || l.phase.Waiting?)
    ensures Safe(Grab(l), Event.Write)
    ensures var done := WriteOut(Grab(l));
            done.current == [] && done.buffers == [] && HandledLines(done.turns) == Fitting(l.appended)
  {
    GrabKeepsInv(l);
    WriteKeepsInv(Grab(l));
    var done := WriteOut(Grab(l));
    assert done.current == [] && done.buffers == [] && done.toWrite == [] && done.appended == l.appended;
    NothingPending(done);
  }

  lemma NothingPending(l: Log)
    requires Conserved(l) && l.toWrite == [] && l.buffers == [] && l.current == []
    ensures HandledLines(l.turns) == Fitting(l.appended)
  {
    hide Fitting, HandledLines;
    assert Lines([]) == [];
  }

  // ---- Running and stopping -------------------------------------------------------------------------------

  lemma RunOne(events: seq<Event>, e: Event)
    ensures Enabled(Run(events), e) ==> Safe(Run(events), e)
    ensures Run(events + [e]) == Step(Run(events), e)
  {
    hide Step, Inv, Safe, Enabled;
    assert (events + [e])[..|events + [e]| - 1] == events;
    StepIsSafe(Run(events), e);
  }

  lemma StepRunning(l: Log, e: Event)
    requires Enabled(l, e) ==> Safe(l, e)
    ensures var t := Step(l, e);
            (t.running <==> l.running && !e.Stop?) && (t.phase.Stopped? && !l.phase.Stopped? ==> !l.running)
  {
    hide Text, Put, Cut;
  }

  /** The backend stops only after the log has been told to stop, and until then the flag is set. */
  lemma {:induction false} StopsOnlyWhenTold(events: seq<Event>)
    ensures Run(events).running <==> Stop !in events
    ensures Run(events).phase.Stopped? ==> Stop in events
  {
    if events != [] {
      var init, e := events[..|events| - 1], events[|events| - 1];
      assert events == init + [e];
      StopsOnlyWhenTold(init);
      RunOne(init, e);
      StepRunning(Run(init), e);
      hide Run, Step;
    }
  }

  /** Told to stop, it does so at its next turn, whatever there is left to write. */
  lemma StopsWhenTold(events: seq<Event>)
    requires Stop in events && Run(events).phase.Top?
    ensures Run(events + [Enter]) == Run(events).(phase := Stopped)
  {
    StopsOnlyWhenTold(events);
    RunOne(events, Enter);
    hide Run;
  }

  /** Events of the backend. */
  predicate Backend(events: seq<Event>) {
    forall e <- events :: e.Enter? || e.Wake? || e.Write?
  }

  /** The backend waits when there is nothing to write in the list of full buffers, and takes everything otherwise. */
  lemma EntersAndWaits(l: Log)
    requires Inv(l) && l.phase.Top? && l.running
    ensures Step(l, Enter) == if l.buffers == [] then l.(phase := Waiting) else Grab(l)
  {
  }

  lemma ThenWrites(events: seq<Event>, e: Event, before: Log)
    requires Inv(before) && (before.phase.Top? || before.phase.Waiting?) && before.spare1.Some?
    requires Run(events + [e]) == Grab(before)
    ensures var l := Run(events + [e] + [Event.Write]);
            l.phase.Top? && l.current == [] && l.buffers == [] && HandledLines(l.turns) == Fitting(before.appended)
  {
    QuietTurnTakesEverything(before);
    RunOne(events + [e], Event.Write);
    hide Run, Inv, Fitting, HandledLines, Text;
  }

  /** From the loop test or the wait. */
  lemma OneTurnWritesAll(events: seq<Event>) returns (more: seq<Event>)
    requires Stop !in events && (Run(events).phase.Top? || Run(events).phase.Waiting?)
    ensures Backend(more)
    ensures var l := Run(events + more);
            l.phase.Top? && l.current == [] && l.buffers == [] && HandledLines(l.turns) == Fitting(AppendedIn(events))
  {
    hide Run, Inv, Fitting, HandledLines, Text, Grab, AppendedIn;
    var l := Run(events);
    StopsOnlyWhenTold(events);
    RunAppended(events);
    if l.phase.Waiting? {
      RunOne(events, Wake);
      ThenWrites(events, Wake, l);
      more := [Wake] + [Event.Write];
      Regroup(events, [Wake], [Event.Write]);
    } else {
      RunOne(events, Enter);
      EntersAndWaits(l);
      if l.buffers == [] {
        var waiting := events + [Enter];
        RunOne(waiting, Wake);
        ThenWrites(waiting, Wake, Run(waiting));
        more := [Enter] + ([Wake] + [Event.Write]);
        Regroup(events, [Enter], [Wake] + [Event.Write]);
        Regroup(waiting, [Wake], [Event.Write]);
      } else {
        ThenWrites(events, Enter, l);
        more := [Enter] + [Event.Write];
        Regroup(events, [Enter], [Event.Write]);
      }
    }
  }

  /**
   * Until it is told to stop the backend can always get to a point where every line that was appended and fits is in
   * the file or in a buffer that was dropped.
   */
  lemma EverythingCanBeWritten(events: seq<Event>) returns (more: seq<Event>)
    requires Stop !in events
    ensures Backend(more)
    ensures var l := Run(events + more);
            l.phase.Top? && l.current == [] && l.buffers == [] && HandledLines(l.turns) == Fitting(AppendedIn(events))
  {
    hide Run, Inv, Fitting, HandledLines, Text, AppendedIn;
    StopsOnlyWhenTold(events);
    if Run(events).phase.Writing? {
      RunOne(events, Event.Write);
      var written := events + [Event.Write];
      var rest := OneTurnWritesAll(written);
      more := [Event.Write] + rest;
      Regroup(events, [Event.Write], rest);
      SameAppended(events, Event.Write);
    } else {
      more := OneTurnWritesAll(events);
    }
  }

  lemma SameAppended(events: seq<Event>, e: Event)
    requires !e.Append?
    ensures AppendedIn(events + [e]) == AppendedIn(events)
  {
    assert (events + [e])[..|events|] == events;
  }

  // ---- The limits -----------------------------------------------------------------------------------------

  /** A line fits a buffer if it has fewer than four million octets. */
  lemma FitsBelow(line: Line)
    ensures Fitting([line]) == if |line| < 4000000 then [line] else []
  {
    assert [line][..0] == [];
  }

  /**
   * A line goes behind those in the current buffer while they are together shorter than four million octets. Otherwise
   * that buffer joins the full ones, the spare is used up, and the line begins a new buffer if it fits one at all.
   */
  lemma AppendIs(events: seq<Event>, line: Line)
    ensures var l, k := Run(events), Run(events + [Append(line)]);
            k.phase == l.phase && k.toWrite == l.toWrite && k.turns == l.turns
            && if |Text(l.current)| + |line| < 4000000 then
                 k.current == l.current + [line] && k.buffers == l.buffers && k.next == l.next
               else
                 k.current == (if |line| < 4000000 then [line] else []) && k.buffers == l.buffers + [l.current]
                 && k.next.None?
  {
    RunOne(events, Append(line));
    TextOfNone();
    hide Run, Text, Conserved;
  }

  /** A backlog of more than 25 buffers is cut down to the first two. */
  lemma CutAbove(chunks: seq<Chunk>)
    ensures Cut(chunks) == if |chunks| <= 25 then chunks else chunks[..2]
  {
  }
}
