/** How far a transfer can be brought: to the end of any chunk, to its END in flight, and to its END checked. */
module Stages {
  import opened Bytes
  import opened Transfer
  import opened TransferTheorems

  const PLAIN := Setting([], true, false, 0, [])

  lemma {:induction false} RunThen(l: Link, a: seq<Event>, b: seq<Event>)
    requires Possible(l, a) && Possible(Run(l, a), b)
    ensures Possible(l, a + b) && Run(l, a + b) == Run(Run(l, a), b)
    decreases |a|
  {
    hide Step, Enabled;
    if a == [] {
      assert a + b == b;
    } else {
      RunThen(Step(l, a[0]), a[1..], b);
      RunFirst(l, a[0], a[1..] + b);
      assert a + b == [a[0]] + (a[1..] + b);
    }
  }

  /** All messages have been delivered, and the sender is about to read on. */
  predicate Standing(l: Link) {
    Inv(l) && l.wire == [] && l.queued == 1 && !l.pending && l.extra == 0 && l.sender.armed && l.receiver.verdict.None?
  }

  /** The file is open, what has been read has been written, and the size is known. */
  lemma StandingReceiver(l: Link)
    requires Standing(l)
    ensures l.receiver.open && !l.receiver.crashed && |l.receiver.output| == l.sender.pos <= |l.sender.file|
    ensures l.receiver.fileSize == ToInt32(|l.sender.file|)
  {
  }

  lemma FirstStage(file: seq<Byte>) returns (events: seq<Event>)
    ensures Possible(Begin(file, PLAIN), events)
    ensures var l := Run(Begin(file, PLAIN), events);
            Standing(l) && l.sender.file == file && l.sender.pos == if |file| < CHUNK then |file| else CHUNK
  {
    var l := Begin(file, PLAIN);
    BeginInv(file, PLAIN);
    var e := Deliver(Junk(MemoryNeeded(l.wire[0]), 0));
    DeliveredKeepsInv(l, e.junk);
    RunFirst(l, e, []);
    events := [e] + [];
    hide Inv, CString, Written;
  }

  lemma NextStage(l: Link) returns (events: seq<Event>)
    requires Standing(l) && l.sender.pos < |l.sender.file|
    ensures Possible(l, events)
    ensures var t := Run(l, events);
            Standing(t) && t.sender == Advance(l.sender)
  {
    StandingReceiver(l);
    var e := WriteComplete([], true);
    SentKeepsInv(l, [], true);
    var t := Step(l, e);
    var d := Deliver(Junk(MemoryNeeded(t.wire[0]), 0));
    DeliveredKeepsInv(t, d.junk);
    RunFirst(t, d, []);
    RunFirst(l, e, [d] + []);
    events := [e] + ([d] + []);
    hide Inv, CString, Written;
  }

  /** The end of the file or of one of its chunks. */
  predicate IsStage(file: seq<Byte>, goal: nat) {
    goal == |file| || (0 < goal < |file| && goal % CHUNK == 0)
  }

  lemma StageBound(s: Sender, goal: nat)
    requires Cursor(s) && IsStage(s.file, goal) && s.pos < goal
    ensures Advance(s).pos <= goal && Advance(s).pos > s.pos && Advance(s).file == s.file
  {
    if s.pos + CHUNK <= |s.file| && goal < |s.file| {
      assert (goal - s.pos) % CHUNK == 0;
    }
  }

  lemma {:induction false} FromStage(l: Link, goal: nat) returns (events: seq<Event>)
    requires Standing(l) && IsStage(l.sender.file, goal) && l.sender.pos <= goal
    ensures Possible(l, events)
    ensures var t := Run(l, events); Standing(t) && t.sender.file == l.sender.file && t.sender.pos == goal
    decreases goal - l.sender.pos
  {
    hide IsStage, Run, Possible, Advance;
    if l.sender.pos == goal {
      events := [];
      StayHere(l);
    } else {
      StageBound(l.sender, goal);
      StageInFile(l.sender.file, goal);
      hide Standing;
      var next := NextStage(l);
      var rest := FromStage(Run(l, next), goal);
      RunThen(l, next, rest);
      events := next + rest;
    }
  }

  lemma StageInFile(file: seq<Byte>, goal: nat)
    requires IsStage(file, goal)
    ensures goal <= |file|
  {
  }

  lemma StayHere(l: Link)
    ensures Possible(l, []) && Run(l, []) == l
  {
  }

  /** A transfer can be brought to any stage. */
  lemma ToStage(file: seq<Byte>, goal: nat) returns (events: seq<Event>)
    requires IsStage(file, goal)
    ensures Possible(Begin(file, PLAIN), events)
    ensures var l := Run(Begin(file, PLAIN), events); Standing(l) && l.sender.file == file && l.sender.pos == goal
  {
    var first := FirstStage(file);
    FirstIsLeast(file, goal);
    hide Standing, Begin, Run, Possible, IsStage;
    var rest := FromStage(Run(Begin(file, PLAIN), first), goal);
    RunThen(Begin(file, PLAIN), first, rest);
    events := first + rest;
  }

  lemma FirstIsLeast(file: seq<Byte>, goal: nat)
    requires IsStage(file, goal)
    ensures (if |file| < CHUNK then |file| else CHUNK) <= goal
  {
  }

  /** Everything has been written, and only the END is left to be delivered. */
  predicate Waiting(l: Link) {
    && Inv(l) && l.wire == [End] && l.extra == 0 && !l.receiver.crashed && l.receiver.open && l.receiver.verdict.None?
    && |l.receiver.output| == |l.sender.file| && l.receiver.fileSize == ToInt32(|l.sender.file|)
  }

  lemma ToEnd(file: seq<Byte>) returns (events: seq<Event>)
    ensures Possible(Begin(file, PLAIN), events)
    ensures var l := Run(Begin(file, PLAIN), events); Waiting(l) && l.sender.file == file
  {
    var stage := ToStage(file, |file|);
    var l := Run(Begin(file, PLAIN), stage);
    var e := WriteComplete([], true);
    StandingReceiver(l);
    SentKeepsInv(l, [], true);
    RunFirst(l, e, []);
    RunThen(Begin(file, PLAIN), stage, [e] + []);
    events := stage + ([e] + []);
    hide Inv, CString, Begin, Run, Possible;
  }

  /** END is checked by the receiver: the whole transfer. */
  lemma ToCheck(file: seq<Byte>) returns (events: seq<Event>)
    ensures Possible(Begin(file, PLAIN), events)
    ensures var l := Run(Begin(file, PLAIN), events);
            Inv(l) && l.extra == 0 && !l.receiver.crashed && l.receiver.verdict.Some? && l.sender.file == file
            && !l.receiver.open && |l.receiver.output| == |file| && l.wire == []
  {
    var before := ToEnd(file);
    var l := Run(Begin(file, PLAIN), before);
    var e := Deliver([]);
    DeliveredKeepsInv(l, []);
    RunFirst(l, e, []);
    RunThen(Begin(file, PLAIN), before, [e] + []);
    events := before + ([e] + []);
    hide Inv, Begin, Run, Possible;
  }
}
