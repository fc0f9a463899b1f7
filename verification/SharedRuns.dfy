/** Runs in which results are streamed one after the other, or so that one of them is checked in vain. */
module SharedRuns {
  import opened Bytes
  import opened Tally
  import opened ResultFile
  import opened Dispatch
  import opened DispatchTheorems
  import opened Answers
  import opened Streaming
  import Stages
  import Transfer
  import TransferTheorems
  import DispatchProgress

  // ---- Steady runs from one world to another --------------------------------------------------------------

  predicate Leads(w: World, events: seq<Event>, t: World) {
    Possible(w, events) && Steady(w, events) && Play(w, events) == t
  }

  ghost predicate Reaches(w: World, t: World) {
    exists events :: Leads(w, events, t)
  }

  lemma {:induction false} LeadsThen(w: World, a: seq<Event>, t: World, b: seq<Event>, u: World)
    requires Leads(w, a, t) && Leads(t, b, u)
    ensures Leads(w, a + b, u)
    decreases |a|
  {
    hide Step, Enabled;
    if a == [] {
      assert a + b == b;
    } else {
      LeadsThen(Step(w, a[0]), a[1..], t, b, u);
      assert (a + b)[0] == a[0] && (a + b)[1..] == a[1..] + b;
    }
  }

  lemma ReachesThen(w: World, t: World, u: World)
    requires Reaches(w, t) && Reaches(t, u)
    ensures Reaches(w, u)
  {
    hide Leads;
    var a :| Leads(w, a, t);
    var b :| Leads(t, b, u);
    LeadsThen(w, a, t, b, u);
  }

  lemma ReachesStep(w: World, e: Event)
    requires Enabled(w, e) && (e.Handle? ==> e.forked) && !e.ChildExit?
    ensures Reaches(w, Step(w, e))
  {
    hide Step, Enabled;
    var u := Step(w, e);
    assert Possible(u, []) && Play(u, []) == u && Steady(u, []);
    PlayFirst(w, e, []);
    SteadyFirst(w, e, []);
    AlsoReaches(w, [e] + [], u);
  }

  lemma {:induction false} LiftIsSteady(w: World, i: nat, events: seq<Transfer.Event>)
    requires Possible(w, Lift(i, events))
    ensures Steady(w, Lift(i, events))
    decreases |events|
  {
    hide Step, Enabled, Lift;
    if events != [] {
      assert Lift(i, events)[0] == Stream(i, events[0]) && Lift(i, events)[1..] == Lift(i, events[1..]);
      LiftIsSteady(Step(w, Stream(i, events[0])), i, events[1..]);
    } else {
      assert Lift(i, events) == [];
    }
  }

  // ---- One node after the other ---------------------------------------------------------------------------

  /** An exchange about results in which no stream has been closed twice. */
  predicate Sound(w: World) {
    && Inv(w) && w.command.Result?
    && forall i :: 0 <= i < |w.stations| && w.stations[i].link.Some? ==> !w.stations[i].link.value.receiver.crashed
  }

  lemma HandleOpens(w: World, i: nat)
    requires Sound(w) && i < |w.ids| && w.stations[i].asked && Streams(w.clients[i])
    ensures var h := Handle(i, true, Stages.PLAIN);
            Enabled(w, h) && var t := Step(w, h);
            SendingAt(t, i) && OnlyAt(w, i, t) && t.counted == w.counted && t.disk == w.disk
            && t.stations[i].link == Some(Transfer.Begin(w.clients[i].result.value, Stages.PLAIN))
            && t.stations[i].acks == []
  {
    OthersUnchanged(w, Handle(i, true, Stages.PLAIN));
    assert StationInv(w.command, w.ids[i], w.stations[i]);
    hide Transfer.Begin, Inv;
  }

  /** Node i handles the command and gets so far with its result. */
  lemma SendAt(w: World, i: nat, events: seq<Transfer.Event>) returns (t: World)
    requires Sound(w) && i < |w.ids| && w.stations[i].asked && Streams(w.clients[i])
    requires Transfer.Possible(Transfer.Begin(w.clients[i].result.value, Stages.PLAIN), events)
    ensures Reaches(w, t) && Inv(t) && SendingAt(t, i) && OnlyAt(w, i, t)
    ensures var l := Transfer.Begin(w.clients[i].result.value, Stages.PLAIN);
            var r := Transfer.Run(l, events);
            t.stations[i].link == Some(r) && t.stations[i].acks == [] && InStep(t.disk, r)
            && t.counted == w.counted + Checked(l, r)
  {
    var h := Handle(i, true, Stages.PLAIN);
    var file := w.clients[i].result.value;
    HandleOpens(w, i);
    StepKeepsInv(w, h);
    ReachesStep(w, h);
    TransferTheorems.BeginInv(file, Stages.PLAIN);
    BeginInStep(w.disk, file);
    hide Step, Enabled, Transfer.Begin, Transfer.Run, Transfer.Possible, Transfer.Inv, Inv;
    hide Lift, InStep, OnlyAt, Checked, Reaches;
    var u := Step(w, h);
    LiftRun(u, i, events);
    LiftInStep(u, i, events);
    LiftIsSteady(u, i, events);
    t := Play(u, Lift(i, events));
    assert Leads(u, Lift(i, events), t);
    AlsoReaches(u, Lift(i, events), t);
    ReachesThen(w, u, t);
    RunKeepsInv(u, Lift(i, events));
    OnlyAtTwice(w, i, u, t);
  }

  lemma AlsoReaches(w: World, events: seq<Event>, t: World)
    requires Leads(w, events, t)
    ensures Reaches(w, t)
  {
  }

  lemma BeginInStep(d: Disk, file: seq<Byte>)
    ensures InStep(d, Transfer.Begin(file, Stages.PLAIN))
    ensures Transfer.Begin(file, Stages.PLAIN).receiver.verdict.None?
  {
    hide Transfer.CString;
  }

  lemma HandleRefuses(w: World, i: nat)
    requires Sound(w) && i < |w.ids| && w.stations[i].asked && !Streams(w.clients[i])
    ensures Enabled(w, Handle(i, true, Stages.PLAIN))
    ensures var u := Step(w, Handle(i, true, Stages.PLAIN));
            Sound(u) && OnlyAt(w, i, u) && u.counted == w.counted
            && u.stations[i] == Station(false, None, [Expected(Result, w.ids[i], w.clients[i])], [])
  {
    var h := Handle(i, true, Stages.PLAIN);
    OthersUnchanged(w, h);
    StreamsEnd(w.ids[i], w.clients[i]);
    StepKeepsInv(w, h);
    assert StationInv(w.command, w.ids[i], w.stations[i]);
    hide Inv;
  }

  lemma AckCounts(w: World, i: nat, r: Reply)
    requires Sound(w) && i < |w.ids| && w.stations[i] == Station(false, None, [r], [])
    ensures Enabled(w, Ack(i))
    ensures var t := Step(w, Ack(i));
            Sound(t) && OnlyAt(w, i, t) && t.counted == w.counted + [r] && Outstanding(t.stations[i]) == 0
  {
    OthersUnchanged(w, Ack(i));
    StepKeepsInv(w, Ack(i));
    hide Inv, Count, Answer;
  }

  /** A node that does not send a result refuses, and its refusal is counted. */
  lemma RefuseAt(w: World, i: nat) returns (t: World)
    requires Sound(w) && i < |w.ids| && w.stations[i].asked && !Streams(w.clients[i])
    ensures Reaches(w, t) && Sound(t) && OnlyAt(w, i, t) && Outstanding(t.stations[i]) == 0
    ensures Failures(t.counted) == Failures(w.counted)
  {
    hide Inv, Expected, Failures, Reaches, Step, Enabled, ResultEnd;
    SendableAt(w, i);
    var h, r := Handle(i, true, Stages.PLAIN), Expected(Result, w.ids[i], w.clients[i]);
    HandleRefuses(w, i);
    ReachesStep(w, h);
    var u := Step(w, h);
    AckCounts(u, i, r);
    ReachesStep(u, Ack(i));
    t := Step(u, Ack(i));
    ReachesThen(w, u, t);
    NotInVain(Result, w.ids[i], w.clients[i]);
    FailuresOfOne(w.counted, r);
  }

  /** Node i answers, with its whole result if it has to send one. */
  lemma FinishAt(w: World, i: nat) returns (t: World)
    requires Sound(w) && i < |w.ids| && w.stations[i].asked
    ensures Reaches(w, t) && Sound(t) && OnlyAt(w, i, t) && Outstanding(t.stations[i]) == 0
    ensures Failures(t.counted) == Failures(w.counted)
  {
    hide Inv, Failures, Reaches, Step, Enabled, ResultEnd, OnlyAt, Streams, Transfer.Begin, Transfer.Run, Transfer.Inv;
    SendableAt(w, i);
    if Streams(w.clients[i]) {
      var events := Stages.ToCheck(w.clients[i].result.value);
      t := SendAt(w, i, events);
      BeginInStep(w.disk, w.clients[i].result.value);
      FailuresOfOne(w.counted, ResultEnd(true));
      ClosedIsDone(t, i);
    } else {
      t := RefuseAt(w, i);
    }
  }

  lemma ClosedIsDone(w: World, i: nat)
    requires Inv(w) && i < |w.ids| && w.stations[i].link.Some? && w.stations[i].link.value.receiver.verdict.Some?
    requires w.stations[i].acks == []
    ensures Outstanding(w.stations[i]) == 0
  {
    assert StationInv(w.command, w.ids[i], w.stations[i]);
  }

  lemma SendableAt(w: World, i: nat)
    requires Sound(w) && i < |w.ids|
    ensures i < |w.clients| == |w.stations| && (Streams(w.clients[i]) ==> w.clients[i].result.Some?)
    ensures ResultEnd(true) != ResultEnd(false)
  {
    assert ResultEnd(true).status;
  }

  /** The nodes before k have answered, other than keep, and nothing else has happened. */
  predicate DoneUpTo(w: World, k: nat, keep: nat, t: World) {
    && t.ids == w.ids && t.command == w.command && t.missed == w.missed && t.disk.block == w.disk.block
    && |t.stations| == |w.stations| == |t.clients| == |w.clients| == |w.ids| && k <= |w.ids|
    && (forall j :: 0 <= j < k && j != keep ==> Outstanding(t.stations[j]) == 0)
    && (forall j :: 0 <= j < |w.ids| && (j >= k || j == keep) ==>
          t.stations[j] == w.stations[j] && t.clients[j] == w.clients[j])
  }

  lemma DoneAlso(w: World, k: nat, keep: nat, t: World, u: World)
    requires DoneUpTo(w, k, keep, t) && k < |w.ids| && k != keep && OnlyAt(t, k, u)
    requires |u.stations| == |u.clients| == |u.ids| && Outstanding(u.stations[k]) == 0
    ensures DoneUpTo(w, k + 1, keep, u)
  {
  }

  lemma DoneNone(w: World, keep: nat)
    requires Sound(w)
    ensures DoneUpTo(w, 0, keep, w) && Reaches(w, w)
  {
    assert Leads(w, [], w);
    AlsoReaches(w, [], w);
  }

  lemma {:induction false} FinishUpTo(w: World, k: nat, keep: nat) returns (t: World)
    requires Sound(w) && k <= |w.ids| && forall st <- w.stations :: st.asked
    ensures Reaches(w, t) && Sound(t) && DoneUpTo(w, k, keep, t) && Failures(t.counted) == Failures(w.counted)
  {
    hide Reaches, Failures, Outstanding, OnlyAt, Inv, DoneUpTo, Sound;
    if k == 0 {
      t := w;
      DoneNone(w, keep);
    } else {
      var u := FinishUpTo(w, k - 1, keep);
      if k - 1 == keep {
        t := u;
        DoneButOne(w, k - 1, u);
      } else {
        StillAsked(w, k - 1, keep, u);
        t := FinishAt(u, k - 1);
        SoundSizes(t);
        DoneAlso(w, k - 1, keep, u, t);
        ReachesThen(w, u, t);
      }
    }
  }

  lemma SoundSizes(w: World)
    requires Sound(w)
    ensures |w.stations| == |w.clients| == |w.ids|
  {
  }

  lemma DoneButOne(w: World, k: nat, t: World)
    requires DoneUpTo(w, k, k, t) && k < |w.ids|
    ensures DoneUpTo(w, k + 1, k, t)
  {
  }

  lemma StillAsked(w: World, k: nat, keep: nat, t: World)
    requires DoneUpTo(w, k, keep, t) && k < |w.ids| && forall st <- w.stations :: st.asked
    ensures k < |t.ids| == |t.stations| && t.stations[k].asked
  {
    assert w.stations[k] in w.stations;
  }

  lemma {:induction false} AllDone(stations: seq<Station>)
    requires forall st <- stations :: Outstanding(st) == 0
    ensures TotalOutstanding(stations) == 0
  {
    if stations != [] {
      AllDone(stations[..|stations| - 1]);
    }
  }

  /** A request for results that can be answered. */
  predicate AsksForResults(q: Request) {
    Proper(q) && q.command.Result? && q.ids != [] && q.missed == 0
  }

  predicate StreamsAt(q: Request, i: int) {
    0 <= i < |q.clients| && Streams(q.clients[i])
  }

  lemma StartSound(q: Request)
    requires AsksForResults(q)
    ensures var w := Start(q);
            Sound(w) && w.ids == q.ids && w.missed == 0 && w.clients == q.clients && w.counted == []
            && w.disk == q.disk && |w.stations| == |q.ids|
            && forall st <- w.stations :: st == Station(true, None, [], [])
    ensures Failures(Start(q).counted) == 0
  {
    StartInv(q);
  }

  lemma AnsweredWhenDone(q: Request, t: World) returns (events: seq<Event>)
    requires AsksForResults(q) && Reaches(Start(q), t) && Inv(t) && t.ids == q.ids && t.missed == 0
    requires forall st <- t.stations :: Outstanding(st) == 0
    ensures Answered(q, events) && Play(Start(q), events) == t
  {
    AllDone(t.stations);
    AllCounted(t);
    events :| Leads(Start(q), events, t);
    hide Inv, Start, Play, Possible, Steady;
  }

  /** Nodes that answer in turn: the answer that is due. */
  lemma InTurn(q: Request) returns (events: seq<Event>)
    requires AsksForResults(q)
    ensures Answered(q, events) && Failures(Play(Start(q), events).counted) == 0
  {
    StartSound(q);
    hide Start, Inv, Failures, Reaches, Outstanding, Answered, Play;
    var n := |q.ids|;
    var t := FinishUpTo(Start(q), n, n);
    events := AnsweredWhenDone(q, t);
  }

  lemma OneLeft(w: World, n: nat, i: nat, u: World, t: World)
    requires DoneUpTo(w, n, i, u) && n == |w.ids| && i < n && OnlyAt(u, i, t) && Outstanding(t.stations[i]) == 0
    ensures forall st <- t.stations :: Outstanding(st) == 0
  {
    forall st | st in t.stations ensures Outstanding(st) == 0 {
      var j :| 0 <= j < |t.stations| && t.stations[j] == st;
      assert j != i ==> st == u.stations[j];
    }
  }

  /** The last node to send its result may send it so that it is corrupted. */
  lemma CorruptRun(q: Request, i: nat) returns (events: seq<Event>)
    requires AsksForResults(q) && StreamsAt(q, i) && !TransferTheorems.SafeFile(q.clients[i].result.value)
    ensures Answered(q, events) && Play(Start(q), events).disk.file != q.clients[i].result.value
  {
    StartSound(q);
    hide Start, Inv, Failures, Reaches, Answered, Play, TransferTheorems.SafeFile, Outstanding, Transfer.Run;
    hide Transfer.Begin, TransferTheorems.Result, Checked, InStep;
    var n, file := |q.ids|, q.clients[i].result.value;
    var w := Start(q);
    assert w.stations[i] in w.stations;
    var u := FinishUpTo(w, n, i);
    var corrupt := TransferTheorems.OthersCanBeCorrupted(file, false, 0, []);
    var t := SendAt(u, i, corrupt);
    ReachesThen(w, u, t);
    CorruptEnds(t, i, file, corrupt);
    OneLeft(w, n, i, u, t);
    events := AnsweredWhenDone(q, t);
  }

  lemma CorruptEnds(t: World, i: nat, file: seq<Byte>, events: seq<Transfer.Event>)
    requires Inv(t) && SendingAt(t, i) && t.stations[i].acks == []
    requires TransferTheorems.Finished(file, Stages.PLAIN, events)
    requires TransferTheorems.Result(file, Stages.PLAIN, events) != file
    requires t.stations[i].link == Some(Transfer.Run(Transfer.Begin(file, Stages.PLAIN), events))
    requires InStep(t.disk, t.stations[i].link.value) && t.stations[i].link.value.receiver.verdict.Some?
    ensures Outstanding(t.stations[i]) == 0 && t.disk.file != file
  {
    ClosedIsDone(t, i);
    assert StationInv(t.command, t.ids[i], t.stations[i]);
    var r := t.stations[i].link.value.receiver;
    assert r.output[..|r.output|] == r.output;
    hide Transfer.Run, Transfer.Begin, Inv;
  }

  /** A node that is the last to answer leaves the file as it has written it. */
  lemma LastRun(q: Request, i: nat) returns (events: seq<Event>)
    requires AsksForResults(q) && StreamsAt(q, i)
    ensures Answered(q, events) && var t := Play(Start(q), events);
            Failures(t.counted) == 0 && i < |t.stations| && Outstanding(t.stations[i]) == 0
            && t.stations[i].link.Some? && t.disk.file == t.stations[i].link.value.receiver.output
  {
    StartSound(q);
    hide Start, Inv, Failures, Reaches, Answered, Play, Outstanding, Transfer.Run;
    hide Transfer.Begin, TransferTheorems.Result, InStep;
    var n, file := |q.ids|, q.clients[i].result.value;
    var w := Start(q);
    assert w.stations[i] in w.stations;
    var u := FinishUpTo(w, n, i);
    var whole := Stages.ToCheck(file);
    var t := SendAt(u, i, whole);
    ReachesThen(w, u, t);
    WholeEnds(u, t, i, file, whole);
    OneLeft(w, n, i, u, t);
    events := AnsweredWhenDone(q, t);
  }

  lemma WholeEnds(u: World, t: World, i: nat, file: seq<Byte>, events: seq<Transfer.Event>)
    requires Inv(t) && SendingAt(t, i) && t.stations[i].acks == []
    requires Transfer.Possible(Transfer.Begin(file, Stages.PLAIN), events)
    requires t.stations[i].link == Some(Transfer.Run(Transfer.Begin(file, Stages.PLAIN), events))
    requires t.counted == u.counted + Checked(Transfer.Begin(file, Stages.PLAIN), t.stations[i].link.value)
    requires var l := t.stations[i].link.value;
             InStep(t.disk, l) && l.receiver.verdict.Some? && !l.receiver.open && l.wire == []
    ensures Outstanding(t.stations[i]) == 0 && t.disk.file == t.stations[i].link.value.receiver.output
    ensures Failures(t.counted) == Failures(u.counted)
  {
    ClosedIsDone(t, i);
    BeginInStep(t.disk, file);
    var r := t.stations[i].link.value.receiver;
    assert r.output[..|r.output|] == r.output;
    hide Transfer.Run, Transfer.Begin, Inv, Failures;
    FailuresOfOne(u.counted, ResultEnd(true));
    assert ResultEnd(true).status;
  }

  // ---- A check in vain ------------------------------------------------------------------------------------

  /** The length of the file when a stream has been closed that has written so much of it, and it was so long before. */
  function LengthAfter(before: nat, written: nat, block: Block): nat {
    if written % block != 0 && written > before then written else before
  }

  /** Two results of these lengths pass their checks however their streams meet. */
  predicate Compatible(a: nat, b: nat, block: Block) {
    a == b && (a <= Transfer.CHUNK || a % block != 0)
  }

  lemma SameModulo(a: int, b: int)
    requires ToInt32(a) == ToInt32(b)
    ensures (a - b) % TWO32 == 0
  {
  }

  lemma SameRemainder(a: nat, b: nat, block: Block)
    requires Transfer.CHUNK % block == 0 && (b - a) % TWO32 == 0
    ensures a % block == b % block && block <= Transfer.CHUNK
  {
    var m, k := Transfer.CHUNK / block, (b - a) / TWO32;
    assert m * block == Transfer.CHUNK;
    assert b == a + k * TWO32;
    assert TWO32 == 0x1_0000 * Transfer.CHUNK;
    assert k * TWO32 == (k * 0x1_0000 * m) * block;
    Multiple(a, k * 0x1_0000 * m, block);
  }

  /**
   * Of two streams with incompatible lengths the shorter can be checked in vain: when the other has been closed, or
   * has written everything, or its first or second chunk.
   */
  lemma ChooseStage(rx: seq<Byte>, ry: seq<Byte>, block: Block) returns (closed: bool, goal: nat)
    requires Transfer.CHUNK % block == 0 && |rx| <= |ry| && !Compatible(|rx|, |ry|, block)
    ensures Stages.IsStage(ry, goal) && (closed ==> goal == |ry|)
    ensures var before := if closed then goal else HandedOver(goal, block);
            ToInt32(LengthAfter(before, |rx|, block)) != ToInt32(|rx|)
  {
    var a, b := |rx|, |ry|;
    if (b - a) % TWO32 != 0 {
      closed, goal := true, b;
      if ToInt32(b) == ToInt32(a) {
        SameModulo(b, a);
      }
    } else {
      SameRemainder(a, b, block);
      if a % block != 0 {
        closed, goal := false, b;
        LateStage(a, b, block);
      } else {
        closed := false;
        goal := EarlyStage(a, b, block);
      }
    }
  }

  lemma LateStage(a: nat, b: nat, block: Block)
    requires a < b && (b - a) % TWO32 == 0 && a % block == b % block != 0 && block <= Transfer.CHUNK
    ensures ToInt32(LengthAfter(HandedOver(b, block), a, block)) != ToInt32(a)
  {
    hide ToInt32;
    var before := HandedOver(b, block);
    assert 0 < b % block < Transfer.CHUNK;
    assert before == b - b % block;
    assert LengthAfter(before, a, block) == before;
    NotCongruent(a, b, b % block);
  }

  lemma NotCongruent(a: nat, b: nat, r: nat)
    requires a < b && (b - a) % TWO32 == 0 && 0 < r < Transfer.CHUNK && r <= b
    ensures ToInt32(b - r) != ToInt32(a)
  {
    if ToInt32(b - r) == ToInt32(a) {
      SameModulo(b - r, a);
    }
  }

  lemma WholeChunks(k: nat, a: nat, block: Block)
    requires Transfer.CHUNK % block == 0 && a % block == 0
    ensures LengthAfter(HandedOver(k * Transfer.CHUNK, block), a, block) == k * Transfer.CHUNK
  {
    var m := Transfer.CHUNK / block;
    assert m * block == Transfer.CHUNK;
    Multiple(0, k * m, block);
    assert k * Transfer.CHUNK == (k * m) * block;
  }

  lemma EarlyStage(a: nat, b: nat, block: Block) returns (goal: nat)
    requires a <= b && (b - a) % TWO32 == 0 && a % block == 0 && Transfer.CHUNK % block == 0
    requires a < b || a > Transfer.CHUNK
    ensures 0 < goal < b && goal % Transfer.CHUNK == 0
    ensures ToInt32(LengthAfter(HandedOver(goal, block), a, block)) != ToInt32(a)
  {
    hide ToInt32, LengthAfter, HandedOver;
    WholeChunks(1, a, block);
    WholeChunks(2, a, block);
    goal := Transfer.CHUNK;
    if ToInt32(goal) == ToInt32(a) {
      SameModulo(goal, a);
      goal := 2 * Transfer.CHUNK;
      if ToInt32(goal) == ToInt32(a) {
        SameModulo(goal, a);
      }
    }
  }

  /** The END of a stream that has written everything: what is checked is the length of the file. */
  lemma WaitingIsChecked(w: World, i: nat)
    requires SendingAt(w, i) && Inv(w) && Stages.Waiting(w.stations[i].link.value)
    ensures var e := Stream(i, Transfer.Deliver([]));
            Enabled(w, e) && var t, a := Step(w, e), |w.stations[i].link.value.sender.file|;
            Inv(t) && SendingAt(t, i) && OnlyAt(w, i, t)
            && t.counted == w.counted
                 + [ResultEnd(ToInt32(LengthAfter(|w.disk.file|, a, w.disk.block)) == ToInt32(a))]
            && t.stations[i].link.Some? && !t.stations[i].link.value.receiver.crashed
  {
    var l, e := w.stations[i].link.value, Transfer.Deliver([]);
    StreamStep(w, i, e);
    StepKeepsInv(w, Stream(i, e));
    ClosedLength(w.disk, l);
    hide Inv, Count, Answer, ResultEnd, Stored, LengthAfter, SendingAt, OnlyAt, Transfer.Inv;
  }

  lemma ClosedLength(d: Disk, l: Transfer.Link)
    requires Stages.Waiting(l)
    ensures |Stored(d, l.receiver, l.wire[0], [])| == LengthAfter(|d.file|, |l.sender.file|, d.block)
  {
    hide Transfer.Inv;
  }

  /** Node i gets to a stage, or to its END, and the file is as long as what it has handed over. */
  lemma StageAt(w: World, i: nat, closed: bool, goal: nat) returns (t: World)
    requires Sound(w) && i < |w.ids| && w.stations[i].asked && Streams(w.clients[i])
    requires Stages.IsStage(w.clients[i].result.value, goal) && (closed ==> goal == |w.clients[i].result.value|)
    ensures Reaches(w, t) && Sound(t) && SendingAt(t, i) && OnlyAt(w, i, t)
    ensures |t.disk.file| == if closed then goal else HandedOver(goal, w.disk.block)
  {
    hide Inv, Reaches, Step, Enabled, ResultEnd, OnlyAt, Transfer.Begin, Transfer.Run, Transfer.Inv, Stages.IsStage;
    hide Failures, HandedOver;
    SendableAt(w, i);
    var file := w.clients[i].result.value;
    if closed {
      var events := Stages.ToCheck(file);
      t := SendAt(w, i, events);
    } else {
      var events := Stages.ToStage(file, goal);
      Stages.StandingReceiver(Transfer.Run(Transfer.Begin(file, Stages.PLAIN), events));
      t := SendAt(w, i, events);
    }
    assert t.disk.block == w.disk.block by {
      SameBlock(w, i, t);
    }
  }

  lemma SameBlock(w: World, i: nat, t: World)
    requires OnlyAt(w, i, t)
    ensures t.disk.block == w.disk.block
  {
  }

  lemma {:induction false} CountedStays(w: World, events: seq<Event>, r: Reply)
    requires Possible(w, events) && r in w.counted
    ensures r in Play(w, events).counted
    decreases |events|
  {
    if events != [] {
      StaysCounted(w, events[0], r);
      hide Step, Enabled;
      CountedStays(Step(w, events[0]), events[1..], r);
    }
  }

  lemma StaysCounted(w: World, e: Event, r: Reply)
    requires Enabled(w, e) && r in w.counted
    ensures r in Step(w, e).counted
  {
    hide Obey, Count, Answer, Transfer.Step, DiskAfter, ResultEnd;
  }

  /** All of node x's result is written, and then node y gets to a stage. */
  lemma BothWrite(q: Request, x: nat, y: nat, closed: bool, goal: nat) returns (t: World)
    requires AsksForResults(q) && StreamsAt(q, x) && StreamsAt(q, y) && x != y
    requires var ry := q.clients[y].result.value; Stages.IsStage(ry, goal) && (closed ==> goal == |ry|)
    ensures Reaches(Start(q), t) && Inv(t) && SendingAt(t, x) && t.ids == q.ids && t.missed == 0
    ensures t.disk.block == q.disk.block && |t.disk.file| == if closed then goal else HandedOver(goal, q.disk.block)
    ensures var l := t.stations[x].link.value; Stages.Waiting(l) && l.sender.file == q.clients[x].result.value
  {
    hide Inv, Reaches, Transfer.Begin, Transfer.Run, Stages.IsStage, Stages.Waiting, Start, HandedOver, ResultEnd;
    StartSound(q);
    var w, rx := Start(q), q.clients[x].result.value;
    assert w.stations[x] in w.stations && w.stations[y] in w.stations;
    var events := Stages.ToEnd(rx);
    WaitingIsOpen(Transfer.Run(Transfer.Begin(rx, Stages.PLAIN), events));
    var u := SendAt(w, x, events);
    t := StageAt(u, y, closed, goal);
    ReachesThen(w, u, t);
  }

  /** Then x is checked in vain. */
  lemma VainCheck(q: Request, x: nat, y: nat) returns (t: World)
    requires AsksForResults(q) && StreamsAt(q, x) && StreamsAt(q, y) && x != y
    requires Transfer.CHUNK % q.disk.block == 0 && |q.clients[x].result.value| <= |q.clients[y].result.value|
    requires !Compatible(|q.clients[x].result.value|, |q.clients[y].result.value|, q.disk.block)
    ensures Reaches(Start(q), t) && Inv(t) && SendingAt(t, x) && t.ids == q.ids && t.missed == 0
    ensures t.stations[x].link.Some? && !t.stations[x].link.value.receiver.crashed && ResultEnd(false) in t.counted
  {
    hide Start, Inv, Reaches, ResultEnd, Stages.IsStage, Stages.Waiting, Step, Enabled, Transfer.Inv;
    hide LengthAfter, HandedOver, ToInt32, Compatible;
    var closed, goal := ChooseStage(q.clients[x].result.value, q.clients[y].result.value, q.disk.block);
    var u := BothWrite(q, x, y, closed, goal);
    WaitingIsChecked(u, x);
    t := Step(u, Stream(x, Transfer.Deliver([])));
    ReachesStep(u, Stream(x, Transfer.Deliver([])));
    ReachesThen(Start(q), u, t);
  }

  lemma WaitingIsOpen(l: Transfer.Link)
    requires Stages.Waiting(l)
    ensures !l.receiver.crashed
  {
  }

  lemma VainOfShorter(q: Request, x: nat, y: nat) returns (events: seq<Event>)
    requires AsksForResults(q) && StreamsAt(q, x) && StreamsAt(q, y) && x != y
    requires Transfer.CHUNK % q.disk.block == 0 && |q.clients[x].result.value| <= |q.clients[y].result.value|
    requires !Compatible(|q.clients[x].result.value|, |q.clients[y].result.value|, q.disk.block)
    ensures Answered(q, events) && ResultEnd(false) in Play(Start(q), events).counted
  {
    var t := VainCheck(q, x, y);
    hide Start, Inv, ResultEnd, StreamsAt, Compatible;
    var more := DispatchProgress.AnswerCanBeReached(t);
    CountedStays(t, more, ResultEnd(false));
    var u := Play(t, more);
    assert Leads(t, more, u);
    var before :| Leads(Start(q), before, t);
    LeadsThen(Start(q), before, t, more, u);
    events := before + more;
  }

  /** Two streams whose results are not compatible can meet so that one of them is checked in vain. */
  lemma VainRun(q: Request, x: nat, y: nat) returns (events: seq<Event>)
    requires AsksForResults(q) && StreamsAt(q, x) && StreamsAt(q, y) && x != y
    requires Transfer.CHUNK % q.disk.block == 0
    requires !Compatible(|q.clients[x].result.value|, |q.clients[y].result.value|, q.disk.block)
    ensures Answered(q, events) && ResultEnd(false) in Play(Start(q), events).counted
  {
    if |q.clients[x].result.value| > |q.clients[y].result.value| {
      events := VainOfShorter(q, y, x);
    } else {
      events := VainOfShorter(q, x, y);
    }
  }
}
