/** What the events of an exchange bring about: replies, the server's disk, and the counters of the clients. */
module DispatchEvents {
  import opened Bytes
  import opened Tally
  import opened Dispatch
  import opened DispatchTheorems
  import Transfer
  import TransferTheorems

  // ---- The first END of a transfer ------------------------------------------------------------------------

  /** The next message to be handled is an END, and it closes a file that is open. */
  predicate Closes(w: World, i: nat, junk: seq<Byte>) {
    Enabled(w, Stream(i, Transfer.Deliver(junk)))
    && var l := w.stations[i].link.value;
       l.wire[0].End? && l.receiver.open && l.receiver.verdict.None?
  }

  /** Two lengths are the same to a 32-bit comparison. */
  predicate SameLength(a: int, b: int) {
    (a - b) % 0x1_0000_0000 == 0
  }

  lemma SameLengthIs(a: int, b: int)
    requires -0x8000_0000 <= b < 0x8000_0000
    ensures ToInt32(a) == b <==> SameLength(a, b)
  {
  }

  lemma AnnouncedFits(w: World, i: nat)
    requires Inv(w) && i < |w.stations| && w.stations[i].link.Some?
    requires !Transfer.Unopened(w.stations[i].link.value)
    ensures -0x8000_0000 <= w.stations[i].link.value.receiver.fileSize < 0x8000_0000
  {
    assert StationInv(w.command, w.ids[i], w.stations[i]);
  }

  /** The client acknowledges a test case for itself, by the length of what it has written. */
  lemma EndOfPush(w: World, i: nat, junk: seq<Byte>)
    requires Inv(w) && w.command.Push? && Closes(w, i, junk)
    ensures var r := w.stations[i].link.value.receiver;
            var complete := SameLength(|r.output|, r.fileSize);
            var t := Step(w, Stream(i, Transfer.Deliver(junk)));
            t.stations[i].acks ==
              w.stations[i].acks
              + [Reply(Push, w.ids[i], complete, Ascii(if complete then "push recv success" else "push recv fail"))]
            && t.counted == w.counted && t.told == w.told && t.disk == w.disk
  {
    var r := w.stations[i].link.value.receiver;
    AnnouncedFits(w, i);
    SameLengthIs(|r.output|, r.fileSize);
    hide ToInt32, Inv;
  }

  /** The server counts a result by the length of the file that all results share, and names node 0 if it denies it. */
  lemma EndOfResult(w: World, i: nat, junk: seq<Byte>)
    requires Inv(w) && w.command.Result? && Closes(w, i, junk)
    ensures var t := Step(w, Stream(i, Transfer.Deliver(junk)));
            var complete := SameLength(|t.disk.file|, w.stations[i].link.value.receiver.fileSize);
            t.counted ==
              w.counted + [Reply(Result, 0, complete, if complete then [] else Ascii("file is not completed"))]
            && t.stations[i].acks == w.stations[i].acks
  {
    var t := Step(w, Stream(i, Transfer.Deliver(junk)));
    AnnouncedFits(w, i);
    SameLengthIs(|t.disk.file|, w.stations[i].link.value.receiver.fileSize);
    hide ToInt32, Inv, ResultFile.Stored;
  }

  // ---- The disk -------------------------------------------------------------------------------------------

  /** Only results are written to the server's disk. */
  lemma {:induction false} DiskUntouched(w: World, events: seq<Event>)
    requires Possible(w, events) && !w.command.Result?
    ensures Play(w, events).disk == w.disk
    decreases |events|
  {
    if events != [] {
      DiskUntouched(Step(w, events[0]), events[1..]);
      hide Obey, Transfer.Step, Count, Answer;
    }
  }

  // ---- The counters of the clients ------------------------------------------------------------------------

  /** How many children of client i have exited. */
  function Exits(events: seq<Event>, i: nat): nat {
    if events == [] then 0 else (if events[0] == ChildExit(i) then 1 else 0) + Exits(events[1..], i)
  }

  /** How often client i has been asked for UPDATE or RUN when its counter was zero. */
  function Starts(w: World, events: seq<Event>, i: nat): nat
    requires Possible(w, events)
    decreases |events|
  {
    if events == [] then 0
    else
      var e := events[0];
      (if e.Handle? && e.i == i && w.clients[i].childNum == 0 && (w.command.Update? || w.command.Run?) then 1 else 0)
      + Starts(Step(w, e), events[1..], i)
  }

  lemma ClientStep(w: World, e: Event, i: nat)
    requires Enabled(w, e) && i < |w.clients|
    ensures var t := Step(w, e);
            |t.clients| == |w.clients| && t.command == w.command
            && t.clients[i].childNum + (if e == ChildExit(i) then 1 else 0) ==
               w.clients[i].childNum
               + if e.Handle? && e.i == i && w.clients[i].childNum == 0 && (w.command.Update? || w.command.Run?)
                 then 1 else 0
  {
    hide Transfer.Step, Count, Answer, Transfer.Enabled, ServerCrashed;
  }

  /** In any run the counter of a client goes up by one for each command it has begun and down for each exit. */
  lemma {:induction false} ClientCounts(w: World, events: seq<Event>, i: nat)
    requires Possible(w, events) && i < |w.clients|
    ensures |Play(w, events).clients| == |w.clients|
    ensures Play(w, events).clients[i].childNum + Exits(events, i) == w.clients[i].childNum + Starts(w, events, i)
    decreases |events|
  {
    if events != [] {
      ClientStep(w, events[0], i);
      ClientCounts(Step(w, events[0]), events[1..], i);
      hide Step;
    }
  }

  // ---- What can happen ------------------------------------------------------------------------------------

  lemma {:induction false} OneMore(w: World, events: seq<Event>, e: Event)
    ensures Possible(w, events + [e]) <==> Possible(w, events) && Enabled(Play(w, events), e)
    ensures Possible(w, events + [e]) ==> Play(w, events + [e]) == Step(Play(w, events), e)
    decreases |events|
  {
    hide Step, Enabled;
    var all := events + [e];
    if events == [] {
      assert all == [e] && all[1..] == [];
    } else {
      assert all[0] == events[0] && all[1..] == events[1..] + [e];
      if Enabled(w, events[0]) {
        OneMore(Step(w, events[0]), events[1..], e);
      }
    }
  }

  /** Node i has handled the command. */
  predicate Asked(events: seq<Event>, i: nat) {
    exists e :: e in events && e.Handle? && e.i == i
  }

  /** What the server still has to hear from the node, or has heard, in an ACK. */
  predicate Acknowledges(c: Command, asked: bool, st: Station) {
    if st.link.None? then asked else c.Push? && st.link.value.receiver.verdict.Some?
  }

  predicate StationIs(c: Command, events: seq<Event>, i: nat, st: Station) {
    && (st.asked <==> !c.Push? && !Asked(events, i)) && (c.Push? ==> st.link.Some?)
    && (st.link.Some? && !c.Push? ==> c.Result? && Asked(events, i))
    && |st.acks| + (if Ack(i) in events then 1 else 0) == if Acknowledges(c, Asked(events, i), st) then 1 else 0
  }

  lemma StationStep(w: World, events: seq<Event>, e: Event)
    requires Inv(w) && Enabled(w, e) && StationIs(w.command, events, e.i, w.stations[e.i])
    ensures StationIs(w.command, events + [e], e.i, Step(w, e).stations[e.i])
  {
    var i, st := e.i, w.stations[e.i];
    assert Ack(i) in events + [e] <==> Ack(i) in events || e == Ack(i);
    assert Asked(events + [e], i) <==> Asked(events, i) || e.Handle?;
    assert StationInv(w.command, w.ids[i], st);
    if e.Stream? {
      VerdictComes(st.link.value, e.e);
    }
    hide Transfer.Step, Transfer.Begin, Transfer.Enabled, Transfer.Inv, Count, Answer, Asked, ServerCrashed, Inv;
    hide PushAck, ResultEnd, DiskAfter, Outstanding, Proposes;
  }

  lemma StationStays(c: Command, events: seq<Event>, e: Event, i: nat, st: Station)
    requires StationIs(c, events, i, st) && e.i != i
    ensures StationIs(c, events + [e], i, st)
  {
    assert Ack(i) in events + [e] <==> Ack(i) in events;
    assert Asked(events + [e], i) <==> Asked(events, i);
  }

  lemma {:induction false} RunIs(q: Request, events: seq<Event>, i: nat)
    requires Proper(q) && Possible(Start(q), events) && i < |q.ids|
    ensures var w := Play(Start(q), events);
            Inv(w) && |w.stations| == |q.ids| && w.command == q.command
            && StationIs(w.command, events, i, w.stations[i])
  {
    hide StationIs, Step, Enabled, Start, Inv, Proper;
    if events == [] {
      StartInv(q);
      StartIs(q, i);
    } else {
      var init, e := events[..|events| - 1], events[|events| - 1];
      assert events == init + [e];
      OneMore(Start(q), init, e);
      RunIs(q, init, i);
      var w := Play(Start(q), init);
      StepKeepsInv(w, e);
      SameRequest(w, e);
      OthersUnchanged(w, e);
      SameStations(w, e);
      if e.i == i {
        StationStep(w, init, e);
      } else {
        StationStays(w.command, init, e, i, w.stations[i]);
      }
    }
  }

  lemma StartIs(q: Request, i: nat)
    requires Proper(q) && i < |q.ids|
    ensures |Start(q).stations| == |q.ids| && Start(q).command == q.command
    ensures StationIs(q.command, [], i, Start(q).stations[i])
  {
    if q.command.Push? {
      TransferTheorems.BeginInv(q.file, q.settings[i]);
      assert Transfer.Begin(q.file, q.settings[i]).receiver.verdict.None?;
    }
  }

  lemma SameStations(w: World, e: Event)
    requires Inv(w) && Enabled(w, e)
    ensures |Step(w, e).stations| == |w.stations| == |w.ids| && e.i < |w.stations|
  {
    hide Obey, Transfer.Step, Count, Answer, Inv;
  }

  /** In the state w, which the events have led to. */
  predicate CanHappen(q: Request, events: seq<Event>, w: World, e: Event)
    requires Proper(q) && Possible(Start(q), events) && |w.stations| == |q.ids|
  {
    e.i < |q.ids| && !ServerCrashed(w) &&
    match e
    case Handle(i, _, _) => !q.command.Push? && !Asked(events, i)
    case ChildExit(i) => Exits(events, i) < q.clients[i].childNum + Starts(Start(q), events, i)
    case Stream(i, x) => w.stations[i].link.Some? && Transfer.Enabled(w.stations[i].link.value, x)
    case Ack(i) => Ack(i) !in events && Acknowledges(q.command, Asked(events, i), w.stations[i])
  }

  /**
   * After any run of an exchange, what can happen next as long as the server has not crashed: a node that is asked
   * handles the command once, a child of a client exits if one has begun that has not, a transfer goes on, and an ACK
   * is counted once, if the node has replied in one.
   */
  lemma PossibleIff(q: Request, events: seq<Event>, e: Event)
    requires Proper(q) && Possible(Start(q), events)
    ensures |Play(Start(q), events).stations| == |q.ids|
    ensures Possible(Start(q), events + [e]) <==> CanHappen(q, events, Play(Start(q), events), e)
  {
    var w := Play(Start(q), events);
    OneMore(Start(q), events, e);
    StartInv(q);
    RunKeepsInv(Start(q), events);
    assert |w.stations| == |w.clients| == |w.ids| == |q.ids| by {
      SameIds(q, w);
    }
    if e.i < |q.ids| {
      RunIs(q, events, e.i);
      ClientCounts(Start(q), events, e.i);
    }
    hide Inv, ServerCrashed, Transfer.Enabled, Asked, Acknowledges, Exits, Starts, Play;
  }

  lemma SameIds(q: Request, w: World)
    requires Proper(q) && Inv(w) && w.ids == Start(q).ids
    ensures |w.stations| == |w.clients| == |w.ids| == |q.ids|
  {
  }
}
