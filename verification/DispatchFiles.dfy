/** What is transferred in an exchange: every byte is written, and what a second END does to the server. */
module DispatchFiles {
  import opened Bytes
  import opened Tally
  import opened Dispatch
  import opened DispatchTheorems
  import opened ResultFile
  import opened Streaming
  import Transfer
  import TransferTheorems
  import DoubleClose

  // ---- Contents -------------------------------------------------------------------------------------------

  /** The transfer with a node is of this file, and if the file is safe no byte of it is lost, added or changed. */
  predicate Carries(st: Station, file: Option<seq<Byte>>) {
    st.link.Some? ==>
      var l := st.link.value;
      file == Some(l.sender.file) && (TransferTheorems.SafeFile(l.sender.file) ==> TransferTheorems.Exact(l))
  }

  /** files are those to be transferred, if any: for a push the test case, otherwise the results of the clients. */
  predicate AllCarry(w: World, files: seq<Option<seq<Byte>>>) {
    && |files| == |w.ids| == |w.stations| == |w.clients|
    && (w.command.Result? ==> forall i :: 0 <= i < |w.ids| ==> w.clients[i].result == files[i])
    && forall i :: 0 <= i < |w.ids| ==> Carries(w.stations[i], files[i])
  }

  lemma BeginCarries(file: seq<Byte>, x: Transfer.Setting, st: Station)
    requires st.link == Some(Transfer.Begin(file, x))
    ensures Carries(st, Some(file))
  {
    TransferTheorems.BeginInv(file, x);
    if TransferTheorems.SafeFile(file) {
      TransferTheorems.BeginExact(file, x);
    }
    hide TransferTheorems.SafeFile, TransferTheorems.Exact, Transfer.Inv;
    BeginFile(file, x);
  }

  lemma BeginFile(file: seq<Byte>, x: Transfer.Setting)
    ensures Transfer.Begin(file, x).sender.file == file
  {
  }

  lemma StreamCarries(w: World, i: nat, e: Transfer.Event, file: Option<seq<Byte>>)
    requires Inv(w) && Enabled(w, Stream(i, e)) && Carries(w.stations[i], file)
    ensures Carries(StreamAt(w, i, e).stations[i], file)
  {
    var st := w.stations[i];
    assert StationInv(w.command, w.ids[i], st);
    var l := st.link.value;
    if TransferTheorems.SafeFile(l.sender.file) {
      TransferTheorems.StepKeepsExact(l, e);
    }
    SameFile(l, e);
    hide TransferTheorems.SafeFile, TransferTheorems.Exact, Transfer.Inv, Transfer.Step;
    hide Count, Answer, PushAck, ResultEnd, Stored;
    assert StreamAt(w, i, e).stations[i].link == Some(Transfer.Step(l, e));
  }

  lemma SameFile(l: Transfer.Link, e: Transfer.Event)
    requires Transfer.Enabled(l, e)
    ensures Transfer.Step(l, e).sender.file == l.sender.file
  {
  }

  lemma HandleCarries(w: World, i: nat, forked: bool, x: Transfer.Setting, files: seq<Option<seq<Byte>>>)
    requires Inv(w) && AllCarry(w, files) && Enabled(w, Handle(i, forked, x))
    ensures
      var t := HandleAt(w, i, forked, x);
      Carries(t.stations[i], files[i]) && t.clients[i].result == w.clients[i].result
  {
    var st, t := w.stations[i], HandleAt(w, i, forked, x);
    assert StationInv(w.command, w.ids[i], st);
    if t.stations[i].link.Some? {
      BeginCarries(w.clients[i].result.value, x, t.stations[i]);
    }
    hide Carries, Transfer.Begin;
  }

  lemma StepCarries(w: World, e: Event, files: seq<Option<seq<Byte>>>)
    requires Inv(w) && AllCarry(w, files) && Enabled(w, e)
    ensures AllCarry(Step(w, e), files)
  {
    hide Inv, Carries, Obey, Count, Answer, Transfer.Step, Transfer.Begin, ServerCrashed;
    var i, t := e.i, Step(w, e);
    assert Carries(w.stations[i], files[i]);
    match e {
      case Handle(_, forked, x) => HandleCarries(w, i, forked, x, files);
      case ChildExit(_) =>
      case Stream(_, x) => StreamCarries(w, i, x, files[i]);
      case Ack(_) => SameLink(w.stations[i], t.stations[i], files[i]);
    }
    OthersUnchanged(w, e);
    hide Step;
  }

  lemma SameLink(st: Station, other: Station, file: Option<seq<Byte>>)
    requires Carries(st, file) && st.link == other.link
    ensures Carries(other, file)
  {
  }

  lemma {:induction false} RunCarries(w: World, events: seq<Event>, files: seq<Option<seq<Byte>>>)
    requires Inv(w) && AllCarry(w, files) && Possible(w, events)
    ensures AllCarry(Play(w, events), files)
    decreases |events|
  {
    hide Inv, AllCarry, Step, Enabled;
    if events != [] {
      StepCarries(w, events[0], files);
      StepKeepsInv(w, events[0]);
      RunCarries(Step(w, events[0]), events[1..], files);
    }
  }

  /** What is to be transferred to or from each node. */
  function FilesOf(c: Command, clients: seq<Client>, file: seq<Byte>): (files: seq<Option<seq<Byte>>>)
    ensures |files| == |clients|
    ensures forall i :: 0 <= i < |clients| ==> files[i] == if c.Push? then Some(file) else clients[i].result
  {
    seq(|clients|, i requires 0 <= i < |clients| => if c.Push? then Some(file) else clients[i].result)
  }

  lemma StartCarries(q: Request)
    requires Proper(q)
    ensures AllCarry(Start(q), FilesOf(q.command, q.clients, q.file))
  {
    var w := Start(q);
    if q.command.Push? {
      forall i | 0 <= i < |q.ids| ensures Carries(w.stations[i], Some(q.file)) {
        BeginCarries(q.file, q.settings[i], w.stations[i]);
      }
    }
    hide Carries, Transfer.Begin;
  }

  lemma CheckedFile(w: World, files: seq<Option<seq<Byte>>>, i: nat)
    requires Inv(w) && AllCarry(w, files) && i < |w.ids| && w.stations[i].link.Some? && Outstanding(w.stations[i]) == 0
    ensures files[i].Some? && w.stations[i].link.value.receiver.verdict == Some(true)
    ensures TransferTheorems.SafeFile(files[i].value) ==> w.stations[i].link.value.receiver.output == files[i].value
  {
    var st := w.stations[i];
    assert StationInv(w.command, w.ids[i], st) && Carries(st, files[i]);
    TransferTheorems.VerdictIsPositive(st.link.value);
    if TransferTheorems.SafeFile(files[i].value) {
      TransferTheorems.CheckedIsWhole(st.link.value);
    }
    hide TransferTheorems.SafeFile, TransferTheorems.Exact, Transfer.Inv;
  }

  lemma {:induction false} LinksStay(w: World, events: seq<Event>, i: nat)
    requires Possible(w, events) && i < |w.stations| && w.stations[i].link.Some? && Inv(w)
    ensures i < |Play(w, events).stations| && Play(w, events).stations[i].link.Some?
    decreases |events|
  {
    hide Inv, Step, Enabled;
    if events != [] {
      LinkStays(w, events[0], i);
      StepKeepsInv(w, events[0]);
      LinksStay(Step(w, events[0]), events[1..], i);
    }
  }

  lemma LinkStays(w: World, e: Event, i: nat)
    requires Enabled(w, e) && i < |w.stations| && w.stations[i].link.Some? && Inv(w)
    ensures i < |Step(w, e).stations| && Step(w, e).stations[i].link.Some?
  {
    OthersUnchanged(w, e);
    assert StationInv(w.command, w.ids[i], w.stations[i]);
    hide Transfer.Step, Transfer.Inv, Count, Answer;
  }

  /** In any run every stream has written exactly its file when its END has been handled. */
  lemma StreamsWrite(q: Request, events: seq<Event>, i: nat)
    requires Proper(q) && Possible(Start(q), events) && i < |q.ids|
    ensures var r, files := Play(Start(q), events), FilesOf(q.command, q.clients, q.file);
            i < |r.stations| && (r.stations[i].link.Some? && Outstanding(r.stations[i]) == 0 ==>
              files[i].Some?
              && (TransferTheorems.SafeFile(files[i].value) ==>
                    r.stations[i].link.value.receiver.output == files[i].value))
  {
    var w, files := Start(q), FilesOf(q.command, q.clients, q.file);
    StartInv(q);
    StartCarries(q);
    RunKeepsInv(w, events);
    RunCarries(w, events, files);
    var r := Play(w, events);
    assert r.ids == q.ids && |r.stations| == |q.ids|;
    hide Inv, Start, Play, AllCarry, TransferTheorems.SafeFile, Outstanding;
    if r.stations[i].link.Some? && Outstanding(r.stations[i]) == 0 {
      CheckedFile(r, files, i);
    }
  }

  /**
   * Once the answer to a push has been sent, every node has the file, byte for byte, over every interleaving of the
   * connections and whatever other traffic there is, provided the file has zeros at the ends of chunks only.
   */
  lemma PushDelivers(q: Request, events: seq<Event>, i: nat)
    requires Proper(q) && q.command.Push? && TransferTheorems.SafeFile(q.file) && i < |q.ids|
    requires Possible(Start(q), events) && Play(Start(q), events).told != []
    ensures var r := Play(Start(q), events);
            i < |r.stations| && r.stations[i].link.Some? && r.stations[i].link.value.receiver.output == q.file
  {
    var w, r := Start(q), Play(Start(q), events);
    StartInv(q);
    LinksStay(w, events, i);
    RunKeepsInv(w, events);
    AllCounted(r);
    NothingOutstanding(r.stations);
    assert r.stations[i] in r.stations;
    hide Inv, Start, Play, TransferTheorems.SafeFile, Outstanding;
    StreamsWrite(q, events, i);
  }

  // ---- A second END ---------------------------------------------------------------------------------------

  lemma FirstHandles(q: Request)
    requires Proper(q) && q.command.Result? && |q.ids| > 1 && q.clients[0].childNum == 0 && q.clients[0].result.Some?
    ensures var w, h := Start(q), Handle(0, true, q.settings[0]);
            Enabled(w, h) && SendingAt(Step(w, h), 0) && |Step(w, h).stations| == |q.ids|
            && Step(w, h).stations[0].link == Some(Transfer.Begin(q.clients[0].result.value, q.settings[0]))
            && Step(w, h).stations[1].asked
  {
    hide Transfer.Begin;
  }

  lemma {:induction false} AskedIsOutstanding(stations: seq<Station>, i: nat)
    requires i < |stations| && stations[i].asked
    ensures TotalOutstanding(stations) > 0
  {
    if i < |stations| - 1 {
      AskedIsOutstanding(stations[..|stations| - 1], i);
    }
  }

  /**
   * A single heartbeat sent by a client while its result streams makes the server close the file twice. The other
   * nodes need not even have seen the command, and the command line never gets its answer.
   */
  lemma HeartbeatStopsServer(q: Request) returns (before: seq<Transfer.Event>, after: seq<Transfer.Event>)
    requires Proper(q) && q.command.Result? && |q.ids| > 1 && q.clients[0].childNum == 0 && q.clients[0].result.Some?
    ensures DoubleClose.OwnEvents(before) && DoubleClose.OwnEvents(after)
    ensures var events := [Handle(0, true, q.settings[0])] + Lift(0, before + [Transfer.Other(true)] + after);
            Possible(Start(q), events) && var r := Play(Start(q), events);
            ServerCrashed(r) && r.told == [] && |r.stations| == |q.ids| && r.stations[1].asked
  {
    var w, h := Start(q), Handle(0, true, q.settings[0]);
    before, after := DoubleClose.HeartbeatClosesTwice(q.clients[0].result.value, q.settings[0]);
    var stream := before + [Transfer.Other(true)] + after;
    FirstHandles(q);
    StartInv(q);
    hide Start, Step, Lift, Transfer.Run, Transfer.Begin, Transfer.Possible, Inv, Enabled;
    var t := Step(w, h);
    LiftRun(t, 0, stream);
    PlayFirst(w, h, Lift(0, stream));
    var events := [h] + Lift(0, stream);
    RunKeepsInv(w, events);
    var r := Play(w, events);
    AskedIsOutstanding(r.stations, 1);
    AllCounted(r);
  }
}
