/** One node streams its result while the others wait, and the file grows with what the stream writes. */
module Streaming {
  import opened Bytes
  import opened Tally
  import opened ResultFile
  import opened Dispatch
  import opened DispatchTheorems
  import Transfer
  import TransferTheorems

  function Lift(i: nat, events: seq<Transfer.Event>): (lifted: seq<Event>)
    ensures |lifted| == |events| && forall k :: 0 <= k < |events| ==> lifted[k] == Stream(i, events[k])
  {
    seq(|events|, k requires 0 <= k < |events| => Stream(i, events[k]))
  }

  /** Node i is sending its result, and no other stream has stopped the server. */
  predicate SendingAt(w: World, i: nat) {
    && i < |w.stations| == |w.ids| == |w.clients| && w.command.Result? && w.stations[i].link.Some?
    && forall j :: 0 <= j < |w.stations| && j != i && w.stations[j].link.Some? ==>
         !w.stations[j].link.value.receiver.crashed
  }

  /** Nothing but the exchange with node i has gone on. */
  predicate OnlyAt(w: World, i: nat, t: World) {
    && t.ids == w.ids && t.command == w.command && t.missed == w.missed && t.disk.block == w.disk.block
    && |t.stations| == |w.stations| && |t.clients| == |w.clients|
    && forall j :: 0 <= j < |w.stations| && j < |w.clients| && j != i ==>
         t.stations[j] == w.stations[j] && t.clients[j] == w.clients[j]
  }

  lemma StreamStep(w: World, i: nat, e: Transfer.Event)
    requires SendingAt(w, i) && Transfer.Enabled(w.stations[i].link.value, e)
    ensures Enabled(w, Stream(i, e))
    ensures var t := Step(w, Stream(i, e));
            SendingAt(t, i) && OnlyAt(w, i, t) && t.stations[i].link == Some(Transfer.Step(w.stations[i].link.value, e))
            && t.stations[i].acks == w.stations[i].acks && t.clients == w.clients
            && t.disk == DiskAfter(w, w.stations[i].link.value, e)
  {
    OthersUnchanged(w, Stream(i, e));
    hide Transfer.Step, Count, Answer, ResultEnd, Stored;
  }

  lemma OnlyAtSame(w: World, i: nat)
    ensures OnlyAt(w, i, w)
  {
  }

  lemma OnlyAtTwice(w: World, i: nat, t: World, u: World)
    requires OnlyAt(w, i, t) && OnlyAt(t, i, u) && |w.stations| == |w.clients|
    ensures OnlyAt(w, i, u)
  {
  }

  lemma {:induction false} LiftRun(w: World, i: nat, events: seq<Transfer.Event>)
    requires SendingAt(w, i) && Transfer.Possible(w.stations[i].link.value, events)
    ensures Possible(w, Lift(i, events))
    ensures var t := Play(w, Lift(i, events));
            SendingAt(t, i) && OnlyAt(w, i, t) && t.clients == w.clients && t.stations[i].acks == w.stations[i].acks
            && t.stations[i].link == Some(Transfer.Run(w.stations[i].link.value, events))
    decreases |events|
  {
    hide Step, Transfer.Step, Lift, Transfer.Enabled, Enabled, OnlyAt, DiskAfter;
    if events != [] {
      StreamStep(w, i, events[0]);
      var t := Step(w, Stream(i, events[0]));
      LiftRun(t, i, events[1..]);
      assert Lift(i, events) == [Stream(i, events[0])] + Lift(i, events[1..]);
      PlayFirst(w, Stream(i, events[0]), Lift(i, events[1..]));
      OnlyAtTwice(w, i, t, Play(w, Lift(i, events)));
    } else {
      assert Lift(i, events) == [];
      OnlyAtSame(w, i);
    }
  }

  // ---- The file ------------------------------------------------------------------------------------------

  /** The file holds what the stream has written to it and nothing else, as long as no other stream is at it. */
  predicate InStep(d: Disk, l: Transfer.Link) {
    !Transfer.Unopened(l) ==> d.file == l.receiver.output[..Reached(l.receiver, d.block)]
  }

  lemma PutInStep(block: Block, output: seq<Byte>, data: seq<Byte>)
    ensures Put(output[..HandedOver(|output|, block)], block, output, data)
         == (output + data)[..HandedOver(|output + data|, block)]
  {
    hide HandedOver;
    HandsOverMore(|output|, |data|, block);
  }

  lemma StoredInStep(d: Disk, l: Transfer.Link, junk: seq<Byte>)
    requires Transfer.Inv(l) && Transfer.Enabled(l, Transfer.Deliver(junk)) && InStep(d, l)
    ensures InStep(d.(file := Stored(d, l.receiver, l.wire[0], junk)), Transfer.Step(l, Transfer.Deliver(junk)))
  {
    hide Transfer.Load, Transfer.Ends, Transfer.InOrder, Transfer.Counted, Transfer.Cursor, Put;
    hide HandedOver, Transfer.Written;
    var p, r := l.wire[0], l.receiver;
    TransferTheorems.ArrivedGrows(l, junk);
    match p {
      case End =>
        var n := Reached(r, d.block);
        assert r.open ==> Overlay(r.output[..n], n, r.output[n..]) == r.output;
      case Data(first, _, patchLen, content) =>
        var w := Transfer.Written(content, patchLen, junk);
        PutInStep(d.block, if first then [] else r.output, w);
        assert [] + w == w && (w[..0]) == [];
    }
  }

  /** What the server counts when the stream has got from before to after. */
  function Checked(before: Transfer.Link, after: Transfer.Link): seq<Reply> {
    if before.receiver.verdict.None? && after.receiver.verdict.Some? then [ResultEnd(true)] else []
  }

  lemma OtherInStep(d: Disk, l: Transfer.Link, e: Transfer.Event)
    requires Transfer.Enabled(l, e) && InStep(d, l) && !e.Deliver? && Transfer.Inv(l)
    ensures InStep(d, Transfer.Step(l, e)) && Transfer.Step(l, e).receiver == l.receiver
  {
    if e.WriteComplete? {
      TransferTheorems.SentAnnounced(l, e.tail, e.now);
    }
  }

  /** A result that is checked against its own bytes passes. */
  lemma StreamInStep(w: World, i: nat, e: Transfer.Event)
    requires SendingAt(w, i) && Transfer.Inv(w.stations[i].link.value)
    requires Transfer.Enabled(w.stations[i].link.value, e) && InStep(w.disk, w.stations[i].link.value)
    ensures Enabled(w, Stream(i, e))
    ensures var l, t := w.stations[i].link.value, Step(w, Stream(i, e));
            Transfer.Inv(Transfer.Step(l, e)) && InStep(t.disk, Transfer.Step(l, e))
            && t.counted == w.counted + Checked(l, Transfer.Step(l, e))
  {
    var l := w.stations[i].link.value;
    VerdictComes(l, e);
    if e.Deliver? {
      StoredInStep(w.disk, l, e.junk);
      ClosedIsChecked(l, e.junk);
    } else {
      OtherInStep(w.disk, l, e);
    }
    StreamStep(w, i, e);
    hide Transfer.Step, Transfer.Inv, Count, Answer, ResultEnd, Stored, SendingAt, Transfer.Unopened, Reached;
    var t := Step(w, Stream(i, e));
    if Checked(l, Transfer.Step(l, e)) != [] {
      assert InStep(DiskAfter(w, l, e), Transfer.Step(l, e));
    }
  }

  lemma ClosedIsChecked(l: Transfer.Link, junk: seq<Byte>)
    requires Transfer.Inv(l) && Transfer.Enabled(l, Transfer.Deliver(junk))
    ensures var t := Transfer.Step(l, Transfer.Deliver(junk));
            l.receiver.verdict.None? && t.receiver.verdict.Some? ==>
              !Transfer.Unopened(t) && !t.receiver.open && ToInt32(|t.receiver.output|) == t.receiver.fileSize
  {
    TransferTheorems.DeliveredKeepsInv(l, junk);
    TransferTheorems.RestInOrder(l.wire);
    hide Transfer.Load, Transfer.Ends, Transfer.InOrder, Transfer.Counted, Transfer.Cursor, Transfer.Written;
  }

  /** A whole run of node i alone. */
  lemma {:induction false} LiftInStep(w: World, i: nat, events: seq<Transfer.Event>)
    requires SendingAt(w, i) && Transfer.Inv(w.stations[i].link.value) && InStep(w.disk, w.stations[i].link.value)
    requires Transfer.Possible(w.stations[i].link.value, events)
    ensures Possible(w, Lift(i, events))
    ensures var l, r, t := w.stations[i].link.value, Transfer.Run(w.stations[i].link.value, events),
              Play(w, Lift(i, events));
            InStep(t.disk, r) && Transfer.Inv(r) && t.counted == w.counted + Checked(l, r)
            && (l.receiver.verdict.Some? ==> r.receiver.verdict.Some?)
    decreases |events|
  {
    hide Step, Transfer.Step, Lift, Transfer.Enabled, Enabled, OnlyAt, DiskAfter, InStep, Transfer.Inv, ResultEnd;
    if events != [] {
      var e, l := events[0], w.stations[i].link.value;
      StreamStep(w, i, e);
      StreamInStep(w, i, e);
      VerdictComes(l, e);
      var t := Step(w, Stream(i, e));
      LiftInStep(t, i, events[1..]);
      assert Lift(i, events) == [Stream(i, e)] + Lift(i, events[1..]);
      PlayFirst(w, Stream(i, e), Lift(i, events[1..]));
      var r := Transfer.Run(l, events);
      assert Checked(l, r) == Checked(l, Transfer.Step(l, e)) + Checked(Transfer.Step(l, e), r);
      Regroup(w.counted, Checked(l, Transfer.Step(l, e)), Checked(Transfer.Step(l, e), r));
    } else {
      assert Lift(i, events) == [];
      assert w.counted + [] == w.counted;
    }
  }
}
