/**
 * What becomes of the results when several nodes stream them into the same file: when they are all there, and when
 * the answer does not depend on how the streams meet.
 */
module SharedResults {
  import opened Bytes
  import opened Tally
  import opened ResultFile
  import opened Dispatch
  import opened DispatchTheorems
  import opened Answers
  import opened DispatchFiles
  import opened SharedRuns
  import Transfer
  import TransferTheorems

  // ---- Bytes in the file ----------------------------------------------------------------------------------

  /** The first n bytes of the file are those of r. */
  predicate Right(file: seq<Byte>, n: nat, r: seq<Byte>) {
    n <= |file| && n <= |r| && file[..n] == r[..n]
  }

  /** Writing other bytes of r at their places keeps what is right. */
  lemma OverlayRight(file: seq<Byte>, n: nat, r: seq<Byte>, from: nat, to_: nat)
    requires Right(file, n, r) && |file| <= |r| && from <= to_ <= |r|
    ensures Right(Overlay(file, from, r[from..to_]), n, r) && |Overlay(file, from, r[from..to_])| <= |r|
    ensures n == from ==> Right(Overlay(file, from, r[from..to_]), to_, r)
  {
    var g := Overlay(file, from, r[from..to_]);
    hide Overlay;
    forall k | 0 <= k < n ensures g[k] == r[k] {
      assert file[k] == file[..n][k] && r[k] == r[..n][k];
    }
    if n == from {
      forall k | 0 <= k < to_ ensures g[k] == r[k] {
        assert k < n ==> file[k] == file[..n][k] && r[k] == r[..n][k];
      }
    }
  }

  // ---- One message ----------------------------------------------------------------------------------------

  /** The stream has opened the file. */
  predicate Opened(st: Station) {
    st.link.Some? && !Transfer.Unopened(st.link.value)
  }

  /** Nothing has been done to the file by this stream. */
  predicate SameStream(st: Station, other: Station) {
    (Opened(st) <==> Opened(other)) && (Opened(st) ==> st.link.value.receiver == other.link.value.receiver)
  }

  /** What the file is after a message: a first piece begins it anew, any other goes to its place. */
  predicate Follows(d: Disk, before: Transfer.Link, after: Transfer.Link, file: seq<Byte>) {
    var out, goal := after.receiver.output, Reached(after.receiver, d.block);
    if Transfer.Unopened(before) then file == out[..goal]
    else
      var from := Reached(before.receiver, d.block);
      from <= goal && before.receiver.output <= out && file == Overlay(d.file, from, out[from..goal])
  }

  /** What the receiver does with a message. */
  predicate Receives(first: bool, r: Transfer.Receiver, p: Transfer.Piece, junk: seq<Byte>, t: Transfer.Receiver) {
    |junk| >= Transfer.MemoryNeeded(p) &&
    match p
    case End => !first && t.output == r.output && !t.open
    case Data(f, _, patchLen, content) =>
      var w := Transfer.Written(content, patchLen, junk);
      f == first && t.open && if first then t.output == w else r.open && t.output == r.output + w
  }

  lemma DeliveredReceives(l: Transfer.Link, junk: seq<Byte>)
    requires Transfer.Inv(l) && Transfer.Enabled(l, Transfer.Deliver(junk))
    ensures var t := Transfer.Step(l, Transfer.Deliver(junk));
            !Transfer.Unopened(t) && Receives(Transfer.Unopened(l), l.receiver, l.wire[0], junk, t.receiver)
  {
    hide Transfer.Load, Transfer.Ends, Transfer.Counted, Transfer.Cursor, Transfer.Written;
    TransferTheorems.RestInOrder(l.wire);
  }

  lemma StoredFollows(d: Disk, r: Transfer.Receiver, p: Transfer.Piece, junk: seq<Byte>, t: Transfer.Receiver)
    requires Receives(false, r, p, junk, t)
    ensures var from, goal := Reached(r, d.block), Reached(t, d.block);
            from <= goal && r.output <= t.output && Stored(d, r, p, junk) == Overlay(d.file, from, t.output[from..goal])
  {
    hide Transfer.Written, HandedOver, Overlay;
    HandsOverMore(|r.output|, |t.output| - |r.output|, d.block);
    if p.End? && !r.open {
      assert t.output[|r.output|..|r.output|] == [];
      OverlayNothing(d.file, |r.output|);
    }
  }

  lemma OverlayNothing(file: seq<Byte>, at: nat)
    ensures Overlay(file, at, []) == file
  {
  }

  lemma DeliveredFollows(d: Disk, l: Transfer.Link, junk: seq<Byte>)
    requires Transfer.Inv(l) && Transfer.Enabled(l, Transfer.Deliver(junk))
    ensures var t := Transfer.Step(l, Transfer.Deliver(junk));
            !Transfer.Unopened(t) && Follows(d, l, t, Stored(d, l.receiver, l.wire[0], junk))
  {
    hide Transfer.Step, Transfer.Inv, Overlay, HandedOver, Put, Transfer.Written;
    DeliveredReceives(l, junk);
    var t := Transfer.Step(l, Transfer.Deliver(junk));
    if Transfer.Unopened(l) {
      Anew(t.receiver.output, d.block);
    } else {
      StoredFollows(d, l.receiver, l.wire[0], junk, t.receiver);
    }
  }

  lemma Anew(data: seq<Byte>, block: Block)
    ensures Put([], block, [], data) == data[..HandedOver(|data|, block)]
  {
    assert [] + data == data;
  }

  lemma StreamFollows(w: World, i: nat, e: Transfer.Event)
    requires Inv(w) && Enabled(w, Stream(i, e)) && w.command.Result?
    ensures var l, t := w.stations[i].link.value, Step(w, Stream(i, e));
            var u := Transfer.Step(l, e);
            t.stations[i].link == Some(u) && Transfer.Inv(l) && Transfer.Inv(u) && u.sender.file == l.sender.file
            && if e.Deliver? then Opened(t.stations[i]) && Follows(w.disk, l, u, t.disk.file)
               else t.disk == w.disk && SameStream(w.stations[i], t.stations[i])
    ensures Step(w, Stream(i, e)).disk.block == w.disk.block
  {
    var l := w.stations[i].link.value;
    assert StationInv(w.command, w.ids[i], w.stations[i]);
    VerdictComes(l, e);
    SameFile(l, e);
    if e.Deliver? {
      DeliveredFollows(w.disk, l, e.junk);
    } else {
      Elsewhere(l, e);
    }
    hide Transfer.Step, Transfer.Inv, Inv, StationInv, Count, Answer, ResultEnd, PushAck, Stored, Follows;
    hide Transfer.Unopened;
  }

  lemma Elsewhere(l: Transfer.Link, e: Transfer.Event)
    requires Transfer.Inv(l) && Transfer.Enabled(l, e) && !e.Deliver?
    ensures var t := Transfer.Step(l, e);
            t.receiver == l.receiver && (Transfer.Unopened(t) <==> Transfer.Unopened(l))
  {
    if e.WriteComplete? {
      hide Transfer.CString;
    }
  }

  /** Any other event leaves the file and the streams that have opened it alone. */
  lemma OtherFollows(w: World, e: Event)
    requires Inv(w) && Enabled(w, e) && !e.Stream?
    ensures var t := Step(w, e);
            t.disk == w.disk && |t.stations| == |w.stations|
            && forall i :: 0 <= i < |w.stations| ==> SameStream(w.stations[i], t.stations[i])
  {
    OthersUnchanged(w, e);
    StationFollows(w, e);
    hide Step, Inv, Opened, Enabled, SameStream;
    forall i | 0 <= i < |w.stations| ensures SameStream(w.stations[i], Step(w, e).stations[i]) {
      if i != e.i {
        Itself(w.stations[i]);
      }
    }
  }

  lemma Itself(st: Station)
    ensures SameStream(st, st)
  {
  }

  lemma StationFollows(w: World, e: Event)
    requires Inv(w) && Enabled(w, e) && !e.Stream?
    ensures var t := Step(w, e);
            t.disk == w.disk && e.i < |t.stations| && SameStream(w.stations[e.i], t.stations[e.i])
  {
    hide Count, Answer, Transfer.Begin, Transfer.Unopened, Obey;
    var i := e.i;
    assert StationInv(w.command, w.ids[i], w.stations[i]);
    hide Inv, StationInv;
    if e.Handle? {
      var k := Obey(w.clients[i], w.command, w.ids[i], e.forked).0;
      if k.result.Some? {
        BeginsUnopened(k.result.value, e.setting);
      }
    }
  }

  lemma BeginsUnopened(file: seq<Byte>, x: Transfer.Setting)
    ensures Transfer.Unopened(Transfer.Begin(file, x))
  {
    hide Transfer.CString;
  }

  // ---- Results that are all the same ----------------------------------------------------------------------

  /** Every stream is of the file r, and what it has written is a part of r. */
  predicate AllOf(w: World, r: seq<Byte>) {
    forall st <- w.stations :: st.link.Some? ==>
      st.link.value.sender.file == r && TransferTheorems.Exact(st.link.value)
  }

  /** What this stream has handed over is in the file. */
  predicate PlacedBy(st: Station, d: Disk, r: seq<Byte>) {
    Opened(st) && Right(d.file, Reached(st.link.value.receiver, d.block), r)
  }

  /** Once the file has been opened this holds of the stream that did so last, and nothing lies behind r. */
  predicate Laid(stations: seq<Station>, d: Disk, r: seq<Byte>) {
    (exists st <- stations :: Opened(st)) ==> |d.file| <= |r| && exists st <- stations :: PlacedBy(st, d, r)
  }

  lemma LaidAfter(stations: seq<Station>, d: Disk, i: nat, st: Station, file: seq<Byte>, r: seq<Byte>)
    requires i < |stations| && stations[i].link.Some? && Opened(st) && st.link.value.receiver.output <= r
    requires Follows(d, stations[i].link.value, st.link.value, file) && Laid(stations, d, r)
    ensures Laid(stations[i := st], d.(file := file), r)
  {
    hide Overlay, HandedOver, Transfer.Unopened, Reached;
    var after, e := stations[i := st], d.(file := file);
    var out, goal := st.link.value.receiver.output, Reached(st.link.value.receiver, d.block);
    assert after[i] == st && out[..goal] == r[..goal];
    if Transfer.Unopened(stations[i].link.value) {
      assert PlacedBy(st, e, r);
    } else {
      assert stations[i] in stations && Opened(stations[i]);
      var j: nat :| j < |stations| && PlacedBy(stations[j], d, r);
      var from := Reached(stations[i].link.value.receiver, d.block);
      assert out[from..goal] == r[from..goal];
      OverlayRight(d.file, Reached(stations[j].link.value.receiver, d.block), r, from, goal);
      assert PlacedBy(after[j], e, r);
    }
  }

  lemma LaidSame(stations: seq<Station>, d: Disk, i: nat, st: Station, r: seq<Byte>)
    requires i < |stations| && SameStream(stations[i], st) && Laid(stations, d, r)
    ensures Laid(stations[i := st], d, r)
  {
    var after := stations[i := st];
    if s :| s in after && Opened(s) {
      var k :| 0 <= k < |after| && after[k] == s;
      assert stations[k] in stations && Opened(stations[k]);
      var j: nat :| j < |stations| && PlacedBy(stations[j], d, r);
      assert PlacedBy(after[j], d, r);
    }
  }

  lemma ExactIsPart(l: Transfer.Link)
    requires TransferTheorems.Exact(l) && !Transfer.Unopened(l)
    ensures l.receiver.output <= l.sender.file
  {
  }

  lemma SameSizes(w: World)
    requires Inv(w)
    ensures |w.ids| == |w.stations| == |w.clients|
  {
  }

  /** Only station i has changed. */
  lemma OneChanged(w: World, e: Event)
    requires Inv(w) && Enabled(w, e)
    ensures var t := Step(w, e); e.i < |w.stations| == |t.stations| && t.stations == w.stations[e.i := t.stations[e.i]]
  {
    SameSizes(w);
    OthersUnchanged(w, e);
    hide Step, Inv;
  }

  lemma StepLaid(w: World, e: Event, r: seq<Byte>)
    requires Inv(w) && Enabled(w, e) && w.command.Result?
    requires AllOf(Step(w, e), r) && Laid(w.stations, w.disk, r)
    ensures var t := Step(w, e); Laid(t.stations, t.disk, r)
  {
    hide Inv, TransferTheorems.Exact, Transfer.Step, Transfer.Unopened, Reached, Follows;
    OneChanged(w, e);
    var t := Step(w, e);
    assert t.stations[e.i] in t.stations;
    if e.Stream? {
      StreamFollows(w, e.i, e.e);
      hide Step, Enabled;
      if e.e.Deliver? {
        ExactIsPart(t.stations[e.i].link.value);
        LaidAfter(w.stations, w.disk, e.i, t.stations[e.i], t.disk.file, r);
      } else {
        LaidSame(w.stations, w.disk, e.i, t.stations[e.i], r);
      }
    } else {
      OtherFollows(w, e);
      hide Step, Enabled;
      LaidSame(w.stations, w.disk, e.i, t.stations[e.i], r);
    }
  }

  /** What is known of any world in a steady run. */
  predicate Known(q: Request, w: World) {
    && Inv(w) && AllCarry(w, FilesOf(q.command, q.clients, q.file)) && AsExpected(w, q.clients)
    && w.command == q.command && w.ids == q.ids && w.missed == q.missed && w.disk.block == q.disk.block
  }

  lemma StartKnown(q: Request)
    requires Proper(q)
    ensures Known(q, Start(q))
  {
    StartInv(q);
    StartCarries(q);
    StartAsExpected(q);
    hide Inv, AllCarry, AsExpected;
  }

  lemma StepKnown(q: Request, w: World, e: Event)
    requires Known(q, w) && Enabled(w, e)
    requires (e.Handle? ==> e.forked) && (e.ChildExit? ==> !w.stations[e.i].asked)
    ensures Known(q, Step(w, e))
  {
    hide Inv, AllCarry, AsExpected, Step, Enabled;
    StepKeepsInv(w, e);
    StepCarries(w, e, FilesOf(q.command, q.clients, q.file));
    StepAsExpected(w, q.clients, e);
    SameSizes(w);
    OthersUnchanged(w, e);
    SameBlock(w, e);
  }

  lemma SameBlock(w: World, e: Event)
    requires Enabled(w, e)
    ensures Step(w, e).disk.block == w.disk.block
  {
    hide Transfer.Step, Stored, Count, Answer;
  }

  /** The stream of a node is of the result of its client, which was able to send it. */
  lemma KnownStream(q: Request, w: World, i: nat)
    requires Proper(q) && Known(q, w) && q.command.Result? && i < |q.ids|
    ensures |w.stations| == |q.ids| && StationInv(w.command, w.ids[i], w.stations[i])
    ensures !w.stations[i].asked ==> (w.stations[i].link.Some? <==> StreamsAt(q, i))
    ensures w.stations[i].link.Some? ==>
              StreamsAt(q, i)
              && var l, file := w.stations[i].link.value, q.clients[i].result.value;
                 Transfer.Inv(l) && l.sender.file == file
                 && (TransferTheorems.SafeFile(file) ==> TransferTheorems.Exact(l))
  {
    assert StationAsExpected(w.command, w.ids[i], q.clients[i], w.clients[i], w.stations[i]);
    assert Carries(w.stations[i], FilesOf(q.command, q.clients, q.file)[i]);
    assert StationInv(w.command, w.ids[i], w.stations[i]);
    hide Transfer.Inv, TransferTheorems.Exact, TransferTheorems.SafeFile;
  }

  /** All clients that send a result send r. */
  predicate AllSend(q: Request, r: seq<Byte>) {
    forall i :: 0 <= i < |q.clients| && StreamsAt(q, i) ==> q.clients[i].result.value == r
  }

  lemma KnownAllOf(q: Request, w: World, r: seq<Byte>)
    requires Proper(q) && Known(q, w) && q.command.Result? && AllSend(q, r) && TransferTheorems.SafeFile(r)
    ensures AllOf(w, r)
  {
    hide Known, TransferTheorems.Exact, TransferTheorems.SafeFile, Streams;
    assert |w.stations| == |q.ids| by {
      KnownSizes(q, w);
    }
    forall st | st in w.stations && st.link.Some?
      ensures st.link.value.sender.file == r && TransferTheorems.Exact(st.link.value)
    {
      var i :| 0 <= i < |w.stations| && w.stations[i] == st;
      KnownStream(q, w, i);
    }
  }

  lemma KnownSizes(q: Request, w: World)
    requires Known(q, w)
    ensures |w.stations| == |w.clients| == |q.ids|
  {
  }

  lemma {:induction false} RunLaid(q: Request, w: World, events: seq<Event>, r: seq<Byte>)
    requires Proper(q) && Known(q, w) && q.command.Result? && AllSend(q, r) && TransferTheorems.SafeFile(r)
    requires Laid(w.stations, w.disk, r) && Possible(w, events) && Steady(w, events)
    ensures var t := Play(w, events); Known(q, t) && Laid(t.stations, t.disk, r)
    decreases |events|
  {
    hide Known, Proper, Laid, AllSend, Step, Enabled, AllOf, TransferTheorems.SafeFile;
    if events != [] {
      StepKnown(q, w, events[0]);
      var t := Step(w, events[0]);
      KnownAllOf(q, t, r);
      KnownInv(q, w);
      StepLaid(w, events[0], r);
      RunLaid(q, t, events[1..], r);
    }
  }

  lemma KnownInv(q: Request, w: World)
    requires Known(q, w)
    ensures Inv(w) && w.command == q.command && w.missed == q.missed && w.ids == q.ids
  {
  }

  /** The file is the result of every client that has sent one. */
  predicate AllThere(q: Request, w: World) {
    forall i :: 0 <= i < |q.clients| && StreamsAt(q, i) ==> w.disk.file == q.clients[i].result.value
  }

  /** A stream that is over has handed over its whole file. */
  lemma OverIsPlaced(q: Request, w: World, i: nat)
    requires Proper(q) && Known(q, w) && q.command.Result? && i < |q.ids| && StreamsAt(q, i)
    requires |w.stations| == |q.ids| && Outstanding(w.stations[i]) == 0
    ensures Opened(w.stations[i]) && w.stations[i].link.value.receiver.verdict.Some?
    ensures !w.stations[i].link.value.receiver.open
    ensures TransferTheorems.SafeFile(q.clients[i].result.value) ==>
              w.stations[i].link.value.receiver.output == q.clients[i].result.value
  {
    KnownStream(q, w, i);
    var l := w.stations[i].link.value;
    if TransferTheorems.SafeFile(q.clients[i].result.value) {
      TransferTheorems.CheckedIsWhole(l);
    }
    hide TransferTheorems.Exact, TransferTheorems.SafeFile, Transfer.Load, Transfer.Ends, Known, Transfer.Counted;
  }

  lemma LaidIsWhole(q: Request, w: World, r: seq<Byte>)
    requires Proper(q) && Known(q, w) && q.command.Result? && AllSend(q, r) && TransferTheorems.SafeFile(r)
    requires Laid(w.stations, w.disk, r) && forall st <- w.stations :: Outstanding(st) == 0
    ensures AllThere(q, w)
  {
    hide Known, TransferTheorems.SafeFile, Streams, Outstanding;
    KnownSizes(q, w);
    forall i | 0 <= i < |q.clients| && StreamsAt(q, i) ensures w.disk.file == r {
      assert w.stations[i] in w.stations;
      OverIsPlaced(q, w, i);
      var j: nat :| j < |w.stations| && PlacedBy(w.stations[j], w.disk, r);
      assert w.stations[j] in w.stations;
      KnownStream(q, w, j);
      OverIsPlaced(q, w, j);
      assert r[..|r|] == r && w.disk.file[..|r|] == w.disk.file;
    }
  }

  /** Every run that is answered leaves all results in the file. */
  ghost predicate AlwaysThere(q: Request)
    requires Proper(q)
  {
    forall events :: Answered(q, events) ==> AllThere(q, Play(Start(q), events))
  }

  /** All clients that send a result send the same one, with zeros at the ends of chunks only. */
  predicate SameResult(q: Request) {
    forall i, j :: 0 <= i < |q.clients| && 0 <= j < |q.clients| && StreamsAt(q, i) && StreamsAt(q, j) ==>
      q.clients[i].result == q.clients[j].result && TransferTheorems.SafeFile(q.clients[i].result.value)
  }

  lemma SameIsThere(q: Request, events: seq<Event>)
    requires AsksForResults(q) && SameResult(q) && Answered(q, events)
    ensures AllThere(q, Play(Start(q), events))
  {
    hide Start, Play, Known, Laid, TransferTheorems.SafeFile, Steady, Possible;
    if i :| 0 <= i < |q.clients| && StreamsAt(q, i) {
      var r := q.clients[i].result.value;
      assert AllSend(q, r);
      StartKnown(q);
      StartLaid(q, r);
      RunLaid(q, Start(q), events, r);
      var t := Play(Start(q), events);
      KnownInv(q, t);
      AllCounted(t);
      NothingOutstanding(t.stations);
      LaidIsWhole(q, t, r);
    }
  }

  lemma StartLaid(q: Request, r: seq<Byte>)
    requires AsksForResults(q)
    ensures Laid(Start(q).stations, Start(q).disk, r)
  {
  }

  /**
   * When the answer has been sent every result that was sent is in the file, in every run, exactly when all of them
   * are the same and have zeros at the ends of chunks only.
   */
  lemma ContentsIff(q: Request)
    requires AsksForResults(q)
    ensures AlwaysThere(q) <==> SameResult(q)
  {
    hide Start, Play, Steady, Possible, TransferTheorems.SafeFile;
    if SameResult(q) {
      forall events | Answered(q, events) ensures AllThere(q, Play(Start(q), events)) {
        SameIsThere(q, events);
      }
    }
    if AlwaysThere(q) {
      var inTurn := InTurn(q);
      assert AllThere(q, Play(Start(q), inTurn));
      forall i | 0 <= i < |q.clients| && StreamsAt(q, i)
        ensures TransferTheorems.SafeFile(q.clients[i].result.value)
      {
        SafeOrCorrupt(q, i);
      }
    }
  }

  lemma SafeOrCorrupt(q: Request, i: nat)
    requires AsksForResults(q) && StreamsAt(q, i)
    ensures AlwaysThere(q) ==> TransferTheorems.SafeFile(q.clients[i].result.value)
  {
    hide Start, Play, Steady, Possible, TransferTheorems.SafeFile;
    if !TransferTheorems.SafeFile(q.clients[i].result.value) {
      var corrupt := CorruptRun(q, i);
      assert !AllThere(q, Play(Start(q), corrupt));
    }
  }

  // ---- Results of the same length -------------------------------------------------------------------------

  /** The first message carries a whole chunk, or the whole file if it is shorter. */
  predicate WholeFirst(l: Transfer.Link) {
    Transfer.Unopened(l) ==>
      l.wire[0].patchLen == if |l.sender.file| < Transfer.CHUNK then |l.sender.file| else Transfer.CHUNK
  }

  predicate FirstsWhole(w: World) {
    forall st <- w.stations :: st.link.Some? ==> WholeFirst(st.link.value)
  }

  lemma BeginWhole(file: seq<Byte>, x: Transfer.Setting)
    ensures WholeFirst(Transfer.Begin(file, x))
  {
    hide Transfer.CString;
  }

  lemma WholeStep(l: Transfer.Link, e: Transfer.Event)
    requires Transfer.Inv(l) && Transfer.Enabled(l, e) && WholeFirst(l)
    ensures WholeFirst(Transfer.Step(l, e))
  {
    hide Transfer.CString, Transfer.Load, Transfer.Ends, Transfer.Counted;
    if e.Deliver? {
      TransferTheorems.DeliveredBytes(l, e.junk);
    }
  }

  lemma StationWhole(w: World, e: Event)
    requires Inv(w) && Enabled(w, e) && e.i < |w.stations|
    requires w.stations[e.i].link.Some? ==> WholeFirst(w.stations[e.i].link.value)
    ensures var t := Step(w, e);
            e.i < |t.stations| && (t.stations[e.i].link.Some? ==> WholeFirst(t.stations[e.i].link.value))
  {
    hide Transfer.Step, Transfer.Begin, WholeFirst, Stored, Count, Answer;
    var i := e.i;
    assert StationInv(w.command, w.ids[i], w.stations[i]);
    hide Inv, StationInv;
    match e {
      case Stream(_, x) => WholeStep(w.stations[i].link.value, x);
      case Handle(_, _, x) =>
        if w.clients[i].result.Some? {
          BeginWhole(w.clients[i].result.value, x);
        }
      case _ =>
    }
  }

  lemma StepWhole(w: World, e: Event)
    requires Inv(w) && Enabled(w, e) && FirstsWhole(w)
    ensures FirstsWhole(Step(w, e))
  {
    hide Step, WholeFirst, Inv, Enabled;
    OneChanged(w, e);
    assert w.stations[e.i] in w.stations;
    StationWhole(w, e);
  }

  /** What is known of the length of the file while results of length a are streamed. */
  predicate Even(stations: seq<Station>, d: Disk, a: nat) {
    (exists st <- stations :: Opened(st)) ==>
      && |d.file| <= a && (a <= Transfer.CHUNK && a % d.block == 0 ==> |d.file| == a)
      && exists st <- stations :: Opened(st) && Reached(st.link.value.receiver, d.block) <= |d.file|
  }

  lemma EvenSame(stations: seq<Station>, d: Disk, i: nat, st: Station, a: nat)
    requires i < |stations| && SameStream(stations[i], st) && Even(stations, d, a)
    ensures Even(stations[i := st], d, a)
  {
    var after := stations[i := st];
    if s :| s in after && Opened(s) {
      var k :| 0 <= k < |after| && after[k] == s;
      assert stations[k] in stations && Opened(stations[k]);
      var j: nat :| j < |stations| && Opened(stations[j])
                    && Reached(stations[j].link.value.receiver, d.block) <= |d.file|;
      assert after[j] in after && Opened(after[j]);
      assert Reached(after[j].link.value.receiver, d.block) <= |d.file|;
    }
  }

  lemma EvenAfter(stations: seq<Station>, d: Disk, i: nat, st: Station, file: seq<Byte>, a: nat)
    requires i < |stations| && stations[i].link.Some? && Opened(st) && |st.link.value.receiver.output| <= a
    requires Follows(d, stations[i].link.value, st.link.value, file) && Even(stations, d, a)
    requires Transfer.Unopened(stations[i].link.value) && a <= Transfer.CHUNK && a % d.block == 0 ==> |file| == a
    ensures Even(stations[i := st], d.(file := file), a)
  {
    hide Overlay, HandedOver, Transfer.Unopened, Reached;
    var after, e := stations[i := st], d.(file := file);
    var out, goal := st.link.value.receiver.output, Reached(st.link.value.receiver, d.block);
    assert after[i] == st;
    if !Transfer.Unopened(stations[i].link.value) {
      assert stations[i] in stations && Opened(stations[i]);
      var j: nat :| j < |stations| && Opened(stations[j])
                    && Reached(stations[j].link.value.receiver, d.block) <= |d.file|;
      if j == i {
        assert Reached(after[i].link.value.receiver, d.block) <= |file|;
      } else {
        assert after[j] in after;
      }
    }
  }

  /** All clients that send a result send one of length a. */
  predicate AllLong(q: Request, a: nat) {
    forall i :: 0 <= i < |q.clients| && StreamsAt(q, i) ==> |q.clients[i].result.value| == a
  }

  /** What a stream has written is no longer than its file, and as long once END has been handled. */
  lemma OutputLength(l: Transfer.Link)
    requires Transfer.Inv(l) && !Transfer.Unopened(l)
    ensures |l.receiver.output| <= |l.sender.file| && l.receiver.fileSize == ToInt32(|l.sender.file|)
    ensures l.receiver.verdict.Some? ==> |l.receiver.output| == |l.sender.file| && !l.receiver.open
  {
    assert l.receiver.verdict.Some? ==> forall i :: 0 <= i < |l.wire| ==> l.wire[i].End?;
    TransferTheorems.NoEnd(l.wire);
    if l.receiver.verdict.Some? && l.wire != [] {
      TransferTheorems.EndsOnly(l.wire);
    }
    hide Transfer.Cursor;
  }

  /** A first piece that holds the whole file, in whole blocks, is handed over at once. */
  lemma FirstIsAll(d: Disk, l: Transfer.Link, junk: seq<Byte>, file: seq<Byte>)
    requires Transfer.Inv(l) && Transfer.Enabled(l, Transfer.Deliver(junk)) && Transfer.Unopened(l) && WholeFirst(l)
    requires |l.sender.file| <= Transfer.CHUNK && |l.sender.file| % d.block == 0
    requires Follows(d, l, Transfer.Step(l, Transfer.Deliver(junk)), file)
    ensures |file| == |l.sender.file|
  {
    DeliveredReceives(l, junk);
    hide Transfer.Inv, Transfer.Written;
  }

  lemma StepEven(q: Request, w: World, e: Event, a: nat)
    requires Proper(q) && Known(q, w) && q.command.Result? && AllLong(q, a) && Enabled(w, e)
    requires FirstsWhole(w) && Even(w.stations, w.disk, a)
    ensures var t := Step(w, e); Even(t.stations, t.disk, a)
  {
    hide Known, Proper, Transfer.Step, Follows, WholeFirst, StationInv, Transfer.Inv, Even, Opened, Inv, Reached;
    KnownInv(q, w);
    KnownSizes(q, w);
    OneChanged(w, e);
    var i, t := e.i, Step(w, e);
    if e.Stream? {
      StreamFollows(w, i, e.e);
      KnownStream(q, w, i);
      hide Step;
      var l, u := w.stations[i].link.value, t.stations[i].link.value;
      assert w.stations[i] in w.stations && |l.sender.file| == a;
      if e.e.Deliver? {
        OpenedIs(t.stations[i]);
        OutputLength(u);
        if Transfer.Unopened(l) && a <= Transfer.CHUNK && a % w.disk.block == 0 {
          FirstIsAll(w.disk, l, e.e.junk, t.disk.file);
        }
        EvenAfter(w.stations, w.disk, i, t.stations[i], t.disk.file, a);
      } else {
        EvenSame(w.stations, w.disk, i, t.stations[i], a);
      }
    } else {
      OtherFollows(w, e);
      hide Step, Enabled;
      EvenSame(w.stations, w.disk, i, t.stations[i], a);
    }
  }

  lemma OpenedIs(st: Station)
    ensures Opened(st) <==> st.link.Some? && !Transfer.Unopened(st.link.value)
  {
  }

  // ---- Checks ---------------------------------------------------------------------------------------------

  /** Only one client sends a result, or all send results whose lengths are compatible. */
  predicate OneOrCompatible(q: Request, a: nat) {
    Compatible(a, a, q.disk.block)
    || forall i, j :: 0 <= i < |q.clients| && 0 <= j < |q.clients| && StreamsAt(q, i) && StreamsAt(q, j) ==> i == j
  }

  /** Closing a file that does not end with a whole block hands over its end. */
  lemma ClosedReaches(d: Disk, l: Transfer.Link, junk: seq<Byte>, file: seq<Byte>)
    requires Transfer.Inv(l) && Transfer.Enabled(l, Transfer.Deliver(junk)) && l.receiver.verdict.None?
    requires var t := Transfer.Step(l, Transfer.Deliver(junk));
             Transfer.Inv(t) && t.receiver.verdict.Some? && Follows(d, l, t, file)
    requires |l.sender.file| % d.block != 0
    ensures |file| >= |l.sender.file|
  {
    hide Transfer.Load, Transfer.Ends, Transfer.InOrder, Transfer.Counted, Transfer.Cursor, Transfer.Written;
    DeliveredReceives(l, junk);
    var t := Transfer.Step(l, Transfer.Deliver(junk));
    OutputLength(t);
  }

  lemma VerdictByDelivery(l: Transfer.Link, e: Transfer.Event)
    requires Transfer.Inv(l) && Transfer.Enabled(l, e)
    requires l.receiver.verdict.None? && Transfer.Step(l, e).receiver.verdict.Some?
    ensures e.Deliver?
  {
    if !e.Deliver? {
      Elsewhere(l, e);
    }
  }

  /** In a world with these streams the file has the length that is checked for when stream i has been closed. */
  lemma LengthIsRight(q: Request, t: World, i: nat, a: nat)
    requires Proper(q) && Known(q, t) && q.command.Result? && AllLong(q, a) && OneOrCompatible(q, a) && i < |q.ids|
    requires i < |t.stations| && Opened(t.stations[i]) && t.stations[i].link.value.receiver.verdict.Some?
    requires Even(t.stations, t.disk, a) && (a % q.disk.block != 0 ==> |t.disk.file| >= a)
    ensures |t.disk.file| == a && t.stations[i].link.value.receiver.fileSize == ToInt32(a)
  {
    hide Known, Proper, StationInv, Transfer.Inv, Inv, Reached, Transfer.Unopened, Streams, ToInt32;
    KnownSizes(q, t);
    KnownStream(q, t, i);
    SameBlocks(q, t);
    assert t.stations[i] in t.stations;
    OutputLength(t.stations[i].link.value);
    if !Compatible(a, a, q.disk.block) {
      LonelyReaches(q, t, i, a);
    }
  }

  /** If only one client sends a result the file is as long as what that stream has handed over. */
  lemma LonelyReaches(q: Request, t: World, i: nat, a: nat)
    requires Proper(q) && Known(q, t) && q.command.Result? && OneOrCompatible(q, a) && !Compatible(a, a, q.disk.block)
    requires i < |t.stations| && Opened(t.stations[i]) && !t.stations[i].link.value.receiver.open
    requires Even(t.stations, t.disk, a)
    ensures |t.stations[i].link.value.receiver.output| <= |t.disk.file|
  {
    hide Known, StationInv, Transfer.Inv, Reached, Compatible, Streams;
    KnownSizes(q, t);
    assert t.stations[i] in t.stations;
    var j: nat :| j < |t.stations| && Opened(t.stations[j])
                  && Reached(t.stations[j].link.value.receiver, t.disk.block) <= |t.disk.file|;
    KnownStream(q, t, i);
    KnownStream(q, t, j);
    ClosedReached(t.stations[i].link.value.receiver, t.disk.block);
  }

  lemma SameBlocks(q: Request, w: World)
    requires Known(q, w)
    ensures w.disk.block == q.disk.block
  {
  }

  lemma CheckPasses(q: Request, w: World, i: nat, x: Transfer.Event, a: nat)
    requires Proper(q) && Known(q, w) && q.command.Result? && AllLong(q, a) && OneOrCompatible(q, a)
    requires FirstsWhole(w) && Even(w.stations, w.disk, a) && Enabled(w, Stream(i, x)) && i < |q.ids|
    requires Known(q, Step(w, Stream(i, x)))
    requires var l := w.stations[i].link.value;
             l.receiver.verdict.None? && Transfer.Step(l, x).receiver.verdict.Some?
    ensures |DiskAfter(w, w.stations[i].link.value, x).file| == a
    ensures Transfer.Step(w.stations[i].link.value, x).receiver.fileSize == ToInt32(a)
  {
    hide Known, Proper, Transfer.Step, Follows, WholeFirst, StationInv, Transfer.Inv, Opened, Inv, Reached, Stored;
    hide Transfer.Unopened, Streams, Even, OneOrCompatible, FirstsWhole, ToInt32;
    KnownInv(q, w);
    KnownSizes(q, w);
    SameBlocks(q, w);
    var l, t := w.stations[i].link.value, Step(w, Stream(i, x));
    StreamFollows(w, i, x);
    VerdictByDelivery(l, x);
    StepEven(q, w, Stream(i, x), a);
    KnownStream(q, w, i);
    StreamDisk(w, i, x);
    KnownSizes(q, t);
    hide Step, DiskAfter, Enabled;
    if a % q.disk.block != 0 {
      assert |l.sender.file| == a;
      ClosedReaches(w.disk, l, x.junk, t.disk.file);
    }
    LengthIsRight(q, t, i, a);
  }

  lemma ClosedReached(r: Transfer.Receiver, block: Block)
    requires !r.open
    ensures Reached(r, block) == |r.output|
  {
  }

  lemma StreamDisk(w: World, i: nat, x: Transfer.Event)
    requires Enabled(w, Stream(i, x))
    ensures Step(w, Stream(i, x)).disk == DiskAfter(w, w.stations[i].link.value, x)
  {
    hide Transfer.Step, Stored, Count, Answer;
  }

  /** A refusal on its way is not a check in vain. */
  lemma AckNotVain(q: Request, w: World, i: nat)
    requires Proper(q) && Known(q, w) && q.command.Result? && Enabled(w, Ack(i)) && i < |q.ids|
    ensures w.stations[i].acks[0] != ResultEnd(false)
  {
    var st := w.stations[i];
    KnownStation(q, w, i);
    hide Known, Expected, ResultEnd, Transfer.Inv, Inv;
    assert st.acks[0] in st.acks + st.answered;
    assert Replies(w.command, w.ids[i], q.clients[i], st.acks[0]);
    NotInVain(w.command, w.ids[i], q.clients[i]);
  }

  lemma KnownStation(q: Request, w: World, i: nat)
    requires Known(q, w) && i < |q.ids|
    ensures |w.stations| == |w.clients| == |w.ids| == |q.clients| == |q.ids| && w.command == q.command
    ensures StationAsExpected(w.command, w.ids[i], q.clients[i], w.clients[i], w.stations[i])
  {
  }

  lemma StepCounts(w: World, e: Event)
    requires Enabled(w, e) && w.command.Result?
    ensures var t := Step(w, e);
            match e
            case Ack(i) => t.counted == w.counted + [w.stations[i].acks[0]]
            case Stream(i, x) =>
              var l, u := w.stations[i].link.value, Transfer.Step(w.stations[i].link.value, x);
              t.counted == w.counted +
                if l.receiver.verdict.None? && u.receiver.verdict.Some?
                then [ResultEnd(ToInt32(|DiskAfter(w, l, x).file|) == u.receiver.fileSize)] else []
            case _ => t.counted == w.counted
  {
    hide Transfer.Step, DiskAfter, Obey, Count, Answer, ResultEnd;
  }

  /** The files are known, the file has its length, and no result has been checked in vain. */
  predicate Passing(q: Request, w: World, a: nat) {
    Known(q, w) && FirstsWhole(w) && Even(w.stations, w.disk, a) && ResultEnd(false) !in w.counted
  }

  lemma StepPasses(q: Request, w: World, e: Event, a: nat)
    requires Proper(q) && q.command.Result? && AllLong(q, a) && OneOrCompatible(q, a) && Passing(q, w, a)
    requires Enabled(w, e) && (e.Handle? ==> e.forked) && (e.ChildExit? ==> !w.stations[e.i].asked)
    ensures Passing(q, Step(w, e), a)
  {
    hide Known, Proper, FirstsWhole, Even, AllLong, OneOrCompatible, Step, DiskAfter, Transfer.Step, ResultEnd, ToInt32;
    KnownInv(q, w);
    StepKnown(q, w, e);
    StepWhole(w, e);
    StepEven(q, w, e, a);
    StepCounts(w, e);
    EnabledIsKnown(q, w, e);
    match e {
      case Ack(i) => AckNotVain(q, w, i);
      case Stream(i, x) =>
        if w.stations[i].link.value.receiver.verdict.None? {
          if Transfer.Step(w.stations[i].link.value, x).receiver.verdict.Some? {
            CheckPasses(q, w, i, x, a);
            PassesAreOk();
          }
        }
      case _ =>
    }
  }

  lemma EnabledIsKnown(q: Request, w: World, e: Event)
    requires Known(q, w) && Enabled(w, e)
    ensures e.i < |q.ids|
  {
  }

  lemma PassesAreOk()
    ensures ResultEnd(true) != ResultEnd(false)
  {
    assert ResultEnd(true).status;
  }

  lemma {:induction false} RunPasses(q: Request, w: World, events: seq<Event>, a: nat)
    requires Proper(q) && q.command.Result? && AllLong(q, a) && OneOrCompatible(q, a) && Passing(q, w, a)
    requires Possible(w, events) && Steady(w, events)
    ensures Passing(q, Play(w, events), a)
    decreases |events|
  {
    hide Proper, AllLong, OneOrCompatible, Passing, Step, Enabled;
    if events != [] {
      StepPasses(q, w, events[0], a);
      RunPasses(q, Step(w, events[0]), events[1..], a);
    }
  }

  lemma StartPasses(q: Request, a: nat)
    requires Proper(q) && q.command.Result?
    ensures Passing(q, Start(q), a)
  {
    StartKnown(q);
    hide Known;
  }

  // ---- When the answer is determined ----------------------------------------------------------------------

  /**
   * All clients that send a result, if there is more than one, send results of the same length, which is at most one
   * chunk or does not end with a whole block.
   */
  predicate Alike(q: Request) {
    forall i, j :: 0 <= i < |q.clients| && 0 <= j < |q.clients| && i != j && StreamsAt(q, i) && StreamsAt(q, j) ==>
      Compatible(|q.clients[i].result.value|, |q.clients[j].result.value|, q.disk.block)
  }

  /** Alike results pass every check, so that the answer is the one that is due. */
  lemma AlikePass(q: Request, events: seq<Event>)
    requires Proper(q) && q.command.Result? && Alike(q) && Answered(q, events)
    ensures Play(Start(q), events).told == [Due(q.command, q.ids, q.clients)]
  {
    hide Start, Play, Passing, ResultEnd, Possible, Steady, Due;
    var a := AlikeLong(q);
    StartPasses(q, a);
    RunPasses(q, Start(q), events, a);
    PassingCounts(q, Play(Start(q), events), a);
    AnswerIsDetermined(q, events);
  }

  lemma AlikeLong(q: Request) returns (a: nat)
    requires Alike(q)
    ensures AllLong(q, a) && OneOrCompatible(q, a)
  {
    hide Streams;
    a := 0;
    if i :| 0 <= i < |q.clients| && StreamsAt(q, i) {
      a := ResultLength(q, i);
      if j :| 0 <= j < |q.clients| && StreamsAt(q, j) && j != i {
        assert Compatible(a, a, q.disk.block);
      }
    }
  }

  lemma ResultLength(q: Request, i: nat) returns (a: nat)
    requires StreamsAt(q, i)
    ensures q.clients[i].result.Some? && a == |q.clients[i].result.value|
  {
    a := |q.clients[i].result.value|;
  }

  lemma PassingCounts(q: Request, w: World, a: nat)
    requires Passing(q, w, a)
    ensures Failures(w.counted) == 0
  {
    hide Known;
  }

  /** Any two runs that are answered are answered alike. */
  ghost predicate Determined(q: Request)
    requires Proper(q)
  {
    forall a, b :: Answered(q, a) && Answered(q, b) ==> Play(Start(q), a).told == Play(Start(q), b).told
  }

  lemma VainIsDifferent(q: Request, i: nat, j: nat)
    requires AsksForResults(q) && Transfer.CHUNK % q.disk.block == 0 && i != j && StreamsAt(q, i) && StreamsAt(q, j)
    requires !Compatible(|q.clients[i].result.value|, |q.clients[j].result.value|, q.disk.block)
    ensures !Determined(q)
  {
    hide Start, Play, Streams, Compatible, ResultEnd, Possible, Steady, Due, Failures;
    var vain := VainRun(q, i, j);
    var inTurn := InTurn(q);
    AnswerIsDetermined(q, vain);
    AnswerIsDetermined(q, inTurn);
    InVainFails(Play(Start(q), vain).counted);
    assert Play(Start(q), vain).told != Play(Start(q), inTurn).told;
  }

  lemma InVainFails(counted: seq<Reply>)
    requires ResultEnd(false) in counted
    ensures Failures(counted) > 0
  {
  }

  /**
   * The answer to a request for results is the same in every run exactly when the results are alike. It is then the
   * one that is due.
   */
  lemma DeterminedIff(q: Request)
    requires AsksForResults(q) && Transfer.CHUNK % q.disk.block == 0
    ensures Determined(q) <==> Alike(q)
    ensures Alike(q) ==> forall events | Answered(q, events) ::
              Play(Start(q), events).told == [Due(q.command, q.ids, q.clients)]
  {
    hide Start, Play, Streams, Compatible, Possible, Steady, Due;
    if Alike(q) {
      forall events | Answered(q, events)
        ensures Play(Start(q), events).told == [Due(q.command, q.ids, q.clients)]
      {
        AlikePass(q, events);
      }
    } else {
      NotAlike(q);
    }
  }

  lemma NotAlike(q: Request)
    requires AsksForResults(q) && Transfer.CHUNK % q.disk.block == 0 && !Alike(q)
    ensures !Determined(q)
  {
    var i, j :| 0 <= i < |q.clients| && 0 <= j < |q.clients| && i != j && StreamsAt(q, i) && StreamsAt(q, j)
                && !Compatible(|q.clients[i].result.value|, |q.clients[j].result.value|, q.disk.block);
    VainIsDifferent(q, i, j);
    hide Determined;
  }

  // ---- Two nodes ------------------------------------------------------------------------------------------

  /**
   * Of two nodes with different results the last to answer leaves nothing of the other's result, and the answer says
   * that both have arrived.
   */
  lemma LastOneStays(q: Request, i: nat, j: nat) returns (events: seq<Event>)
    requires AsksForResults(q) && StreamsAt(q, i) && StreamsAt(q, j)
    requires TransferTheorems.SafeFile(q.clients[j].result.value)
    requires q.clients[i].result.value != q.clients[j].result.value
    ensures Answered(q, events) && var r := Play(Start(q), events);
            r.told == [Due(q.command, q.ids, q.clients)]
            && r.disk.file == q.clients[j].result.value != q.clients[i].result.value
  {
    hide Start, Play, Steady, Due, Failures, TransferTheorems.SafeFile, Outstanding;
    events := LastRun(q, j);
    AnswerIsDetermined(q, events);
    StreamsWrite(q, events, j);
  }

  /** If their lengths are not compatible the answer can deny a result that was sent, and blame node 0 for it. */
  lemma NodeZeroIsBlamed(q: Request, i: nat, j: nat) returns (events: seq<Event>)
    requires AsksForResults(q) && Transfer.CHUNK % q.disk.block == 0 && i != j && StreamsAt(q, i) && StreamsAt(q, j)
    requires !Compatible(|q.clients[i].result.value|, |q.clients[j].result.value|, q.disk.block)
    ensures Answered(q, events) && var r := Play(Start(q), events);
            |r.told| == 1 && r.told[0].clientOkNum < CountAble(q.command, q.clients)
            && exists e :: e in r.told[0].nodes && e.0 == 0
  {
    hide Start, Play, Streams, Compatible, ResultEnd, Possible, Steady, Failures, CountAble;
    events := VainRun(q, i, j);
    InVainFails(Play(Start(q), events).counted);
    AnswerLists(q, events);
  }
}
