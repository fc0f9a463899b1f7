/** Every command gets one answer, neither too early nor too late, and it does not depend on who answers first. */
module DispatchTheorems {
  import opened Bytes
  import opened Tally
  import opened ResultFile
  import opened Dispatch
  import Transfer
  import TransferTheorems

  // ---- Sequences with one station changed -----------------------------------------------------------------

  lemma PolledLast(stations: seq<Station>)
    requires stations != []
    ensures multiset(Polled(stations))
         == multiset(Polled(stations[..|stations| - 1])) + multiset(stations[|stations| - 1].answered)
  {
  }

  /** Station i answers more. */
  lemma {:induction false} PolledUpdate(stations: seq<Station>, i: nat, st: Station, more: seq<Reply>)
    requires i < |stations| && st.answered == stations[i].answered + more
    ensures multiset(Polled(stations[i := st])) == multiset(Polled(stations)) + multiset(more)
  {
    hide Polled;
    var last := |stations| - 1;
    PolledLast(stations);
    PolledLast(stations[i := st]);
    if i == last {
      assert stations[i := st][..last] == stations[..last];
    } else {
      PolledUpdate(stations[..last], i, st, more);
      assert stations[i := st][..last] == stations[..last][i := st];
    }
  }

  lemma {:induction false} Balance(c: Command, ids: seq<int>, stations: seq<Station>)
    requires |ids| == |stations| && forall i :: 0 <= i < |ids| ==> StationInv(c, ids[i], stations[i])
    ensures TotalOutstanding(stations) + |Polled(stations)| == |stations|
  {
    if stations != [] {
      Balance(c, ids[..|ids| - 1], stations[..|stations| - 1]);
    }
  }

  lemma {:induction false} StartStations(n: nat, stations: seq<Station>)
    requires forall st <- stations :: st.answered == []
    ensures Polled(stations) == []
  {
    if stations != [] {
      StartStations(n, stations[..|stations| - 1]);
    }
  }

  // ---- Every step keeps the invariant ---------------------------------------------------------------------

  lemma StartInv(q: Request)
    requires Proper(q)
    ensures Inv(Start(q))
  {
    var w := Start(q);
    forall i | 0 <= i < |q.ids| ensures StationInv(q.command, q.ids[i], w.stations[i]) {
      if q.command.Push? {
        TransferTheorems.BeginInv(q.file, q.settings[i]);
      }
    }
    StartStations(|q.ids|, w.stations);
  }

  lemma CountLast(n: nat, replies: seq<Reply>, r: Reply)
    ensures CountAll(n, replies + [r]) == Count(CountAll(n, replies), r)
  {
    assert (replies + [r])[..|replies|] == replies;
  }

  /** The one answer goes out with the reply that makes the counters equal. */
  lemma ToldLast(n: nat, c: Command, counted: seq<Reply>, r: Reply)
    requires r.command == c
    ensures Told(n, c, counted + [r])
         == (if n == 0 then [] else Told(n, c, counted) + Answer(CountAll(n, counted + [r]), r.command))
  {
    var next := counted + [r];
    if 0 < n <= |counted| {
      assert next[..n] == counted[..n];
    } else if n == |next| {
      assert next[..n] == next;
    }
  }

  lemma CountInKeepsInv(w: World, i: nat, st: Station, r: Reply)
    requires Inv(w) && i < |w.ids| && st.answered == w.stations[i].answered
    requires StationInv(w.command, w.ids[i], st.(answered := st.answered + [r])) && r.command == w.command
    ensures Inv(CountIn(w, i, st, r))
  {
    hide StationInv, Told, Answer, Count, CountAll, Polled, Distinct;
    var n := |w.ids| + w.missed;
    CountLast(n, w.counted, r);
    ToldLast(n, w.command, w.counted, r);
    PolledUpdate(w.stations, i, st.(answered := st.answered + [r]), [r]);
    assert multiset(w.counted + [r]) == multiset(w.counted) + multiset([r]);
  }

  lemma SetKeepsInv(w: World, i: nat, st: Station, clients: seq<Client>)
    requires Inv(w) && i < |w.ids| && st.answered == w.stations[i].answered && |clients| == |w.clients|
    requires StationInv(w.command, w.ids[i], st)
    ensures Inv(w.(stations := w.stations[i := st], clients := clients))
  {
    hide StationInv, Told, CountAll, Polled, Distinct;
    assert st.answered + [] == st.answered;
    PolledUpdate(w.stations, i, st, []);
  }

  lemma HandleKeepsInv(w: World, i: nat, forked: bool, setting: Transfer.Setting)
    requires Inv(w) && Enabled(w, Handle(i, forked, setting))
    ensures Inv(HandleAt(w, i, forked, setting))
  {
    var st, t := w.stations[i], HandleAt(w, i, forked, setting);
    assert StationInv(w.command, w.ids[i], st);
    var (k, r) := Obey(w.clients[i], w.command, w.ids[i], forked);
    if r.None? {
      TransferTheorems.BeginInv(k.result.value, setting);
    }
    assert StationInv(w.command, w.ids[i], t.stations[i]);
    SetKeepsInv(w, i, t.stations[i], t.clients);
  }

  lemma AckKeepsInv(w: World, i: nat)
    requires Inv(w) && Enabled(w, Ack(i))
    ensures Inv(Step(w, Ack(i)))
  {
    var st := w.stations[i];
    assert StationInv(w.command, w.ids[i], st);
    var r, t := st.acks[0], st.(acks := st.acks[1..]);
    assert r in st.acks + st.answered;
    assert StationInv(w.command, w.ids[i], t.(answered := t.answered + [r]));
    CountInKeepsInv(w, i, t, r);
  }

  /** A verdict that has been reached stays, and it is positive. */
  lemma VerdictComes(l: Transfer.Link, e: Transfer.Event)
    requires Transfer.Inv(l) && Transfer.Enabled(l, e)
    ensures var had, has := l.receiver.verdict, Transfer.Step(l, e).receiver.verdict;
            Transfer.Inv(Transfer.Step(l, e)) && (has == had || (had.None? && has == Some(true)))
  {
    TransferTheorems.StepKeepsInv(l, e);
    hide Transfer.Cursor, Transfer.InOrder, Transfer.Counted, Transfer.Load;
    if e.Deliver? && l.wire[0].End? && l.receiver.open {
      TransferTheorems.VerdictIsPositive(Transfer.Step(l, e));
    }
  }

  lemma GoodReplies(id: int, complete: bool)
    ensures PushAck(id, true).command == Push && PushAck(id, true).status
    ensures ResultEnd(complete).command == Result && ResultEnd(complete).status == complete
  {
  }

  /** The invariant does not depend on the disk. */
  lemma DiskIsFree(w: World, disk: Disk)
    requires Inv(w)
    ensures Inv(w.(disk := disk))
  {
    hide StationInv, Told, CountAll, Polled, Distinct;
  }

  lemma StreamKeepsInv(w: World, i: nat, e: Transfer.Event)
    requires Inv(w) && Enabled(w, Stream(i, e))
    ensures Inv(StreamAt(w, i, e))
  {
    hide Transfer.Step, Transfer.Inv, Polled, Told, CountAll, PushAck, ResultEnd, Distinct, DiskAfter;
    var st := w.stations[i];
    assert StationInv(w.command, w.ids[i], st);
    var l := st.link.value;
    VerdictComes(l, e);
    var t := st.(link := Some(Transfer.Step(l, e)));
    var u := w.(disk := DiskAfter(w, l, e));
    DiskIsFree(w, u.disk);
    var complete := ToInt32(|u.disk.file|) == t.link.value.receiver.fileSize;
    GoodReplies(w.ids[i], complete);
    if l.receiver.verdict.Some? || t.link.value.receiver.verdict.None? {
      SetKeepsInv(u, i, t, w.clients);
    } else if w.command.Push? {
      SetKeepsInv(u, i, t.(acks := t.acks + [PushAck(w.ids[i], true)]), w.clients);
    } else {
      CountInKeepsInv(u, i, t, ResultEnd(complete));
    }
  }

  lemma ExitKeepsInv(w: World, i: nat)
    requires Inv(w) && Enabled(w, ChildExit(i))
    ensures Inv(Step(w, ChildExit(i)))
  {
    hide StationInv, Told, CountAll, Polled, Distinct;
  }

  lemma StepKeepsInv(w: World, e: Event)
    requires Inv(w) && Enabled(w, e)
    ensures Inv(Step(w, e))
  {
    hide Inv, Enabled, HandleAt, StreamAt;
    match e {
      case Handle(i, forked, setting) => HandleKeepsInv(w, i, forked, setting);
      case ChildExit(i) => ExitKeepsInv(w, i);
      case Stream(i, x) => StreamKeepsInv(w, i, x);
      case Ack(i) => AckKeepsInv(w, i);
    }
  }

  lemma SameRequest(w: World, e: Event)
    requires Enabled(w, e)
    ensures var t := Step(w, e); t.ids == w.ids && t.command == w.command && t.missed == w.missed
  {
    hide Obey, Count, Answer, DiskAfter, Transfer.Step;
  }

  lemma {:induction false} RunKeepsInv(w: World, events: seq<Event>)
    requires Inv(w) && Possible(w, events)
    ensures Inv(Play(w, events))
    ensures var t := Play(w, events); t.ids == w.ids && t.command == w.command && t.missed == w.missed
    decreases |events|
  {
    hide Inv, Step, Enabled;
    if events != [] {
      StepKeepsInv(w, events[0]);
      SameRequest(w, events[0]);
      RunKeepsInv(Step(w, events[0]), events[1..]);
    }
  }

  // ---- Conservation and the one answer --------------------------------------------------------------------

  lemma AllCounted(w: World)
    requires Inv(w)
    ensures TotalOutstanding(w.stations) + w.counters.acks == |w.ids|
    ensures w.told == [] || |w.told| == 1
    ensures w.told != [] <==> w.missed == 0 && w.ids != [] && TotalOutstanding(w.stations) == 0
  {
    Balance(w.command, w.ids, w.stations);
    assert |w.counted| == |multiset(w.counted)| == |multiset(Polled(w.stations))| == |Polled(w.stations)|;
  }

  /**
   * What is still to be heard of and what has been counted are one per node, whatever other traffic there is, as long
   * as the server lives. There is never a second answer, and the answer goes out exactly when every node in the pool
   * has answered, so never if the command did not reach one of them.
   */
  lemma BroadcastConservation(q: Request, events: seq<Event>)
    requires Proper(q) && Possible(Start(q), events)
    ensures var r := Play(Start(q), events);
            TotalOutstanding(r.stations) + r.counters.acks == |q.ids| && |r.told| <= 1
            && (r.told != [] <==> q.missed == 0 && q.ids != [] && TotalOutstanding(r.stations) == 0)
  {
    var w := Start(q);
    StartInv(q);
    RunKeepsInv(w, events);
    assert w.ids == q.ids && w.missed == q.missed;
    hide Inv, Start, Play, Possible;
    AllCounted(Play(w, events));
  }

  lemma {:induction false} PolledHas(stations: seq<Station>, r: Reply) returns (i: nat)
    requires r in Polled(stations)
    ensures i < |stations| && r in stations[i].answered
  {
    var last := |stations| - 1;
    if r in stations[last].answered {
      i := last;
    } else {
      i := PolledHas(stations[..last], r);
    }
  }

  /** A node fails at most once, unless a result is checked in vain. */
  lemma PolledConsistent(w: World)
    requires Inv(w) && ResultEnd(false) !in Polled(w.stations)
    ensures Consistent(Polled(w.stations))
  {
    var p := Polled(w.stations);
    forall r, q | r in p && q in p && !r.status && !q.status && r.node == q.node ensures r.text == q.text {
      var i := PolledHas(w.stations, r);
      var j := PolledHas(w.stations, q);
      FailsOnce(w, i, r);
      FailsOnce(w, j, q);
      assert i == j;
    }
  }

  lemma FailsOnce(w: World, i: nat, r: Reply)
    requires Inv(w) && i < |w.ids| && r in w.stations[i].answered && !r.status && r != ResultEnd(false)
    ensures r.node == w.ids[i] && w.stations[i].answered == [r]
  {
    assert StationInv(w.command, w.ids[i], w.stations[i]);
    assert r in w.stations[i].acks + w.stations[i].answered;
    assert Proposes(w.command, w.ids[i], w.stations[i], r);
  }

  lemma {:induction false} NothingOutstanding(stations: seq<Station>)
    requires TotalOutstanding(stations) == 0
    ensures forall st <- stations :: Outstanding(st) == 0
  {
    if stations != [] {
      NothingOutstanding(stations[..|stations| - 1]);
      assert stations == stations[..|stations| - 1] + [stations[|stations| - 1]];
    }
  }

  lemma EachAnswersOnce(w: World)
    requires Inv(w) && w.told != []
    ensures forall st <- w.stations :: Outstanding(st) == 0 && |st.answered| == 1
  {
    AllCounted(w);
    NothingOutstanding(w.stations);
    forall st | st in w.stations ensures |st.answered| == 1 {
      var i :| 0 <= i < |w.ids| && w.stations[i] == st;
      assert StationInv(w.command, w.ids[i], st);
    }
  }

  /**
   * The answer counts every node once. Unless a result is checked in vain it is the one a server would give that asked
   * the nodes one after the other.
   */
  lemma AnswerIsSequential(w: World)
    requires Inv(w) && w.told != []
    ensures |w.counted| == |Polled(w.stations)| == |w.ids| && multiset(w.counted) == multiset(Polled(w.stations))
    ensures w.told == [Summarize(CountAll(|w.ids|, w.counted), w.command)]
    ensures ResultEnd(false) !in Polled(w.stations) ==>
              Consistent(w.counted) && w.told == [Summarize(CountAll(|w.ids|, Polled(w.stations)), w.command)]
    ensures forall st <- w.stations :: Outstanding(st) == 0 && |st.answered| == 1
  {
    hide Inv, CountAll, Polled, Summarize, Consistent, ResultEnd, Outstanding;
    EachAnswersOnce(w);
    AllAreCounted(w);
    if ResultEnd(false) !in Polled(w.stations) {
      PolledConsistent(w);
      OrderIndependence(|w.ids|, Polled(w.stations), w.counted);
      SameMembers(w.counted, Polled(w.stations));
      SameConsistent(Polled(w.stations), w.counted);
    }
  }

  lemma SameConsistent(a: seq<Reply>, b: seq<Reply>)
    requires Consistent(a) && forall r :: r in b <==> r in a
    ensures Consistent(b)
  {
  }

  lemma AllAreCounted(w: World)
    requires Inv(w) && w.told != []
    ensures |w.counted| == |Polled(w.stations)| == |w.ids| && multiset(w.counted) == multiset(Polled(w.stations))
    ensures w.told == [Summarize(CountAll(|w.ids|, w.counted), w.command)]
  {
    hide StationInv, Distinct, CountAll, Polled, Summarize, TotalOutstanding;
    AllCounted(w);
    Balance(w.command, w.ids, w.stations);
    assert |w.counted| == |multiset(w.counted)| == |multiset(Polled(w.stations))| == |Polled(w.stations)| == |w.ids|;
    assert w.counted[..|w.ids|] == w.counted;
  }

  // ---- Parts of runs --------------------------------------------------------------------------------------

  lemma OthersUnchanged(w: World, e: Event)
    requires Enabled(w, e)
    ensures var t := Step(w, e);
            t.ids == w.ids && t.command == w.command && t.missed == w.missed
            && |t.stations| == |w.stations| && |t.clients| == |w.clients|
            && forall j :: 0 <= j < |w.ids| && j != e.i ==>
                 t.stations[j] == w.stations[j] && t.clients[j] == w.clients[j]
  {
  }

  lemma PlayFirst(w: World, e: Event, rest: seq<Event>)
    requires Enabled(w, e) && Possible(Step(w, e), rest)
    ensures Possible(w, [e] + rest) && Play(w, [e] + rest) == Play(Step(w, e), rest)
  {
    assert ([e] + rest)[1..] == rest;
  }
}
