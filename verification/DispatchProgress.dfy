/**
 * The answer does go out if the command has reached every node in the pool: while the server lives something can
 * always happen until it has, and not for ever.
 */
module DispatchProgress {
  import opened Bytes
  import opened Tally
  import opened Dispatch
  import opened DispatchTheorems
  import opened ResultFile
  import opened Answers
  import Transfer
  import TransferTheorems
  import DoubleClose

  /** An event of the exchange itself, not a foreign write and not the exit of a child. */
  predicate Own(e: Event) {
    !e.ChildExit? && (e.Stream? ==> !e.e.Other?)
  }

  /** No fork fails. */
  predicate Calm(e: Event) {
    e.Handle? ==> e.forked
  }

  // ---- Never stuck ----------------------------------------------------------------------------------------

  /** A transfer whose END has not been checked can go on without a second close. */
  lemma TransferCanGoOn(l: Transfer.Link)
    requires Transfer.Inv(l) && l.receiver.verdict.None?
    ensures var e := TransferTheorems.Next(l);
            Transfer.Enabled(l, e) && !e.Other? && !Transfer.Step(l, e).receiver.crashed
  {
    if TransferTheorems.Over(l) {
      assert false;
    }
    TransferTheorems.NextStep(l);
    hide Transfer.InOrder, Transfer.Load, Transfer.Ends, Transfer.Written, Transfer.CString;
  }

  lemma StationCanGoOn(w: World, i: nat) returns (e: Event)
    requires Inv(w) && i < |w.ids| && Outstanding(w.stations[i]) > 0 && !ServerCrashed(w)
    ensures Own(e) && Calm(e) && e.i == i && Enabled(w, e)
    ensures e.Stream? ==> !Transfer.Step(w.stations[i].link.value, e.e).receiver.crashed
  {
    var st := w.stations[i];
    assert StationInv(w.command, w.ids[i], st);
    if st.asked {
      e := Handle(i, true, Transfer.Setting([], true, false, 0, []));
    } else if st.acks != [] {
      e := Ack(i);
    } else {
      TransferCanGoOn(st.link.value);
      e := Stream(i, TransferTheorems.Next(st.link.value));
      hide Transfer.Step, Transfer.Inv, TransferTheorems.Next;
    }
  }

  lemma ServerLives(w: World, e: Event)
    requires Inv(w) && Enabled(w, e) && (e.Stream? ==> !Transfer.Step(w.stations[e.i].link.value, e.e).receiver.crashed)
    ensures !ServerCrashed(Step(w, e))
  {
    OthersUnchanged(w, e);
    var i, t := e.i, Step(w, e);
    assert w.command.Result? && t.stations[i].link.Some? ==> !t.stations[i].link.value.receiver.crashed by {
      hide Transfer.Step, Inv, Count, Answer, PushAck, ResultEnd, Stored;
    }
    hide Step, Inv;
  }

  lemma {:induction false} SomeOutstanding(stations: seq<Station>) returns (i: nat)
    requires TotalOutstanding(stations) > 0
    ensures i < |stations| && Outstanding(stations[i]) > 0
  {
    var last := |stations| - 1;
    if Outstanding(stations[last]) > 0 {
      i := last;
    } else {
      i := SomeOutstanding(stations[..last]);
    }
  }

  /** As long as the server lives and has not answered a command that went to some node, something can happen. */
  lemma NotStuck(w: World) returns (e: Event)
    requires Inv(w) && w.ids != [] && w.missed == 0 && w.told == [] && !ServerCrashed(w)
    ensures Own(e) && Calm(e) && Enabled(w, e) && !ServerCrashed(Step(w, e))
  {
    AllCounted(w);
    var i := SomeOutstanding(w.stations);
    e := StationCanGoOn(w, i);
    ServerLives(w, e);
  }

  // ---- Not for ever ---------------------------------------------------------------------------------------

  /** A bound on the events left for one node. */
  function Work(k: Client, st: Station): int {
    (if st.asked then 12 + 6 * (if k.result.Some? then |k.result.value| else 0) else 0)
    + (if st.link.Some? then 2 * TransferTheorems.Steps(st.link.value) else 0) + |st.acks|
  }

  function TotalWork(clients: seq<Client>, stations: seq<Station>): int
    requires |clients| == |stations|
  {
    if stations == [] then 0
    else
      var last := |stations| - 1;
      TotalWork(clients[..last], stations[..last]) + Work(clients[last], stations[last])
  }

  lemma {:induction false} WorkUpdate(clients: seq<Client>, stations: seq<Station>, i: nat, k: Client, st: Station)
    requires |clients| == |stations| && i < |stations|
    ensures TotalWork(clients[i := k], stations[i := st])
         == TotalWork(clients, stations) - Work(clients[i], stations[i]) + Work(k, st)
  {
    var last := |stations| - 1;
    if i == last {
      assert clients[i := k][..last] == clients[..last] && stations[i := st][..last] == stations[..last];
    } else {
      WorkUpdate(clients[..last], stations[..last], i, k, st);
      assert clients[i := k][..last] == clients[..last][i := k];
      assert stations[i := st][..last] == stations[..last][i := st];
    }
  }

  lemma {:induction false} WorkIsBound(c: Command, ids: seq<int>, clients: seq<Client>, stations: seq<Station>)
    requires |clients| == |stations| == |ids| && forall i :: 0 <= i < |ids| ==> StationInv(c, ids[i], stations[i])
    ensures TotalWork(clients, stations) >= 0
  {
    if stations != [] {
      var last := |stations| - 1;
      WorkIsBound(c, ids[..last], clients[..last], stations[..last]);
      assert StationInv(c, ids[last], stations[last]);
    }
  }

  lemma HandleWorks(w: World, i: nat, forked: bool, setting: Transfer.Setting)
    requires Inv(w) && Enabled(w, Handle(i, forked, setting))
    ensures
      var t := HandleAt(w, i, forked, setting);
      Work(t.clients[i], t.stations[i]) < Work(w.clients[i], w.stations[i])
  {
    assert StationInv(w.command, w.ids[i], w.stations[i]);
  }

  lemma StreamWorks(w: World, i: nat, e: Transfer.Event)
    requires Inv(w) && Enabled(w, Stream(i, e)) && !e.Other?
    ensures var t := StreamAt(w, i, e);
            t.clients == w.clients && Work(w.clients[i], t.stations[i]) < Work(w.clients[i], w.stations[i])
  {
    hide Count, Answer, PushAck, ResultEnd;
    var st := w.stations[i];
    assert StationInv(w.command, w.ids[i], st);
    TransferTheorems.StepDecreases(st.link.value, e);
    hide Transfer.Step, TransferTheorems.Steps, Inv, StationInv;
  }

  lemma StationWorks(w: World, e: Event)
    requires Inv(w) && Enabled(w, e) && Own(e)
    ensures var t := Step(w, e);
            |t.clients| == |t.stations| == |w.ids|
            && Work(t.clients[e.i], t.stations[e.i]) < Work(w.clients[e.i], w.stations[e.i])
  {
    hide Inv, Work, Obey, Count, Answer;
    OthersUnchanged(w, e);
    match e {
      case Handle(i, forked, setting) => HandleWorks(w, i, forked, setting);
      case Stream(i, x) => StreamWorks(w, i, x);
      case Ack(i) => AckWorks(w, i);
    }
  }

  lemma AckWorks(w: World, i: nat)
    requires Enabled(w, Ack(i))
    ensures var t := Step(w, Ack(i));
            t.clients == w.clients && Work(t.clients[i], t.stations[i]) < Work(w.clients[i], w.stations[i])
  {
  }

  /** Every event of the exchange leaves less to do. */
  lemma WorkDecreases(w: World, e: Event)
    requires Inv(w) && Enabled(w, e) && Own(e)
    ensures var t := Step(w, e);
            |t.clients| == |t.stations| && 0 <= TotalWork(t.clients, t.stations) < TotalWork(w.clients, w.stations)
  {
    hide Step, Work, StationInv, TotalWork, Polled, Told, CountAll, Distinct;
    var i, t := e.i, Step(w, e);
    StationWorks(w, e);
    StepKeepsInv(w, e);
    WorkIsBound(t.command, t.ids, t.clients, t.stations);
    OthersUnchanged(w, e);
    assert t.clients == w.clients[i := t.clients[i]] && t.stations == w.stations[i := t.stations[i]];
    WorkUpdate(w.clients, w.stations, i, t.clients[i], t.stations[i]);
  }

  /** From wherever the exchange has got to, it can be brought to its answer unless the server is down. */
  lemma {:induction false} AnswerCanBeReached(w: World) returns (events: seq<Event>)
    requires Inv(w) && w.ids != [] && w.missed == 0 && !ServerCrashed(w)
    ensures Possible(w, events) && Steady(w, events) && |Play(w, events).told| == 1
    ensures forall e <- events :: Own(e)
    decreases TotalWork(w.clients, w.stations)
  {
    hide Inv, Step, Enabled, TotalWork, ServerCrashed;
    AllCounted(w);
    if w.told != [] {
      events := [];
    } else {
      var e := NotStuck(w);
      WorkDecreases(w, e);
      StepKeepsInv(w, e);
      OthersUnchanged(w, e);
      SameSizes(w);
      var rest := AnswerCanBeReached(Step(w, e));
      PlayFirst(w, e, rest);
      SteadyFirst(w, e, rest);
      events := [e] + rest;
    }
  }

  lemma SameSizes(w: World)
    requires Inv(w)
    ensures |w.stations| == |w.clients| == |w.ids|
  {
  }

  /** There has been no other traffic during the transfers. */
  predicate Quiet(w: World) {
    forall i :: 0 <= i < |w.stations| ==> (w.stations[i].link.Some? ==> w.stations[i].link.value.extra == 0)
  }

  lemma QuietLives(w: World)
    requires Inv(w) && Quiet(w)
    ensures !ServerCrashed(w)
  {
    forall i | 0 <= i < |w.stations| && w.stations[i].link.Some? ensures !w.stations[i].link.value.receiver.crashed {
      assert StationInv(w.command, w.ids[i], w.stations[i]);
      TransferTheorems.QuietSettles(w.stations[i].link.value);
    }
    hide Inv, StationInv;
  }

  lemma StepQuiet(w: World, e: Event)
    requires Inv(w) && Quiet(w) && Enabled(w, e) && Own(e)
    ensures Quiet(Step(w, e))
  {
    OthersUnchanged(w, e);
    var i, t := e.i, Step(w, e);
    assert StationInv(w.command, w.ids[i], w.stations[i]);
    assert t.stations[i].link.Some? ==> t.stations[i].link.value.extra == 0 by {
      if e.Stream? {
        DoubleClose.OwnKeepsSum(w.stations[i].link.value, e.e);
        hide Transfer.Step, Transfer.Inv, Inv, Count, Answer, PushAck, ResultEnd;
      } else {
        hide Inv, Count, Answer, Obey;
      }
    }
    hide Step, Inv;
  }

  lemma {:induction false} QuietRunAnswers(w: World, events: seq<Event>)
    requires Inv(w) && Quiet(w) && w.ids != [] && Possible(w, events) && forall e <- events :: Own(e)
    ensures |w.clients| == |w.stations| && |events| <= TotalWork(w.clients, w.stations)
    ensures (forall e :: Own(e) ==> !Enabled(Play(w, events), e)) ==>
              |Play(w, events).told| == if w.missed == 0 then 1 else 0
    decreases |events|
  {
    hide Inv, Quiet, Step, Enabled, TotalWork, Own, ServerCrashed;
    SameSizes(w);
    if events == [] {
      WorkAtLeast(w);
      AllCounted(w);
      QuietLives(w);
      if w.told == [] && w.missed == 0 {
        var e := NotStuck(w);
      }
    } else {
      WorkDecreases(w, events[0]);
      StepKeepsInv(w, events[0]);
      StepQuiet(w, events[0]);
      OthersUnchanged(w, events[0]);
      QuietRunAnswers(Step(w, events[0]), events[1..]);
    }
  }

  lemma WorkAtLeast(w: World)
    requires Inv(w)
    ensures |w.clients| == |w.stations| && TotalWork(w.clients, w.stations) >= 0
  {
    WorkIsBound(w.command, w.ids, w.clients, w.stations);
  }

  /**
   * Without other traffic a run of the exchange is no longer than the work there was, and where it cannot go on
   * exactly one answer has been sent, or none if the command did not reach every node in the pool.
   */
  lemma EveryRunAnswers(q: Request, events: seq<Event>)
    requires Proper(q) && q.ids != []
    requires Possible(Start(q), events) && forall e <- events :: Own(e)
    ensures var w := Start(q);
            |w.clients| == |w.stations| && |events| <= TotalWork(w.clients, w.stations)
            && ((forall e :: Own(e) ==> !Enabled(Play(w, events), e)) ==>
                  |Play(w, events).told| == if q.missed == 0 then 1 else 0)
  {
    StartInv(q);
    StartQuiet(q);
    StartAsks(q);
    hide Inv, Quiet, Step, Enabled, TotalWork, Own, Start;
    QuietRunAnswers(Start(q), events);
  }

  lemma StartAsks(q: Request)
    requires Proper(q)
    ensures Start(q).ids == q.ids && Start(q).missed == q.missed && Start(q).told == []
  {
  }

  lemma StartQuiet(q: Request)
    requires Proper(q)
    ensures Quiet(Start(q))
  {
    hide Transfer.CString;
  }
}
