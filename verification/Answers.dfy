/** What the one answer says: for every command, and for results that are written to the same file. */
module Answers {
  import opened Bytes
  import opened Tally
  import opened Dispatch
  import opened DispatchTheorems
  import Transfer

  // ---- What is expected -----------------------------------------------------------------------------------

  /** A client that sends its result when it is asked for it in this state. */
  predicate Streams(k: Client) {
    k.childNum == 0 && k.result.Some?
  }

  /** What a node replies when it is asked in the state k, no fork fails and no result is checked in vain. */
  function Expected(c: Command, id: int, k: Client): Reply {
    if c.Push? then PushAck(id, true)
    else
      var r := Obey(k, c, id, true).1;
      if r.Some? then r.value else ResultEnd(true)
  }

  lemma StreamsEnd(id: int, k: Client)
    ensures Obey(k, Result, id, true).1.None? <==> Streams(k)
    ensures Streams(k) ==> Expected(Result, id, k) == ResultEnd(true)
  {
  }

  /** No fork fails, and no child exits before its client has been asked. */
  predicate Steady(w: World, events: seq<Event>)
    requires Possible(w, events)
    decreases |events|
  {
    events != [] ==>
      && (events[0].Handle? ==> events[0].forked)
      && (events[0].ChildExit? ==> !w.stations[events[0].i].asked)
      && Steady(Step(w, events[0]), events[1..])
  }

  lemma SteadyFirst(w: World, e: Event, rest: seq<Event>)
    requires Enabled(w, e) && (e.Handle? ==> e.forked) && !e.ChildExit?
    requires Possible(Step(w, e), rest) && Steady(Step(w, e), rest)
    ensures Possible(w, [e] + rest) && Steady(w, [e] + rest)
  {
    assert ([e] + rest)[1..] == rest;
  }

  /** The reply is the expected one, or a result has been checked in vain. */
  predicate Replies(c: Command, id: int, was: Client, r: Reply) {
    r == Expected(c, id, was) || (c.Result? && Streams(was) && r == ResultEnd(false))
  }

  predicate StationAsExpected(c: Command, id: int, was: Client, k: Client, st: Station) {
    && (st.asked ==> k == was && !c.Push? && st.link.None? && st.acks == [])
    && (c.Result? && !st.asked ==> (st.link.Some? <==> Streams(was)) && (st.link.Some? ==> st.acks == []))
    && (forall r <- st.acks + st.answered :: Replies(c, id, was, r))
  }

  /** Every reply so far is one of these. */
  predicate AsExpected(w: World, clients: seq<Client>) {
    && |w.ids| == |w.stations| == |w.clients| == |clients|
    && forall i :: 0 <= i < |w.ids| ==> StationAsExpected(w.command, w.ids[i], clients[i], w.clients[i], w.stations[i])
  }

  lemma StreamAsExpected(w: World, was: Client, i: nat, e: Transfer.Event)
    requires Inv(w) && Enabled(w, Stream(i, e))
    requires StationAsExpected(w.command, w.ids[i], was, w.clients[i], w.stations[i])
    ensures StationAsExpected(w.command, w.ids[i], was, w.clients[i], StreamAt(w, i, e).stations[i])
    ensures StreamAt(w, i, e).clients == w.clients
  {
    var st := w.stations[i];
    assert StationInv(w.command, w.ids[i], st);
    VerdictComes(st.link.value, e);
    StreamsEnd(w.ids[i], was);
    var t := StreamAt(w, i, e).stations[i];
    hide Transfer.Step, Obey, PushAck, ResultEnd, Count, Answer, DiskAfter, Streams, StationInv, Inv, Transfer.Enabled;
    assert forall r <- t.acks + t.answered :: r in st.acks + st.answered || Replies(w.command, w.ids[i], was, r);
  }

  lemma HandleAsExpected(w: World, was: Client, i: nat, setting: Transfer.Setting)
    requires Enabled(w, Handle(i, true, setting))
    requires StationAsExpected(w.command, w.ids[i], was, w.clients[i], w.stations[i])
    ensures var t := HandleAt(w, i, true, setting);
            StationAsExpected(w.command, w.ids[i], was, t.clients[i], t.stations[i])
  {
    var st, t := w.stations[i], HandleAt(w, i, true, setting);
    var now := t.stations[i];
    assert forall r <- now.acks + now.answered :: r in st.acks + st.answered || r == now.acks[|st.acks|];
  }

  lemma AckAsExpected(w: World, was: Client, i: nat)
    requires Enabled(w, Ack(i))
    requires StationAsExpected(w.command, w.ids[i], was, w.clients[i], w.stations[i])
    ensures StationAsExpected(w.command, w.ids[i], was, w.clients[i], Step(w, Ack(i)).stations[i])
  {
    var st := w.stations[i];
    assert st.acks[0] in st.acks + st.answered;
    assert forall r <- st.acks[1..] + (st.answered + [st.acks[0]]) :: r in st.acks + st.answered;
  }

  lemma ExitAsExpected(w: World, was: Client, i: nat)
    requires Enabled(w, ChildExit(i)) && !w.stations[i].asked
    requires StationAsExpected(w.command, w.ids[i], was, w.clients[i], w.stations[i])
    ensures var t := Step(w, ChildExit(i));
            StationAsExpected(w.command, w.ids[i], was, t.clients[i], t.stations[i])
  {
    hide Streams, Replies;
  }

  lemma StepAsExpected(w: World, clients: seq<Client>, e: Event)
    requires Inv(w) && AsExpected(w, clients) && Enabled(w, e)
    requires (e.Handle? ==> e.forked) && (e.ChildExit? ==> !w.stations[e.i].asked)
    ensures AsExpected(Step(w, e), clients)
  {
    hide StationAsExpected, Inv, HandleAt, StreamAt, Count, Answer, ServerCrashed, Transfer.Enabled;
    OthersUnchanged(w, e);
    var i := e.i;
    assert StationAsExpected(w.command, w.ids[i], clients[i], w.clients[i], w.stations[i]);
    match e {
      case Handle(_, _, setting) => HandleAsExpected(w, clients[i], i, setting);
      case ChildExit(_) => ExitAsExpected(w, clients[i], i);
      case Stream(_, x) => StreamAsExpected(w, clients[i], i, x);
      case Ack(_) => AckAsExpected(w, clients[i], i);
    }
  }

  lemma {:induction false} RunAsExpected(w: World, clients: seq<Client>, events: seq<Event>)
    requires Inv(w) && AsExpected(w, clients) && Possible(w, events) && Steady(w, events)
    ensures AsExpected(Play(w, events), clients)
    decreases |events|
  {
    if events != [] {
      StepKeepsInv(w, events[0]);
      StepAsExpected(w, clients, events[0]);
      RunAsExpected(Step(w, events[0]), clients, events[1..]);
    }
  }

  lemma StartAsExpected(q: Request)
    requires Proper(q)
    ensures AsExpected(Start(q), q.clients)
  {
  }

  /** A steady run that has ended with an answer. */
  predicate Answered(q: Request, events: seq<Event>)
    requires Proper(q)
  {
    Possible(Start(q), events) && Steady(Start(q), events) && Play(Start(q), events).told != []
  }

  lemma {:induction false} PolledOnes(stations: seq<Station>, replies: seq<Reply>)
    requires |stations| == |replies| && forall i :: 0 <= i < |replies| ==> stations[i].answered == [replies[i]]
    ensures Polled(stations) == replies
  {
    if stations != [] {
      var last := |stations| - 1;
      PolledOnes(stations[..last], replies[..last]);
    }
  }

  function ExpectedReplies(c: Command, ids: seq<int>, clients: seq<Client>): (r: seq<Reply>)
    requires |ids| == |clients|
    ensures |r| == |ids| && forall i :: 0 <= i < |ids| ==> r[i] == Expected(c, ids[i], clients[i])
  {
    seq(|ids|, i requires 0 <= i < |ids| => Expected(c, ids[i], clients[i]))
  }

  /** One reply per node. */
  predicate AllReply(c: Command, ids: seq<int>, clients: seq<Client>, replies: seq<Reply>) {
    && |replies| == |ids| == |clients|
    && forall i :: 0 <= i < |ids| ==> Replies(c, ids[i], clients[i], replies[i])
  }

  lemma PolledReplies(w: World, clients: seq<Client>)
    requires AsExpected(w, clients) && forall st <- w.stations :: |st.answered| == 1
    ensures AllReply(w.command, w.ids, clients, Polled(w.stations))
  {
    var replies := seq(|w.ids|, i requires 0 <= i < |w.ids| => w.stations[i].answered[0]);
    forall i | 0 <= i < |w.ids|
      ensures w.stations[i].answered == [replies[i]] && Replies(w.command, w.ids[i], clients[i], replies[i])
    {
      var st := w.stations[i];
      assert StationAsExpected(w.command, w.ids[i], clients[i], w.clients[i], st);
      assert st.answered[0] in st.acks + st.answered;
    }
    hide StationAsExpected, Replies;
    PolledOnes(w.stations, replies);
  }

  // ---- The answer that is due -----------------------------------------------------------------------------

  lemma FailureNamesNode(c: Command, id: int, k: Client)
    ensures !Expected(c, id, k).status ==> Expected(c, id, k).node == id
  {
  }

  lemma ExpectedConsistent(c: Command, ids: seq<int>, clients: seq<Client>)
    requires |ids| == |clients| && Distinct(ids)
    ensures Consistent(ExpectedReplies(c, ids, clients))
  {
    var e := ExpectedReplies(c, ids, clients);
    forall r, q | r in e && q in e && !r.status && !q.status && r.node == q.node ensures r.text == q.text {
      var i :| 0 <= i < |ids| && e[i] == r;
      var j :| 0 <= j < |ids| && e[j] == q;
      FailureNamesNode(c, ids[i], clients[i]);
      FailureNamesNode(c, ids[j], clients[j]);
      hide Expected;
      assert i == j;
    }
  }

  /** The answer that is due: one expected reply per node, summarized. */
  function Due(c: Command, ids: seq<int>, clients: seq<Client>): Summary
    requires |ids| == |clients|
  {
    Summarize(CountAll(|ids|, ExpectedReplies(c, ids, clients)), c)
  }

  /** A client that will not do what c asks: it is busy, or has no result file. */
  predicate Unable(c: Command, k: Client) {
    !c.Push? && (k.childNum >= 1 || (c.Result? && k.result.None?))
  }

  function CountAble(c: Command, clients: seq<Client>): nat {
    if clients == [] then 0
    else CountAble(c, clients[..|clients| - 1]) + if Unable(c, clients[|clients| - 1]) then 0 else 1
  }

  lemma {:induction false} SuccessesAreAble(c: Command, ids: seq<int>, clients: seq<Client>)
    requires |ids| == |clients|
    ensures Successes(ExpectedReplies(c, ids, clients)) == CountAble(c, clients)
  {
    if ids != [] {
      var last := |ids| - 1;
      SuccessesAreAble(c, ids[..last], clients[..last]);
      assert ExpectedReplies(c, ids, clients)[..last] == ExpectedReplies(c, ids[..last], clients[..last]);
      AbleSucceeds(c, ids[last], clients[last]);
    }
  }

  lemma AbleSucceeds(c: Command, id: int, k: Client)
    ensures Expected(c, id, k).status <==> !Unable(c, k)
  {
  }

  /** What a client that is unable replies, and what is said of a result that was checked in vain. */
  lemma TextsAre(c: Command, id: int, k: Client)
    ensures Unable(c, k) ==>
              Expected(c, id, k).text ==
                if k.childNum >= 1 then Ascii("ERROR 10: Command ") + k.last + Ascii(" is still running!")
                else Ascii("ERROR 14: No Result File in client")
    ensures ResultEnd(false).text == Ascii("file is not completed")
  {
  }

  /** The expected replies that fail are those of the clients that are unable. */
  lemma FailuresAreUnable(c: Command, ids: seq<int>, clients: seq<Client>)
    requires |ids| == |clients|
    ensures var replies := ExpectedReplies(c, ids, clients);
            (forall i :: 0 <= i < |ids| && Unable(c, clients[i]) ==>
               replies[i] in replies && !replies[i].status && replies[i].node == ids[i])
            && (forall r <- replies :: !r.status ==>
                  exists i :: 0 <= i < |ids| && ids[i] == r.node && Unable(c, clients[i]))
  {
    var replies := ExpectedReplies(c, ids, clients);
    hide Expected, Unable;
    forall i | 0 <= i < |ids|
      ensures replies[i].status <==> !Unable(c, clients[i])
      ensures !replies[i].status ==> replies[i].node == ids[i]
    {
      AbleSucceeds(c, ids[i], clients[i]);
      FailureNamesNode(c, ids[i], clients[i]);
    }
  }

  /** The answer counts the clients that are able, and lists exactly the others, in ascending order. */
  lemma DueExact(c: Command, ids: seq<int>, clients: seq<Client>)
    requires |ids| == |clients| && Distinct(ids)
    ensures var s := Due(c, ids, clients);
            s.clientNum == |ids| && s.clientOkNum == CountAble(c, clients)
            && (forall i, j :: 0 <= i < j < |s.nodes| ==> s.nodes[i].0 < s.nodes[j].0)
            && (forall i :: 0 <= i < |ids| && Unable(c, clients[i]) ==>
                  (ids[i], Expected(c, ids[i], clients[i]).text) in s.nodes)
            && (forall e <- s.nodes :: exists i :: 0 <= i < |ids| && ids[i] == e.0 && Unable(c, clients[i]))
  {
    hide Expected, Unable, Summarize, CountAll, Consistent, Distinct;
    ExpectedConsistent(c, ids, clients);
    SummaryExact(|ids|, ExpectedReplies(c, ids, clients), c);
    SuccessesAreAble(c, ids, clients);
    FailuresAreUnable(c, ids, clients);
  }

  // ---- Checks in vain -------------------------------------------------------------------------------------

  /** How many results have been checked in vain. */
  function Failures(replies: seq<Reply>): nat {
    multiset(replies)[ResultEnd(false)]
  }

  lemma FailuresOfOne(replies: seq<Reply>, r: Reply)
    ensures Failures(replies + [r]) == Failures(replies) + if r == ResultEnd(false) then 1 else 0
  {
    assert multiset(replies + [r]) == multiset(replies) + multiset{r};
  }

  /** Nothing that a node is expected to reply reads like a check in vain. */
  lemma NotInVain(c: Command, id: int, k: Client)
    ensures Expected(c, id, k) != ResultEnd(false)
  {
    assert ResultEnd(false).text[0] == 102;
    assert REFUSAL[0] == 69 && NO_RESULT[0] == 69 && FORK_ERROR[0] == 69;
    assert (REFUSAL + k.last + Ascii(" is still running!"))[0] == 69;
  }

  lemma OneReply(c: Command, id: int, was: Client, r: Reply)
    requires Replies(c, id, was, r)
    ensures (if r.status then 1 else 0) + (if r == ResultEnd(false) then 1 else 0) == if Unable(c, was) then 0 else 1
  {
    NotInVain(c, id, was);
    AbleSucceeds(c, id, was);
    assert !ResultEnd(false).status;
    hide Expected, ResultEnd;
  }

  lemma {:induction false} ReplySuccesses(c: Command, ids: seq<int>, clients: seq<Client>, replies: seq<Reply>)
    requires AllReply(c, ids, clients, replies)
    ensures Successes(replies) + Failures(replies) == CountAble(c, clients)
  {
    hide Expected, Unable, Streams, Replies, Failures, ResultEnd;
    if replies != [] {
      var last := |replies| - 1;
      ReplySuccesses(c, ids[..last], clients[..last], replies[..last]);
      assert replies == replies[..last] + [replies[last]];
      FailuresOfOne(replies[..last], replies[last]);
      OneReply(c, ids[last], clients[last], replies[last]);
    } else {
      NoReplies();
    }
  }

  lemma NoReplies()
    ensures Failures([]) == 0
  {
  }

  lemma NoFailures(c: Command, ids: seq<int>, clients: seq<Client>, replies: seq<Reply>)
    requires AllReply(c, ids, clients, replies) && Failures(replies) == 0
    ensures replies == ExpectedReplies(c, ids, clients)
  {
    forall i | 0 <= i < |ids| ensures replies[i] == ExpectedReplies(c, ids, clients)[i] {
      assert replies[i] in multiset(replies);
    }
    hide Expected, Streams;
  }

  lemma NoFailuresUnlessResult(c: Command, ids: seq<int>, clients: seq<Client>, replies: seq<Reply>)
    requires AllReply(c, ids, clients, replies) && !c.Result?
    ensures Failures(replies) == 0
  {
    if ResultEnd(false) in replies {
      var i :| 0 <= i < |replies| && replies[i] == ResultEnd(false);
      NotInVain(c, ids[i], clients[i]);
      assert false;
    }
  }

  lemma AnswerParts(q: Request, events: seq<Event>) returns (polled: seq<Reply>)
    requires Proper(q) && Answered(q, events)
    ensures var r := Play(Start(q), events);
            |r.counted| == |polled| == |q.ids| && multiset(r.counted) == multiset(polled)
            && AllReply(q.command, q.ids, q.clients, polled)
            && r.told == [Summarize(CountAll(|q.ids|, r.counted), q.command)]
            && (Failures(polled) == 0 ==> r.told == [Summarize(CountAll(|q.ids|, polled), q.command)])
  {
    var w := Start(q);
    StartInv(q);
    StartAsExpected(q);
    RunKeepsInv(w, events);
    RunAsExpected(w, q.clients, events);
    var r := Play(w, events);
    assert r.ids == q.ids && r.command == q.command;
    hide Start, Play, Inv, AsExpected, Expected, Summarize, CountAll, Possible, Steady, Consistent, AllReply;
    AnswerIsSequential(r);
    PolledReplies(r, q.clients);
    polled := Polled(r.stations);
  }

  lemma OkCount(c: Command, ids: seq<int>, clients: seq<Client>, polled: seq<Reply>, counted: seq<Reply>)
    requires AllReply(c, ids, clients, polled) && multiset(polled) == multiset(counted)
    ensures CountAll(|ids|, counted).ok + Failures(counted) == CountAble(c, clients)
  {
    hide AllReply, CountAll, CountAble, Successes;
    ReplySuccesses(c, ids, clients, polled);
    SuccessesPermuted(polled, counted);
    OkIsSuccesses(|ids|, counted);
  }

  lemma OkIsSuccesses(n: nat, replies: seq<Reply>)
    ensures CountAll(n, replies).ok == Successes(replies)
  {
    CountAllAny(n, replies);
  }

  lemma DueOk(c: Command, ids: seq<int>, clients: seq<Client>)
    requires |ids| == |clients| && Distinct(ids)
    ensures Due(c, ids, clients).clientOkNum == CountAble(c, clients)
  {
    DueExact(c, ids, clients);
  }

  /**
   * Whatever the order of events, the answer to UPDATE, RUN and PUSH is determined by the command and the state of
   * the clients: it is the one that is due. The answer to RESULT is that one exactly when no result is checked in
   * vain.
   */
  lemma AnswerIsDetermined(q: Request, events: seq<Event>)
    requires Proper(q) && Answered(q, events)
    ensures var r := Play(Start(q), events);
            (r.told == [Due(q.command, q.ids, q.clients)] <==> Failures(r.counted) == 0)
            && (!q.command.Result? ==> Failures(r.counted) == 0)
  {
    var polled := AnswerParts(q, events);
    var r := Play(Start(q), events);
    hide Answered, AllReply, Play, Start, Expected, Proper;
    if Failures(r.counted) == 0 {
      NoFailures(q.command, q.ids, q.clients, polled);
    } else {
      OkCount(q.command, q.ids, q.clients, polled, r.counted);
      DueOk(q.command, q.ids, q.clients);
    }
    if !q.command.Result? {
      NoFailuresUnlessResult(q.command, q.ids, q.clients, polled);
    }
  }

  /** A failed reply is the one expected of a client that is unable, or a check in vain. */
  predicate Explains(c: Command, ids: seq<int>, clients: seq<Client>, node: int, text: Text)
    requires |ids| == |clients|
  {
    exists i :: 0 <= i < |ids| && ids[i] == node
      && Unable(c, clients[i]) && Expected(c, ids[i], clients[i]).text == text
  }

  lemma FailureExplained(c: Command, ids: seq<int>, clients: seq<Client>, replies: seq<Reply>, r: Reply)
    requires AllReply(c, ids, clients, replies) && r in replies && !r.status
    ensures Explains(c, ids, clients, r.node, r.text) || (Failures(replies) > 0 && r == ResultEnd(false))
  {
    var i :| 0 <= i < |replies| && replies[i] == r;
    assert Replies(c, ids[i], clients[i], r);
    AbleSucceeds(c, ids[i], clients[i]);
    FailureNamesNode(c, ids[i], clients[i]);
    hide Expected, Unable, Streams, ResultEnd;
    assert r in multiset(replies);
  }

  lemma UnableIsSilent(c: Command, k: Client)
    requires Unable(c, k)
    ensures !(c.Result? && Streams(k))
  {
  }

  lemma UnableFails(c: Command, ids: seq<int>, clients: seq<Client>, replies: seq<Reply>, i: nat)
    requires AllReply(c, ids, clients, replies) && i < |ids| && Unable(c, clients[i])
    ensures var r := Expected(c, ids[i], clients[i]); r in replies && !r.status && r.node == ids[i]
  {
    assert Replies(c, ids[i], clients[i], replies[i]);
    AbleSucceeds(c, ids[i], clients[i]);
    FailureNamesNode(c, ids[i], clients[i]);
    UnableIsSilent(c, clients[i]);
    hide Expected, Unable, Streams, ResultEnd;
  }

  /** Two clients that are unable to do the same have different IDs, and so explain different entries. */
  lemma OwnText(c: Command, ids: seq<int>, clients: seq<Client>, i: nat, text: Text)
    requires |ids| == |clients| && Distinct(ids) && i < |ids| && Explains(c, ids, clients, ids[i], text)
    ensures Expected(c, ids[i], clients[i]).text == text
  {
    hide Expected, Unable;
    var j :| 0 <= j < |ids| && ids[j] == ids[i] && Expected(c, ids[j], clients[j]).text == text;
    assert j == i;
  }

  /** What the nodes in an answer are, when so many results have been checked in vain. */
  predicate Names(c: Command, ids: seq<int>, clients: seq<Client>, failures: nat, nodes: seq<(int, Text)>)
    requires |ids| == |clients|
  {
    && (forall i, j :: 0 <= i < j < |nodes| ==> nodes[i].0 < nodes[j].0)
    && (forall i :: 0 <= i < |ids| && Unable(c, clients[i]) ==>
          exists e :: e in nodes && e.0 == ids[i]
            && (e.1 == Expected(c, ids[i], clients[i]).text || (failures > 0 && e.0 == 0)))
    && (failures > 0 ==> exists e :: e in nodes && e.0 == 0)
    && (forall e <- nodes ::
          Explains(c, ids, clients, e.0, e.1) || (failures > 0 && e == (0, ResultEnd(false).text)))
  }

  lemma ListingNames(c: Command, ids: seq<int>, clients: seq<Client>, polled: seq<Reply>, counted: seq<Reply>)
    requires |ids| == |clients| && Distinct(ids)
    requires AllReply(c, ids, clients, polled) && multiset(polled) == multiset(counted)
    ensures Names(c, ids, clients, Failures(counted), Listing(CountAll(|ids|, counted).info))
  {
    hide Expected, Unable, AllReply, Explains, Distinct, Streams, Backed, Covered, ResultEnd, Failures;
    var nodes := Listing(CountAll(|ids|, counted).info);
    ListingEntries(|ids|, counted);
    SameMembers(counted, polled);
    VainNode();
    hide CountAll, Listing;
    forall e | e in nodes
      ensures Explains(c, ids, clients, e.0, e.1) || (Failures(polled) > 0 && e == (0, ResultEnd(false).text))
    {
      var r := EntryIsReply(counted, nodes, e);
      FailureExplained(c, ids, clients, polled, r);
    }
    forall i | 0 <= i < |ids| && Unable(c, clients[i])
      ensures exists e :: e in nodes && e.0 == ids[i]
                && (e.1 == Expected(c, ids[i], clients[i]).text || (Failures(polled) > 0 && e.0 == 0))
    {
      UnableFails(c, ids, clients, polled, i);
      var e := ReplyIsEntry(counted, nodes, Expected(c, ids[i], clients[i]));
      if Explains(c, ids, clients, e.0, e.1) {
        OwnText(c, ids, clients, i, e.1);
      }
    }
    SameFailures(counted, polled);
    if Failures(counted) > 0 {
      FailureIsThere(counted);
      var e := ReplyIsEntry(counted, nodes, ResultEnd(false));
    }
  }

  /** Every entry has the node and the text of a failed reply. */
  predicate Backed(replies: seq<Reply>, nodes: seq<(int, Text)>) {
    forall e <- nodes :: exists r <- replies :: !r.status && r.node == e.0 && r.text == e.1
  }

  /** Every failed reply has an entry for its node. */
  predicate Covered(replies: seq<Reply>, nodes: seq<(int, Text)>) {
    forall r <- replies :: !r.status ==> exists e <- nodes :: e.0 == r.node
  }

  lemma ListingEntries(n: nat, replies: seq<Reply>)
    ensures var nodes := Listing(CountAll(n, replies).info);
            Backed(replies, nodes) && Covered(replies, nodes)
            && forall i, j :: 0 <= i < j < |nodes| ==> nodes[i].0 < nodes[j].0
  {
    var info := CountAll(n, replies).info;
    var nodes := Listing(info);
    CountAllAny(n, replies);
    ListingExact(info);
    hide CountAll;
    forall e | e in nodes ensures exists r <- replies :: !r.status && r.node == e.0 && r.text == e.1 {
      assert (e.0, e.1) in nodes;
      assert e.0 in info && info[e.0] == e.1;
    }
    forall r | r in replies && !r.status ensures exists e <- nodes :: e.0 == r.node {
      assert (r.node, info[r.node]) in nodes;
    }
  }

  lemma EntryIsReply(replies: seq<Reply>, nodes: seq<(int, Text)>, e: (int, Text)) returns (r: Reply)
    requires Backed(replies, nodes) && e in nodes
    ensures r in replies && !r.status && r.node == e.0 && r.text == e.1
  {
    r :| r in replies && !r.status && r.node == e.0 && r.text == e.1;
  }

  lemma ReplyIsEntry(replies: seq<Reply>, nodes: seq<(int, Text)>, r: Reply) returns (e: (int, Text))
    requires Covered(replies, nodes) && r in replies && !r.status
    ensures e in nodes && e.0 == r.node
  {
    e :| e in nodes && e.0 == r.node;
  }

  lemma SameFailures(a: seq<Reply>, b: seq<Reply>)
    requires multiset(a) == multiset(b)
    ensures Failures(a) == Failures(b)
  {
  }

  lemma FailureIsThere(replies: seq<Reply>)
    requires Failures(replies) > 0
    ensures ResultEnd(false) in replies
  {
  }

  lemma VainNode()
    ensures ResultEnd(false).node == 0 && !ResultEnd(false).status
  {
  }

  /**
   * The answer in any run: it counts the clients that are able, less the results checked in vain, and lists exactly
   * the others, each with its own text, and node 0 if any result was checked in vain, whoever sent that result. The
   * text of node 0 is then that of the failed check or its own.
   */
  lemma AnswerLists(q: Request, events: seq<Event>)
    requires Proper(q) && Answered(q, events)
    ensures var r := Play(Start(q), events);
            |r.told| == 1 && var s, failures := r.told[0], Failures(r.counted);
            s.command == q.command && s.clientNum == |q.ids|
            && s.clientOkNum + failures == CountAble(q.command, q.clients)
            && Names(q.command, q.ids, q.clients, failures, s.nodes)
  {
    var polled := AnswerParts(q, events);
    var r := Play(Start(q), events);
    hide Answered, AllReply, Play, Start, Expected, Names, Failures, Unable;
    OkCount(q.command, q.ids, q.clients, polled, r.counted);
    ListingNames(q.command, q.ids, q.clients, polled, r.counted);
  }
}
