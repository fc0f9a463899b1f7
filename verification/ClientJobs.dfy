/** A client over a run of commands and of exiting children: what its counter counts, and when it refuses commands. */
module ClientJobs {
  import opened Bytes
  import opened Tally
  import opened Dispatch

  /**
   * JobExit is the exit of a job that was forked for UPDATE or RUN; it is not signalled if its SIGCHLD coincides with
   * one that is pending. OtherExit is SIGCHLD of another child, such as the cp after a push.
   */
  datatype Event = Ask(c: Command, id: int, forked: bool) | JobExit(signalled: bool) | OtherExit

  /** The client and the number of jobs that are in fact running. */
  datatype Jobs = Jobs(client: Client, running: nat)

  /** The signal handler, whichever child it was. */
  function Signal(k: Client): Client {
    k.(childNum := if k.childNum - 1 > 0 then k.childNum - 1 else 0)
  }

  predicate Enabled(j: Jobs, e: Event) {
    e.JobExit? ==> j.running > 0
  }

  /** A job runs from a success that was replied to UPDATE or RUN until its exit. */
  function Step(j: Jobs, e: Event): Jobs
    requires Enabled(j, e)
  {
    match e
    case Ask(c, id, forked) =>
      var (k, r) := Obey(j.client, c, id, forked);
      Jobs(k, if r.Some? && r.value.status && !c.Push? then j.running + 1 else j.running)
    case JobExit(signalled) => Jobs(if signalled then Signal(j.client) else j.client, j.running - 1)
    case OtherExit => Jobs(Signal(j.client), j.running)
  }

  predicate Possible(k: Client, events: seq<Event>)
    decreases |events|, 0
  {
    events != [] ==>
      Possible(k, events[..|events| - 1])
      && Enabled(Run(k, events[..|events| - 1]), events[|events| - 1])
  }

  function Run(k: Client, events: seq<Event>): Jobs
    requires Possible(k, events)
    decreases |events|, 1
  {
    if events == [] then Jobs(k, 0) else Step(Run(k, events[..|events| - 1]), events[|events| - 1])
  }

  /** The client answers that a command is still running. */
  predicate Refuses(k: Client, e: Event)
    requires e.Ask?
  {
    var r := Obey(k, e.c, e.id, e.forked).1;
    r.Some? && REFUSAL <= r.value.text
  }

  // ---- The texts of the replies ---------------------------------------------------------------------------

  lemma TextsDiffer(rest: Text)
    ensures REFUSAL <= REFUSAL + rest
    ensures !(REFUSAL <= FORK_ERROR) && !(REFUSAL <= NO_RESULT) && !(REFUSAL <= [])
  {
    assert REFUSAL[7] == 48 && FORK_ERROR[7] == 49 && NO_RESULT[7] == 52;
  }

  // ---- Runs -----------------------------------------------------------------------------------------------

  /** UPDATE or RUN has been asked for since the last exit that was signalled, and what came of the first fork. */
  function FirstFork(events: seq<Event>): Option<bool> {
    if events == [] then None
    else
      var before := FirstFork(events[..|events| - 1]);
      match events[|events| - 1]
      case Ask(c, _, forked) => if before.None? && (c.Update? || c.Run?) then Some(forked) else before
      case JobExit(signalled) => if signalled then None else before
      case OtherExit => None
  }

  /** How many jobs have been forked, and how many of them have exited. */
  function Forked(events: seq<Event>): nat {
    if events == [] then 0
    else
      var init, e := events[..|events| - 1], events[|events| - 1];
      Forked(init) + if e.Ask? && FirstFork(init).None? && (e.c.Update? || e.c.Run?) && e.forked then 1 else 0
  }

  function Exited(events: seq<Event>): nat {
    if events == [] then 0
    else Exited(events[..|events| - 1]) + if events[|events| - 1].JobExit? then 1 else 0
  }

  lemma AskStep(k: Client, e: Event)
    requires e.Ask? && k.childNum <= 1
    ensures Refuses(k, e) <==> k.childNum == 1
    ensures k.childNum == 1 ==> Obey(k, e.c, e.id, e.forked).0 == k
    ensures var (t, r) := Obey(k, e.c, e.id, e.forked);
            var asked := k.childNum == 0 && (e.c.Update? || e.c.Run?);
            t.childNum == (if asked then 1 else k.childNum)
            && (r.Some? && r.value.status && !e.c.Push? <==> asked && e.forked)
  {
    TextsDiffer(k.last + Ascii(" is still running!"));
    Regroup(REFUSAL, k.last, Ascii(" is still running!"));
  }

  /**
   * After any run of a client that began idle, its counter is one exactly if UPDATE or RUN has been asked for since
   * the last exit that was signalled, and zero otherwise, however many jobs are running.
   */
  lemma {:induction false} CounterIs(k: Client, events: seq<Event>)
    requires k.childNum == 0 && Possible(k, events)
    ensures Run(k, events).client.childNum == if FirstFork(events).Some? then 1 else 0
    ensures Run(k, events).running == Forked(events) - Exited(events)
  {
    if events != [] {
      var init, e := events[..|events| - 1], events[|events| - 1];
      CounterIs(k, init);
      if e.Ask? {
        AskStep(Run(k, init).client, e);
      }
      hide Obey;
    }
  }

  /** Commands may come and other children may exit at any time, a job only while one has been forked and not exited. */
  lemma PossibleIff(k: Client, events: seq<Event>, e: Event)
    requires k.childNum == 0
    ensures Possible(k, events + [e]) <==>
              Possible(k, events) && (e.JobExit? ==> Exited(events) < Forked(events))
  {
    assert (events + [e])[..|events + [e]| - 1] == events;
    if Possible(k, events) {
      CounterIs(k, events);
    }
    hide Run, Forked, Exited;
  }

  /** A command is refused, with no effect, exactly in this case; otherwise it is not. */
  lemma RefusesIff(k: Client, events: seq<Event>, e: Event)
    requires k.childNum == 0 && Possible(k, events) && e.Ask?
    ensures Refuses(Run(k, events).client, e) <==> FirstFork(events).Some?
    ensures Refuses(Run(k, events).client, e) ==> Possible(k, events + [e]) && Run(k, events + [e]) == Run(k, events)
  {
    hide Obey, Refuses, FirstFork;
    CounterIs(k, events);
    AskStep(Run(k, events).client, e);
    assert (events + [e])[..|events + [e]| - 1] == events;
  }

  /** After a failed fork every command is refused, with no effect, until some other child exits. */
  lemma {:induction false} ForkFailureBlocks(k: Client, events: seq<Event>, more: seq<Event>)
    requires k.childNum == 0 && Possible(k, events) && FirstFork(events) == Some(false) && forall e <- more :: e.Ask?
    ensures Possible(k, events + more) && Run(k, events + more) == Run(k, events)
    ensures FirstFork(events + more) == Some(false)
    ensures forall e: Event :: e.Ask? ==> Refuses(Run(k, events + more).client, e)
  {
    hide Obey, Refuses;
    if more == [] {
      assert events + more == events;
    } else {
      var init, e := more[..|more| - 1], more[|more| - 1];
      assert (events + more)[..|events + more| - 1] == events + init;
      assert e in more && forall x <- init :: x in more;
      ForkFailureBlocks(k, events, init);
      CounterIs(k, events + init);
      RefusesIff(k, events + init, e);
      assert events + more == events + init + [e];
    }
    forall e: Event | e.Ask? ensures Refuses(Run(k, events + more).client, e) {
      RefusesIff(k, events + more, e);
    }
  }

  // ---- What a refusal says --------------------------------------------------------------------------------

  /** The name of the command that was last accepted. */
  function Accepted(k: Client, events: seq<Event>): Text {
    if events == [] then k.last
    else
      var init, e := events[..|events| - 1], events[|events| - 1];
      if e.Ask? && FirstFork(init).None? then
        match e.c
        case Update => Ascii("UPDATE")
        case Run => Ascii("RUN")
        case Result => Ascii("RESULT")
        case Push => Ascii("PUSH")
      else Accepted(k, init)
  }

  lemma AskNames(k: Client, e: Event)
    requires e.Ask? && k.childNum <= 1
    ensures Obey(k, e.c, e.id, e.forked).0.last ==
            if k.childNum == 1 then k.last
            else
              match e.c
              case Update => Ascii("UPDATE")
              case Run => Ascii("RUN")
              case Result => Ascii("RESULT")
              case Push => Ascii("PUSH")
    ensures k.childNum == 1 ==>
              Obey(k, e.c, e.id, e.forked).1 ==
              Some(Reply(e.c, e.id, false, Ascii("ERROR 10: Command ") + k.last + Ascii(" is still running!")))
  {
  }

  lemma {:induction false} LastIsAccepted(k: Client, events: seq<Event>)
    requires k.childNum == 0 && Possible(k, events)
    ensures Run(k, events).client.last == Accepted(k, events)
  {
    if events != [] {
      var init, e := events[..|events| - 1], events[|events| - 1];
      LastIsAccepted(k, init);
      CounterIs(k, init);
      if e.Ask? {
        AskNames(Run(k, init).client, e);
      }
      hide Obey;
    }
  }

  /** A refusal names the node, the command that is refused, and the command that was last accepted. */
  lemma RefusalSays(k: Client, events: seq<Event>, e: Event)
    requires k.childNum == 0 && Possible(k, events) && e.Ask? && FirstFork(events).Some?
    ensures Obey(Run(k, events).client, e.c, e.id, e.forked).1 ==
            Some(Reply(e.c, e.id, false,
                       Ascii("ERROR 10: Command ") + Accepted(k, events) + Ascii(" is still running!")))
  {
    CounterIs(k, events);
    LastIsAccepted(k, events);
    AskNames(Run(k, events).client, e);
    hide Obey, Accepted, Run;
  }

  /** What a client replies that does not refuse, in any run, and when it replies nothing because it sends a file. */
  lemma RepliesAre(k: Client, events: seq<Event>, id: int, forked: bool)
    requires k.childNum == 0 && Possible(k, events) && FirstFork(events).None?
    ensures var now := Run(k, events).client;
            now.result == k.result
            && (forall c :: c == Update || c == Command.Run ==>
                  Obey(now, c, id, forked).1 ==
                  Some(if forked then Reply(c, id, true, []) else Reply(c, id, false, Ascii("ERROR 11: Fork Error!"))))
            && Obey(now, Push, id, forked).1 == Some(Reply(Push, 0, true, []))
            && Obey(now, Result, id, forked).1 ==
                 if k.result.Some? then None
                 else Some(Reply(Result, id, false, Ascii("ERROR 14: No Result File in client")))
  {
    CounterIs(k, events);
    SameResult(k, events);
  }

  lemma {:induction false} SameResult(k: Client, events: seq<Event>)
    requires Possible(k, events)
    ensures Run(k, events).client.result == k.result
  {
    if events != [] {
      SameResult(k, events[..|events| - 1]);
    }
  }

  /** Every signal counts for one child, and there are never fewer than none. */
  lemma {:induction false} SignalsCount(k: Client, events: seq<Event>)
    requires forall e <- events :: e.OtherExit?
    ensures Possible(k, events)
    ensures Run(k, events).client ==
            k.(childNum := if k.childNum >= |events| then k.childNum - |events| else 0)
  {
    if events != [] {
      assert events[|events| - 1] in events && forall e <- events[..|events| - 1] :: e in events;
      SignalsCount(k, events[..|events| - 1]);
    }
  }

  // ---- Jobs and refusals ----------------------------------------------------------------------------------

  /** Every command is refused. */
  ghost predicate RefusesAll(k: Client) {
    forall e: Event :: e.Ask? ==> Refuses(k, e)
  }

  /** What the counter is for: at every point of the run, while a job is running every command is refused. */
  ghost predicate OneAtATime(k: Client, events: seq<Event>)
    requires Possible(k, events)
  {
    (Run(k, events).running > 0 ==> RefusesAll(Run(k, events).client))
    && (events != [] ==> OneAtATime(k, events[..|events| - 1]))
  }

  /** Some other child has exited while a job was running. */
  predicate Strays(events: seq<Event>) {
    events != [] &&
      var init, e := events[..|events| - 1], events[|events| - 1];
      Strays(init) || (e.OtherExit? && Forked(init) > Exited(init))
  }

  lemma RefusesAllIff(k: Client, events: seq<Event>)
    requires k.childNum == 0 && Possible(k, events)
    ensures RefusesAll(Run(k, events).client) <==> FirstFork(events).Some?
  {
    hide Refuses, FirstFork, Run;
    RefusesIff(k, events, Ask(Update, 0, true));
    forall e: Event | e.Ask? ensures Refuses(Run(k, events).client, e) <==> FirstFork(events).Some? {
      RefusesIff(k, events, e);
    }
  }

  lemma {:induction false} AtMostOne(k: Client, events: seq<Event>)
    requires k.childNum == 0 && Possible(k, events) && !Strays(events)
    ensures Exited(events) <= Forked(events) <= Exited(events) + 1
    ensures Forked(events) > Exited(events) ==> FirstFork(events) == Some(true)
  {
    if events != [] {
      var init := events[..|events| - 1];
      AtMostOne(k, init);
      CounterIs(k, init);
    }
  }

  /**
   * In a run of a client that began idle every command is refused while a job is running, at every point, if and only
   * if no other child exits while a job is running.
   */
  lemma {:induction false} OneAtATimeIff(k: Client, events: seq<Event>)
    requires k.childNum == 0 && Possible(k, events)
    ensures OneAtATime(k, events) <==> !Strays(events)
  {
    hide RefusesAll, FirstFork, Forked, Exited, Run;
    CounterIs(k, events);
    RefusesAllIff(k, events);
    if events != [] {
      var init, e := events[..|events| - 1], events[|events| - 1];
      OneAtATimeIff(k, init);
      if e.OtherExit? {
        StrayForgets(events);
      }
    }
    if !Strays(events) {
      AtMostOne(k, events);
    }
  }

  lemma StrayForgets(events: seq<Event>)
    requires events != [] && events[|events| - 1].OtherExit?
    ensures FirstFork(events) == None
    ensures Forked(events) == Forked(events[..|events| - 1]) && Exited(events) == Exited(events[..|events| - 1])
  {
  }

  /** A RUN, a push whose cp exits, and another RUN: the second job is started while the first is running. */
  lemma SecondJob(k: Client, id: int)
    requires k.childNum == 0
    ensures var events := [Ask(Command.Run, id, true), OtherExit];
            Possible(k, events) && Run(k, events).running == 1
            && !Refuses(Run(k, events).client, Ask(Command.Run, id, true))
            && Possible(k, events + [Ask(Command.Run, id, true)])
            && Run(k, events + [Ask(Command.Run, id, true)]).running == 2
  {
    var ask := Ask(Command.Run, id, true);
    var events := [ask, OtherExit];
    assert events[..1] == [ask] && [ask][..0] == [];
    assert (events + [ask])[..2] == events;
    AskStep(k, ask);
    AskStep(Run(k, events).client, ask);
  }
}
