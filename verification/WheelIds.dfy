/**
 * Which connection has a node ID: it is lost when the entry dies, but also when another entry that was given the same
 * ID earlier dies or goes down while its connection object still exists.
 */
module WheelIds {
  import opened NodePool
  import opened Wheel
  import opened WheelTheorems

  // ---- What a single event frees --------------------------------------------------------------------------

  /** The entry of c dies in the next tick and its connection object still exists then. */
  predicate Frees(s: State, c: Conn, id: int)
    requires s.buckets != []
  {
    c in Dying(s) && Holds(s, c, id) && Alive(s, c)
  }

  lemma TickFrees(s: State, id: int)
    requires Inv(s)
    ensures id in Expire(s).pool.connections <==> id in s.pool.connections && !exists c :: Frees(s, c, id)
    ensures id in Expire(s).pool.connections ==> Expire(s).pool.connections[id] == s.pool.connections[id]
  {
    var gone := set c | c in Dying(s) && Alive(s, c);
    assert gone <= s.buckets[0] <= s.nodeOf.Keys;
    var ids := IdsOf(Rotate(s), gone);
    if c :| Frees(s, c, id) {
      assert c in gone && Holds(Rotate(s), c, id);
    }
    if c :| c in gone && Holds(Rotate(s), c, id) {
      assert Frees(s, c, id);
    }
    hide IdsOf, Alive, Present, Partition;
  }

  /** A connection with this ID exists if it is up, is kept by a file map, or is the present owner. */
  lemma AliveWithId(s: State, c: Conn, id: int)
    requires Inv(s) && Holds(s, c, id)
    ensures Alive(s, c) <==> c in s.open || c in s.kept || (id in s.pool.connections && s.pool.connections[id] == c)
  {
    if Pooled(s, c) {
      PooledOwns(s, c);
    }
  }

  /**
   * A tick frees a node ID exactly when some entry that was given this ID expires on it and the connection of that
   * entry is the present owner, or is up, or is kept by a file map. It touches no other ID.
   */
  lemma FreedIff(n: nat, events: seq<Event>, id: int)
    requires n > 0 && Possible(n, events + [Tick])
    ensures Possible(n, events)
    ensures var s, k := Run(n, events), ClockRun(n, events);
            var before, after := s.pool.connections, Run(n, events + [Tick]).pool.connections;
            (id in after ==> id in before && after[id] == before[id])
            && (id in before ==> (id !in after <==> exists c ::
                  Holds(s, c, id) && c in k.last && k.now + 1 - k.last[c] == n
                  && (c == before[id] || c in s.open || c in s.kept)))
  {
    hide *;
    Snoc(n, events, Tick);
    var s, k := Run(n, events), ClockRun(n, events);
    TickIsExpire(s);
    TickFrees(s, id);
    if id in s.pool.connections {
      forall c
        ensures Frees(s, c, id) <==> (Holds(s, c, id) && c in k.last && k.now + 1 - k.last[c] == n
                                      && (c == s.pool.connections[id] || c in s.open || c in s.kept))
      {
        ExpiryOnNthTick(n, events, c);
        FreesMeans(s, c, id);
      }
    }
  }

  lemma FreesMeans(s: State, c: Conn, id: int)
    requires Inv(s) && id in s.pool.connections
    ensures s.buckets != []
    ensures Frees(s, c, id) <==> (c in Dying(s) && Holds(s, c, id)
                                  && (c == s.pool.connections[id] || c in s.open || c in s.kept))
  {
    if Holds(s, c, id) {
      AliveWithId(s, c, id);
    }
    hide Alive;
  }

  lemma TickIsExpire(s: State)
    requires Inv(s) && Enabled(s, Tick)
    ensures s.buckets != [] && s.buckets[0] <= s.nodeOf.Keys && Step(s, Tick) == Expire(s)
  {
    hide Expire;
  }

  /** A node going down frees the ID it was given, whoever has it now, unless the flag is set or it has expired. */
  lemma DownFrees(n: nat, events: seq<Event>, c: Conn, id: int)
    requires n > 0 && Possible(n, events + [NodeDown(c)])
    ensures Possible(n, events)
    ensures var s := Run(n, events);
            var before, after := s.pool.connections, Run(n, events + [NodeDown(c)]).pool.connections;
            (id in after ==> id in before && after[id] == before[id])
            && (id in before ==> (id !in after <==>
                  Holds(s, c, id) && !Flag(events) && Fresh(n, ClockRun(n, events), c)))
  {
    hide *;
    Snoc(n, events, NodeDown(c));
    FlagIs(n, events);
    WheelIsClock(n, events, c);
    DownFreesNow(Run(n, events), c, id);
  }

  lemma DownFreesNow(s: State, c: Conn, id: int)
    requires Inv(s) && Enabled(s, NodeDown(c))
    ensures var after := Step(s, NodeDown(c)).pool.connections;
            (id in after ==> id in s.pool.connections && after[id] == s.pool.connections[id])
            && (id in s.pool.connections ==> (id !in after <==> Holds(s, c, id) && !s.hasCmd && Present(s, c)))
  {
    hide Partition;
  }

  // ---- Who owns an ID after a run -------------------------------------------------------------------------

  /** The end of another entry that was given the same ID takes it from c. */
  predicate Robs(s: State, e: Event, c: Conn)
    requires s.buckets != [] && c in s.nodeOf
  {
    var id := s.nodeOf[c];
    match e
    case Tick => exists d :: d in Dying(s) && d != c && Frees(s, d, id)
    case NodeDown(d) => d != c && Holds(s, d, id) && !s.hasCmd && Present(s, d)
    case _ => false
  }

  /** The node went up and has not gone down. */
  predicate Up(events: seq<Event>, c: Conn) {
    NodeUp(c) in events && NodeDown(c) !in events
  }

  /**
   * The event ends the entry of d and frees the ID it was given: it expires while its connection object exists, or
   * its node goes down with the flag clear.
   */
  predicate Takes(n: nat, events: seq<Event>, e: Event, d: Conn) {
    var k := ClockRun(n, events);
    match e
    case Tick => d in k.last && k.now + 1 - k.last[d] == n && (Up(events, d) || FileSent(d) in events)
    case NodeDown(x) => x == d && !Flag(events) && Fresh(n, k, d)
    case _ => false
  }

  predicate SameId(s: State, c: Conn, d: Conn) {
    c != d && c in s.nodeOf && d in s.nodeOf && s.nodeOf[c] == s.nodeOf[d]
  }

  /** Somewhere in the run the entry of another connection that was given the same ID has taken it along. */
  predicate Robbed(n: nat, events: seq<Event>, c: Conn)
    requires n > 0
  {
    events != [] &&
      var init, e := events[..|events| - 1], events[|events| - 1];
      Robbed(n, init, c) || exists d <- Run(n, init).nodeOf.Keys :: SameId(Run(n, init), c, d) && Takes(n, init, e, d)
  }

  /** The node went down with the flag clear. */
  predicate Left(events: seq<Event>, c: Conn) {
    events != [] &&
      var init, e := events[..|events| - 1], events[|events| - 1];
      Left(init, c) || (e == NodeDown(c) && !Flag(init))
  }

  lemma StepOwns(s: State, e: Event, c: Conn)
    requires Inv(s) && Enabled(s, e) && c in s.nodeOf
    ensures Owns(Step(s, e), c) <==>
              Owns(s, c) && !Robs(s, e, c) && !(e == Tick && c in Dying(s))
              && !(e == NodeDown(c) && !s.hasCmd && Present(s, c))
  {
    match e {
      case Tick =>
        TickIsExpire(s);
        TickFrees(s, s.nodeOf[c]);
        if Owns(s, c) {
          assert Frees(s, c, s.nodeOf[c]) <==> c in Dying(s);
        }
        hide Expire, Alive, Present, Partition;
      case NodeDown(d) => DownFreesNow(s, d, s.nodeOf[c]);
      case NodeUp(d) => AddTakesSmallestFree(s.pool, d);
      case _ =>
    }
  }

  lemma FreshStep(n: nat, k: Clock, e: Event, c: Conn)
    requires n > 0 && c in k.last && e != NodeUp(c)
    ensures Fresh(n, ClockStep(n, k, e), c) <==> Fresh(n, k, c) && !(e.Tick? && k.now + 1 - k.last[c] == n)
  {
  }

  lemma NewStep(n: nat, s: State, k: Clock, e: Event, c: Conn)
    requires n > 0 && Inv(s) && Enabled(s, e) && c !in s.nodeOf
    ensures c in Step(s, e).nodeOf ==> Owns(Step(s, e), c) && Fresh(n, ClockStep(n, k, e), c)
  {
    hide Present, Partition, NextId;
  }

  lemma SameKnown(n: nat, events: seq<Event>, c: Conn)
    requires n > 0 && Possible(n, events)
    ensures c in Run(n, events).nodeOf <==> c in ClockRun(n, events).last
  {
    hide Run, ClockRun, Possible, Inv;
    RunTracks(n, events);
  }

  lemma OwnsKnown(s: State, c: Conn)
    requires c !in s.nodeOf
    ensures !Owns(s, c)
  {
  }

  lemma StartIsEmpty(n: nat)
    requires n > 0
    ensures Run(n, []).open == Run(n, []).kept == {} && Run(n, []).nodeOf == map[]
  {
  }

  lemma {:induction false} KeptIs(n: nat, events: seq<Event>, c: Conn)
    requires n > 0 && Possible(n, events)
    ensures c in Run(n, events).kept <==> FileSent(c) in events
  {
    hide Run, Possible, Inv, Step, Enabled;
    if events != [] {
      var init, e := events[..|events| - 1], events[|events| - 1];
      assert events == init + [e];
      Snoc(n, init, e);
      KeptIs(n, init, c);
      KeptAfter(Run(n, init), e, c);
    } else {
      StartIsEmpty(n);
    }
  }

  lemma KeptAfter(s: State, e: Event, c: Conn)
    requires Inv(s) && Enabled(s, e)
    ensures c in Step(s, e).kept <==> c in s.kept || e == FileSent(c)
  {
    hide Inv, Present, Partition;
  }

  lemma {:induction false} UpIs(n: nat, events: seq<Event>, c: Conn)
    requires n > 0 && Possible(n, events)
    ensures c in Run(n, events).open <==> Up(events, c)
    ensures c in Run(n, events).nodeOf <==> NodeUp(c) in events
    ensures NodeDown(c) in events ==> NodeUp(c) in events
  {
    hide Run, Possible, Inv, Step, Enabled;
    if events != [] {
      var init, e := events[..|events| - 1], events[|events| - 1];
      assert events == init + [e];
      Snoc(n, init, e);
      UpIs(n, init, c);
      UpAfter(Run(n, init), e, c);
    } else {
      StartIsEmpty(n);
    }
  }

  lemma UpAfter(s: State, e: Event, c: Conn)
    requires Inv(s) && Enabled(s, e)
    ensures c in Step(s, e).nodeOf <==> c in s.nodeOf || e == NodeUp(c)
    ensures c in Step(s, e).open <==> (c in s.open || e == NodeUp(c)) && e != NodeDown(c)
    ensures c in s.open ==> c in s.nodeOf
    ensures e == NodeUp(c) ==> c !in s.nodeOf
    ensures e == NodeDown(c) ==> c in s.open
  {
    hide Present, Partition;
  }

  /** What another entry takes from the owner of an ID, told from the events. */
  lemma RobsIs(n: nat, events: seq<Event>, e: Event, c: Conn)
    requires n > 0 && Possible(n, events) && Enabled(Run(n, events), e) && Owns(Run(n, events), c)
    ensures var s := Run(n, events);
            s.buckets != [] && c in s.nodeOf
            && (Robs(s, e, c) <==> exists d <- s.nodeOf.Keys :: SameId(s, c, d) && Takes(n, events, e, d))
  {
    hide Run, ClockRun, Possible, Fresh, Flag, Up, Frees;
    var s := Run(n, events);
    var id := s.nodeOf[c];
    FlagIs(n, events);
    forall d | SameId(s, c, d)
      ensures d in Dying(s) && Frees(s, d, id) <==> Takes(n, events, Tick, d)
      ensures Present(s, d) <==> Fresh(n, ClockRun(n, events), d)
    {
      FreesMeans(s, d, id);
      ExpiryOnNthTick(n, events, d);
      UpIs(n, events, d);
      KeptIs(n, events, d);
      WheelIsClock(n, events, d);
    }
    hide Dying, Present, Inv;
    RobsMeans(s, e, c);
  }

  predicate RobsBy(s: State, e: Event, c: Conn, d: Conn)
    requires s.buckets != [] && c in s.nodeOf
  {
    match e
    case Tick => d in Dying(s) && Frees(s, d, s.nodeOf[c])
    case NodeDown(x) => x == d && !s.hasCmd && Present(s, d)
    case _ => false
  }

  lemma RobsMeans(s: State, e: Event, c: Conn)
    requires s.buckets != [] && c in s.nodeOf
    ensures Robs(s, e, c) <==> exists d <- s.nodeOf.Keys :: SameId(s, c, d) && RobsBy(s, e, c, d)
  {
    hide Alive, Present;
  }

  lemma {:induction false} OwnedIff(n: nat, events: seq<Event>, c: Conn)
    requires n > 0 && Possible(n, events)
    ensures c !in Run(n, events).nodeOf ==> !Robbed(n, events, c) && !Left(events, c)
    ensures c in Run(n, events).nodeOf ==>
              (Owns(Run(n, events), c) <==>
                 Fresh(n, ClockRun(n, events), c) && !Left(events, c) && !Robbed(n, events, c))
  {
    hide Run, ClockRun, Possible, Inv, Present, Step, Enabled, ClockStep, Fresh, Owns, Robs, Tracks, Dying, Takes;
    if events != [] {
      var init, e := events[..|events| - 1], events[|events| - 1];
      assert events == init + [e];
      Snoc(n, init, e);
      OwnedIff(n, init, c);
      var s, k := Run(n, init), ClockRun(n, init);
      UpAfter(s, e, c);
      if c in s.nodeOf {
        StepOwns(s, e, c);
        ExpiryOnNthTick(n, init, c);
        WheelIsClock(n, init, c);
        FlagIs(n, init);
        SameKnown(n, init, c);
        FreshStep(n, k, e, c);
        if Owns(s, c) {
          RobsIs(n, init, e, c);
        }
      } else {
        NewStep(n, s, k, e, c);
        OwnsKnown(s, c);
      }
    } else {
      StartIsEmpty(n);
    }
  }

  /**
   * After any run a connection, up or not, owns its node ID exactly when fewer than n ticks have passed since it was
   * last seen, it has not gone down with the flag clear, and no other entry has taken the ID along. No two connections
   * own the same ID.
   */
  lemma LiveIds(n: nat, events: seq<Event>, c: Conn, d: Conn)
    requires n > 0 && Possible(n, events) && NodeUp(c) in events
    ensures Owns(Run(n, events), c) <==>
              Fresh(n, ClockRun(n, events), c) && !Left(events, c) && !Robbed(n, events, c)
    ensures var s := Run(n, events); Owns(s, c) && Owns(s, d) && c != d ==> s.nodeOf[c] != s.nodeOf[d]
  {
    hide Run, ClockRun, Possible, Robbed, Inv, Left, Fresh;
    UpIs(n, events, c);
    OwnedIff(n, events, c);
  }

  // ---- Which runs there are -------------------------------------------------------------------------------

  /** How often the command line has come up and not gone down again. */
  function CliCount(events: seq<Event>): int {
    if events == [] then 0
    else
      var e := events[|events| - 1];
      CliCount(events[..|events| - 1]) + if e.CliUp? then 1 else if e.CliDown? then -1 else 0
  }

  /** A node went down that had expired, or the command line, and the flag was clear. */
  predicate Crashes(n: nat, events: seq<Event>) {
    events != [] &&
      var init, e := events[..|events| - 1], events[|events| - 1];
      Crashes(n, init)
      || (!Flag(init) && (e.CliDown? || (e.NodeDown? && !Fresh(n, ClockRun(n, init), e.c))))
  }

  lemma CliStep(s: State, e: Event)
    requires Inv(s) && Enabled(s, e)
    ensures Step(s, e).cliOpen == s.cliOpen + (if e.CliUp? then 1 else 0) - (if e.CliDown? then 1 else 0)
    ensures Step(s, e).crashed <==> !s.hasCmd && (e.CliDown? || (e.NodeDown? && !Present(s, e.c)))
  {
    if e.NodeDown? {
      DownCrashes(s, e.c);
    }
    hide Present, Partition;
  }

  /** The connections of the command line, and whether the server has crashed, told from the events. */
  lemma {:induction false} CliCountIs(n: nat, events: seq<Event>)
    requires n > 0 && Possible(n, events)
    ensures Run(n, events).cliOpen == CliCount(events)
    ensures Run(n, events).crashed <==> Crashes(n, events)
  {
    hide Run, ClockRun, Possible, Inv, Step, Enabled, Present, Fresh, Flag;
    if events != [] {
      var init, e := events[..|events| - 1], events[|events| - 1];
      assert events == init + [e];
      Snoc(n, init, e);
      CliCountIs(n, init);
      CliStep(Run(n, init), e);
      FlagIs(n, init);
      EnabledLives(Run(n, init), e);
      if e.NodeDown? {
        WheelIsClock(n, init, e.c);
      }
    } else {
      NoCli(n);
    }
  }

  lemma EnabledLives(s: State, e: Event)
    requires Enabled(s, e)
    ensures !s.crashed
  {
  }

  lemma NoCli(n: nat)
    requires n > 0
    ensures Run(n, []).cliOpen == 0 && !Run(n, []).crashed
  {
  }

  /** The connection has the ID it was given, told from the events. */
  predicate HasId(n: nat, events: seq<Event>, c: Conn)
    requires n > 0
  {
    NodeUp(c) in events && Fresh(n, ClockRun(n, events), c) && !Left(events, c) && !Robbed(n, events, c)
  }

  lemma PooledIff(n: nat, events: seq<Event>, c: Conn)
    requires n > 0 && Possible(n, events)
    ensures Pooled(Run(n, events), c) <==> HasId(n, events, c)
  {
    hide Run, ClockRun, Possible, Fresh, Left, Robbed, Inv;
    var s := Run(n, events);
    if Pooled(s, c) {
      PooledOwns(s, c);
      UpIs(n, events, c);
    }
    if NodeUp(c) in events {
      LiveIds(n, events, c, c);
      if Owns(s, c) {
        OwnsPresent(s, c);
      }
    }
  }

  /** The event makes sense after these: what goes down has come up, and so on. */
  predicate Follows(n: nat, events: seq<Event>, e: Event)
    requires n > 0
  {
    match e
    case NodeUp(c) => NodeUp(c) !in events
    case HeartBeat(c) => Up(events, c)
    case NodeDown(c) => Up(events, c)
    case FileSent(c) => Up(events, c) || HasId(n, events, c)
    case CliDown => CliCount(events) > 0
    case CliUp => true
    case Tick => true
  }

  /** Exactly which event can be next, told from those before it. */
  lemma PossibleIff(n: nat, events: seq<Event>, e: Event)
    requires n > 0 && Possible(n, events)
    ensures Possible(n, events + [e]) <==> !Crashes(n, events) && Follows(n, events, e)
  {
    hide Run, ClockRun, Possible, Crashes, CliCount, HasId, Inv, Pooled, Up;
    Snoc(n, events, e);
    CliCountIs(n, events);
    match e {
      case NodeUp(c) => UpIs(n, events, c);
      case HeartBeat(c) => UpIs(n, events, c);
      case NodeDown(c) => UpIs(n, events, c);
      case FileSent(c) =>
        UpIs(n, events, c);
        PooledIff(n, events, c);
      case _ =>
    }
  }

  /** The command line comes, and goes again: the flag is clear. */
  lemma CliComesAndGoes(n: nat)
    requires n > 0
    ensures Possible(n, [CliUp] + [CliDown])
    ensures var s := Run(n, [CliUp] + [CliDown]); !s.hasCmd && !s.crashed && s.cliOpen == 0
  {
    NoCli(n);
    assert [] + [CliUp] == [CliUp];
    Snoc(n, [], CliUp);
    Snoc(n, [CliUp], CliDown);
    assert ([CliUp] + [CliDown])[..1] == [CliUp] && [CliUp][..0] == [];
    FlagIs(n, [CliUp] + [CliDown]);
    CliCountIs(n, [CliUp] + [CliDown]);
    hide Run, Possible;
  }

  // ---- Clean runs -----------------------------------------------------------------------------------------

  /**
   * No node goes down with the flag clear and its entry in the wheel after a file has been sent to it or received
   * from it.
   */
  predicate Clean(n: nat, events: seq<Event>) {
    events != [] ==>
      var init, e := events[..|events| - 1], events[|events| - 1];
      Clean(n, init)
      && (e.NodeDown? ==> FileSent(e.c) !in init || Flag(init) || !Fresh(n, ClockRun(n, init), e.c))
  }

  /** Every connection that is up or kept owns the ID of its entry as long as there is the entry. */
  predicate Tidy(s: State) {
    forall c <- s.nodeOf :: Present(s, c) && (c in s.open || c in s.kept) ==> Owns(s, c)
  }

  lemma TidyNotRobbed(s: State, e: Event, c: Conn)
    requires Inv(s) && Tidy(s) && Enabled(s, e) && Owns(s, c)
    ensures !Robs(s, e, c)
  {
    var id := s.nodeOf[c];
    if e.Tick? {
      forall d | d in Dying(s) && d != c ensures !Frees(s, d, id) {
        assert Present(s, d);
        if Pooled(s, d) {
          PooledOwns(s, d);
        }
      }
    }
  }

  lemma StepTidy(s: State, e: Event)
    requires Inv(s) && Tidy(s) && Enabled(s, e)
    requires e.NodeDown? ==> e.c !in s.kept || s.hasCmd || !Present(s, e.c)
    ensures Tidy(Step(s, e))
  {
    var t := Step(s, e);
    forall c | c in t.nodeOf && Present(t, c) && (c in t.open || c in t.kept) ensures Owns(t, c) {
      if c in s.nodeOf {
        StepPresent(s, e, c);
        if e == FileSent(c) && Pooled(s, c) {
          PooledOwns(s, c);
        }
        StepOwns(s, e, c);
        assert Owns(s, c) by {
          KeptStep(s, e, c);
        }
        TidyNotRobbed(s, e, c);
        KeptStep(s, e, c);
      } else {
        NewOwns(s, e, c);
      }
    }
  }

  lemma StepPresent(s: State, e: Event, c: Conn)
    requires Inv(s) && Enabled(s, e) && c in s.nodeOf
    ensures Present(Step(s, e), c) <==> Present(s, c) && !(e.Tick? && c in Dying(s))
  {
    match e {
      case NodeUp(d) =>
        TouchPresent(s.(nodeOf := s.nodeOf[d := NextId(s.pool)], pool := AddTo(s.pool, d), open := s.open + {d}), d);
      case HeartBeat(d) => TouchPresent(s, d);
      case Tick =>
        RotatePresent(s);
        assert Present(Expire(s), c) <==> Present(Rotate(s), c);
      case _ => assert Step(s, e).buckets == s.buckets;
    }
  }

  lemma KeptStep(s: State, e: Event, c: Conn)
    requires Inv(s) && Enabled(s, e) && c in s.nodeOf
    ensures c in Step(s, e).kept <==> c in s.kept || e == FileSent(c)
    ensures c in Step(s, e).open ==> c in s.open && e != NodeDown(c)
  {
    hide Inv, Present, Partition;
  }

  lemma NewOwns(s: State, e: Event, c: Conn)
    requires Inv(s) && Enabled(s, e) && c !in s.nodeOf && c in Step(s, e).nodeOf
    ensures Owns(Step(s, e), c)
  {
    hide Present, Partition, NextId;
  }

  lemma {:induction false} CleanIsTidy(n: nat, events: seq<Event>)
    requires n > 0 && Possible(n, events) && Clean(n, events)
    ensures Tidy(Run(n, events))
  {
    hide Run, ClockRun, Possible, Inv, Step, Enabled, Tidy, Fresh, Flag, Present;
    if events != [] {
      var init, e := events[..|events| - 1], events[|events| - 1];
      assert events == init + [e];
      Snoc(n, init, e);
      CleanIsTidy(n, init);
      FlagIs(n, init);
      if e.NodeDown? {
        KeptIs(n, init, e.c);
        WheelIsClock(n, init, e.c);
      }
      StepTidy(Run(n, init), e);
    } else {
      StartIsTidy(n);
    }
  }

  lemma StartIsTidy(n: nat)
    requires n > 0
    ensures Tidy(Run(n, []))
  {
  }

  /** In a clean run a connection that is up owns its node ID exactly until the n-th tick after it was last seen. */
  lemma CleanLiveIds(n: nat, events: seq<Event>, c: Conn)
    requires n > 0 && Possible(n, events) && Clean(n, events) && c in Run(n, events).open
    ensures Owns(Run(n, events), c) <==> Fresh(n, ClockRun(n, events), c)
  {
    hide Run, ClockRun, Possible, Fresh, Clean;
    CleanIsTidy(n, events);
    WheelIsClock(n, events, c);
    if Owns(Run(n, events), c) {
      OwnsPresent(Run(n, events), c);
    } else {
      SameKnown(n, events, c);
    }
  }

  lemma OwnsPresent(s: State, c: Conn)
    requires Inv(s) && Owns(s, c)
    ensures Present(s, c) && Pooled(s, c)
  {
    assert Holds(s, c, s.nodeOf[c]);
  }

  /** In a clean run the pool has the connection of an entry exactly while entry and connection object both exist. */
  lemma PoolIsLive(n: nat, events: seq<Event>, c: Conn)
    requires n > 0 && Possible(n, events) && Clean(n, events)
    ensures var s := Run(n, events); Owns(s, c) <==> Present(s, c) && Alive(s, c)
  {
    hide Run, Possible, Clean;
    CleanIsTidy(n, events);
    var s := Run(n, events);
    if Owns(s, c) {
      OwnsPresent(s, c);
    } else if Pooled(s, c) {
      PooledOwns(s, c);
    }
  }

  /**
   * In a clean run a tick frees a node ID exactly when the connection that owns it now has not been seen for n ticks,
   * although the entry of an earlier owner may die in the same tick.
   */
  lemma NoStaleFree(n: nat, events: seq<Event>, id: int)
    requires n > 0 && Possible(n, events + [Tick]) && Clean(n, events)
    ensures Possible(n, events)
    ensures var before, after := Run(n, events).pool.connections, Run(n, events + [Tick]).pool.connections;
            var k := ClockRun(n, events);
            id in before ==> before[id] in k.last && (id !in after <==> k.now + 1 - k.last[before[id]] == n)
  {
    hide *;
    FreedIff(n, events, id);
    CleanIsTidy(n, events);
    var s, k := Run(n, events), ClockRun(n, events);
    if id in s.pool.connections {
      var owner := s.pool.connections[id];
      OwnerHolds(s, id);
      SameKnown(n, events, owner);
      forall c | Holds(s, c, id) && c in k.last && k.now + 1 - k.last[c] == n && (c in s.open || c in s.kept)
        ensures c == owner
      {
        ExpiryOnNthTick(n, events, c);
        DyingOwner(s, c, id);
      }
    }
  }

  lemma OwnerHolds(s: State, id: int)
    requires Inv(s) && id in s.pool.connections
    ensures Holds(s, s.pool.connections[id], id) && s.pool.connections[id] in s.nodeOf
  {
  }

  lemma DyingOwner(s: State, c: Conn, id: int)
    requires Inv(s) && Tidy(s) && c in Dying(s) && Holds(s, c, id) && (c in s.open || c in s.kept)
    ensures id in s.pool.connections && s.pool.connections[id] == c
  {
    assert Present(s, c);
  }

  // ---- Reuse ----------------------------------------------------------------------------------------------

  /** With the flag clear, a node that goes down passes its ID on while its own entry is still in the wheel. */
  lemma ReuseHappens(s: State, c: Conn, d: Conn)
    requires Inv(s) && !s.crashed && !s.hasCmd && c !in s.nodeOf && d !in s.nodeOf && c != d
    ensures var up := Step(s, NodeUp(c));
            Inv(up) && var down := Step(up, NodeDown(c));
            Inv(down) && var t := Step(down, NodeUp(d));
            c in t.nodeOf && Owns(t, d) && t.nodeOf[d] == t.nodeOf[c] && Present(t, c) && Present(t, d) && !Alive(t, c)
  {
    var up := Step(s, NodeUp(c));
    UpKeepsInv(s, c);
    TouchPresent(s.(nodeOf := s.nodeOf[c := NextId(s.pool)], pool := AddTo(s.pool, c), open := s.open + {c}), c);
    var down := Step(up, NodeDown(c));
    DownKeepsInv(up, c);
    GivenAgain(s.pool, c);
    assert down.pool == DelFrom(AddTo(s.pool, c), NextId(s.pool));
    UpKeepsInv(down, d);
    var t := Step(down, NodeUp(d));
    assert t.nodeOf == up.nodeOf[d := NextId(down.pool)];
    TouchPresent(
      down.(nodeOf := down.nodeOf[d := NextId(down.pool)], pool := AddTo(down.pool, d), open := down.open + {d}), d);
    assert Present(down, c);
    if Pooled(t, c) {
      PooledOwns(t, c);
      assert false;
    }
  }

  lemma GivenAgain(p: Pool, c: Conn)
    requires Partition(p)
    ensures NextId(DelFrom(AddTo(p, c), NextId(p))) == NextId(p)
  {
    var id := NextId(p);
    AddTakesSmallestFree(p, c);
    var q := DelFrom(AddTo(p, c), id);
    DelKeepsPartition(AddTo(p, c), id);
    assert q.connections == p.connections;
    AddTakesSmallestFree(q, c);
    var again := NextId(q);
    assert !(again < id) && !(id < again);
  }

  // ---- The run in which it goes wrong ---------------------------------------------------------------------

  function Ticks(k: nat): seq<Event> {
    if k == 0 then [] else Ticks(k - 1) + [Tick]
  }

  /** A node comes up, a file is sent to it, and nothing happens for k ticks. */
  function Quiet(c: Conn, k: nat): seq<Event> {
    [NodeUp(c), FileSent(c)] + Ticks(k)
  }

  /** Only c is there, with ID 0. */
  predicate Alone(s: State, c: Conn) {
    s.nodeOf == map[c := 0] && s.pool == Pool(map[0 := c], {}, 1) && s.open == s.kept == {c} && !s.hasCmd && !s.crashed
  }

  lemma NoneDying(s: State)
    requires Inv(s) && Enabled(s, Tick) && Dying(s) == {}
    ensures var t := Step(s, Tick);
            t.nodeOf == s.nodeOf && t.pool == s.pool && t.open == s.open && t.kept == s.kept
            && t.hasCmd == s.hasCmd && t.crashed == s.crashed
  {
    var gone := set c | c in Dying(s) && Alive(s, c);
    assert gone == {} && IdsOf(Rotate(s), gone) == {};
    assert s.pool.connections - {} == s.pool.connections;
  }

  lemma FirstUp(n: nat, c: Conn)
    requires n > 0
    ensures var events := [NodeUp(c), FileSent(c)];
            Possible(n, events) && Alone(Run(n, events), c) && ClockRun(n, events) == Clock(0, map[c := 0])
  {
    Snoc(n, [], NodeUp(c));
    assert [] + [NodeUp(c)] == [NodeUp(c)];
    Snoc(n, [NodeUp(c)], FileSent(c));
    assert [NodeUp(c)] + [FileSent(c)] == [NodeUp(c), FileSent(c)];
  }

  lemma {:induction false} QuietRun(n: nat, c: Conn, k: nat)
    requires k < n
    ensures Possible(n, Quiet(c, k)) && Alone(Run(n, Quiet(c, k)), c)
    ensures ClockRun(n, Quiet(c, k)) == Clock(k, map[c := 0])
  {
    hide Run, Possible, ClockRun, Inv, Step;
    if k == 0 {
      FirstUp(n, c);
      assert Quiet(c, 0) == [NodeUp(c), FileSent(c)];
    } else {
      QuietRun(n, c, k - 1);
      var init := Quiet(c, k - 1);
      assert Quiet(c, k) == init + [Tick];
      Snoc(n, init, Tick);
      TickIsExpire(Run(n, init));
      forall x ensures x !in Dying(Run(n, init)) {
        ExpiryOnNthTick(n, init, x);
      }
      assert Dying(Run(n, init)) == {};
      NoneDying(Run(n, init));
    }
  }

  /** The ID of c passes to d while the entry of c is still in the wheel. */
  lemma IdPasses(s: State, c: Conn, d: Conn)
    requires Inv(s) && Alone(s, c) && Present(s, c) && c != d
    ensures Enabled(s, NodeDown(c))
    ensures var down := Step(s, NodeDown(c));
            Inv(down) && Enabled(down, NodeUp(d)) && var up := Step(down, NodeUp(d));
            Enabled(up, Tick) && up.nodeOf == map[c := 0, d := 0] && up.pool.connections == map[0 := d]
            && up.open == {d} && up.kept == {c}
  {
    StepKeepsInv(s, NodeDown(c));
    var down := Step(s, NodeDown(c));
    assert down.pool == Pool(map[], {0}, 1);
    assert NextId(down.pool) == 0;
  }

  function Passed(n: nat, c: Conn, d: Conn): seq<Event>
    requires n > 0
  {
    Quiet(c, n - 1) + [NodeDown(c)] + [NodeUp(d)]
  }

  lemma PassedClock(n: nat, k: Clock, c: Conn, d: Conn)
    requires n > 0 && k == Clock(n - 1, map[c := 0])
    ensures ClockStep(n, ClockStep(n, k, NodeDown(c)), NodeUp(d)) == Clock(n - 1, map[c := 0, d := n - 1])
  {
  }

  lemma PassedRun(n: nat, c: Conn, d: Conn)
    requires n > 0 && c != d
    ensures var s := Run(n, Passed(n, c, d));
            Possible(n, Passed(n, c, d)) && Enabled(s, Tick) && s.nodeOf == map[c := 0, d := 0]
            && s.pool.connections == map[0 := d] && s.open == {d} && s.kept == {c}
    ensures ClockRun(n, Passed(n, c, d)) == Clock(n - 1, map[c := 0, d := n - 1])
  {
    hide Run, Possible, ClockRun, ClockStep, Inv, Step, Present, Enabled, Alone, Quiet;
    var quiet := Quiet(c, n - 1);
    QuietRun(n, c, n - 1);
    WheelIsClock(n, quiet, c);
    IdPasses(Run(n, quiet), c, d);
    Snoc(n, quiet, NodeDown(c));
    Snoc(n, quiet + [NodeDown(c)], NodeUp(d));
    PassedClock(n, ClockRun(n, quiet), c, d);
  }

  /**
   * With any number of buckets from two on: the entry of a node to which a file was sent, and which then went down,
   * takes the ID of the node that came up next, although that node is up and has just been seen.
   */
  lemma StaleFreeHappens(n: nat, c: Conn, d: Conn)
    requires n >= 2 && c != d
    ensures var events := Passed(n, c, d);
            Possible(n, events + [Tick]) && Owns(Run(n, events), d)
            && d in Run(n, events + [Tick]).open && Fresh(n, ClockRun(n, events + [Tick]), d)
            && !Owns(Run(n, events + [Tick]), d)
  {
    hide Run, Possible, ClockRun, Inv, Step, Enabled, Passed;
    var events := Passed(n, c, d);
    PassedRun(n, c, d);
    Snoc(n, events, Tick);
    FreedIff(n, events, 0);
    TickKeepsOpen(Run(n, events));
    assert Holds(Run(n, events), c, 0);
  }

  lemma TickKeepsOpen(s: State)
    requires Inv(s) && Enabled(s, Tick)
    ensures Step(s, Tick).open == s.open && Step(s, Tick).nodeOf == s.nodeOf
  {
  }
}
