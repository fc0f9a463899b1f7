/** The wheel is a last-seen clock, and when freeing a node ID hits a connection that reused it. */
module WheelTheorems {
  import opened NodePool
  import opened Wheel

  // ---- Every step keeps the invariant ---------------------------------------------------------------------

  lemma PooledOwns(s: State, c: Conn)
    requires Inv(s) && Pooled(s, c)
    ensures Owns(s, c)
  {
    var id :| id in s.pool.connections && s.pool.connections[id] == c;
    assert Holds(s, c, id);
  }

  /** A touched entry is present, and no other is affected. */
  lemma TouchPresent(s: State, c: Conn)
    requires s.buckets != []
    ensures forall d :: Present(Touch(s, c), d) <==> Present(s, d) || d == c
  {
    var t := Touch(s, c);
    forall d ensures Present(t, d) <==> Present(s, d) || d == c {
      if i :| 0 <= i < |s.buckets| && d in s.buckets[i] {
        assert d in t.buckets[i];
      }
      assert c in t.buckets[|s.buckets| - 1];
      if i :| 0 <= i < |t.buckets| && d in t.buckets[i] {
        assert d in s.buckets[i] || d == c;
      }
    }
  }

  /** A tick destroys the dying entries and no others. */
  lemma RotatePresent(s: State)
    requires s.buckets != []
    ensures forall c :: Present(Rotate(s), c) <==> Present(s, c) && c !in Dying(s)
  {
    var t := Rotate(s);
    forall c ensures Present(t, c) <==> Present(s, c) && c !in Dying(s) {
      if i :| 0 <= i < |t.buckets| && c in t.buckets[i] {
        assert c in s.buckets[i + 1];
      }
      if i :| 0 < i < |s.buckets| && c in s.buckets[i] {
        assert c in t.buckets[i - 1];
      }
    }
  }

  lemma UpKeepsInv(s: State, c: Conn)
    requires Inv(s) && Enabled(s, NodeUp(c))
    ensures Inv(Step(s, NodeUp(c)))
  {
    AddTakesSmallestFree(s.pool, c);
    TouchPresent(s.(nodeOf := s.nodeOf[c := NextId(s.pool)], pool := AddTo(s.pool, c), open := s.open + {c}), c);
    hide Partition, NextId, AddTo;
  }

  lemma ReleasePool(s: State, gone: set<Conn>)
    requires Partition(s.pool) && gone <= s.nodeOf.Keys
    ensures Partition(Release(s, gone).pool)
  {
    var ids := IdsOf(s, gone);
    assert Release(s, gone).pool.connections.Keys == s.pool.connections.Keys - ids;
  }

  lemma TickKeepsInv(s: State)
    requires Inv(s)
    ensures Inv(Expire(s))
  {
    var t, gone := Expire(s), set c | c in Dying(s) && Alive(s, c);
    ReleasePool(Rotate(s), gone);
    RotatePresent(s);
    hide Partition, Present, Dying;
    forall id | id in t.pool.connections
      ensures var c := t.pool.connections[id]; Holds(t, c, id) && Present(t, c)
    {
      var c := t.pool.connections[id];
      assert Holds(s, c, id) && Holds(Rotate(s), c, id) && Pooled(s, c);
    }
  }

  lemma DownKeepsInv(s: State, c: Conn)
    requires Inv(s) && Enabled(s, NodeDown(c))
    ensures Inv(Lost(s, c))
  {
    DelKeepsPartition(s.pool, s.nodeOf[c]);
    hide Partition;
  }

  lemma FileKeepsInv(s: State, c: Conn)
    requires Inv(s) && Enabled(s, FileSent(c))
    ensures Inv(s.(kept := s.kept + {c}))
  {
    if Pooled(s, c) {
      PooledOwns(s, c);
    }
    hide Partition;
  }

  lemma StepKeepsInv(s: State, e: Event)
    requires Inv(s)
    ensures Inv(Step(s, e))
  {
    if Enabled(s, e) {
      match e {
        case NodeUp(c) => UpKeepsInv(s, c);
        case HeartBeat(c) => TouchPresent(s, c);
        case FileSent(c) => FileKeepsInv(s, c);
        case Tick => TickKeepsInv(s);
        case NodeDown(c) => DownKeepsInv(s, c);
        case _ =>
      }
    }
  }

  // ---- Destroying entries one after the other -------------------------------------------------------------

  /** order enumerates s. */
  ghost predicate Lists(order: seq<Conn>, s: set<Conn>) {
    forall c :: c in order <==> c in s
  }

  ghost function Freed(s: State, done: seq<Conn>): set<Conn> {
    set c | c in done && Alive(s, c)
  }

  lemma KeepsOthers(s: State, gone: set<Conn>, c: Conn)
    requires Owns(s, c) && gone <= s.nodeOf.Keys
    ensures s.nodeOf[c] in IdsOf(s, gone) || Pooled(Release(s, gone), c)
  {
    var id, r := s.nodeOf[c], Release(s, gone);
    if id !in IdsOf(s, gone) {
      assert r.pool.connections[id] == c;
    }
  }

  /** An entry whose connection dies with the pool's reference to it has its ID freed already. */
  lemma ReleaseAgain(s: State, gone: set<Conn>, c: Conn)
    requires Inv(s) && gone <= s.nodeOf.Keys && c in s.nodeOf && Alive(s, c) && !Alive(Release(s, gone), c)
    ensures Release(s, gone) == Release(s, gone + {c})
  {
    PooledOwns(s, c);
    KeepsOthers(s, gone, c);
    IdsOfMore(s, gone, c);
    assert IdsOf(s, gone + {c}) == IdsOf(s, gone);
    assert (gone + {c}) * s.open == gone * s.open;
  }

  lemma IdsOfMore(s: State, gone: set<Conn>, c: Conn)
    requires gone <= s.nodeOf.Keys && c in s.nodeOf
    ensures IdsOf(s, gone + {c}) == IdsOf(s, gone) + {s.nodeOf[c]}
  {
    var ids, more := IdsOf(s, gone), IdsOf(s, gone + {c});
    assert Holds(s, c, s.nodeOf[c]);
    forall id ensures id in more <==> id in ids + {s.nodeOf[c]} {
      if d :| d in gone && Holds(s, d, id) {
        assert d in gone + {c};
      }
    }
  }

  lemma ReleaseMore(s: State, gone: set<Conn>, c: Conn)
    requires gone <= s.nodeOf.Keys && c in s.nodeOf
    ensures var r := Release(s, gone);
            Release(s, gone + {c}) == r.(shut := r.shut + ({c} * r.open), pool := DelFrom(r.pool, s.nodeOf[c]))
  {
    IdsOfMore(s, gone, c);
    var ids, id, p := IdsOf(s, gone), s.nodeOf[c], s.pool;
    hide IdsOf;
    var q := Release(s, gone).pool;
    assert p.connections - (ids + {id}) == q.connections - {id};
    assert s.shut + ((gone + {c}) * s.open) == (s.shut + (gone * s.open)) + ({c} * s.open);
    if id in q.connections {
      assert p.idle + ((ids + {id}) * p.connections.Keys) == (p.idle + (ids * p.connections.Keys)) + {id};
    } else {
      assert q.connections - {id} == q.connections;
      assert (ids + {id}) * p.connections.Keys == ids * p.connections.Keys;
    }
  }

  lemma ReleaseOne(s: State, gone: set<Conn>, c: Conn)
    requires Inv(s) && gone <= s.nodeOf.Keys && c in s.nodeOf
    ensures Destroy(Release(s, gone), c) == Release(s, if Alive(s, c) then gone + {c} else gone)
  {
    var r := Release(s, gone);
    if Alive(r, c) {
      if Pooled(r, c) {
        var id :| id in r.pool.connections && r.pool.connections[id] == c;
        assert s.pool.connections[id] == c;
      }
      assert Alive(s, c);
      ReleaseMore(s, gone, c);
    } else if Alive(s, c) {
      ReleaseAgain(s, gone, c);
    }
  }

  lemma {:induction false} DestroySome(s: State, order: seq<Conn>)
    requires Inv(s) && forall c <- order :: c in s.nodeOf
    ensures DestroyAll(s, order) == Release(s, Freed(s, order))
  {
    if order == [] {
      assert Freed(s, []) == {};
      assert s.pool.connections - {} == s.pool.connections;
    } else {
      var init, c := order[..|order| - 1], order[|order| - 1];
      DestroySome(s, init);
      ReleaseOne(s, Freed(s, init), c);
      assert Freed(s, order) == if Alive(s, c) then Freed(s, init) + {c} else Freed(s, init);
    }
  }

  lemma {:induction false} DestroyRotated(s: State, order: seq<Conn>)
    requires s.buckets != [] && forall c <- order :: c in s.nodeOf
    ensures DestroyAll(Rotate(s), order) == Rotate(DestroyAll(s, order))
  {
    if order != [] {
      var c := order[|order| - 1];
      DestroyRotated(s, order[..|order| - 1]);
      var r := DestroyAll(s, order[..|order| - 1]);
      assert Pooled(Rotate(r), c) <==> Pooled(r, c);
    }
  }

  /** The order in which the entries of the overwritten bucket are destroyed makes no difference. */
  lemma TickInAnyOrder(s: State, order: seq<Conn>)
    requires Inv(s) && Lists(order, Dying(s))
    ensures (forall c <- order :: c in s.nodeOf) && DestroyAll(Rotate(s), order) == Expire(s)
  {
    assert forall c <- order :: c in s.buckets[0];
    DestroySome(s, order);
    DestroyRotated(s, order);
    assert Freed(s, order) == set c | c in Dying(s) && Alive(s, c);
  }

  // ---- Runs -----------------------------------------------------------------------------------------------

  /** The server with n buckets after the events. */
  function Run(n: nat, events: seq<Event>): (s: State)
    requires n > 0
    ensures Inv(s)
  {
    if events == [] then Start(n)
    else
      var before, e := Run(n, events[..|events| - 1]), events[|events| - 1];
      StepKeepsInv(before, e);
      Step(before, e)
  }

  /** Every event can happen when it does; in particular the server has not crashed before. */
  predicate Possible(n: nat, events: seq<Event>)
    requires n > 0
  {
    events != [] ==>
      var before := events[..|events| - 1];
      Possible(n, before) && Enabled(Run(n, before), events[|events| - 1])
  }

  /** The clock after the events: it looks at nothing but the events. */
  function ClockRun(n: nat, events: seq<Event>): Clock {
    if events == [] then Clock(0, map[])
    else ClockStep(n, ClockRun(n, events[..|events| - 1]), events[|events| - 1])
  }

  /** An entry last seen a ticks ago is in bucket n - 1 - a and in no newer one. */
  predicate Tracks(n: nat, s: State, k: Clock) {
    && |s.buckets| == n && k.last.Keys == s.nodeOf.Keys
    && (forall c <- k.last :: k.last[c] <= k.now
          && (k.now - k.last[c] < n ==> c in s.buckets[n - 1 - (k.now - k.last[c])]))
    && (forall i, c :: 0 <= i < n && c in s.buckets[i] ==> c in k.last && i <= n - 1 - (k.now - k.last[c]))
  }

  lemma PresentIsFresh(n: nat, s: State, k: Clock, c: Conn)
    requires Tracks(n, s, k)
    ensures Present(s, c) <==> Fresh(n, k, c)
  {
  }

  lemma TouchTracks(n: nat, s: State, k: Clock, c: Conn)
    requires n > 0 && Tracks(n, s, k) && c in s.nodeOf
    ensures Tracks(n, Touch(s, c), k.(last := k.last[c := k.now]))
  {
  }

  lemma TickTracks(n: nat, s: State, k: Clock)
    requires n > 0 && Tracks(n, s, k) && s.buckets[0] <= s.nodeOf.Keys
    ensures Tracks(n, Expire(s), k.(now := k.now + 1))
  {
    var t := Rotate(s);
    assert forall i :: 0 <= i < n - 1 ==> t.buckets[i] == s.buckets[i + 1];
  }

  lemma StepTracks(n: nat, s: State, k: Clock, e: Event)
    requires n > 0 && Inv(s) && Tracks(n, s, k) && Enabled(s, e)
    ensures Tracks(n, Step(s, e), ClockStep(n, k, e))
  {
    hide Tracks;
    match e {
      case NodeUp(c) =>
        var id := NextId(s.pool);
        var up := s.(nodeOf := s.nodeOf[c := id], pool := AddTo(s.pool, c), open := s.open + {c});
        UpTracks(n, s, k, c, up);
      case HeartBeat(c) =>
        PresentIsFresh(n, s, k, c);
        if Present(s, c) {
          TouchTracks(n, s, k, c);
        }
      case Tick => TickTracks(n, s, k);
      case _ => SameWheel(n, s, Step(s, e), k);
    }
  }

  lemma UpTracks(n: nat, s: State, k: Clock, c: Conn, up: State)
    requires n > 0 && Tracks(n, s, k) && c !in s.nodeOf
    requires up.buckets == s.buckets && up.nodeOf.Keys == s.nodeOf.Keys + {c}
    ensures Tracks(n, Touch(up, c), k.(last := k.last[c := k.now]))
  {
  }

  lemma SameWheel(n: nat, s: State, t: State, k: Clock)
    requires n > 0 && Tracks(n, s, k) && t.buckets == s.buckets && t.nodeOf == s.nodeOf
    ensures Tracks(n, t, k)
  {
  }

  lemma {:induction false} RunTracks(n: nat, events: seq<Event>)
    requires n > 0 && Possible(n, events)
    ensures Tracks(n, Run(n, events), ClockRun(n, events))
  {
    if events != [] {
      var before := events[..|events| - 1];
      RunTracks(n, before);
      StepTracks(n, Run(n, before), ClockRun(n, before), events[|events| - 1]);
    }
  }

  /** After any run an entry exists exactly while fewer than n ticks have passed since its connection was last seen. */
  lemma WheelIsClock(n: nat, events: seq<Event>, c: Conn)
    requires n > 0 && Possible(n, events)
    ensures Present(Run(n, events), c) <==> Fresh(n, ClockRun(n, events), c)
  {
    RunTracks(n, events);
    PresentIsFresh(n, Run(n, events), ClockRun(n, events), c);
  }

  /** The entries a tick destroys are those for which it is the n-th tick since they were last seen. */
  lemma ExpiryOnNthTick(n: nat, events: seq<Event>, c: Conn)
    requires n > 0 && Possible(n, events)
    ensures var k := ClockRun(n, events);
            c in Dying(Run(n, events)) <==> c in k.last && k.now + 1 - k.last[c] == n
  {
    var s, k := Run(n, events), ClockRun(n, events);
    RunTracks(n, events);
    RotatePresent(s);
    PresentIsFresh(n, s, k, c);
    TickTracks(n, s, k);
    PresentIsFresh(n, Expire(s), k.(now := k.now + 1), c);
    assert Present(Expire(s), c) <==> Present(Rotate(s), c);
    if c in Dying(s) {
      assert Present(s, c);
    }
  }

  /** Whoever has been shut down has expired, and whoever is connected has been shut down or has not expired. */
  predicate ShutInv(s: State) {
    && (forall c <- s.shut :: c in s.nodeOf && !Present(s, c))
    && (forall c <- s.open :: Present(s, c) || c in s.shut)
  }

  lemma StepShutInv(s: State, e: Event)
    requires Inv(s) && ShutInv(s) && Enabled(s, e)
    ensures ShutInv(Step(s, e))
  {
    hide Partition, NextId, AddTo, DelFrom;
    match e {
      case NodeUp(c) =>
        TouchPresent(s.(nodeOf := s.nodeOf[c := NextId(s.pool)], pool := AddTo(s.pool, c), open := s.open + {c}), c);
      case HeartBeat(c) => TouchPresent(s, c);
      case Tick =>
        RotatePresent(s);
        assert forall c :: Present(Expire(s), c) <==> Present(Rotate(s), c);
      case _ =>
    }
  }

  lemma {:induction false} RunShutInv(n: nat, events: seq<Event>)
    requires n > 0 && Possible(n, events)
    ensures ShutInv(Run(n, events))
  {
    if events != [] {
      var before := events[..|events| - 1];
      RunShutInv(n, before);
      StepShutInv(Run(n, before), events[|events| - 1]);
    }
  }

  /** A connection that is up has been shut down exactly when n ticks have passed since it was last seen. */
  lemma ShutDownIff(n: nat, events: seq<Event>, c: Conn)
    requires n > 0 && Possible(n, events) && c in Run(n, events).open
    ensures c in Run(n, events).shut <==> !Fresh(n, ClockRun(n, events), c)
  {
    RunShutInv(n, events);
    WheelIsClock(n, events, c);
  }

  lemma Snoc(n: nat, events: seq<Event>, e: Event)
    requires n > 0
    ensures Run(n, events + [e]) == Step(Run(n, events), e)
    ensures Possible(n, events + [e]) <==> Possible(n, events) && Enabled(Run(n, events), e)
    ensures ClockRun(n, events + [e]) == ClockStep(n, ClockRun(n, events), e)
  {
    assert (events + [e])[..|events|] == events;
  }

  lemma StaleStays(n: nat, k: Clock, e: Event, c: Conn)
    requires c in k.last && !Fresh(n, k, c) && e != NodeUp(c)
    ensures c in ClockStep(n, k, e).last && !Fresh(n, ClockStep(n, k, e), c)
  {
  }

  lemma StaysExpired(n: nat, events: seq<Event>, e: Event, c: Conn)
    requires n > 0 && Possible(n, events + [e]) && c in Run(n, events).nodeOf && !Present(Run(n, events), c)
    ensures c in Run(n, events + [e]).nodeOf && !Present(Run(n, events + [e]), c)
  {
    Snoc(n, events, e);
    RunTracks(n, events);
    RunTracks(n, events + [e]);
    PresentIsFresh(n, Run(n, events), ClockRun(n, events), c);
    PresentIsFresh(n, Run(n, events + [e]), ClockRun(n, events + [e]), c);
    hide Run, ClockRun, Present, Inv, Possible;
    StaleStays(n, ClockRun(n, events), e, c);
  }

  /** Once its entry has expired a connection stays expired, whatever heartbeats still arrive. */
  lemma {:induction false} NoRevival(n: nat, events: seq<Event>, more: seq<Event>, c: Conn)
    requires n > 0 && Possible(n, events + more) && c in Run(n, events).nodeOf && !Present(Run(n, events), c)
    ensures c in Run(n, events + more).nodeOf && !Present(Run(n, events + more), c)
  {
    hide *;
    if more == [] {
      assert events + more == events;
    } else {
      var init, e := more[..|more| - 1], more[|more| - 1];
      assert events + more == (events + init) + [e];
      Snoc(n, events + init, e);
      NoRevival(n, events, init, c);
      StaysExpired(n, events + init, e, c);
    }
  }

  // ---- Crashes --------------------------------------------------------------------------------------------

  /** hasCmdConnected_: the last of the events that touch it is a command line coming up. */
  function Flag(events: seq<Event>): bool {
    if events == [] then false
    else
      match events[|events| - 1]
      case CliUp => true
      case CliDown => false
      case NodeDown(_) => false
      case _ => Flag(events[..|events| - 1])
  }

  /** A node that goes down clears the flag of the command line. */
  lemma {:induction false} FlagIs(n: nat, events: seq<Event>)
    requires n > 0 && Possible(n, events)
    ensures Run(n, events).hasCmd == Flag(events)
  {
    hide Run, Inv, Possible, Step, Enabled, ClockRun;
    if events != [] {
      var init, e := events[..|events| - 1], events[|events| - 1];
      assert events == init + [e];
      Snoc(n, init, e);
      FlagIs(n, init);
      FlagStep(Run(n, init), e);
    } else {
      FlagAtStart(n);
    }
  }

  lemma FlagStep(s: State, e: Event)
    requires Inv(s) && Enabled(s, e)
    ensures Step(s, e).hasCmd == (e.CliUp? || (s.hasCmd && !e.CliDown? && !e.NodeDown?))
  {
    hide Inv, Present, Partition;
  }

  lemma FlagAtStart(n: nat)
    requires n > 0
    ensures !Run(n, []).hasCmd
  {
  }

  lemma DownCrashes(s: State, c: Conn)
    requires Inv(s) && Enabled(s, NodeDown(c))
    ensures Step(s, NodeDown(c)).crashed <==> !s.hasCmd && !Present(s, c)
  {
    hide Partition, DelFrom, Owns, Holds;
  }

  /**
   * A node going down crashes the server exactly when its entry has expired and no command line has come up since a
   * node or a command line last went down.
   */
  lemma CrashIff(n: nat, events: seq<Event>, c: Conn)
    requires n > 0 && Possible(n, events + [NodeDown(c)])
    ensures Possible(n, events)
    ensures Run(n, events + [NodeDown(c)]).crashed <==> !Flag(events) && !Fresh(n, ClockRun(n, events), c)
  {
    hide *;
    Snoc(n, events, NodeDown(c));
    WheelIsClock(n, events, c);
    FlagIs(n, events);
    DownCrashes(Run(n, events), c);
  }

  lemma CliCrashes(s: State)
    requires Inv(s) && Enabled(s, CliDown)
    ensures Step(s, CliDown).crashed <==> !s.hasCmd
  {
    hide Inv;
  }

  /** So does the command line going down, exactly when a node or another command line went down after it came up. */
  lemma CliCrashIff(n: nat, events: seq<Event>)
    requires n > 0 && Possible(n, events + [CliDown])
    ensures Possible(n, events)
    ensures Run(n, events + [CliDown]).crashed <==> !Flag(events)
  {
    hide *;
    Snoc(n, events, CliDown);
    FlagIs(n, events);
    CliCrashes(Run(n, events));
  }
}
