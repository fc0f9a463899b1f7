/**
 * A broadcast goes to the connections in the pool. One that is down is counted among the nodes but is sent nothing,
 * and then the command line never gets its answer.
 */
module Broadcast {
  import opened NodePool
  import Wheel
  import WheelTheorems
  import WheelIds
  import Dispatch
  import DispatchTheorems
  import DispatchProgress

  /** The node IDs whose connections are up. */
  function IdsUp(s: Wheel.State): set<int> {
    set id | id in s.pool.connections && s.pool.connections[id] in s.open
  }

  predicate AllUp(s: Wheel.State) {
    forall id <- s.pool.connections :: s.pool.connections[id] in s.open
  }

  /** The request that a broadcast makes in this state: SendToClient skips the connections that are not connected. */
  predicate IsBroadcast(s: Wheel.State, q: Dispatch.Request) {
    && Dispatch.Proper(q) && (set id | id in q.ids) == IdsUp(s)
    && |q.ids| + q.missed == |s.pool.connections|
  }

  lemma {:induction false} DistinctCount(ids: seq<int>)
    requires Dispatch.Distinct(ids)
    ensures |set id | id in ids| == |ids|
  {
    if ids != [] {
      var last := |ids| - 1;
      DistinctCount(ids[..last]);
      assert (set id | id in ids) == (set id | id in ids[..last]) + {ids[last]};
      assert ids[last] !in ids[..last];
    }
  }

  lemma NoneMissedIff(s: Wheel.State, q: Dispatch.Request)
    requires IsBroadcast(s, q)
    ensures q.missed == 0 <==> AllUp(s)
    ensures q.ids == [] && q.missed == 0 <==> s.pool.connections == map[]
  {
    DistinctCount(q.ids);
    assert |IdsUp(s)| == |q.ids|;
    assert IdsUp(s) <= s.pool.connections.Keys;
    if q.missed == 0 {
      SameSize(IdsUp(s), s.pool.connections.Keys);
    }
    if AllUp(s) {
      assert forall id <- s.pool.connections :: id in IdsUp(s);
      assert IdsUp(s) == s.pool.connections.Keys;
    }
    assert s.pool.connections == map[] <==> |s.pool.connections| == 0;
  }

  lemma SameSize(a: set<int>, b: set<int>)
    requires a <= b && |a| == |b|
    ensures a == b
  {
    assert b == a + (b - a);
  }

  /** Some course of the exchange leads to an answer. */
  ghost predicate CanBeAnswered(q: Dispatch.Request)
    requires Dispatch.Proper(q)
  {
    exists events :: Dispatch.Possible(Dispatch.Start(q), events) && Dispatch.Play(Dispatch.Start(q), events).told != []
  }

  lemma AnswerableIff(q: Dispatch.Request)
    requires Dispatch.Proper(q)
    ensures CanBeAnswered(q) <==> q.missed == 0 && q.ids != []
  {
    var w := Dispatch.Start(q);
    hide Dispatch.Start, Dispatch.Play, Dispatch.Possible;
    if events :| Dispatch.Possible(w, events) && Dispatch.Play(w, events).told != [] {
      DispatchTheorems.BroadcastConservation(q, events);
    }
    if q.missed == 0 && q.ids != [] {
      DispatchTheorems.StartInv(q);
      DispatchProgress.StartQuiet(q);
      DispatchProgress.StartAsks(q);
      DispatchProgress.QuietLives(w);
      var events := DispatchProgress.AnswerCanBeReached(w);
    }
  }

  /**
   * After any run of the wheel a broadcast can be answered if and only if there is a connection in the pool and all of
   * them are up. That fails when a node went down while the flag was set, was last seen fewer than n ticks ago, and no
   * other entry has taken its ID along.
   */
  lemma BroadcastIff(n: nat, events: seq<Wheel.Event>, q: Dispatch.Request)
    requires n > 0 && WheelTheorems.Possible(n, events) && IsBroadcast(WheelTheorems.Run(n, events), q)
    ensures var s := WheelTheorems.Run(n, events);
            (CanBeAnswered(q) <==> s.pool.connections != map[] && AllUp(s))
            && (AllUp(s) <==> forall c <- s.nodeOf :: !Lingers(n, events, c))
  {
    var s := WheelTheorems.Run(n, events);
    hide WheelTheorems.Run, WheelTheorems.Possible, Dispatch.Proper;
    AnswerableIff(q);
    NoneMissedIff(s, q);
    forall c | c in s.nodeOf ensures Lingers(n, events, c) <==> Wheel.Owns(s, c) && c !in s.open {
      LingersIff(n, events, c);
    }
    hide Lingers;
    PooledAreOwners(s);
  }

  /** The connection is down and still in the pool, told from the events. */
  predicate Lingers(n: nat, events: seq<Wheel.Event>, c: Conn)
    requires n > 0
  {
    && Wheel.NodeDown(c) in events && Wheel.Fresh(n, WheelTheorems.ClockRun(n, events), c)
    && !WheelIds.Left(events, c) && !WheelIds.Robbed(n, events, c)
  }

  lemma LingersIff(n: nat, events: seq<Wheel.Event>, c: Conn)
    requires n > 0 && WheelTheorems.Possible(n, events) && c in WheelTheorems.Run(n, events).nodeOf
    ensures var s := WheelTheorems.Run(n, events); Lingers(n, events, c) <==> Wheel.Owns(s, c) && c !in s.open
  {
    hide WheelTheorems.Run, WheelTheorems.Possible, WheelTheorems.ClockRun, WheelIds.Robbed, WheelIds.Left, Wheel.Fresh;
    WheelIds.UpIs(n, events, c);
    WheelIds.LiveIds(n, events, c, c);
  }

  lemma PooledAreOwners(s: Wheel.State)
    requires Wheel.Inv(s)
    ensures AllUp(s) <==> forall c <- s.nodeOf :: Wheel.Owns(s, c) ==> c in s.open
  {
    hide Partition, Wheel.Present;
    forall id | id in s.pool.connections ensures Wheel.Owns(s, s.pool.connections[id]) {
      assert Wheel.Holds(s, s.pool.connections[id], id);
    }
    if AllUp(s) {
      forall c | c in s.nodeOf && Wheel.Owns(s, c) ensures c in s.open {
        var id := s.nodeOf[c];
        assert id in s.pool.connections && s.pool.connections[id] == c;
      }
    } else {
      var id :| id in s.pool.connections && s.pool.connections[id] !in s.open;
      assert Wheel.Owns(s, s.pool.connections[id]);
    }
  }

  /** A node that goes down while the command line is connected. */
  lemma LingeringHappens(n: nat, c: Conn)
    requires n > 0
    ensures var events := [Wheel.NodeUp(c)] + [Wheel.CliUp] + [Wheel.NodeDown(c)];
            WheelTheorems.Possible(n, events) && !AllUp(WheelTheorems.Run(n, events))
  {
    var a := [Wheel.NodeUp(c)];
    WheelTheorems.Snoc(n, [], Wheel.NodeUp(c));
    WheelTheorems.Snoc(n, a, Wheel.CliUp);
    WheelTheorems.Snoc(n, a + [Wheel.CliUp], Wheel.NodeDown(c));
    WheelIds.FirstUp(n, c);
  }
}
