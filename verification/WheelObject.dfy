/** The handlers of lkpServer that update the wheel and the pool in place. */
module WheelObject {
  import opened NodePool
  import opened Wheel
  import opened WheelTheorems

  class Liveness {
    const clientPool: ClientPool
    var connectionBuckets: seq<Bucket>
    var nodeOf: map<Conn, int>
    var open: set<Conn>
    /** The keys of fpMap, and of fileNameMap_, fileSizeMap_ and outputfpMap_. */
    var fpMap: set<Conn>
    var fileNameMap: set<Conn>
    var shut: set<Conn>
    var cliOpen: nat
    var hasCmdConnected: bool
    var crashed: bool

    constructor (serverTimeControl: nat)
      requires serverTimeControl > 0
      ensures View() == Start(serverTimeControl) && fresh(clientPool)
    {
      clientPool := new ClientPool();
      connectionBuckets := seq(serverTimeControl, _ => {});
      nodeOf, open, fpMap, fileNameMap, shut, cliOpen := map[], {}, {}, {}, {}, 0;
      hasCmdConnected, crashed := false, false;
    }

    ghost function View(): State
      reads this, clientPool
    {
      State(connectionBuckets, nodeOf, clientPool.View(), open, fpMap + fileNameMap, shut, cliOpen, hasCmdConnected,
            crashed)
    }

    predicate Locks(c: Conn)
      reads this
    {
      exists i :: 0 <= i < |connectionBuckets| && c in connectionBuckets[i]
    }

    method InsertBack(c: Conn)
      requires connectionBuckets != []
      modifies this`connectionBuckets
      ensures View() == Touch(old(View()), c)
    {
      var last := |connectionBuckets| - 1;
      connectionBuckets := connectionBuckets[last := connectionBuckets[last] + {c}];
    }

    method OnNodeUp(c: Conn)
      requires Inv(View()) && Enabled(View(), NodeUp(c))
      modifies this, clientPool
      ensures Inv(View()) && View() == Step(old(View()), NodeUp(c))
    {
      UpKeepsInv(View(), c);
      open := open + {c};
      var nodeID := clientPool.Add(c);
      nodeOf := nodeOf[c := nodeID];
      InsertBack(c);
    }

    method OnCliUp()
      requires Inv(View()) && Enabled(View(), CliUp)
      modifies this`cliOpen, this`hasCmdConnected
      ensures Inv(View()) && View() == Step(old(View()), CliUp)
    {
      StepKeepsInv(View(), CliUp);
      cliOpen := cliOpen + 1;
      if !hasCmdConnected {
        hasCmdConnected := true;
      }
    }

    method OnNodeDown(c: Conn)
      requires Inv(View()) && Enabled(View(), NodeDown(c))
      modifies this, clientPool
      ensures Inv(View()) && View() == Step(old(View()), NodeDown(c))
    {
      StepKeepsInv(View(), NodeDown(c));
      open := open - {c};
      if hasCmdConnected {
        hasCmdConnected := false;
      } else if Locks(c) {
        var _ := clientPool.Del(nodeOf[c]);
      } else {
        crashed := true;
      }
    }

    method OnCliDown()
      requires Inv(View()) && Enabled(View(), CliDown)
      modifies this`cliOpen, this`hasCmdConnected, this`crashed
      ensures Inv(View()) && View() == Step(old(View()), CliDown)
    {
      StepKeepsInv(View(), CliDown);
      cliOpen := cliOpen - 1;
      if hasCmdConnected {
        hasCmdConnected := false;
      } else {
        crashed := true;
      }
    }

    method OnHeartBeat(c: Conn)
      requires Inv(View()) && Enabled(View(), HeartBeat(c))
      modifies this`connectionBuckets
      ensures Inv(View()) && View() == Step(old(View()), HeartBeat(c))
    {
      StepKeepsInv(View(), HeartBeat(c));
      if Locks(c) {
        InsertBack(c);
      }
    }

    /** fpMap[conn] = ctx */
    method OnPush(c: Conn)
      requires Inv(View()) && Enabled(View(), FileSent(c))
      modifies this`fpMap
      ensures Inv(View()) && View() == Step(old(View()), FileSent(c))
    {
      StepKeepsInv(View(), FileSent(c));
      fpMap := fpMap + {c};
      assert View().kept == old(View()).kept + {c};
    }

    /** fileNameMap_[conn] = ... */
    method OnResultFile(c: Conn)
      requires Inv(View()) && Enabled(View(), FileSent(c))
      modifies this`fileNameMap
      ensures Inv(View()) && View() == Step(old(View()), FileSent(c))
    {
      StepKeepsInv(View(), FileSent(c));
      fileNameMap := fileNameMap + {c};
      assert View().kept == old(View()).kept + {c};
    }

    /** ~Entry; weakConn_ can be locked while the TcpServer, a file map or the pool holds the connection. */
    method DestroyEntry(c: Conn)
      requires c in nodeOf
      modifies this`shut, clientPool
      ensures View() == Destroy(old(View()), c)
    {
      if c in open || c in fpMap || c in fileNameMap
         || exists id :: id in clientPool.connections && clientPool.connections[id] == c {
        if c in open {
          shut := shut + {c};
        }
        assert View().shut == old(View()).shut + ({c} * open);
        var _ := clientPool.Del(nodeOf[c]);
      }
    }

    method OnTimer()
      requires Inv(View()) && Enabled(View(), Tick)
      modifies this`connectionBuckets, this`shut, clientPool
      ensures Inv(View()) && View() == Step(old(View()), Tick)
    {
      ghost var s := View();
      TickKeepsInv(s);
      var todo := set c | c in connectionBuckets[0]
                          && forall i :: 1 <= i < |connectionBuckets| ==> c !in connectionBuckets[i];
      connectionBuckets := connectionBuckets[1..] + [{}];
      DestroyEntries(todo, s);
    }

    /** The entries whose count drops to zero are destroyed in whatever order the bucket holds them. */
    method DestroyEntries(entries: set<Conn>, ghost s: State)
      requires Inv(s) && View() == Rotate(s) && entries == Dying(s)
      modifies this`shut, clientPool
      ensures View() == Expire(s)
    {
      var todo := entries;
      ghost var gone: set<Conn> := {};
      NothingReleased(s);
      assert gone == AliveOf(s, Dying(s) - todo);
      hide Release, Destroy, Present, Owns, Pooled, Partition;
      while todo != {}
        invariant todo <= Dying(s) && gone == AliveOf(s, Dying(s) - todo)
        invariant View() == Rotate(Release(s, gone))
        decreases |todo|
      {
        var c :| c in todo;
        TickOne(s, todo, gone, c);
        DestroyEntry(c);
        gone := if Alive(s, c) then gone + {c} else gone;
        todo := todo - {c};
      }
      assert gone == set c | c in Dying(s) && Alive(s, c);
    }
  }

  ghost function AliveOf(s: State, cs: set<Conn>): set<Conn> {
    set c | c in cs && Alive(s, c)
  }

  lemma NothingReleased(s: State)
    ensures Release(s, {}) == s
  {
    assert IdsOf(s, {}) == {};
    assert s.pool.connections - {} == s.pool.connections;
  }

  /** One round of the loop in OnTimer. */
  lemma TickOne(s: State, todo: set<Conn>, gone: set<Conn>, c: Conn)
    requires Inv(s) && c in todo && todo <= Dying(s) && gone == AliveOf(s, Dying(s) - todo)
    ensures gone <= s.nodeOf.Keys && c in s.nodeOf
    ensures var next := if Alive(s, c) then gone + {c} else gone;
            next <= s.nodeOf.Keys && next == AliveOf(s, Dying(s) - (todo - {c}))
            && Destroy(Rotate(Release(s, gone)), c) == Rotate(Release(s, next))
  {
    assert Dying(s) <= s.buckets[0];
    ReleaseOne(s, gone, c);
    assert Pooled(Rotate(Release(s, gone)), c) <==> Pooled(Release(s, gone), c);
    assert Dying(s) - (todo - {c}) == (Dying(s) - todo) + {c};
  }
}
