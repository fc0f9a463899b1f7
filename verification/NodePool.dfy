/** lkpClientPool: node IDs for connections, freed IDs handed out again smallest first. */
module NodePool {
  import opened Bytes

  /** A TcpConnection, by identity. */
  type Conn = nat

  datatype Pool = Pool(connections: map<int, Conn>, idle: set<int>, count: int)

  const EMPTY := Pool(map[], {}, 0)

  lemma Member<T>(s: set<T>) returns (x: T)
    requires s != {}
    ensures x in s
  {
    x :| x in s;
  }

  lemma {:induction false} MinExists(s: set<int>)
    requires s != {}
    ensures exists m :: m in s && forall x <- s :: m <= x
    decreases |s|
  {
    var x := Member(s);
    if s != {x} {
      var rest := s - {x};
      assert s == rest + {x};
      MinExists(rest);
      var m :| m in rest && forall y <- rest :: m <= y;
      if x <= m {
        assert x in s && forall y <- s :: x <= y;
      } else {
        assert m in s && forall y <- s :: m <= y;
      }
    }
  }

  /** *begin() of a std::set */
  function Min(s: set<int>): (m: int)
    requires s != {}
    ensures m in s && forall x <- s :: m <= x
  {
    MinExists(s);
    var m :| m in s && forall x <- s :: m <= x;
    m
  }

  /** The ID the next connection gets. */
  function NextId(p: Pool): int {
    if p.idle == {} then p.count else Min(p.idle)
  }

  function AddTo(p: Pool, c: Conn): Pool {
    var id := NextId(p);
    Pool(p.connections[id := c], p.idle - {id}, if p.idle == {} then p.count + 1 else p.count)
  }

  function DelFrom(p: Pool, id: int): Pool {
    if id in p.connections then p.(connections := p.connections - {id}, idle := p.idle + {id}) else p
  }

  // ---- What the pool promises -----------------------------------------------------------------------------

  /** The numbers from 0 to n - 1. */
  function Below(n: nat): (s: set<int>)
    ensures forall i :: i in s <==> 0 <= i < n
  {
    if n == 0 then {} else Below(n - 1) + {n - 1}
  }

  /** Connected and idle IDs are disjoint and together are all IDs below count. */
  predicate Partition(p: Pool) {
    p.count >= 0 && p.connections.Keys !! p.idle && p.connections.Keys + p.idle == Below(p.count)
  }

  lemma {:induction false} BelowSize(n: nat)
    ensures |Below(n)| == n
  {
    if n > 0 {
      BelowSize(n - 1);
    }
  }

  /** A new connection gets the smallest non-negative ID that is not connected. */
  lemma AddTakesSmallestFree(p: Pool, c: Conn)
    requires Partition(p)
    ensures var id := NextId(p);
            id >= 0 && id !in p.connections && (forall k :: 0 <= k < id ==> k in p.connections)
            && Partition(AddTo(p, c)) && AddTo(p, c).connections == p.connections[id := c]
  {
    var id := NextId(p);
    assert p.idle != {} ==> id in Below(p.count);
    forall k | 0 <= k < id ensures k in p.connections {
      assert k in Below(p.count);
    }
    assert AddTo(p, c).connections.Keys == p.connections.Keys + {id};
  }

  lemma DelKeepsPartition(p: Pool, id: int)
    requires Partition(p)
    ensures Partition(DelFrom(p, id))
  {
    if id in p.connections {
      assert DelFrom(p, id).connections.Keys == p.connections.Keys - {id};
    }
  }

  datatype Op = AddOp(c: Conn) | DelOp(id: int)

  function Apply(p: Pool, op: Op): Pool {
    match op
    case AddOp(c) => AddTo(p, c)
    case DelOp(id) => DelFrom(p, id)
  }

  function RunOps(ops: seq<Op>): Pool {
    if ops == [] then EMPTY else Apply(RunOps(ops[..|ops| - 1]), ops[|ops| - 1])
  }

  /** The largest number of connections there ever was at one time. */
  function Peak(ops: seq<Op>): nat {
    if ops == [] then 0
    else
      var before, now := Peak(ops[..|ops| - 1]), |RunOps(ops).connections|;
      if now > before then now else before
  }

  lemma Sizes(p: Pool)
    requires Partition(p)
    ensures |p.connections| + |p.idle| == p.count
  {
    BelowSize(p.count);
    assert |p.connections.Keys + p.idle| == |p.connections.Keys| + |p.idle|;
  }

  lemma ApplyCount(p: Pool, op: Op)
    requires Partition(p)
    ensures var q := Apply(p, op);
            Partition(q) && q.count == if |q.connections| > p.count then |q.connections| else p.count
  {
    var q := Apply(p, op);
    match op {
      case AddOp(c) => AddTakesSmallestFree(p, c);
      case DelOp(id) => DelKeepsPartition(p, id);
    }
    Sizes(q);
    hide Partition, NextId;
    if op.AddOp? && p.idle == {} {
      assert q.idle == {};
    } else {
      assert q.count == p.count;
    }
  }

  /** After any run the IDs in use or idle are exactly those below count, and count is the peak. */
  lemma {:induction false} PoolRuns(ops: seq<Op>)
    ensures Partition(RunOps(ops)) && RunOps(ops).count == Peak(ops)
    ensures |RunOps(ops).connections| + |RunOps(ops).idle| == RunOps(ops).count
  {
    if ops != [] {
      PoolRuns(ops[..|ops| - 1]);
      ApplyCount(RunOps(ops[..|ops| - 1]), ops[|ops| - 1]);
    }
    Sizes(RunOps(ops));
  }

  // ---- The object -----------------------------------------------------------------------------------------

  class ClientPool {
    var connections: map<int, Conn>
    var nodeCount: int
    var idleNodeID: set<int>
    var nodeInfo: map<int, seq<Byte>>

    constructor ()
      ensures View() == EMPTY && nodeInfo == map[]
    {
      connections, nodeCount, idleNodeID, nodeInfo := map[], 0, {}, map[];
    }

    ghost function View(): Pool
      reads this
    {
      Pool(connections, idleNodeID, nodeCount)
    }

    function Size(): nat
      reads this
    {
      |connections|
    }

    method Add(conn: Conn) returns (nodeID: int)
      modifies this
      ensures View() == AddTo(old(View()), conn) && nodeID == NextId(old(View()))
      ensures nodeInfo == old(nodeInfo)
    {
      if idleNodeID == {} {
        nodeID := nodeCount;
        nodeCount := nodeCount + 1;
        connections := connections[nodeID := conn];
      } else {
        nodeID := Min(idleNodeID);
        idleNodeID := idleNodeID - {nodeID};
        connections := connections[nodeID := conn];
      }
    }

    method Del(nodeID: int) returns (found: bool)
      modifies this
      ensures View() == DelFrom(old(View()), nodeID) && found == (nodeID in old(connections))
      ensures nodeInfo == old(nodeInfo)
    {
      found := nodeID in connections;
      if found {
        connections := connections - {nodeID};
        idleNodeID := idleNodeID + {nodeID};
      }
    }

    method ClearInfo()
      modifies this`nodeInfo
      ensures nodeInfo == map[]
    {
      nodeInfo := map[];
    }

    method UpdateInfo(nodeID: int, info: seq<Byte>)
      modifies this`nodeInfo
      ensures nodeInfo == old(nodeInfo)[nodeID := info]
    {
      nodeInfo := nodeInfo[nodeID := info];
    }
  }
}
