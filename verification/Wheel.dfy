/**
 * Who is connected: the timing wheel of lkpServer, the entries it counts references to, the node IDs they hold, and
 * the handlers for connections going up and down. There is one entry per node connection, so an entry is named by
 * its connection; its reference count is the number of buckets that contain it.
 */
module Wheel {
  import opened NodePool

  type Bucket = set<Conn>

  /**
   * buckets is the ring, oldest first. nodeOf is the Entry_nodeID of every entry made so far. open is the set of node
   * connections the TcpServer holds, kept those that are keys of fpMap or fileNameMap_, from which nothing is ever
   * erased. shut are those whose sending side an expiring entry has shut down. crashed says that a DOWN handler has
   * dereferenced a null entry or cast an empty context.
   */
  datatype State = State(
    buckets: seq<Bucket>, nodeOf: map<Conn, int>, pool: Pool, open: set<Conn>, kept: set<Conn>, shut: set<Conn>,
    cliOpen: nat, hasCmd: bool, crashed: bool)

  /** FileSent: a test case is pushed to a node, or a result file received from it. */
  datatype Event =
    NodeUp(c: Conn) | CliUp | HeartBeat(c: Conn) | FileSent(c: Conn) | Tick | NodeDown(c: Conn) | CliDown

  /** The server with a ring of n buckets. */
  function Start(n: nat): State {
    State(seq(n, _ => {}), map[], EMPTY, {}, {}, {}, 0, false, false)
  }

  /** The entry has not been destroyed: a weak reference to it can still be locked. */
  predicate Present(s: State, c: Conn) {
    exists i :: 0 <= i < |s.buckets| && c in s.buckets[i]
  }

  predicate Pooled(s: State, c: Conn) {
    exists id :: id in s.pool.connections && s.pool.connections[id] == c
  }

  /** The connection object has not been destroyed: the TcpServer, a file map or the pool still holds it. */
  predicate Alive(s: State, c: Conn) {
    c in s.open || c in s.kept || Pooled(s, c)
  }

  /** connectionBuckets_.back().insert(entry) */
  function Touch(s: State, c: Conn): State
    requires s.buckets != []
  {
    var last := |s.buckets| - 1;
    s.(buckets := s.buckets[last := s.buckets[last] + {c}])
  }

  /** The entries whose last reference is the bucket that the next tick overwrites. */
  function Dying(s: State): set<Conn>
    requires s.buckets != []
  {
    set c | c in s.buckets[0] && forall i :: 1 <= i < |s.buckets| ==> c !in s.buckets[i]
  }

  /** ~Entry: if the connection object still exists, it is shut down when it is up, and the node ID is freed. */
  function Destroy(s: State, c: Conn): State
    requires c in s.nodeOf
  {
    if Alive(s, c) then s.(shut := s.shut + ({c} * s.open), pool := DelFrom(s.pool, s.nodeOf[c])) else s
  }

  /** Entries are destroyed one after the other. */
  function DestroyAll(s: State, order: seq<Conn>): (t: State)
    requires forall c <- order :: c in s.nodeOf
    ensures t == s.(shut := t.shut, pool := t.pool)
  {
    if order == [] then s else Destroy(DestroyAll(s, order[..|order| - 1]), order[|order| - 1])
  }

  /** connectionBuckets_.push_back(Bucket()): the oldest bucket is overwritten. */
  function Rotate(s: State): State
    requires s.buckets != []
  {
    s.(buckets := s.buckets[1..] + [{}])
  }

  function IdsOf(s: State, cs: set<Conn>): (ids: set<int>)
    requires cs <= s.nodeOf.Keys
    ensures forall id :: id in ids <==> exists c :: c in cs && Holds(s, c, id)
  {
    var ids := set c | c in cs :: s.nodeOf[c];
    assert forall c <- cs :: Holds(s, c, s.nodeOf[c]);
    ids
  }

  /** All of gone that are up are shut down, and the node IDs that gone were given are freed, whoever has them now. */
  function Release(s: State, gone: set<Conn>): State
    requires gone <= s.nodeOf.Keys
  {
    var ids, p := IdsOf(s, gone), s.pool;
    s.(shut := s.shut + (gone * s.open),
       pool := p.(connections := p.connections - ids, idle := p.idle + (ids * p.connections.Keys)))
  }

  /** A tick, whatever the order in which a bucket destroys its entries. */
  function Expire(s: State): State
    requires s.buckets != [] && s.buckets[0] <= s.nodeOf.Keys
  {
    Release(Rotate(s), set c | c in Dying(s) && Alive(s, c))
  }

  /** The DOWN branch of onConnection, for a node: weakEntry.lock() must not be null. */
  function Lost(s: State, c: Conn): State
    requires c in s.nodeOf
  {
    var s := s.(open := s.open - {c});
    if s.hasCmd then s.(hasCmd := false)
    else if Present(s, c) then s.(pool := DelFrom(s.pool, s.nodeOf[c]))
    else s.(crashed := true)
  }

  /** The DOWN branch of onConnection, for the command line: its context holds no entry. */
  function CliLost(s: State): State
    requires s.cliOpen > 0
  {
    var s := s.(cliOpen := s.cliOpen - 1);
    if s.hasCmd then s.(hasCmd := false) else s.(crashed := true)
  }

  predicate Enabled(s: State, e: Event) {
    !s.crashed && match e
      case NodeUp(c) => c !in s.nodeOf
      case CliUp => true
      case HeartBeat(c) => c in s.open
      case FileSent(c) => c in s.open || Pooled(s, c)
      case Tick => true
      case NodeDown(c) => c in s.open
      case CliDown => s.cliOpen > 0
  }

  /** What the pool is allowed to contain. */
  predicate Inv(s: State) {
    && s.buckets != [] && Partition(s.pool)
    && (forall i, c :: 0 <= i < |s.buckets| && c in s.buckets[i] ==> c in s.nodeOf)
    && s.open + s.kept <= s.nodeOf.Keys
    && (forall id <- s.pool.connections :: var c := s.pool.connections[id]; Holds(s, c, id) && Present(s, c))
  }

  predicate Holds(s: State, c: Conn, id: int) {
    c in s.nodeOf && s.nodeOf[c] == id
  }

  /** The pool maps the ID of the entry to its connection. */
  predicate Owns(s: State, c: Conn) {
    c in s.nodeOf && s.nodeOf[c] in s.pool.connections && s.pool.connections[s.nodeOf[c]] == c
  }

  function Step(s: State, e: Event): State
    requires Inv(s)
  {
    if !Enabled(s, e) then s
    else
      match e
      case NodeUp(c) =>
        var id := NextId(s.pool);
        Touch(s.(nodeOf := s.nodeOf[c := id], pool := AddTo(s.pool, c), open := s.open + {c}), c)
      case CliUp => s.(cliOpen := s.cliOpen + 1, hasCmd := true)
      case HeartBeat(c) => if Present(s, c) then Touch(s, c) else s
      case FileSent(c) => s.(kept := s.kept + {c})
      case Tick => Expire(s)
      case NodeDown(c) => Lost(s, c)
      case CliDown => CliLost(s)
  }

  // ---- A last-seen clock ----------------------------------------------------------------------------------

  /** The number of ticks so far, and the tick at which each connection was last seen while it was not expired. */
  datatype Clock = Clock(now: nat, last: map<Conn, nat>)

  /** A connection is fresh while fewer than n ticks have passed since it was last seen. */
  predicate Fresh(n: nat, k: Clock, c: Conn) {
    c in k.last && k.now - k.last[c] < n
  }

  function ClockStep(n: nat, k: Clock, e: Event): Clock {
    match e
    case NodeUp(c) => k.(last := k.last[c := k.now])
    case HeartBeat(c) => if Fresh(n, k, c) then k.(last := k.last[c := k.now]) else k
    case Tick => k.(now := k.now + 1)
    case _ => k
  }
}
