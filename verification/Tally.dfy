/** Counting replies: the counters of lkpServer, the error messages by node, and the one answer to the command line. */
module Tally {
  import opened Bytes
  import opened NodePool

  type Text = seq<Byte>

  datatype Command = Update | Run | Result | Push

  /** What the server learns from a CommandACK, a PushACK or an END. */
  datatype Reply = Reply(command: Command, node: int, status: bool, text: Text)

  /** clientNum_, clientOKNum_, ackTimes_ and node_info */
  datatype Counters = Counters(clientNum: nat, ok: nat, acks: nat, info: map<int, Text>)

  /** A Return message. */
  datatype Summary = Summary(command: Command, clientNum: nat, clientOkNum: nat, nodes: seq<(int, Text)>)

  function Reset(n: nat): Counters {
    Counters(n, 0, 0, map[])
  }

  function Count(t: Counters, r: Reply): Counters {
    if r.status then t.(acks := t.acks + 1, ok := t.ok + 1)
    else t.(acks := t.acks + 1, info := t.info[r.node := r.text])
  }

  function CountAll(n: nat, replies: seq<Reply>): (t: Counters)
    ensures t.clientNum == n && t.acks == |replies|
  {
    if replies == [] then Reset(n) else Count(CountAll(n, replies[..|replies| - 1]), replies[|replies| - 1])
  }

  /** The entries of a std::map in order. */
  function Listing(m: map<int, Text>): seq<(int, Text)>
    decreases |m|
  {
    if m == map[] then []
    else
      assert m.Keys != {} by {
        assert m.Keys == {} ==> m == map[];
      }
      var k := Min(m.Keys);
      assert |m - {k}| < |m| by {
        assert m.Keys == (m - {k}).Keys + {k};
      }
      [(k, m[k])] + Listing(m - {k})
  }

  function Summarize(t: Counters, c: Command): Summary {
    Summary(c, t.clientNum, t.ok, Listing(t.info))
  }

  /** What goes to the command line after a reply has been counted. */
  function Answer(t: Counters, c: Command): seq<Summary> {
    if t.acks == t.clientNum then [Summarize(t, c)] else []
  }

  // ---- The listing ----------------------------------------------------------------------------------------

  /** The listing has the pairs of the map, each once, in ascending order of the IDs. */
  lemma {:induction false} ListingExact(m: map<int, Text>)
    ensures forall k, v :: (k, v) in Listing(m) <==> k in m && m[k] == v
    ensures forall i, j :: 0 <= i < j < |Listing(m)| ==> Listing(m)[i].0 < Listing(m)[j].0
    decreases |m|
  {
    if m != map[] {
      assert m.Keys != {} by {
        assert m.Keys == {} ==> m == map[];
      }
      var k := Min(m.Keys);
      assert |m - {k}| < |m| by {
        assert m.Keys == (m - {k}).Keys + {k};
      }
      ListingExact(m - {k});
      var rest := Listing(m - {k});
      assert Listing(m) == [(k, m[k])] + rest;
      forall i, v | i in m && m[i] == v ensures (i, v) in Listing(m) {
        assert i != k ==> (i, v) in rest;
      }
      forall j | 0 <= j < |rest| ensures k < rest[j].0 {
        assert (rest[j].0, rest[j].1) in rest;
      }
    }
  }

  // ---- Order independence ---------------------------------------------------------------------------------

  function Successes(replies: seq<Reply>): nat {
    if replies == [] then 0
    else Successes(replies[..|replies| - 1]) + if replies[|replies| - 1].status then 1 else 0
  }

  /** No two failures of one node with different messages. */
  predicate Consistent(replies: seq<Reply>) {
    forall r <- replies, q <- replies :: !r.status && !q.status && r.node == q.node ==> r.text == q.text
  }

  /** The OK counter counts the successes and the message map has exactly the failures. */
  lemma {:induction false} CountAllExact(n: nat, replies: seq<Reply>)
    requires Consistent(replies)
    ensures CountAll(n, replies).ok == Successes(replies)
    ensures forall r <- replies :: !r.status ==>
              r.node in CountAll(n, replies).info && CountAll(n, replies).info[r.node] == r.text
    ensures forall k <- CountAll(n, replies).info :: exists r :: r in replies && !r.status && r.node == k
  {
    if replies != [] {
      var init, last := replies[..|replies| - 1], replies[|replies| - 1];
      assert replies == init + [last];
      assert forall r :: r in replies <==> r in init || r == last;
      CountAllExact(n, init);
    }
  }

  /** The message of the last failure that names the node. */
  function LastFailure(replies: seq<Reply>, node: int): Option<Text> {
    if replies == [] then None
    else
      var last := replies[|replies| - 1];
      if !last.status && last.node == node then Some(last.text) else LastFailure(replies[..|replies| - 1], node)
  }

  /** Even if a node fails with different messages, or node 0 for several: the last one is recorded. */
  lemma {:induction false} CountAllAny(n: nat, replies: seq<Reply>)
    ensures CountAll(n, replies).ok == Successes(replies)
    ensures forall k :: k in CountAll(n, replies).info <==> exists r :: r in replies && !r.status && r.node == k
    ensures forall k <- CountAll(n, replies).info :: LastFailure(replies, k) == Some(CountAll(n, replies).info[k])
    ensures forall k <- CountAll(n, replies).info ::
              exists r :: r in replies && !r.status && r.node == k && CountAll(n, replies).info[k] == r.text
  {
    if replies != [] {
      var init, last := replies[..|replies| - 1], replies[|replies| - 1];
      assert replies == init + [last];
      assert forall r :: r in replies <==> r in init || r == last;
      CountAllAny(n, init);
    }
  }

  lemma {:induction false} SuccessesWithout(replies: seq<Reply>, k: nat)
    requires k < |replies|
    ensures Successes(replies) == Successes(replies[..k] + replies[k + 1..]) + if replies[k].status then 1 else 0
  {
    var init, last := replies[..|replies| - 1], replies[|replies| - 1];
    if k == |replies| - 1 {
      assert replies[..k] + replies[k + 1..] == init;
    } else {
      var rest := replies[..k] + replies[k + 1..];
      SuccessesWithout(init, k);
      assert rest[..|rest| - 1] == init[..k] + init[k + 1..] && rest[|rest| - 1] == last;
    }
  }

  lemma Without(a: seq<Reply>, b: seq<Reply>) returns (k: nat)
    requires multiset(a) == multiset(b) && a != []
    ensures k < |b| && b[k] == a[|a| - 1] && multiset(b[..k] + b[k + 1..]) == multiset(a[..|a| - 1])
  {
    var last := a[|a| - 1];
    assert a == a[..|a| - 1] + [last];
    assert last in multiset(b);
    k :| 0 <= k < |b| && b[k] == last;
    assert b == b[..k] + ([b[k]] + b[k + 1..]);
    var init := multiset(a[..|a| - 1]);
    assert multiset(a) == init + multiset{last};
    var left, right := multiset(b[..k]), multiset(b[k + 1..]);
    assert multiset(b) == left + (multiset{last} + right);
    assert left + right == (left + (multiset{last} + right)) - multiset{last} == init;
  }

  lemma {:induction false} SuccessesPermuted(a: seq<Reply>, b: seq<Reply>)
    requires multiset(a) == multiset(b)
    ensures Successes(a) == Successes(b)
  {
    assert |a| == |multiset(a)| == |multiset(b)| == |b|;
    if a != [] {
      var init, last := a[..|a| - 1], a[|a| - 1];
      var k := Without(a, b);
      SuccessesPermuted(init, b[..k] + b[k + 1..]);
      SuccessesWithout(b, k);
    }
  }

  /** The messages recorded depend on which replies there are only. */
  lemma SameInfo(n: nat, a: seq<Reply>, b: seq<Reply>)
    requires Consistent(a) && Consistent(b) && forall r :: r in a <==> r in b
    ensures CountAll(n, a).info == CountAll(n, b).info
  {
    CountAllExact(n, a);
    CountAllExact(n, b);
    var s, t := CountAll(n, a).info, CountAll(n, b).info;
    hide CountAll;
    forall k | k in s ensures k in t && t[k] == s[k] {
      var r :| r in a && !r.status && r.node == k;
      assert r in b;
    }
    forall k | k in t ensures k in s {
      var r :| r in b && !r.status && r.node == k;
      assert r in a;
    }
  }

  lemma SameMembers(a: seq<Reply>, b: seq<Reply>)
    requires multiset(a) == multiset(b)
    ensures |a| == |b| && forall r :: r in a <==> r in b
  {
    assert |a| == |multiset(a)| == |multiset(b)| == |b|;
    assert forall r :: r in a <==> r in multiset(a);
    assert forall r :: r in b <==> r in multiset(b);
  }

  /** Replies may come in any order. */
  lemma OrderIndependence(n: nat, a: seq<Reply>, b: seq<Reply>)
    requires multiset(a) == multiset(b) && Consistent(a)
    ensures CountAll(n, a) == CountAll(n, b)
  {
    SameMembers(a, b);
    SuccessesPermuted(a, b);
    CountAllExact(n, a);
    CountAllExact(n, b);
    SameInfo(n, a, b);
  }

  /** The answer names exactly the nodes that failed, in ascending order, each with its message. */
  lemma SummaryExact(n: nat, replies: seq<Reply>, c: Command)
    requires Consistent(replies)
    ensures var s := Summarize(CountAll(n, replies), c);
            s.clientNum == n && s.clientOkNum == Successes(replies)
            && (forall i, j :: 0 <= i < j < |s.nodes| ==> s.nodes[i].0 < s.nodes[j].0)
            && (forall r <- replies :: !r.status ==> (r.node, r.text) in s.nodes)
            && (forall e <- s.nodes :: exists r :: r in replies && !r.status && r.node == e.0 && r.text == e.1)
  {
    var t := CountAll(n, replies);
    CountAllExact(n, replies);
    ListingExact(t.info);
    forall e | e in Listing(t.info) ensures exists r :: r in replies && !r.status && r.node == e.0 && r.text == e.1 {
      assert (e.0, e.1) in Listing(t.info);
      var r :| r in replies && !r.status && r.node == e.0;
      assert r.text == e.1;
    }
  }
}
