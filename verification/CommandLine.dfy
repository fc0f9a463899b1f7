/** The answer on its way to the command line: a Return message, framed, cut into pieces and parsed again. */
module CommandLine {
  import opened Bytes
  import opened Tally
  import opened Dispatch
  import opened Answers
  import opened SharedResults
  import Wire
  import Messages
  import Codec
  import CodecTheorems

  function CommandId(c: Command): int {
    match c
    case Update => 0
    case Run => 1
    case Result => 2
    case Push => 3
  }

  function NodeInfos(nodes: seq<(int, Text)>): (items: seq<Wire.Fields>)
    ensures |items| == |nodes|
    ensures forall i :: 0 <= i < |nodes| ==> items[i] == [Wire.Num(nodes[i].0), Wire.Octets(nodes[i].1)]
  {
    seq(|nodes|, i requires 0 <= i < |nodes| => [Wire.Num(nodes[i].0), Wire.Octets(nodes[i].1)])
  }

  /** The Return message with its setters called. */
  function Encode(s: Summary): Messages.Msg {
    Messages.Msg(Messages.Return,
      [Wire.Num(s.clientNum), Wire.Num(s.clientOkNum), Wire.Num(CommandId(s.command)), Wire.Items(NodeInfos(s.nodes))])
  }

  /** Different answers make different messages. */
  lemma EncodeInjective(s: Summary, t: Summary)
    requires Encode(s) == Encode(t)
    ensures s == t
  {
    var a, b := Encode(s).fields, Encode(t).fields;
    assert a[0] == b[0] && a[1] == b[1] && a[2] == b[2] && a[3] == b[3];
    assert |s.nodes| == |t.nodes|;
    forall i | 0 <= i < |s.nodes| ensures s.nodes[i] == t.nodes[i] {
      var x, y := NodeInfos(s.nodes)[i], NodeInfos(t.nodes)[i];
      assert x[0] == y[0] && x[1] == y[1];
    }
  }

  predicate Encodable(s: Summary) {
    s.clientNum < TWO32 && s.clientOkNum < TWO32 && forall e <- s.nodes :: 0 <= e.0 < TWO32 && Wire.Utf8(e.1)
  }

  lemma NodeInfoFits(id: int, text: Text)
    requires 0 <= id < TWO32 && Wire.Utf8(text)
    ensures Wire.FitsAll(Messages.NODE_INFO, [Wire.Num(id), Wire.Octets(text)])
  {
  }

  lemma EncodeFits(s: Summary)
    requires Encodable(s)
    ensures Messages.WellFormed(Encode(s))
  {
    forall x | x in NodeInfos(s.nodes) ensures Wire.FitsAll(Messages.NODE_INFO, x) {
      var i :| 0 <= i < |s.nodes| && x == NodeInfos(s.nodes)[i];
      NodeInfoFits(s.nodes[i].0, s.nodes[i].1);
    }
  }

  /** Node IDs and texts are such as a Return message can hold. */
  predicate Reportable(c: Command, ids: seq<int>, clients: seq<Client>)
    requires |ids| == |clients|
  {
    |ids| < TWO32 && forall i :: 0 <= i < |ids| ==>
      0 <= ids[i] < TWO32 && Wire.Utf8(Expected(c, ids[i], clients[i]).text)
  }

  lemma {:induction false} AtMostAll(c: Command, clients: seq<Client>)
    ensures CountAble(c, clients) <= |clients|
  {
    if clients != [] {
      AtMostAll(c, clients[..|clients| - 1]);
    }
  }

  lemma {:induction false} AsciiIsUtf8(s: seq<Byte>)
    requires forall i :: 0 <= i < |s| ==> s[i] < 0x80
    ensures Wire.Utf8(s)
  {
    if s != [] {
      AsciiIsUtf8(s[1..]);
    }
  }

  lemma VainFits()
    ensures Wire.Utf8(ResultEnd(false).text)
  {
    AsciiIsUtf8(ResultEnd(false).text);
  }

  lemma NamesFit(c: Command, ids: seq<int>, clients: seq<Client>, failures: nat, nodes: seq<(int, Text)>)
    requires |ids| == |clients| && Reportable(c, ids, clients) && Names(c, ids, clients, failures, nodes)
    ensures forall e <- nodes :: 0 <= e.0 < TWO32 && Wire.Utf8(e.1)
  {
    hide Wire.Utf8, Expected, Unable, ResultEnd;
    VainFits();
  }

  /** Every answer can be sent. */
  lemma AnswerIsWellFormed(q: Request, events: seq<Event>)
    requires Proper(q) && Reportable(q.command, q.ids, q.clients) && Answered(q, events)
    ensures var told := Play(Start(q), events).told; |told| == 1 && Messages.WellFormed(Encode(told[0]))
  {
    hide Wire.Utf8, Encode, Messages.WellFormed, Reportable, CountAble, Names, Start, Play, Possible, Steady;
    AnswerLists(q, events);
    AtMostAll(q.command, q.clients);
    var s := Play(Start(q), events).told[0];
    NamesFit(q.command, q.ids, q.clients, Failures(Play(Start(q), events).counted), s.nodes);
    assert |q.ids| < TWO32 by {
      FewNodes(q);
    }
    EncodeFits(s);
  }

  lemma FewNodes(q: Request)
    requires Proper(q) && Reportable(q.command, q.ids, q.clients)
    ensures |q.ids| < TWO32
  {
  }

  /** Items of the form of a NodeInfo: a node ID and a text. */
  predicate AreNodes(items: seq<Wire.Fields>) {
    forall x: Wire.Fields <- items :: |x| == 2 && x[0].Num? && x[1].Octets?
  }

  function Pairs(items: seq<Wire.Fields>): (p: seq<(int, Text)>)
    requires AreNodes(items)
    ensures |p| == |items| && forall i :: 0 <= i < |p| ==> p[i] == (items[i][0].n, items[i][1].data)
  {
    seq(|items|, i requires 0 <= i < |items| => (items[i][0].n, items[i][1].data))
  }

  /**
   * The message says how many nodes were asked, how many did as they were told, what they were asked, and which nodes
   * did not and why, when so many results have been checked in vain.
   */
  predicate Reports(q: Request, failures: nat, m: Messages.Msg)
    requires |q.ids| == |q.clients|
  {
    && m.kind == Messages.Return && |m.fields| == 4
    && m.fields[0] == Wire.Num(|q.ids|)
    && m.fields[1] == Wire.Num(CountAble(q.command, q.clients) - failures)
    && m.fields[2] == Wire.Num(match q.command case Update => 0 case Run => 1 case Result => 2 case Push => 3)
    && m.fields[3].Items? && AreNodes(m.fields[3].items)
    && Names(q.command, q.ids, q.clients, failures, Pairs(m.fields[3].items))
  }

  lemma EncodeReports(q: Request, failures: nat, s: Summary)
    requires |q.ids| == |q.clients| && s.command == q.command && s.clientNum == |q.ids|
    requires s.clientOkNum + failures == CountAble(q.command, q.clients)
    requires Names(q.command, q.ids, q.clients, failures, s.nodes)
    ensures Reports(q, failures, Encode(s))
  {
    hide CountAble, Names;
    assert Pairs(NodeInfos(s.nodes)) == s.nodes;
  }

  /**
   * From the command to the command line: in whatever order the nodes answer and however the connection cuts up the
   * bytes, the command line receives one message and nothing else, and it reports what happened. It is the one that is
   * due, except that for results that are not alike it may deny some of them.
   */
  lemma CommandLineLearns(q: Request, events: seq<Event>, pieces: seq<seq<Byte>>)
    requires Proper(q) && Reportable(q.command, q.ids, q.clients) && Answered(q, events)
    ensures |Play(Start(q), events).told| == 1
    ensures var r := Play(Start(q), events);
            var m := Encode(r.told[0]);
            (!q.command.Result? || Alike(q) ==>
               r.told[0] == Due(q.command, q.ids, q.clients) && Failures(r.counted) == 0)
            && Messages.WellFormed(m)
            && (|Codec.Contents(m)| <= Codec.MAX_MESSAGE_LEN && Codec.Flatten(pieces) == Codec.Frame(m) ==>
                  var c := Codec.ReceiveAll(Codec.FRESH, pieces);
                  c.buffer == [] && c.errors == [] && |c.delivered| == 1
                  && Reports(q, Failures(r.counted), c.delivered[0]))
  {
    hide Due, Encode, Play, Start, Messages.WellFormed, Codec.Contents, Codec.ReceiveAll, Alike, Reportable, Failures;
    hide Reports, CountAble, Names, Possible, Steady, Codec.Flatten, Codec.Frame;
    AnswerIsDetermined(q, events);
    AnswerIsWellFormed(q, events);
    AnswerLists(q, events);
    if q.command.Result? && Alike(q) {
      AlikePass(q, events);
    }
    var r := Play(Start(q), events);
    EncodeReports(q, Failures(r.counted), r.told[0]);
    OneArrives(Encode(r.told[0]), pieces);
  }

  lemma OneArrives(m: Messages.Msg, pieces: seq<seq<Byte>>)
    requires Messages.WellFormed(m)
    ensures |Codec.Contents(m)| <= Codec.MAX_MESSAGE_LEN && Codec.Flatten(pieces) == Codec.Frame(m) ==>
              Codec.ReceiveAll(Codec.FRESH, pieces) == Codec.Connection([], [m], [])
  {
    hide Messages.WellFormed, Codec.Contents, Codec.ReceiveAll;
    if |Codec.Contents(m)| <= Codec.MAX_MESSAGE_LEN && Codec.Flatten(pieces) == Codec.Frame(m) {
      OneFrame(m);
      CodecTheorems.StreamRoundTrip([m], pieces);
    }
  }

  lemma OneFrame(m: Messages.Msg)
    requires Codec.Sendable(m)
    ensures CodecTheorems.AllSendable([m]) && CodecTheorems.Stream([m]) == Codec.Frame(m)
  {
    assert CodecTheorems.Stream([m]) == Codec.Frame(m) + CodecTheorems.Stream([m][1..]);
  }
}
