/**
 * One command from the command line, sent to a number of nodes: the nodes answer in any order, some by streaming a
 * file, and the server counts. All result files go to the same place.
 */
module Dispatch {
  import opened Bytes
  import opened Tally
  import opened ResultFile
  import Transfer

  /**
   * A client's childNum and lastCmdString_, and its result file if there is one. The count goes down only when a
   * child exits.
   */
  datatype Client = Client(childNum: nat, last: Text, result: Option<seq<Byte>>)

  /**
   * The exchange with one node: whether the command is still in flight, the file transfer if one was started, the
   * ACKs in flight, and the replies the server has counted.
   */
  datatype Station = Station(asked: bool, link: Option<Transfer.Link>, acks: seq<Reply>, answered: seq<Reply>)

  /**
   * What the server is asked to do: the nodes that it reaches and what state they are in, the test case for a push,
   * what its disk holds, and the number of connections in the pool that are down, to which nothing is sent.
   */
  datatype Request = Request(
    command: Command, ids: seq<int>, clients: seq<Client>, file: seq<Byte>, settings: seq<Transfer.Setting>,
    disk: Disk, missed: nat)

  /** counted are all replies in the order in which they were counted, told the answers to the command line. */
  datatype World = World(
    command: Command, ids: seq<int>, clients: seq<Client>, stations: seq<Station>, disk: Disk, missed: nat,
    counters: Counters, counted: seq<Reply>, told: seq<Summary>)

  datatype Event =
    | Handle(i: nat, forked: bool, setting: Transfer.Setting)
    | ChildExit(i: nat)
    | Stream(i: nat, e: Transfer.Event)
    | Ack(i: nat)

  // ---- The client -----------------------------------------------------------------------------------------

  function Name(c: Command): Text {
    match c
    case Update => Ascii("UPDATE")
    case Run => Ascii("RUN")
    case Result => Ascii("RESULT")
    case Push => Ascii("PUSH")
  }

  const REFUSAL: Text := Ascii("ERROR 10: Command ")
  const FORK_ERROR: Text := Ascii("ERROR 11: Fork Error!")
  const NO_RESULT: Text := Ascii("ERROR 14: No Result File in client")

  /** onCommandMsg of the client, at the state k; without a reply it starts to stream its result file. */
  function Obey(k: Client, c: Command, id: int, forked: bool): (Client, Option<Reply>) {
    if k.childNum >= 1 then
      (k, Some(Reply(c, id, false, REFUSAL + k.last + Ascii(" is still running!"))))
    else
      var k := k.(last := Name(c));
      if c.Result? then
        (k, if k.result.None? then Some(Reply(c, id, false, NO_RESULT)) else None)
      else if c.Push? then (k, Some(Reply(Push, 0, true, [])))
      else
        (k.(childNum := k.childNum + 1),
         Some(if forked then Reply(c, id, true, []) else Reply(c, id, false, FORK_ERROR)))
  }

  /** The client's PushACK after END. */
  function PushAck(id: int, complete: bool): Reply {
    Reply(Push, id, complete, Ascii(if complete then "push recv success" else "push recv fail"))
  }

  /** The server's own finding after END; the message carries no node ID. */
  function ResultEnd(complete: bool): Reply {
    Reply(Result, 0, complete, if complete then [] else Ascii("file is not completed"))
  }

  // ---- Steps ----------------------------------------------------------------------------------------------

  predicate Distinct(ids: seq<int>) {
    forall i, j :: 0 <= i < j < |ids| ==> ids[i] != ids[j]
  }

  predicate Proper(q: Request) {
    |q.clients| == |q.settings| == |q.ids| && Distinct(q.ids)
  }

  /** The command has gone to every node that is up, or for a push the first chunk of the file. */
  function Start(q: Request): World
    requires Proper(q)
  {
    var stations := seq(|q.ids|, i requires 0 <= i < |q.ids| =>
      if q.command.Push? then Station(false, Some(Transfer.Begin(q.file, q.settings[i])), [], [])
      else Station(true, None, [], []));
    World(q.command, q.ids, q.clients, stations, q.disk, q.missed, Reset(|q.ids| + q.missed), [], [])
  }

  /** The server counts a reply from node i, whose exchange is then st. */
  function CountIn(w: World, i: nat, st: Station, r: Reply): World
    requires i < |w.stations|
  {
    var t := Count(w.counters, r);
    w.(stations := w.stations[i := st.(answered := st.answered + [r])], counters := t, counted := w.counted + [r],
       told := w.told + Answer(t, r.command))
  }

  /** The server has closed a result file twice. When a client does so with a push, that client stops. */
  predicate ServerCrashed(w: World) {
    w.command.Result?
    && exists i :: 0 <= i < |w.stations| && w.stations[i].link.Some? && w.stations[i].link.value.receiver.crashed
  }

  predicate Enabled(w: World, e: Event) {
    && e.i < |w.stations| == |w.clients| == |w.ids| && !ServerCrashed(w)
    && match e
      case Handle(i, _, _) => w.stations[i].asked
      case ChildExit(i) => w.clients[i].childNum > 0
      case Stream(i, e) => w.stations[i].link.Some? && Transfer.Enabled(w.stations[i].link.value, e)
      case Ack(i) => w.stations[i].acks != []
  }

  function HandleAt(w: World, i: nat, forked: bool, setting: Transfer.Setting): World
    requires i < |w.stations| == |w.clients| == |w.ids|
  {
    var (k, r) := Obey(w.clients[i], w.command, w.ids[i], forked);
    var st := w.stations[i].(asked := false);
    w.(clients := w.clients[i := k],
       stations := w.stations[i :=
         if r.Some? then st.(acks := st.acks + [r.value])
         else if k.result.Some? then st.(link := Some(Transfer.Begin(k.result.value, setting)))
         else st])
  }

  /** The server's disk after an event of a transfer. */
  function DiskAfter(w: World, l: Transfer.Link, e: Transfer.Event): Disk
    requires Transfer.Enabled(l, e)
  {
    if w.command.Result? && e.Deliver? then w.disk.(file := Stored(w.disk, l.receiver, l.wire[0], e.junk)) else w.disk
  }

  /**
   * An END of a push is checked by the client, against its own file. An END of a result is checked by the server,
   * against the file that all results share.
   */
  function StreamAt(w: World, i: nat, e: Transfer.Event): World
    requires Enabled(w, Stream(i, e))
  {
    var st := w.stations[i];
    var before, after := st.link.value, Transfer.Step(st.link.value, e);
    var t := st.(link := Some(after));
    var u := w.(disk := DiskAfter(w, before, e));
    if before.receiver.verdict.Some? || after.receiver.verdict.None? then u.(stations := u.stations[i := t])
    else if w.command.Push? then
      u.(stations := u.stations[i := t.(acks := t.acks + [PushAck(w.ids[i], after.receiver.verdict.value)])])
    else CountIn(u, i, t, ResultEnd(ToInt32(|u.disk.file|) == after.receiver.fileSize))
  }

  function Step(w: World, e: Event): World
    requires Enabled(w, e)
  {
    match e
    case Handle(i, forked, setting) => HandleAt(w, i, forked, setting)
    case ChildExit(i) => w.(clients := w.clients[i := w.clients[i].(childNum := w.clients[i].childNum - 1)])
    case Stream(i, e) => StreamAt(w, i, e)
    case Ack(i) =>
      var st := w.stations[i];
      CountIn(w, i, st.(acks := st.acks[1..]), st.acks[0])
  }

  predicate Possible(w: World, events: seq<Event>)
    decreases |events|
  {
    events != [] ==> Enabled(w, events[0]) && Possible(Step(w, events[0]), events[1..])
  }

  function Play(w: World, events: seq<Event>): World
    requires Possible(w, events)
    decreases |events|
  {
    if events == [] then w else Play(Step(w, events[0]), events[1..])
  }

  // ---- What is kept ---------------------------------------------------------------------------------------

  /** What the server has still to hear of: a command in flight, a file that is not complete, an ACK in flight. */
  function Outstanding(st: Station): nat {
    (if st.asked then 1 else 0) + |st.acks|
    + if st.link.Some? && st.link.value.receiver.verdict.None? then 1 else 0
  }

  /** A failure names its node, except that a result was checked in vain. */
  predicate Proposes(c: Command, id: int, st: Station, r: Reply) {
    r.command == c && (!r.status ==>
      (r.node == id && st.link.None?) || (c.Result? && st.link.Some? && r == ResultEnd(false)))
  }

  predicate StationInv(c: Command, id: int, st: Station) {
    && (st.link.Some? ==> Transfer.Inv(st.link.value) && !st.asked && (c.Push? || c.Result?))
    && Outstanding(st) + |st.answered| == 1
    && (forall r <- st.acks + st.answered :: Proposes(c, id, st, r))
  }

  /** The replies that have been counted, one node after the other. */
  function Polled(stations: seq<Station>): seq<Reply> {
    if stations == [] then []
    else Polled(stations[..|stations| - 1]) + stations[|stations| - 1].answered
  }

  function TotalOutstanding(stations: seq<Station>): nat {
    if stations == [] then 0
    else TotalOutstanding(stations[..|stations| - 1]) + Outstanding(stations[|stations| - 1])
  }

  /** What the command line has been told after replies have been counted. */
  function Told(n: nat, c: Command, counted: seq<Reply>): seq<Summary> {
    if 0 < n <= |counted| then [Summarize(CountAll(n, counted[..n]), c)] else []
  }

  predicate Inv(w: World) {
    && |w.stations| == |w.clients| == |w.ids| && Distinct(w.ids)
    && (forall i :: 0 <= i < |w.ids| ==> StationInv(w.command, w.ids[i], w.stations[i]))
    && multiset(w.counted) == multiset(Polled(w.stations))
    && w.counters == CountAll(|w.ids| + w.missed, w.counted)
    && w.told == Told(|w.ids| + w.missed, w.command, w.counted)
  }
}
