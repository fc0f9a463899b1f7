/** The counters of lkpServer and the state of lkpClient, updated in place. */
module DispatchObject {
  import opened Bytes
  import opened NodePool
  import opened Tally
  import opened ResultFile
  import opened ResultObject
  import Transfer
  import Dispatch

  class Aggregator {
    const clientPool: ClientPool
    var clientNum: nat
    var clientOKNum: nat
    var ackTimes: nat
    /** The Return messages sent to the command line. */
    var sent: seq<Summary>

    constructor ()
      ensures View() == Reset(0) && sent == [] && fresh(clientPool)
    {
      clientPool := new ClientPool();
      clientNum, clientOKNum, ackTimes, sent := 0, 0, 0, [];
    }

    ghost function View(): Counters
      reads this, clientPool
    {
      Counters(clientNum, clientOKNum, ackTimes, clientPool.nodeInfo)
    }

    /** The part of onCommandMsg that concerns the counters: every connection in the pool counts, up or not. */
    method OnCommandMsg(sendToAll: bool)
      modifies this`clientNum, this`clientOKNum, this`ackTimes, clientPool`nodeInfo
      ensures View() == Reset(if sendToAll then |clientPool.connections| else 1)
    {
      clientNum, clientOKNum, ackTimes := 0, 0, 0;
      clientPool.ClearInfo();
      clientNum := if sendToAll then clientPool.Size() else 1;
    }

    /** Return with the entries of node_info in the order of the map. */
    method MakeReturn(command: Command) returns (s: Summary)
      ensures s == Summarize(View(), command)
    {
      var nodes: seq<(int, Text)> := [];
      var rest := clientPool.nodeInfo;
      assert nodes + Listing(rest) == Listing(rest);
      while rest != map[]
        invariant Listing(clientPool.nodeInfo) == nodes + Listing(rest)
        decreases |rest|
      {
        ListingStep(rest);
        var k := Min(rest.Keys);
        Regroup(nodes, [(k, rest[k])], Listing(rest - {k}));
        hide Listing, Min;
        nodes := nodes + [(k, rest[k])];
        rest := rest - {k};
      }
      assert nodes + Listing(rest) == nodes;
      s := Summary(command, clientNum, clientOKNum, nodes);
    }

    method Reply(command: Command)
      modifies this`sent
      ensures sent == old(sent) + Answer(View(), command)
    {
      if ackTimes == clientNum {
        var s := MakeReturn(command);
        sent := sent + [s];
      }
    }

    /** onCommandACK, and onPushACK, for which the command is PUSH. */
    method OnAck(r: Tally.Reply)
      modifies this`clientOKNum, this`ackTimes, this`sent, clientPool`nodeInfo
      ensures View() == Count(old(View()), r) && sent == old(sent) + Answer(View(), r.command)
    {
      ackTimes := ackTimes + 1;
      if r.status {
        clientOKNum := clientOKNum + 1;
      }
      if !r.status {
        clientPool.UpdateInfo(r.node, r.text);
      }
      Reply(r.command);
    }

    /**
     * onFileMsg when the transfer ends; the END message carries no node ID, and the length of the file is asked of the
     * file system. If the stream has been closed before, the server stops at fclose, with nothing but ackTimes_
     * changed.
     */
    method OnEnd(stream: ResultStream)
      requires stream.Valid() && !stream.crashed
      modifies this`clientOKNum, this`ackTimes, this`sent, clientPool`nodeInfo
      modifies stream`open, stream`crashed, stream`offset, stream`buffer, stream.host
      ensures stream.Valid() && stream.View() == Transfer.Accept(old(stream.View()), Transfer.End, []).(verdict := None)
      ensures stream.host.contents
           == Stored(Disk(old(stream.host.contents), stream.block), old(stream.View()), Transfer.End, [])
      ensures var r := Dispatch.ResultEnd(ToInt32(|stream.host.contents|) == stream.fileSize);
              if stream.crashed then sent == old(sent) && View() == old(View()).(acks := old(View()).acks + 1)
              else View() == Count(old(View()), r) && sent == old(sent) + Answer(View(), r.command)
    {
      ackTimes := ackTimes + 1;
      stream.OnClose();
      if stream.crashed {
        return;
      }
      var recvSize := ToInt32(|stream.host.contents|);
      if recvSize != stream.fileSize {
        clientPool.UpdateInfo(0, Ascii("file is not completed"));
      } else {
        clientOKNum := clientOKNum + 1;
      }
      Reply(Result);
    }
  }

  lemma ListingStep(m: map<int, Text>)
    requires m != map[]
    ensures m.Keys != {}
    ensures var k := Min(m.Keys); Listing(m) == [(k, m[k])] + Listing(m - {k}) && |m - {k}| < |m|
  {
    assert m.Keys == {} ==> m == map[];
    var k := Min(m.Keys);
    assert m.Keys == (m - {k}).Keys + {k};
  }

  class ClientNode {
    var childNum: nat
    var lastCmdString: Text
    const result: Option<seq<Byte>>

    constructor (file: Option<seq<Byte>>)
      ensures View() == Dispatch.Client(0, [], file)
    {
      childNum, lastCmdString, result := 0, [], file;
    }

    ghost function View(): Dispatch.Client
      reads this
    {
      Dispatch.Client(childNum, lastCmdString, result)
    }

    /** onCommandMsg; forked is what fork returns. Without a reply the result file is opened and its transfer begins. */
    method OnCommandMsg(command: Command, nodeID: int, forked: bool) returns (reply: Option<Tally.Reply>)
      modifies this
      ensures (View(), reply) == Dispatch.Obey(old(View()), command, nodeID, forked)
    {
      if childNum >= 1 {
        var message := Ascii("ERROR 10: Command ") + lastCmdString + Ascii(" is still running!");
        return Some(Tally.Reply(command, nodeID, false, message));
      }
      lastCmdString := Dispatch.Name(command);
      if command == Result {
        if result == None {
          return Some(Tally.Reply(command, nodeID, false, Ascii("ERROR 14: No Result File in client")));
        }
        return None;
      }
      if command == Push {
        return Some(Tally.Reply(Push, 0, true, []));
      }
      childNum := childNum + 1;
      if forked {
        return Some(Tally.Reply(command, nodeID, true, []));
      }
      return Some(Tally.Reply(command, nodeID, false, Ascii("ERROR 11: Fork Error!")));
    }

    /** handleChildExit */
    method OnChildExit()
      modifies this`childNum
      ensures childNum == if old(childNum) > 0 then old(childNum) - 1 else 0
    {
      childNum := if childNum - 1 > 0 then childNum - 1 else 0;
    }
  }
}
