/**
 * Return and its nested NodeInfo objects: ByteSize stores the size of every nested message in that message, and
 * the serializer trusts the stored sizes for its length prefixes.
 */
module CachedSizes {
  import opened Bytes
  import opened Varint
  import opened Wire
  import opened WireTheorems
  import opened Messages

  /** The fields of a message written one after the other, as the generated code lists them. */
  lemma {:induction false} NodeInfoLayout(f: Fields)
    requires FitsAll(NODE_INFO, f)
    ensures Serialize(NODE_INFO, f) == SerScalar(8, U32, f[0]) + SerScalar(18, Str, f[1])
    ensures Wire.ByteSize(NODE_INFO, f) == SizeScalar(U32, f[0]) + SizeScalar(Str, f[1])
  {
    var s := NODE_INFO;
    assert Tag(s, 0) == 8 && Tag(s, 1) == 18;
    assert SerTail(s, f, 2) == [] && SizeTail(s, f, 2) == 0;
    assert SerTail(s, f, 1) == SerScalar(18, Str, f[1]) + SerTail(s, f, 2);
    assert SerTail(s, f, 0) == SerScalar(8, U32, f[0]) + SerTail(s, f, 1);
  }

  lemma {:induction false} ReturnFits(f: Fields)
    requires FitsAll(RETURN, f)
    ensures FitsScalar(U32, f[0]) && FitsScalar(U32, f[1]) && FitsScalar(Enum, f[2])
    ensures Fits(Repeated(NODE_INFO), f[3])
  {
    assert Fits(RETURN[0], f[0]) && Fits(RETURN[1], f[1]) && Fits(RETURN[2], f[2]) && Fits(RETURN[3], f[3]);
  }

  ghost function HeadSize(f: Fields): nat
    requires |f| == 4 && FitsScalar(U32, f[0]) && FitsScalar(U32, f[1]) && FitsScalar(Enum, f[2])
  {
    SizeScalar(U32, f[0]) + SizeScalar(U32, f[1]) + SizeScalar(Enum, f[2])
  }

  function Head(clientNum: Value, clientOkNum: Value, command: Value): seq<Byte>
    requires FitsScalar(U32, clientNum) && FitsScalar(U32, clientOkNum) && FitsScalar(Enum, command)
  {
    SerScalar(8, U32, clientNum) + SerScalar(16, U32, clientOkNum) + SerScalar(24, Enum, command)
  }

  /** Fields i and later, when field i is not repeated. */
  lemma {:induction false} ScalarStep(s: Schema, f: Fields, i: nat)
    requires FitsAll(s, f) && i < |s| && FitsScalar(s[i], f[i])
    ensures SerTail(s, f, i) == SerScalar(Tag(s, i), s[i], f[i]) + SerTail(s, f, i + 1)
    ensures SizeTail(s, f, i) == SizeScalar(s[i], f[i]) + SizeTail(s, f, i + 1)
  {
  }

  lemma {:induction false} LastStep(s: Schema, f: Fields)
    requires FitsAll(s, f) && s != [] && s[|s| - 1].Repeated?
    ensures Fits(s[|s| - 1], f[|s| - 1])
    ensures SerTail(s, f, |s| - 1) == SerItems(Tag(s, |s| - 1), s[|s| - 1].schema, f[|s| - 1].items)
    ensures SizeTail(s, f, |s| - 1) == |f[|s| - 1].items| + SizeItems(s[|s| - 1].schema, f[|s| - 1].items)
  {
    assert SerTail(s, f, |s|) == [] && SizeTail(s, f, |s|) == 0;
  }

  lemma {:induction false} RegroupFour(a: seq<Byte>, b: seq<Byte>, c: seq<Byte>, d: seq<Byte>)
    ensures a + (b + (c + d)) == a + b + c + d
  {
  }

  /** Three plain fields and a repeated one, written one after the other as the generated code lists them. */
  lemma {:induction false} Layout(s: Schema, f: Fields)
    requires FitsAll(s, f) && |s| == 4 && s[3].Repeated?
    requires FitsScalar(s[0], f[0]) && FitsScalar(s[1], f[1]) && FitsScalar(s[2], f[2])
    ensures Fits(s[3], f[3])
    ensures Serialize(s, f) == SerScalar(Tag(s, 0), s[0], f[0]) + SerScalar(Tag(s, 1), s[1], f[1])
                               + SerScalar(Tag(s, 2), s[2], f[2]) + SerItems(Tag(s, 3), s[3].schema, f[3].items)
    ensures Wire.ByteSize(s, f) == SizeScalar(s[0], f[0]) + SizeScalar(s[1], f[1]) + SizeScalar(s[2], f[2])
                                   + |f[3].items| + SizeItems(s[3].schema, f[3].items)
  {
    ScalarStep(s, f, 0);
    ScalarStep(s, f, 1);
    ScalarStep(s, f, 2);
    LastStep(s, f);
    RegroupFour(SerScalar(Tag(s, 0), s[0], f[0]), SerScalar(Tag(s, 1), s[1], f[1]),
                SerScalar(Tag(s, 2), s[2], f[2]), SerItems(Tag(s, 3), s[3].schema, f[3].items));
  }

  /** A schema with the field numbers and kinds of Return. */
  predicate LikeReturn(s: Schema) {
    |s| == 4 && s[0] == U32 && s[1] == U32 && s[2] == Enum && s[3] == Repeated(NODE_INFO)
    && Tag(s, 0) == 8 && Tag(s, 1) == 16 && Tag(s, 2) == 24 && Tag(s, 3) == 34
  }

  lemma {:induction false} LayoutLikeReturn(s: Schema, f: Fields)
    requires FitsAll(s, f) && LikeReturn(s)
    requires FitsScalar(U32, f[0]) && FitsScalar(U32, f[1]) && FitsScalar(Enum, f[2])
    ensures Fits(Repeated(NODE_INFO), f[3])
    ensures Serialize(s, f) == Head(f[0], f[1], f[2]) + SerItems(34, NODE_INFO, f[3].items)
    ensures Wire.ByteSize(s, f) == HeadSize(f) + |f[3].items| + SizeItems(NODE_INFO, f[3].items)
  {
    Layout(s, f);
  }

  lemma {:induction false} ReturnLayout(f: Fields)
    requires FitsAll(RETURN, f)
    ensures FitsScalar(U32, f[0]) && FitsScalar(U32, f[1]) && FitsScalar(Enum, f[2])
    ensures Fits(Repeated(NODE_INFO), f[3])
    ensures Serialize(RETURN, f) == Head(f[0], f[1], f[2]) + SerItems(34, NODE_INFO, f[3].items)
    ensures Wire.ByteSize(RETURN, f) == HeadSize(f) + |f[3].items| + SizeItems(NODE_INFO, f[3].items)
  {
    ReturnFits(f);
    assert LikeReturn(RETURN);
    hide *;
    LayoutLikeReturn(RETURN, f);
  }

  class NodeInfoObject {
    var nodeId: int
    var nodeMsg: seq<Byte>
    var cachedSize: nat

    constructor (nodeId: int, nodeMsg: seq<Byte>)
      ensures this.nodeId == nodeId && this.nodeMsg == nodeMsg
    {
      this.nodeId, this.nodeMsg, cachedSize := nodeId, nodeMsg, 0;
    }

    ghost function View(): Fields
      reads this`nodeId, this`nodeMsg
    {
      [Num(nodeId), Octets(nodeMsg)]
    }

    ghost function Record(): (r: seq<Byte>)
      requires FitsAll(NODE_INFO, View())
      reads this`nodeId, this`nodeMsg
    {
      Serialize(NODE_INFO, View())
    }

    ghost predicate Sized()
      reads this
    {
      FitsAll(NODE_INFO, View()) && |Record()| < TWO31 && cachedSize == |Record()|
    }

    lemma Layout()
      requires FitsAll(NODE_INFO, View()) && |Record()| < TWO31
      ensures FitsScalar(U32, Num(nodeId)) && FitsScalar(Str, Octets(nodeMsg))
      ensures Record() == SerScalar(8, U32, Num(nodeId)) + SerScalar(18, Str, Octets(nodeMsg))
      ensures |Record()| == SizeScalar(U32, Num(nodeId)) + SizeScalar(Str, Octets(nodeMsg))
    {
      NodeInfoLayout(View());
      ByteSizeAgrees(NODE_INFO, View());
    }

    method ByteSize() returns (total: nat)
      requires FitsAll(NODE_INFO, View()) && |Record()| < TWO31
      modifies this`cachedSize
      ensures Sized() && total == cachedSize
    {
      Layout();
      total := 0;
      if nodeId != 0 {
        total := total + 1 + Size32(nodeId);
      }
      if |nodeMsg| > 0 {
        total := total + 1 + PrefixedSize(|nodeMsg|);
      }
      cachedSize := total;
    }

    /** Advances the output behind the record. */
    method SerializeToArray(target: seq<Byte>) returns (end: seq<Byte>)
      requires FitsAll(NODE_INFO, View()) && |Record()| < TWO31
      ensures end == target + Record()
    {
      Layout();
      hide *;
      var idField, msgField := SerScalar(8, U32, Num(nodeId)), SerScalar(18, Str, Octets(nodeMsg));
      Regroup(target, idField, msgField);
      end := target + idField + msgField;
    }
  }

  /** What a list of nested objects stands for. */
  ghost function Infos(nodes: seq<NodeInfoObject>): (f: seq<Fields>)
    reads nodes`nodeId, nodes`nodeMsg
    ensures |f| == |nodes| && forall k :: 0 <= k < |nodes| ==> f[k] == nodes[k].View()
  {
    if nodes == [] then [] else [nodes[0].View()] + Infos(nodes[1..])
  }

  ghost predicate Writable(infos: seq<Fields>) {
    (forall x <- infos :: FitsAll(NODE_INFO, x)) && |SerItems(34, NODE_INFO, infos)| < TWO31
  }

  lemma {:induction false} RecordsFit(infos: seq<Fields>)
    requires Writable(infos)
    ensures forall k :: 0 <= k < |infos| ==> FitsAll(NODE_INFO, infos[k]) && |Serialize(NODE_INFO, infos[k])| < TWO31
  {
    if infos != [] {
      assert infos[0] in infos;
      assert infos[0..] == infos;
      ItemStep(infos, 0, Serialize(NODE_INFO, infos[0]), []);
      RecordsFit(infos[1..]);
      assert forall k :: 0 < k < |infos| ==> infos[k] == infos[1..][k - 1];
    }
  }

  /** The items from index i on are a tag, a length, a record, and the items from i + 1 on. */
  lemma {:induction false} ItemStep(infos: seq<Fields>, i: nat, record: seq<Byte>, before: seq<Byte>)
    requires i < |infos| && Writable(infos[i..])
    requires FitsAll(NODE_INFO, infos[i]) && record == Serialize(NODE_INFO, infos[i])
    ensures Writable(infos[i + 1..]) && |record| < TWO31
    ensures before + SerItems(34, NODE_INFO, infos[i..]) ==
            before + ([34] + Encode(|record|)) + record + SerItems(34, NODE_INFO, infos[i + 1..])
    ensures SizeItems(NODE_INFO, infos[i..]) == PrefixedSize(|record|) + SizeItems(NODE_INFO, infos[i + 1..])
  {
    var rest := infos[i..];
    assert rest[0] == infos[i] && rest[0] in rest && rest[1..] == infos[i + 1..];
    ByteSizeAgrees(NODE_INFO, infos[i]);
    Shift(before, [34], Encode(|record|), record, SerItems(34, NODE_INFO, infos[i + 1..]));
  }

  lemma {:induction false} Shift(a: seq<Byte>, b: seq<Byte>, c: seq<Byte>, d: seq<Byte>, e: seq<Byte>)
    ensures a + (b + (c + d) + e) == a + (b + c) + d + e
  {
  }

  class ReturnObject {
    var clientNum: int
    var clientOkNum: int
    var command: int
    var nodeInfo: seq<NodeInfoObject>
    var cachedSize: nat

    constructor (clientNum: int, clientOkNum: int, command: int)
      ensures this.clientNum == clientNum && this.clientOkNum == clientOkNum && this.command == command
      ensures nodeInfo == []
    {
      this.clientNum, this.clientOkNum, this.command, nodeInfo, cachedSize := clientNum, clientOkNum, command, [], 0;
    }

    ghost function View(): (f: Fields)
      reads this`clientNum, this`clientOkNum, this`command, this`nodeInfo, nodeInfo`nodeId, nodeInfo`nodeMsg
    {
      [Num(clientNum), Num(clientOkNum), Num(command), Items(Infos(nodeInfo))]
    }

    /** The values fit their C++ types and the whole message fits an int. */
    ghost predicate Fit()
      reads this`clientNum, this`clientOkNum, this`command, this`nodeInfo, nodeInfo`nodeId, nodeInfo`nodeMsg
    {
      FitsAll(RETURN, View()) && |Serialize(RETURN, View())| < TWO31
    }

    ghost predicate Sized()
      reads this, nodeInfo
    {
      Fit() && cachedSize == |Serialize(RETURN, View())| && forall x <- nodeInfo :: x.Sized()
    }

    method ScalarSize() returns (total: nat)
      requires FitsScalar(U32, Num(clientNum)) && FitsScalar(U32, Num(clientOkNum)) && FitsScalar(Enum, Num(command))
      ensures total == HeadSize(View())
    {
      total := 0;
      if clientNum != 0 {
        total := total + 1 + Size32(clientNum);
      }
      if clientOkNum != 0 {
        total := total + 1 + Size32(clientOkNum);
      }
      if command != 0 {
        total := total + 1 + (if command < 0 then 10 else Size32(command));
      }
    }

    lemma Parts()
      requires Fit()
      ensures FitsScalar(U32, Num(clientNum)) && FitsScalar(U32, Num(clientOkNum)) && FitsScalar(Enum, Num(command))
      ensures Writable(Infos(nodeInfo))
      ensures Serialize(RETURN, View()) == Head(Num(clientNum), Num(clientOkNum), Num(command))
                                           + SerItems(34, NODE_INFO, Infos(nodeInfo))
      ensures |Serialize(RETURN, View())| == HeadSize(View()) + |nodeInfo| + SizeItems(NODE_INFO, Infos(nodeInfo))
    {
      var f := View();
      assert f[0] == Num(clientNum) && f[1] == Num(clientOkNum) && f[2] == Num(command);
      assert f[3] == Items(Infos(nodeInfo));
      ReturnLayout(f);
      ByteSizeAgrees(RETURN, f);
    }

    method ByteSize() returns (total: nat)
      requires Fit()
      modifies this`cachedSize, nodeInfo`cachedSize
      ensures Sized() && total == cachedSize
    {
      hide Serialize, FitsAll, FitsScalar, SizeItems, SerItems, Writable, HeadSize, Infos, Fit, View;
      Parts();
      total := ScalarSize();
      ghost var infos := Infos(nodeInfo);
      var nested := SizeNodes(nodeInfo, infos);
      total := total + |nodeInfo| + nested;
      cachedSize := total;
      assert Fit() && View() == old(View());
    }

    /**
     * Writes the message behind target, with the length prefix of every nested message taken from its cache. The
     * octets are those of the specification, so each prefix is the length of the record that follows it, and the
     * output grows by exactly cachedSize octets.
     */
    method SerializeWithCachedSizesToArray(target: seq<Byte>) returns (end: seq<Byte>)
      requires Sized()
      ensures end == target + Serialize(RETURN, View()) && |end| == |target| + cachedSize
    {
      Parts();
      ghost var items := SerItems(34, NODE_INFO, Infos(nodeInfo));
      var head := Head(Num(clientNum), Num(clientOkNum), Num(command));
      assert target + (head + items) == target + head + items;
      end := PutNodes(nodeInfo, Infos(nodeInfo), target + head);
    }
  }

  /** What the objects from index i on add to the size. */
  ghost function SizeFrom(infos: seq<Fields>, i: nat): int
    requires i <= |infos| && forall x <- infos :: FitsAll(NODE_INFO, x)
  {
    SizeItems(NODE_INFO, infos[i..])
  }

  ghost predicate WritableFrom(infos: seq<Fields>, i: nat) {
    i <= |infos| && Writable(infos[i..])
  }

  lemma BothEnds(infos: seq<Fields>)
    requires Writable(infos)
    ensures (forall x <- infos :: FitsAll(NODE_INFO, x)) && WritableFrom(infos, 0)
    ensures SizeFrom(infos, 0) == SizeItems(NODE_INFO, infos) && SizeFrom(infos, |infos|) == 0
  {
    assert infos[0..] == infos;
  }

  method SizeNodes(nodes: seq<NodeInfoObject>, ghost infos: seq<Fields>) returns (total: nat)
    requires infos == Infos(nodes) && Writable(infos)
    modifies nodes`cachedSize
    ensures total == SizeItems(NODE_INFO, infos)
    ensures forall x <- nodes :: x.Sized()
  {
    hide *;
    RecordsFit(infos);
    BothEnds(infos);
    total := 0;
    for i := 0 to |nodes|
      invariant WritableFrom(infos, i) && total + SizeFrom(infos, i) == SizeFrom(infos, 0)
      invariant forall k :: 0 <= k < |nodes| ==> nodes[k].View() == infos[k]
      invariant forall k :: 0 <= k < i ==> nodes[k].Sized()
    {
      var size := SizeNode(nodes[i], infos, i);
      total := total + size;
    }
  }

  /** The size of one nested record with its length prefix. */
  method SizeNode(node: NodeInfoObject, ghost infos: seq<Fields>, ghost i: nat) returns (size: nat)
    requires Writable(infos) && i < |infos| && WritableFrom(infos, i)
    requires FitsAll(NODE_INFO, infos[i]) && node.View() == infos[i]
    modifies node`cachedSize
    ensures node.Sized() && WritableFrom(infos, i + 1) && SizeFrom(infos, i) == size + SizeFrom(infos, i + 1)
  {
    ItemStep(infos, i, node.Record(), []);
    hide Serialize, FitsAll, SizeItems, SerItems, PrefixedSize, Writable;
    var record := node.ByteSize();
    size := PrefixedSize(record);
  }

  /** InternalWriteMessageNoVirtualToArray for each item: tag 34, the cached size, the record. */
  method PutNodes(nodes: seq<NodeInfoObject>, ghost infos: seq<Fields>, target: seq<Byte>) returns (end: seq<Byte>)
    requires infos == Infos(nodes) && Writable(infos) && forall x <- nodes :: x.Sized()
    ensures end == target + SerItems(34, NODE_INFO, infos)
  {
    end := target;
    assert infos[0..] == infos;
    for i := 0 to |nodes|
      invariant Writable(infos[i..])
      invariant target + SerItems(34, NODE_INFO, infos) == end + SerItems(34, NODE_INFO, infos[i..])
    {
      assert nodes[i] in nodes && infos[i] == nodes[i].View();
      ItemStep(infos, i, nodes[i].Record(), end);
      end := end + ([34] + Encode(nodes[i].cachedSize));
      end := nodes[i].SerializeToArray(end);
    }
  }
}
