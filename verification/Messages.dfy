/** The seven message types of lkpProto.proto, as schemas with the names the frames carry. */
module Messages {
  import opened Bytes
  import opened Wire

  datatype Type = Command | File | CommandAck | HeartBeat | PushAck | Return | NodeInfo

  /** node_id, node_msg */
  const NODE_INFO: Schema := [U32, Str]

  /** client_num, client_ok_num, command, node_info */
  const RETURN: Schema := [U32, U32, Enum, Repeated(NODE_INFO)]

  function SchemaOf(t: Type): (s: Schema)
    ensures Small(s) && |s| >= 1 && Nests(s, 1)
  {
    match t
    // command, send_to_all, testcase, docker_num, tesetcase_len, node_id
    case Command => [Enum, Bool, Str, U32, U32, U32]
    // file_type, file_name, patch_len, file_size, first_patch, content, node_id
    case File => [Enum, Str, U32, U32, Bool, Blob, U32]
    // status, command, ack_message, node_id
    case CommandAck => [Bool, Enum, Str, U32]
    // status
    case HeartBeat => [Bool]
    // status, ack_message, node_id
    case PushAck => [Bool, Str, U32]
    case Return => RETURN
    case NodeInfo => NODE_INFO
  }

  function ShortName(t: Type): string {
    match t
    case Command => "Command"
    case File => "File"
    case CommandAck => "CommandACK"
    case HeartBeat => "HeartBeat"
    case PushAck => "PushACK"
    case Return => "Return"
    case NodeInfo => "Return.NodeInfo"
  }

  /** GetTypeName(): the full name, with the package. */
  function TypeName(t: Type): seq<Byte> {
    Ascii("lkpMessage.") + Ascii(ShortName(t))
  }

  const TYPES: seq<Type> := [Command, File, CommandAck, HeartBeat, PushAck, Return, NodeInfo]

  /** The first of the types that has the name. */
  function FindIn(types: seq<Type>, name: seq<Byte>): (t: Option<Type>)
    ensures t.Some? ==> TypeName(t.value) == name
  {
    if types == [] then None
    else if TypeName(types[0]) == name then Some(types[0])
    else FindIn(types[1..], name)
  }

  /** FindMessageTypeByName over the types of this package. */
  function FindType(name: seq<Byte>): (t: Option<Type>)
    ensures t.Some? ==> TypeName(t.value) == name
  {
    FindIn(TYPES, name)
  }

  datatype Msg = Msg(kind: Type, fields: Fields)

  predicate WellFormed(m: Msg) {
    FitsAll(SchemaOf(m.kind), m.fields)
  }

  lemma NestsMore(s: Schema, depth: nat, more: nat)
    requires Nests(s, depth) && depth <= more
    ensures Nests(s, more)
    decreases depth
  {
    forall k | k in s && k.Repeated? ensures more > 0 && Nests(k.schema, more - 1) {
      NestsMore(k.schema, depth - 1, more - 1);
    }
  }

  /** No two types share a name, so the name in a frame selects the type that wrote it. */
  lemma NamesDiffer(t: Type, u: Type)
    requires TypeName(t) == TypeName(u)
    ensures t == u
  {
    var n := |"lkpMessage."|;
    assert TypeName(t)[n..] == Ascii(ShortName(t)) && TypeName(u)[n..] == Ascii(ShortName(u));
    assert |ShortName(t)| == |ShortName(u)|;
    if |ShortName(t)| == 7 {
      assert Ascii("Command")[0] != Ascii("PushACK")[0];
    }
  }

  lemma {:induction false} FindInBack(types: seq<Type>, t: Type)
    requires t in types
    ensures FindIn(types, TypeName(t)) == Some(t)
  {
    hide TypeName;
    if TypeName(types[0]) == TypeName(t) {
      NamesDiffer(types[0], t);
    } else {
      FindInBack(types[1..], t);
    }
  }

  lemma FindTypeOfName(t: Type)
    ensures FindType(TypeName(t)) == Some(t)
  {
    hide TypeName, FindIn;
    FindInBack(TYPES, t);
  }
}
