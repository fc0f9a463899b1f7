# lkp-extent: a verified model

lkp-extent dispatches kernel test jobs: one server, any number of client nodes, and a command line that connects to
the server, sends one command and waits for one answer. This project models the parts of it that carry state,
arithmetic or a protocol, as Dafny 4.11 programs and proofs. `dafny verify dfyconfig.toml` checks everything.

## How it is organised

Every part has a specification on values (functions, state machines), theorems about it, and the code as it runs
(methods with loops, classes with fields) proved equal to the specification.

| part | specification | theorems | code that runs |
|---|---|---|---|
| messages on the wire | `Varint`, `Wire`, `Messages` | `VarintTheorems`, `Utf8Theorems`, `WireTheorems`, `Layouts`, `UnknownFields` | `WireObject`, `CachedSizes` |
| frames and streams | `Codec`, `Adler` | `CodecTheorems`, `Adler` | `Codec` (`Buffer`, `LkpCodec`), `Adler` |
| asynchronous log | `AsyncLog` | `AsyncLogTheorems` | `LogObject` |
| node IDs and timing wheel | `NodePool`, `Wheel` | `NodePool`, `WheelTheorems`, `WheelIds` | `NodePool`, `WheelObject` |
| file transfer | `Transfer` | `TransferTheorems`, `TransferPieces`, `TransferEvents`, `DoubleClose`, `Stages` | `TransferObject` |
| commands and answers | `Tally`, `Dispatch` | `Tally`, `DispatchTheorems`, `DispatchEvents`, `DispatchFiles`, `DispatchProgress`, `Answers`, `ClientJobs` | `DispatchObject` |
| the file that results share | `ResultFile`, `Dispatch` | `Streaming`, `SharedRuns`, `SharedResults` | `ResultObject` |
| broadcasts and the pool | `Wheel`, `Dispatch` | `Broadcast` | |
| from command to command line | `CommandLine` | `CommandLine` | |
| configuration file | `Config` | `ConfigTheorems` | `Config` |

The message layer is driven by a schema (the list of field kinds of a message type, with nested schemas for repeated
messages), so each theorem about it is proved once for every schema and holds for the seven message types, whose
schemas are in `Messages`. `Layouts` says what that comes to for each of them, with the tags of the generated code
written as numbers. Varints, length-delimited records, "last one wins" and the skipping of unknown fields follow the
Protocol Buffers encoding guide, UTF-8 is that of section 3 of RFC 3629, and the checksum is that of sections 2.2 and 9
of RFC 1950.

The log, the wheel with the ID pool, one file transfer and the exchange of one command are state machines. An event is
one critical section, one callback or one delivery; a run is any sequence of events, so every theorem about runs holds
for every interleaving. Which runs there are is itself a theorem: the exact condition for one more event, told from the
events so far (`WheelIds.PossibleIff`, `TransferEvents.PossibleIff`, `ClientJobs.PossibleIff`, and
`DispatchEvents.PossibleIff` with the state of the transfers). In the log an event that cannot happen where it stands
changes nothing. `Dispatch` contains a whole `Transfer` per node and the one file in which the server keeps results,
`Broadcast` sends a command from any state of the wheel, and `CommandLine` sends the resulting answer through `Codec`.

## What the code does not do

In each case the code is modelled as it is and the exact condition is proved.

* Nothing is ever erased from `fpMap` and `fileNameMap_`, so that a connection object to or from which a file was
  sent never dies. When its node goes down and the ID is reused, the old entry still frees the ID when it expires: the
  new node disappears from the pool although it is up and has just been seen (`WheelIds.StaleFreeHappens`). What a tick
  and a node going down free is stated exactly in `FreedIff` and `DownFrees`, who owns an ID after any run, told from
  the events, in `LiveIds`, and for runs in which no such node goes down the intended behaviour in `CleanLiveIds` and
  `NoStaleFree`.
* A node whose entry has expired crashes the server when its connection goes down, since `entry` is then null, and so
  does a command line whose flag `hasCmdConnected_` was cleared, since its context is empty. The flag protects from
  both. It is set exactly when the last of command line up, command line down and node down was the first
  (`WheelTheorems.FlagIs`, `CrashIff`, `CliCrashIff`). A node that goes down with the flag set clears it and keeps its
  ID until it expires.
* `set_content(buf)` takes a C string. A file is sure to arrive intact if and only if it has zero bytes at the end of
  a 64 KiB chunk or of the file only; any other file can be corrupted while the size check still succeeds
  (`TransferTheorems.ArrivesIff`, `OthersCanBeCorrupted`). The size check of a push never fails at all (`Conservation`).
* Any other message that completes a write of its own while the write-complete callback is installed, such as a
  heartbeat during a RESULT transfer, can cause a second END, and at a second END the receiver closes its file again,
  which is undefined: runs end there. Exactly when it can happen is stated in `DoubleClose.DoubleCloseIff`. With two
  nodes the server can be stopped in this way before the second has seen the command
  (`DispatchFiles.HeartbeatStopsServer`). As long as the server lives, other traffic does no harm
  (`DispatchTheorems.BroadcastConservation`, `DispatchFiles.PushDelivers`).
* A result does not carry the node ID, so every stream opens, truncates and writes `node0-result.tar`. After a
  broadcast the results are all there in every run if and only if they are the same (`SharedResults.ContentsIff`); of
  two different ones only the last can be left, and the Return can say that both have arrived (`LastOneStays`). At END
  the length of the shared file is checked, so that a result which was sent can be denied, and node 0 blamed for it
  (`NodeZeroIsBlamed`). Exactly when the Return does not depend on how the streams meet is stated in `DeterminedIff`,
  and what it says in any case in `Answers.AnswerLists`.
* A connection that goes down with the flag set stays in the pool. A broadcast counts it but sends it nothing, so the
  command line gets no answer; `Broadcast.BroadcastIff` says when that is so.
* A fork that fails is counted as a running child until the exit of any child is signalled; until then the client
  refuses every command (`ClientJobs.RefusesIff`, `ForkFailureBlocks`). The exit of another child, such as the `cp`
  that follows a push, is counted as that of the job. Commands are refused whenever a job is running if and only if
  there is no such exit while one is (`OneAtATimeIff`, `SecondJob`).
* `ReadMessageNoVirtualNoRecursionDepth` of protobuf 3.0.0 cuts the length of a nested message down to what is left of
  the input. The bytes 34, 5 are therefore a Return with one empty NodeInfo (`WireTheorems.CutShort`), and two byte
  strings that both parse need not parse as the merge; `ConcatenationIff` says when they do.
* `AnalyseLine` hands `substr` the count `start_pos + 1 - end_pos`. It ignores entries of two characters and accepts
  an equals sign inside a comment (`ConfigTheorems.AnalyseIff`). Because the whole line is kept, a `#` in the key
  protects one in the value (`ConfigTheorems.RoundTripIff`).
* The log loses the lines appended after the backend's last swap when it is stopped, those that a backlog above 25
  buffers drops, and those not shorter than a buffer; `AsyncLogTheorems.CompleteIff` says when nothing else is lost.
* Exchanging two octets of a frame goes unnoticed exactly when 65521 divides their distance times their difference
  (`Adler.SwapDetectedIff`); for octets at most 256 places apart that never happens.

## Model

| member | source | states |
|---|---|---|
| Varint.Size32IsLength | src/lib/lkpProto.pb.cc:641-646 | UInt32Size, which compares with powers of 128, is the length of the varint written, for every 32-bit value |
| Varint.ReadVarintEncode | src/lib/lkpProto.pb.cc:498-504 | a varint is read back from in front of any bytes, and exactly its own bytes are consumed |
| VarintTheorems.EncodeIs | src/lib/lkpProto.pb.cc:498-504 | what is written for a number is the one chain of 7-bit groups, lowest first, all but the last with the upper bit set and the last not zero, that adds up to it |
| VarintTheorems.ReadVarintIs | src/lib/lkpProto.pb.cc:498-504 | a number is read exactly if a chain of at most ten octets is at the front, and it is the sum of its groups |
| Layouts.SerializeIs | src/lib/lkpProto.pb.cc:533-573 | for each of the seven message types: the fields in order, each behind the tag that is written for it as a number, and none that holds its default |
| Layouts.HeartBeatOctets | src/lib/lkpProto.pb.cc:2128-2137 | a heartbeat is the octets 8 and 1, or nothing |
| Layouts.ParserIs | src/lib/lkpProto.pb.cc:410-531 | behind each tag that is expected as a number, for each of the seven types, the parser reads exactly the field it belongs to, with the width of the field, and refuses what the field cannot hold |
| Layouts.OtherTags | src/lib/lkpProto.pb.cc:2104-2114 | any other octet in the place of a tag ends the message or begins a field that is skipped |
| UnknownFields.UnknownAreSkipped | src/lib/lkpProto.pb.cc:2104-2114 | unknown fields of all five wire types, groups in groups included, leave a message as it is, or fail the parse if a group ends with another number or goes too deep |
| UnknownFields.WholeInput | src/lib/lkpCodec.cc:202-206 | a whole message of unknown fields parses if and only if its groups end as they began and are at most a hundred levels deep; with a zero tag, a stray end of a group or half a tag behind them it does not |
| Utf8Theorems.Utf8Iff | src/lib/lkpProto.pb.cc:453-456 | a string passes the check if and only if it is the UTF-8 encoding of some sequence of scalar values |
| WireTheorems.ParseSerialize | src/lib/lkpProto.pb.cc:410-531 | parsing the serialized fields into any message is merging them into it, whatever follows on the wire is parsed from there |
| WireTheorems.RoundTrip | src/lib/lkpProto.pb.cc:575-617 | for every schema and all values its C++ types can hold, with any number of nested messages, parsing the serialized bytes into a fresh message gives the original |
| WireTheorems.ConcatenationIsMerge | src/lib/lkpProto.pb.cc:685-709 | parsing serialize(a) followed by serialize(b) gives a.MergeFrom(b) |
| WireTheorems.ParseConcatenation | src/lib/lkpProto.pb.cc:3024-3115 | for any bytes that parse to their end and do not end within a nested message, unknown fields included: parsing the concatenation is parsing the second into what the first gave |
| WireTheorems.ConcatenationIff | src/lib/lkpProto.pb.cc:3081-3087 | it is so for every second part exactly when the first does not end within a nested message, whose length is cut down to what is left |
| WireTheorems.CutShort | src/lib/lkpProto.pb.cc:3081-3087 | a nested message announced with five octets of which none follows is accepted as an empty one |
| WireTheorems.MergeFromAt | src/lib/lkpProto.pb.cc:3230-3245 | after a merge a non-default value of the second message has won, a default one has not, and lists are appended |
| WireTheorems.MergeDefault | src/lib/lkpProto.pb.cc:1311-1339 | merging into a fresh message copies |
| WireTheorems.MergeAssociative | src/lib/lkpProto.pb.cc:1311-1339 | merging is associative |
| WireTheorems.ByteSizeAgrees | src/lib/lkpProto.pb.cc:619-667 | ByteSize is the number of bytes the serializer writes, for every schema, nested ones included |
| WireObject.Message.MergePartialFromCodedStream | src/lib/lkpProto.pb.cc:410-531 | the parser that jumps from field to field with ExpectTag succeeds, fails and sets fields exactly as a loop that reads a tag and switches on it, on every byte string |
| WireObject.TopOfLoop | src/lib/lkpProto.pb.cc:415-418 | reading a tag and dispatching on it, skipping unknown fields, leaves the outcome of the whole parse unchanged |
| WireObject.AfterField | src/lib/lkpProto.pb.cc:3090-3092 | looking for the usual next tag (its own for a repeated field) and jumping there leaves the outcome of the whole parse unchanged |
| CachedSizes.NodeInfoObject.ByteSize | src/lib/lkpProto.pb.cc:2833-2855 | the size of a NodeInfo is computed and stored in it |
| CachedSizes.NodeInfoObject.SerializeToArray | src/lib/lkpProto.pb.cc:2810-2831 | a NodeInfo advances the output by exactly its record |
| CachedSizes.ReturnObject.ByteSize | src/lib/lkpProto.pb.cc:3175-3211 | afterwards the stored size of the message and of every nested one is the length of its serialization |
| CachedSizes.ReturnObject.SerializeWithCachedSizesToArray | src/lib/lkpProto.pb.cc:3145-3173 | with length prefixes taken from the stored sizes the output is the serialization and grows by exactly the stored size |
| CachedSizes.SizeNodes | src/lib/lkpProto.pb.cc:3199-3205 | the sizes of all nested messages, with prefixes, add up to what they occupy, and all are stored |
| CachedSizes.PutNodes | src/lib/lkpProto.pb.cc:3163-3168 | every length prefix written from a stored size is the length of the record behind it |
| Messages.FindTypeOfName | src/lib/lkpCodec.cc:162-177 | looking up the name of a message type finds that type |
| Messages.NamesDiffer | src/lib/lkpCodec.cc:19-22 | no two message types have the same name |
| Adler.Adler32 | src/lib/lkpCodec.cc:184-189 | the lower 16 bits are one plus the sum of the octets, the upper 16 bits the length plus the sum of each octet times its distance from the end, both modulo 65521 |
| Adler.ChecksumIs | src/lib/lkpCodec.cc:184-189 | so is the checksum that frames are made and checked with |
| Adler.SingleOctetDetected | src/lib/lkpCodec.cc:223-226 | changing one octet changes the checksum, for inputs of any length |
| Adler.SwapDetectedIff | src/lib/lkpCodec.cc:223-226 | exchanging two octets changes the checksum if and only if 65521 does not divide distance times difference |
| Adler.NearSwapDetected | src/lib/lkpCodec.cc:223-226 | exchanging unequal octets at most 256 places apart always changes the checksum |
| Codec.Buffer.Append | src/lib/lkpCodec.cc:21-22 | data is added behind what is readable |
| Codec.Buffer.Prepend | src/lib/lkpCodec.cc:64-65 | data is added in front of what is readable |
| Codec.Buffer.Retrieve | src/lib/lkpCodec.cc:146 | exactly the first bytes leave the buffer |
| Codec.LkpCodec.FillEmptyBuffer | src/lib/lkpCodec.cc:14-66 | the buffer then holds the frame of the message: length, name with its zero, data, checksum, with sizes that agree |
| Codec.LkpCodec.TakeFrame | src/lib/lkpCodec.cc:131-157 | one turn of the loop delivers the front frame and removes it, or reports one error and leaves the buffer alone, or waits |
| Codec.LkpCodec.OnMessage | src/lib/lkpCodec.cc:127-159 | the loop delivers all complete good frames at the front in order and stops at the first bad or incomplete one |
| Codec.HeadOf | src/lib/lkpCodec.cc:131-139 | a frame taken from the front is at least 14 bytes, so the loop ends |
| CodecTheorems.ParseSealed | src/lib/lkpCodec.cc:190-226 | with a correct checksum the verdict depends on name and data only: unknown names and malformed data are told apart |
| CodecTheorems.ParseContents | src/lib/lkpCodec.cc:190-207 | parsing the contents of a frame gives back the message that was framed |
| CodecTheorems.FrameLayout | src/lib/lkpCodec.cc:14-66 | a frame octet by octet: length, length of the name with its zero, name, zero, data, checksum of all between, the three numbers with their most significant octet first |
| CodecTheorems.NamesAre | src/lib/lkpCodec.cc:19-22 | the name of each of the seven types, spelled out |
| CodecTheorems.Verdicts | src/lib/lkpCodec.cc:190-226 | a wrong checksum gives kCheckSumError, else a length of the name below 2 or beyond the frame kInvalidNameLen, else the name decides between kUnknownMessageType, kParseError and the message |
| CodecTheorems.LengthsAre | src/lib/lkpCodec.cc:131-157 | nothing is done below 14 octets; a length below 10 or above 67108864 gives kInvalidLength, and otherwise that many octets are waited for and taken |
| CodecTheorems.HeadOfFrame | src/lib/lkpCodec.cc:133-146 | a frame in front of any bytes is taken off as that message, or rejected as too long, exactly by its length |
| CodecTheorems.CorruptionDetected | src/lib/lkpCodec.cc:184-190 | changing any one byte of body or checksum of an intact frame makes parse report kCheckSumError |
| CodecTheorems.TranspositionDetected | src/lib/lkpCodec.cc:184-190 | so does exchanging two unequal body bytes at most 256 places apart |
| CodecTheorems.HeadIsStable | src/lib/lkpCodec.cc:131-157 | bytes that arrive later never change a decision about the front of the buffer |
| CodecTheorems.ChunkingIndependence | src/lib/lkpCodec.cc:127-159 | for every byte stream, valid or corrupt, what is delivered and what stays in the buffer depends on the concatenated bytes only, not on the pieces |
| CodecTheorems.ErrorsAreSticky | src/lib/lkpCodec.cc:148-152 | once the front frame is bad no later call delivers or removes anything; each reports the same error again |
| CodecTheorems.StreamRoundTrip | src/lib/lkpCodec.cc:127-159 | framing any messages, concatenating and cutting anywhere delivers exactly those before the first oversized one; all arrive, with an empty buffer and no error, if and only if every frame is within 64 MiB |
| AsyncLogTheorems.StepKeepsInv | src/lkpServer.cc:593-661 | every critical section and every unlocked part of a backend turn keeps ownership, order and contents |
| AsyncLogTheorems.LogConservation | src/lkpServer.cc:544-661 | after any interleaving the lines appended are, in order and untorn, those dealt with, those about to be written, the full buffers and the current one; only whole buffers from a backlog above 25 are dropped, and counted |
| AsyncLogTheorems.BackendOwnership | src/lkpServer.cc:595-657 | at the loop head both spare buffers exist and are empty and the write list is empty; a missing nextBuffer_ implies a non-empty buffers_; the refill never pops an empty list |
| AsyncLogTheorems.PendingIs | src/lkpServer.cc:544-570 | what lies in the full buffers and the current one is exactly what was appended since the last swap and fits, in order |
| AsyncLogTheorems.AppendIs | src/lkpServer.cc:544-570 | after any run a line joins the current buffer as long as it and the lines there are shorter than 4000000 octets together; otherwise that buffer becomes a full one, the spare is used up, and the line begins a new buffer, or is lost if it is that long itself |
| AsyncLogTheorems.StopsOnlyWhenTold | src/lkpServer.cc:593-614 | over all runs the flag is set if and only if nobody has stopped the log, and the backend ends only after that |
| AsyncLogTheorems.StopsWhenTold | src/lkpServer.cc:593-595 | once it has been stopped the backend ends at its next turn, full buffers or not |
| AsyncLogTheorems.EverythingCanBeWritten | src/lkpServer.cc:593-661 | after any run without a stop some turns of the backend alone bring every line that fits into the file, in order, but for what a backlog drops |
| AsyncLogTheorems.FitsBelow | src/lkpServer.h:210 | a line fits if it is shorter than 4000000 octets |
| AsyncLogTheorems.CutAbove | src/lkpServer.cc:620-629 | 25 buffers are kept, of 26 or more the first two |
| AsyncLogTheorems.DropsIs | src/lkpServer.cc:619-629 | lines are lost to the backlog rule exactly when some swap found more than 25 buffers with a line behind the second |
| AsyncLogTheorems.CompleteIff | src/lkpServer.cc:593-661 | once stopped, which happens only when it has been told to, the file has every line that fits if and only if no line that fits was appended after the last swap and no swap found more than 25 buffers with a line behind the second |
| AsyncLogTheorems.StopLosesTheTail | src/lkpServer.h:76-84 | one line appended after the last turn is lost when the server stops |
| AsyncLogTheorems.QuietTurnTakesEverything | src/lkpServer.cc:600-660 | a turn during which nothing is appended leaves nothing pending |
| LogObject.Logger.Append | src/lkpServer.cc:544-570 | the octets of the line go to the current buffer, which is replaced first when the line does not fit |
| LogObject.Logger.SwapBuffers | src/lkpServer.cc:608-614 | the critical section hands over every full buffer and the current one and installs spares |
| LogObject.Logger.WakeUp | src/lkpServer.cc:605-614 | whatever ends the wait, the swap follows |
| LogObject.Logger.StopRunning | src/lkpServer.h:76-82 | the flag of the loop is cleared and nothing else |
| LogObject.Logger.WriteBuffers | src/lkpServer.cc:617-660 | the file grows by the drop notice and the buffers kept, and both spare buffers are back and empty |
| LogObject.Logger.CutBacklog | src/lkpServer.cc:620-629 | more than 25 buffers are cut to the first 2, with a notice that counts the others |
| LogObject.Logger.Recycle | src/lkpServer.cc:636-659 | buffers just written are emptied and become the missing spares |
| NodePool.AddTakesSmallestFree | src/lkpHelper.cc:92-117 | a new connection gets the smallest non-negative ID not connected, and no other mapping changes |
| NodePool.PoolRuns | src/lkpHelper.cc:78-132 | after any run of add and del, connected and idle IDs partition the numbers below nodeCount_, which is the largest number of simultaneous connections ever reached |
| NodePool.ClientPool.Add | src/lkpHelper.cc:92-117 | the ID returned is taken from the idle set or is new, and maps to the connection |
| NodePool.ClientPool.Del | src/lkpHelper.cc:120-132 | a connected ID becomes idle; an unknown one changes nothing and is reported |
| NodePool.ClientPool.ClearInfo | src/lkpHelper.cc:149-151 | no messages are left |
| NodePool.ClientPool.UpdateInfo | src/lkpHelper.cc:154-156 | the message of one node is replaced, the others stay |
| WheelTheorems.StepKeepsInv | src/lkpServer.cc:121-168 | every event keeps the pool consistent with the entries: IDs in use or idle are those below the count, and what the pool holds are entries that exist, each under the ID it was given |
| WheelTheorems.TickInAnyOrder | src/lkpServer.h:183-195 | the order in which a bucket destroys its entries makes no difference |
| WheelTheorems.WheelIsClock | src/lkpServer.cc:494-519 | after any run an entry exists if and only if fewer than n ticks have passed since its connection was last seen |
| WheelTheorems.ExpiryOnNthTick | src/lkpServer.cc:515-519 | a tick destroys exactly the entries for which it is the n-th since they were last seen |
| WheelTheorems.ShutDownIff | src/lkpServer.h:183-189 | a connection that is up has been shut down if and only if n ticks have passed since it was last seen |
| WheelTheorems.NoRevival | src/lkpServer.cc:499-503 | an expired entry never exists again, whatever heartbeats follow |
| WheelTheorems.FlagIs | src/lkpServer.cc:155-158 | the command line flag is set exactly when the last of command line up, command line down and node down was the first |
| WheelTheorems.CrashIff | src/lkpServer.cc:153-166 | a node going down crashes the server if and only if its entry has expired and no command line came up since a node or command line last went down |
| WheelTheorems.CliCrashIff | src/lkpServer.cc:153-166 | the command line going down crashes the server if and only if a node or another command line went down after it came up |
| WheelIds.CliCountIs | src/lkpServer.cc:121-158 | after any run the number of command lines that are up is that of the times one came up less that of the times one went down, and the server has crashed if and only if a node that had expired or a command line went down with the flag clear |
| WheelIds.PossibleIff | src/lkpServer.cc:121-168 | after any run that has not crashed the server: a command line can go down if one is up, a node can send a heartbeat or go down if it came up and did not go down, a new one can come up, a file can be sent to one that is up or owns its ID, and a tick can come at any time; nothing else |
| WheelIds.CliComesAndGoes | src/lkpServer.cc:124-158 | a command line that comes and goes leaves the flag clear and the server alive |
| WheelIds.FreedIff | src/lkpServer.h:183-195 | a tick frees a node ID if and only if an entry that was given this ID expires on it and the connection of that entry is the present owner, or is up, or is kept by a file map; no other ID is touched |
| WheelIds.DownFrees | src/lkpServer.cc:161-164 | a node going down frees the ID it was given, whoever owns it now, unless the flag is set or its entry has expired |
| WheelIds.OwnedIff | src/lkpServer.cc:141-166 | a connection owns its ID if and only if it is fresh, has not gone down with the flag clear, and the ID has not been taken by the end of another entry |
| WheelIds.LiveIds | src/lkpServer.cc:141-166 | after any run a connection, up or not, owns its ID if and only if it has been seen in the last n ticks, has not gone down with the flag clear, and no entry that was given the same ID expired while its node was up or after a file transfer, or went down with the flag clear; no two own the same |
| WheelIds.StaleFreeHappens | src/lkpServer.cc:189-196 | for every n from two on there is a run in which the entry of a node to which a file was pushed, and which went down, takes the ID of the node that reused it, although that one is up and fresh |
| WheelIds.CleanIsTidy | src/lkpServer.cc:189-196 | in a run in which no node goes down, flag clear and entry in the wheel, after a file transfer, every connection that is up or kept owns its ID while it has an entry |
| WheelIds.CleanLiveIds | src/lkpServer.cc:141-166 | in such a run a connection that is up owns its ID exactly until the n-th tick after it was last seen |
| WheelIds.PoolIsLive | src/lkpServer.cc:141-166 | in such a run the pool has the connection of an entry if and only if entry and connection object both exist |
| WheelIds.NoStaleFree | src/lkpServer.h:183-195 | in such a run a tick frees an ID exactly when its present owner has not been seen for n ticks |
| WheelIds.ReuseHappens | src/lkpServer.cc:141-166 | an ID is in fact reused while the entry of its previous owner is still in the wheel |
| WheelObject.Liveness.constructor | src/lkpServer.cc:69 | the ring has ServerTimeControl empty buckets |
| WheelObject.Liveness.OnNodeUp | src/lkpServer.cc:139-151 | a new node gets an ID and an entry in the newest bucket |
| WheelObject.Liveness.OnCliUp | src/lkpServer.cc:124-136 | a command line connection sets the flag |
| WheelObject.Liveness.OnNodeDown | src/lkpServer.cc:153-166 | the flag is cleared, or the ID freed, or a null entry dereferenced |
| WheelObject.Liveness.OnCliDown | src/lkpServer.cc:153-166 | the flag is cleared, or an empty context is cast |
| WheelObject.Liveness.OnHeartBeat | src/lkpServer.cc:494-504 | an entry that still exists is added to the newest bucket |
| WheelObject.Liveness.OnPush | src/lkpServer.cc:189-196 | the connection becomes a key of fpMap and is kept from then on |
| WheelObject.Liveness.OnResultFile | src/lkpServer.cc:473-487 | the connection becomes a key of fileNameMap_ and is kept from then on |
| WheelObject.Liveness.OnTimer | src/lkpServer.cc:515-519 | the oldest bucket is overwritten and the entries it alone held are destroyed |
| WheelObject.Liveness.DestroyEntry | src/lkpServer.h:183-195 | a connection object held by the TcpServer, a file map or the pool is shut down if it is up, and the ID of the entry is freed; otherwise nothing happens |
| TransferTheorems.ChunkIntactIff | src/lkpClient.cc:351 | a chunk arrives whatever lies in memory behind it if and only if it has no zero byte before its last |
| TransferPieces.SentIs | src/lkpClient.cc:246-293 | message n of a transfer has octets 65536 n and following of the file, at most 65536, cut at the first zero; only the first announces the size; from the end of the file on they are ENDs |
| TransferPieces.CheckIff | src/lkpClient.cc:296-349 | whatever is announced and sent, the check at the first END succeeds if and only if the size announced and the sum of all patch_len are the same modulo 2 to the power of 32 |
| TransferPieces.CrashesIff | src/lkpServer.cc:421-490 | a message ends the program if and only if the file is not open and the message does not open it |
| TransferEvents.PossibleIff | src/lkpServer.cc:321-352 | after any run a callback can come if fewer have come than writes were completed with the callback installed, pending output can be written if something was sent that had to wait, a message can arrive if one is on its way, and any other message can be sent at any time |
| TransferTheorems.StepKeepsInv | src/lkpServer.cc:321-352 | sending, delivering and foreign writes keep every byte and every END accounted for |
| TransferTheorems.Conservation | src/lkpClient.cc:296-352 | whatever other traffic there is, bytes written, in flight and unread always add up to the file, and the size check of a receiver with a file of its own never fails |
| TransferTheorems.EndsBounded | src/lkpServer.cc:339-351 | no END while the callback is installed, then at least one and at most one more per foreign message that completed a write alone; when all has settled without a second close, exactly one, and the whole length has arrived |
| TransferTheorems.StepDecreases | src/lkpServer.cc:321-352 | without foreign writes every transfer ends |
| TransferTheorems.SafeFileArrives | src/lkpClient.cc:296-352 | a file with zeros at the ends of chunks only is received byte for byte |
| TransferTheorems.OthersCanBeCorrupted | src/lkpServer.cc:326-337 | every other file has a run that ends with a wrong file and a successful size check |
| TransferTheorems.ArrivesIff | src/lkpClient.cc:296-352 | a file arrives intact in every run if and only if it has zeros at the ends of chunks only |
| DoubleClose.CanCloseTwiceIff | src/lkpServer.cc:421-425 | in every state a transfer can reach, it can go on by itself to close the file twice if and only if the ENDs sent and due are two or more |
| DoubleClose.DoubleCloseIff | src/lkpClient.cc:299-301 | in a run with any other traffic there is a point from which the transfer alone can close the file twice if and only if another message was sent while the callback was installed and no output was pending |
| DoubleClose.HeartbeatClosesTwice | src/lkpClient.cc:264-293 | one heartbeat is enough, for every file |
| TransferObject.FileSender.FirstPiece | src/lkpClient.cc:246-261 | the first message announces the file size and carries the first chunk |
| TransferObject.FileSender.OnWriteComplete | src/lkpClient.cc:264-293 | the next chunk is sent, or END and the callback removed, and the cursor has moved by what was sent |
| TransferObject.FileReceiver.Fclose | src/lkpServer.cc:425 | closing a closed file ends the program |
| TransferObject.FileReceiver.OnFileMsg | src/lkpClient.cc:296-352 | a first message opens and truncates, every message appends patch_len bytes, END closes the file and then compares sizes as 32-bit integers |
| Tally.ListingExact | src/lkpServer.cc:376-380 | the node list has every recorded message once, in ascending order of node ID |
| Tally.CountAllExact | src/lkpServer.cc:390-398 | the OK count is the number of successes and exactly the failing nodes have a message |
| Tally.OrderIndependence | src/lkpServer.cc:387-415 | replies that arrive in another order give the same counters and messages, if no node fails with two messages |
| Tally.SummaryExact | src/lkpServer.cc:400-414 | the Return counts the successes and lists exactly the failing nodes, ascending, each with its message |
| Tally.CountAllAny | src/lkpServer.cc:390-398 | even if a node fails with different messages the OK count is the number of successes, exactly the failing nodes have a message, and it is that of the last failure of the node |
| DispatchTheorems.StepKeepsInv | src/lkpServer.cc:387-471 | every event of the exchange keeps commands, transfers, replies and counters in balance, whatever the shared result file makes of the checks |
| DispatchTheorems.BroadcastConservation | src/lkpServer.cc:250-295 | for any number of nodes, any interleaving and any other traffic, as long as the server lives: what is outstanding plus ackTimes_ is the number of nodes reached, at most one Return is sent, and it is sent exactly when every node in the pool has answered |
| DispatchEvents.EndOfPush | src/lkpClient.cc:296-349 | at the first END of a push the client acknowledges with its own ID, and says that it has received the file if and only if what it has written is as long as announced, modulo 2 to the power of 32 |
| DispatchEvents.EndOfResult | src/lkpServer.cc:421-447 | at the first END of a result the server counts a success if and only if the file that all results share is as long as this one was announced, and a failure of node 0 otherwise |
| DispatchEvents.DiskUntouched | src/lkpServer.cc:473-490 | commands other than RESULT leave the results on the disk as they are, in every run |
| DispatchEvents.ClientCounts | src/lkpClient.cc:104-204 | in every run the counter of a client is what it was, plus one if it began UPDATE or RUN, less one for each exit |
| DispatchEvents.PossibleIff | src/lkpClient.cc:97-293 | after any run a node handles a command that has been sent to it once, a child exits if one is counted, a transfer goes on as far as it can, and an ACK is counted once, if the node has replied in one; nothing can happen after the server has crashed |
| DispatchTheorems.AnswerIsSequential | src/lkpServer.cc:387-415 | the Return sums up one reply per node in the order in which they were counted; unless a result was checked in vain it is the one that asking the nodes one after the other would give |
| Answers.AnswerIsDetermined | src/lkpClient.cc:97-293 | over all runs, with any other traffic, the Return to UPDATE, RUN and PUSH depends on the command and on the state of the clients only; that to RESULT is this one if and only if no result was checked in vain |
| Answers.AnswerLists | src/lkpServer.cc:421-471 | in any run the Return counts the clients that are able less the results checked in vain, and lists exactly the others, each with its own text, and node 0 if a check was in vain, whoever sent that result |
| Answers.DueExact | src/lkpServer.cc:387-415 | the Return that is due counts the clients that are idle and, for RESULT, have a file, and lists exactly the others in ascending order |
| Answers.TextsAre | src/lkpClient.cc:104-114 | the texts of the failures: which command is still running, no result file, a file that is not complete |
| DispatchFiles.PushDelivers | src/lkpServer.cc:218-246 | once the Return for a push has been sent every addressed node has the file byte for byte, over every interleaving and with any other traffic, if the file has zeros at the ends of chunks only |
| DispatchFiles.StreamsWrite | src/lkpServer.cc:421-490 | each stream has written exactly its file when its END has been handled, if the file has zeros at the ends of chunks only |
| SharedResults.ContentsIff | src/lkpServer.cc:473-490 | when the Return has been sent every result that was sent is in the file, in every run, if and only if all of them are the same and have zeros at the ends of chunks only |
| SharedResults.DeterminedIff | src/lkpServer.cc:427-447 | the Return to RESULT is the same in every run, and then the one that is due, if and only if at most one client sends a result, or all send results of the same length, of at most one chunk or not a multiple of the stdio block |
| SharedResults.LastOneStays | src/lkpClient.cc:251-257 | of any two different results the one of the node that answers last is all that is in the file, and the Return says that both arrived |
| SharedResults.NodeZeroIsBlamed | src/lkpServer.cc:427-438 | two results whose lengths are not compatible can be streamed so that the Return denies one of them and lists node 0 |
| DispatchFiles.HeartbeatStopsServer | src/lkpServer.cc:421-425 | a heartbeat during a RESULT stream can make the server close a file twice before the second node has seen the command, and no Return is sent |
| DispatchObject.Aggregator.OnCommandMsg | src/lkpServer.cc:258-292 | counters and messages are reset and clientNum_ is one, or the number of connections in the pool |
| DispatchObject.Aggregator.MakeReturn | src/lkpServer.cc:370-380 | the Return holds the counters and the messages in the order of the map |
| DispatchObject.Aggregator.OnAck | src/lkpServer.cc:387-415 | the reply is counted, a failure recorded, and a Return sent exactly when the counters are equal |
| DispatchObject.Aggregator.OnEnd | src/lkpServer.cc:421-471 | the stream is closed; the length of the shared file is checked and the outcome counted, a failure under node 0, and a Return sent exactly when the counters are equal; a second close stops the server before any of that |
| ResultObject.ResultStream.Fopen | src/lkpServer.cc:480 | the file that all streams share is truncated |
| ResultObject.ResultStream.Fwrite | src/lkpServer.cc:490 | whole blocks are written at the offset of this stream, the rest is buffered |
| ResultObject.ResultStream.Fclose | src/lkpServer.cc:425 | the rest is written; a second close ends the program |
| ResultObject.ResultStream.OnPiece | src/lkpServer.cc:473-490 | a first piece opens the file, and every piece goes to the place this stream has reached |
| DispatchObject.ClientNode.OnCommandMsg | src/lkpClient.cc:97-217 | a busy client refuses; otherwise it forks and reports, or acknowledges a push, or starts to stream its result, or reports that there is none |
| DispatchObject.ClientNode.OnChildExit | src/lkp_extent.cc:15-21 | the count of children goes down by one and not below zero |
| DispatchProgress.NotStuck | src/lkpServer.cc:250-295 | as long as the server lives and has not answered a command that reached every node, something can happen that leaves it alive |
| DispatchProgress.WorkDecreases | src/lkpClient.cc:97-293 | every event of the exchange leaves less to do |
| DispatchProgress.AnswerCanBeReached | src/lkpServer.cc:387-471 | from wherever an exchange has got to with the server alive and every node reached, it can be brought to exactly one Return, even after foreign messages |
| DispatchProgress.EveryRunAnswers | src/lkpServer.cc:387-471 | every run without foreign messages is of bounded length, and where it cannot go on exactly one Return has been sent, or none if some connection in the pool was down |
| Broadcast.BroadcastIff | src/lkpServer.cc:250-291 | after any run of the wheel a broadcast can be answered if and only if the pool has a connection and all are up; one is down exactly if its node went down with the flag set, was seen in the last n ticks, and has not lost its ID |
| Broadcast.LingeringHappens | src/lkpServer.cc:153-158 | a node that goes down while the command line is connected stays in the pool |
| ClientJobs.CounterIs | src/lkpClient.cc:104-130 | after any run of commands, fork outcomes and exits childNum is one if UPDATE or RUN has been asked for since the last exit that was signalled, of whatever child, and zero otherwise |
| ClientJobs.RefusesIff | src/lkpClient.cc:104-114 | after any run a command is refused, with no effect, exactly in that case |
| ClientJobs.PossibleIff | src/lkpClient.cc:97-217 | commands and exits of other children can come at any time, the exit of a job if more have been forked than have exited |
| ClientJobs.RefusalSays | src/lkpClient.cc:104-114 | after any run a refusal names the node and the command that was last accepted |
| ClientJobs.RepliesAre | src/lkpClient.cc:116-260 | after any run, what an idle client replies to each command, with the result of the fork, and that it replies nothing when it has a result to send |
| ClientJobs.SignalsCount | src/lkp_extent.cc:15-21 | every exit that is signalled takes one off the counter, down to zero |
| ClientJobs.OneAtATimeIff | src/lkp_extent.cc:15-21 | every command is refused as long as a job is running, at every point of a run, if and only if no other child exits while a job is running |
| ClientJobs.SecondJob | src/lkpClient.cc:334 | a RUN, a push whose cp exits and another RUN: two jobs are running |
| ClientJobs.ForkFailureBlocks | src/lkpClient.cc:118-130 | after a failed fork every command is refused, with no effect, until some child exits |
| CommandLine.EncodeReports | src/lkpServer.cc:370-380 | the Return says in its first field how many nodes were asked, in the second how many did as they were told, in the third 0, 1, 2 or 3 for UPDATE, RUN, RESULT or PUSH, and lists in the fourth exactly the nodes that did not, ascending, with their texts |
| CommandLine.AnswerIsWellFormed | src/lkpServer.cc:370-380 | every Return that is sent can be serialized |
| CommandLine.CommandLineLearns | src/lkpServer.cc:250-415 | in whatever order nodes answer and however the connection cuts up the bytes, the command line receives one message, and its four fields say how many nodes were asked, how many of them are able less the checks in vain, which command it was, and which nodes failed and why; it is the Return that is due, except for results that are not alike |
| Config.TrimString | src/lkpHelper.cc:189-212 | spaces and tabs are removed at both ends and nowhere else |
| Config.AnalyseLine | src/lkpHelper.cc:215-240 | the entry of a line or none, with the count of substr as it is |
| ConfigTheorems.TrimIs | src/lkpHelper.cc:189-212 | what is left is between the first and the last character that is neither space nor tab |
| ConfigTheorems.LinesAre | src/lkpHelper.cc:250-252 | the lines, each with its end, are the text, but for an end of line that the last one may lack |
| ConfigTheorems.ReadIs | src/lkpHelper.cc:242-258 | for every text the value of a key is that in the last of its lines that is an entry with this key, and there are no other keys |
| Config.Reader.ReadConfig | src/lkpHelper.cc:242-258 | the map has the last entry for each key, or is empty when the file cannot be opened |
| Config.PrintConfig | src/lkpHelper.cc:261-267 | one line per entry, in the order of the map |
| ConfigTheorems.AnalyseIff | src/lkpHelper.cc:215-240 | a line is understood as meant if and only if it is not an entry of two characters and has no equals sign in the comment only, behind three characters or more |
| ConfigTheorems.LineIff | src/lkpHelper.cc:215-240 | a printed entry is read back if and only if key and value are trimmed and on one line, the key is not empty and has no equals sign, and no comment cuts it |
| ConfigTheorems.RoundTripIff | src/lkpHelper.cc:242-267 | printing a map and reading it back gives the same map, in whatever order it is printed, if and only if every entry is clean |

## Left out

* muduo (event loop, sockets, TcpConnection, LogFile rolling): callbacks are atomic steps, a connection is a FIFO.
* Races between IO threads on the server's unlocked fields; only the mutex-protected log is concurrent.
* Protobuf reflection, descriptors, arenas, `Swap`, accessors. Unknown fields are parsed and skipped, not kept. What is
  read follows CodedInputStream and WireFormatLite of protobuf 3.0.0, which the repository ships as an archive.
* Type names of the `google.protobuf` package, which the generated pool also finds, are unknown types here.
* The parser and serializer are one loop over a schema instead of unrolled fields, and output is a growing sequence
  instead of raw memory. `CachedSizes` spells out Return and NodeInfo field by field, with their cached sizes.
* A message whose frame is 2^31 octets or longer cannot be framed (`Codec.Sendable`), since ByteSize is an int.
* muduo's FixedBuffer is not part of the repository: it ignores a line that does not fit, which the model includes.
* Clocks and the number of seconds between ticks; the log's timed wait may end at any moment for any reason.
* The log's mutex and unique_ptr are not objects: a critical section is one step and a buffer is a value.
* A connection object goes away when its DOWN callback has run and neither the pool nor a file map holds it.
  `fpMap.clear()` in `start` runs before there are connections.
* What happens after the server has crashed on a null entry or an empty context, or has closed a file twice: the run
  ends there. When a client closes a pushed file twice, that client's transfer ends.
* fork, exec, wait, stat, fopen, `system("cp ...")`: a child is a counter, a file is a sequence of bytes, and the
  outcomes of fork and of opening the result file are inputs. A failing exec, and a file that cannot be opened for
  writing, are not modelled. Nor is the handler of SIGCHLD waiting for the other children, on whichever thread it runs.
* Disconnections while a command is outstanding, and a second command before the first is answered. Connections that
  are down when a command arrives are modelled.
* Commands that are never answered: an unknown node ID, an unreadable push file. With no node at all nothing is sent.
* LIST, which is answered on the spot.
* stdio is a buffer per stream that hands over whole blocks when they are full and the rest at fclose; the block size is
  any number, and for `DeterminedIff` one that divides the 64 KiB of a chunk. A block of one is no buffering at all.
* A result file that a node left open when it sent an earlier result: what its buffer still holds is lost.
* `lkpConfigInit` and its `stoi` calls, `lkpCommand.cc`, `lkp_extent.cc` (except the child counter),
  `dumpConnectionBuckets`, `lkpDispatcher.h`, shell scripts, Docker files and test descriptions.
* The client's copy of the log is the server's, line by line; it is modelled once.
* The order of `std::map<string, string>` is an argument of printing, so the round trip is proved for every order.
* Whether output can be written at once or has to wait is an input of the model; what waits completes together with
  what is added to it, with one callback if it is installed then, as in muduo's TcpConnection.
* A second command line connection shuts down the first; the wheel only counts command line connections.
