# Verification of the Yarc client

Yarc is a Redis client written in C++. This project models its central parts in Dafny and proves what
they promise. `dafny verify dfyconfig.toml` checks all of it.

## The parts

**Codec** (`Bytes`, `Decimal`, `Protocol`, `MapOrder`, `Shapes`, `RoundTrip`, `StaleErrno`, `Canonical`,
`Relocation`, `Codec`, `WireFormat`, `Endless`, `ByteStreams`, `ProtocolData`, `ProtocolPrinter`).
`Protocol` says what the parser makes of a byte string and what the printer prints, as functions with
explicit positions; the C variable `errno` is part of the state, because a stale one makes the parser
reject zero counts. The methods of `ProtocolData` and `ProtocolPrinter` do the same work over a connection
that moves bytes in pieces of any size, and agree with those functions. The laws are in `Codec`.
`WireFormat` pins the format down byte by byte, so that the laws are not about a format that only parser
and printer share. A failure carries its reason: `Rejected` where the source returns false, `Endless`
where it never returns, `NotModelled`.

**CRC and slots** (`BitStrings`, `CrcDivision`, `Crc16Table`, `Crc16`, `HashSlot`). The table loop refines
polynomial division; the search for a hash tag refines the rule in section "Hash tags" of the Redis
Cluster specification.

**Pipelined client** (`Pipeline`, `PipelineOrder`, `PipelineCalls`, `PipelineReadings`, `PipelineServer`,
`PipelineAnswers`, `PipelineMessages`, `PipelineRuns`, `SimpleClient`). `Pipeline` is a step system of the
calling thread, the reception thread and the server, one step for each locked list operation, with the
requests that are between lists in somebody's hand. The server sends bytes, and the reception thread
parses them with the codec's `ParseNode`; a parse that fails uses up any of them and ends the thread, but
not the connection. The six modules after it prove properties of every run; `PipelineRuns` has runs that
miss a promise. The methods of the class `SimpleClient` take those steps in the program's order, with any
number of the others' steps before each; its `Valid` says that its state is one a run reaches. `Update`
and `Flush` are loops over these methods.

**Cluster client** (`Coverage`, `RoutingTable`, `ClusterReplies`, `ClusterModel`, `ClusterProofs`,
`Redirections`, `ClusterRuns`, `ClusterClient`). The configuration and the requests are one state machine,
with the callbacks that the nodes' clients still owe; the class `ClusterClient` does its events in place,
on request objects that callbacks have captured. Here too `Valid` says the state is reachable, and that no
callback holds a request that has left the list. `ClusterReplies` and `Redirections` say what replies and
redirections mean, in terms of the values and texts that a server sends; `ClusterRuns` has what follows
from them.

**Containers** (`Sequences`, `Reduction`, `LinkedList`, `Reducer`, `DynamicArray`) on the heap. `Reducer`
proves that the delete flags, which are passed down and up through nested passes, amount to asking whether
the visited object is still on the list.

**Setting up a cluster** (`ClusterSetup`): the slots are shared out, and the coverage check agrees.

## Where the code differs from what it says

- A boolean is read as true from `t` and from `f` alike (Source/yarc_protocol_data.cpp:1168), printed text
  ends at its first NUL, and a stale `errno` rejects zero counts: `Codec.RoundTripExactlyWhen` is the
  exact condition, `Codec.RoundTripFails` has inputs.
- A key is hashed up to its first NUL (Source/yarc_protocol_data.cpp:45): `HashSlot.HashedRangeExactlyWhen`,
  `HashSlot.NulCutsKey`.
- `GetErrorCode` looks for a missing space by comparing 32 bits with 64 and so returns the whole text
  rather than nothing (Source/yarc_protocol_data.cpp:807-814): `ClusterProofs.ErrorCodeExactlyWhen`. A bare
  ASK or MOVED is therefore followed: `ClusterProofs.RedirectionDiffersExactlyWhen`,
  `ClusterProofs.BareMovedIsFollowed`.
- The coverage check reads the head of an empty list when no node has a range
  (Source/yarc_cluster_client.cpp:151): the state `Crashed`, from which nothing happens.
  `ClusterProofs.CrashesExactlyWhen` says which replies lead there; an error in reply to the first
  CLUSTER SLOTS is one, `ClusterProofs.CrashesWithoutCluster`.
- Ranges that overlap are refused even if they cover every slot: `Coverage.CoverageIsExact`,
  `Coverage.OverlapIsRefused`.
- The in-flight counter is not decremented by a purge (Source/yarc_simple_client.cpp:152), so `Flush`
  never succeeds after one: `PipelineOrder.FlushedExactlyWhen`, `PipelineOrder.PurgedStaysCounted`,
  `PipelineRuns.PurgeStaysCounted`.
- An answer that looks like a published message is taken for one and shifts the answers after it
  (Source/yarc_simple_client.cpp:256-267): `PipelineServer.OwnAnswerExactlyWhen`,
  `PipelineAnswers.EncodedAnswersArrive`, `PipelineRuns.MessageMisleads`.
- An answer that the parser rejects is lost and the thread ends, but the connection and the sent list stay
  (Source/yarc_simple_client.cpp:248-249), and a new thread is spawned on them (157-175); so the answers
  after it are shifted too: `PipelineServer.OwnAnswerExactlyWhen`, `PipelineRuns.RejectedAnswerMisleads`. One
  such answer is a big number as the RESP3 specification writes it: it begins with an opening
  parenthesis, and the parser knows the less-than sign (Source/yarc_protocol_data.cpp:186).
- A blob count above 2^31 that is not the null count never lets the parser return, because the buffer's
  growth loop does not end (Source/yarc_protocol_data.cpp:571): `Endless.ParseEndlessExactlyWhen`,
  `Endless.HugeBlobHangs`.
- Inserting without a node into a list that is not empty loses what was on it
  (Source/yarc_linked_list.h:91-92, 109-110): `LinkedList.InsertAfter`, `LinkedList.InsertBefore`.
- Doubling a 32-bit size of 2^31 gives zero and the loop does not end
  (Source/yarc_dynamic_array.h:53-54): `DynamicArray.GrowthEndsExactlyWhen`, `DynamicArray.GrowthIsEndless`.

## Model

| member | source | states |
|---|---|---|
| `Codec.ParseOfPrint` | Source/yarc_protocol_data.cpp:136-165 | Parsing a printed tree followed by any bytes: rejected if `errno` is set and a zero count is printed, otherwise the tree with texts cut at NUL and booleans true, with exactly the printed bytes consumed |
| `Codec.RoundTripExactlyWhen` | Source/yarc_protocol_data.cpp:136-165 | A printed tree that fits the printer comes back unchanged, consuming its own bytes and no more, if and only if it is in normal form, no text holds NUL, no boolean is false, and `errno` is clear or no zero count is printed |
| `Codec.RoundTripFails` | Source/yarc_protocol_data.cpp:1162-1176 | Inputs that fail: a false boolean, a text with NUL, a text with a line end in it, an empty array while `errno` is set |
| `Codec.PipelineRoundTrip` | Source/yarc_protocol_data.cpp:136-165 | n trees printed one after the other parse back as those n trees, whatever follows, if and only if each meets that condition |
| `Codec.PrintOfParse` | Source/yarc_protocol_data.cpp:350-408 | For every accepted byte string whose tree fits the printer: printing it and parsing again gives the same tree, if and only if it holds no text with NUL and no false boolean |
| `Codec.ParseDependsOnPrefix` | Source/yarc_protocol_data.cpp:136-210 | A successful parse depends only on the bytes it consumed: followed by any other bytes they give the same result |
| `Codec.StreamedEqualsCounted` | Source/yarc_protocol_data.cpp:366-387 | An array, set or push sent streamed with an end marker is the same value as sent with a count, if and only if no element is an end marker |
| `Codec.StreamedMapEqualsCounted` | Source/yarc_protocol_data.cpp:864-893 | The same for maps, if and only if no key is an end marker |
| `RoundTrip.NodeBack` | Source/yarc_protocol_data.cpp:136-165 | A readable tree printed anywhere in a byte string is read back from there, ending where it ends |
| `RoundTrip.DataBack` | Source/yarc_protocol_data.cpp:167-218 | The same for every kind of value without its attribute |
| `RoundTrip.BlobBack` | Source/yarc_protocol_data.cpp:520-594 | A printed blob is read back with its exact bytes, whatever they are |
| `RoundTrip.NumberBack` | Source/yarc_protocol_data.cpp:1114-1128 | A printed 64-bit number is read back |
| `RoundTrip.LineBack` | Source/yarc_protocol_data.cpp:766-774 | A printed text is read back up to its first NUL |
| `RoundTrip.CountBack` | Source/yarc_protocol_data.cpp:220-263 | A printed count is read back, -1 as the null count, unless it is zero and `errno` is set |
| `Shapes.RereadFixed` | Source/yarc_protocol_data.cpp:766-774 | The tree that comes back equals the tree if and only if it is faithful |
| `StaleErrno.NodeRejected` | Source/yarc_protocol_data.cpp:248-251 | With `errno` set, a tree that prints a zero count anywhere, however deep, is rejected |
| `Canonical.NodeIsNormal` | Source/yarc_protocol_data.cpp:855-920 | Every tree the parser accepts is in normal form: maps hold non-string pairs and then sorted unique string keys, and texts hold no line end |
| `MapOrder.MapMeaning` | Source/yarc_protocol_data.cpp:895-977 | After a map is parsed each string key is bound to its last value, keys are sorted and unique, and every pair with another key survives in order |
| `MapOrder.NormalTableIsFixed` | Source/yarc_protocol_data.cpp:895-950 | A table in normal form, printed pair by pair and sorted out again, is itself |
| `Relocation.NodeMoves` | Source/yarc_protocol_data.cpp:136-210 | A parse reads only the bytes between its start and its end: equal bytes elsewhere give the same outcome there |
| `Decimal.StrtolOfPrint` | Source/yarc_protocol_data.cpp:1114-1128 | What `%lld` prints of a 64-bit number, `strtol` reads back, without touching `errno` |
| `Endless.ParseEndlessExactlyWhen` | Source/yarc_protocol_data.cpp:136-210 | The parser never returns if and only if one of the values it comes to begin is a blob whose count reads as more than 2^31 and is not the null count; on every other input it returns |
| `Endless.BlobEndlessExactlyWhen` | Source/yarc_protocol_data.cpp:520-577 | The same for a single blob |
| `Endless.HugeBlobHangs` | Source/yarc_protocol_data.cpp:569-571 | An input that hangs: "$2147483649" and a line end, whatever follows |
| `Endless.BufferGrowsExactlyWhen` | Source/yarc_dynamic_array.h:52-54 | The counts a blob is parsed for are exactly those that the growth of an empty buffer reaches |
| `WireFormat.StrtolReads` | Source/yarc_protocol_data.cpp:1114-1120 | `strtol` reads blanks, perhaps a plus or minus sign, and digits up to the first other byte: the result is the sum of the digits times powers of ten, or its negation, or the nearest 64-bit number with `errno` set |
| `WireFormat.PrintIsShort` | Source/yarc_protocol_data.cpp:1125-1128 | A number is printed in digits that spell it, without a leading zero, after a minus sign if it is negative |
| `WireFormat.CountReads` | Source/yarc_protocol_data.cpp:220-263 | A count line of up to 126 digits, perhaps after a minus sign, gives the number it spells cut to 32 bits; a zero is refused while `errno` is set |
| `WireFormat.LongCountIsRefused` | Source/yarc_protocol_data.cpp:224-247 | A longer count is refused |
| `WireFormat.TextsRead` | Source/yarc_protocol_data.cpp:174-210 | After `+`, `-` and `<` a line is the text of a simple string, a simple error or a big number; a big number that is not all digits is refused |
| `WireFormat.NumbersRead` | Source/yarc_protocol_data.cpp:1114-1123 | After `:` a line of digits, perhaps after a minus sign, is the number it spells, or the nearest 64-bit one with `errno` set |
| `WireFormat.MarksRead` | Source/yarc_protocol_data.cpp:1162-1176 | `_` and `.` and a line end are null and the end marker; `#`, a byte and a line end are a boolean, true unless the byte is NUL; booleans are printed as `t` and `f` |
| `WireFormat.NullsRead` | Source/yarc_protocol_data.cpp:174-210 | "-1" and a line end after `$`, `!`, `=`, `*`, `~`, `>` are the null value of that kind, with or without a stale `errno` |
| `WireFormat.BlobsRead` | Source/yarc_protocol_data.cpp:520-577 | After `$`, `!` and `=` a count line, that many bytes and a line end are a blob string, a blob error or a verbatim string of these bytes |
| `WireFormat.AggregatesRead` | Source/yarc_protocol_data.cpp:350-390 | After `*`, `~` and `>` a count line and that many values, each standing for itself, are the array, set or push data of these values |
| `WireFormat.MapsRead` | Source/yarc_protocol_data.cpp:855-920 | After `%` a count line and that many keys and values in turn are the map that absorbs these pairs in order |
| `WireFormat.AttributesRead` | Source/yarc_protocol_data.cpp:136-156 | After `|` the same is the attribute of the value that follows |
| `MapOrder.LessIsLexicographic` | Source/yarc_protocol_data.cpp:938-947 | Fields are ordered as `std::string` is: by the first byte that differs, a prefix first |
| `MapOrder.StringKeysAre` | Source/yarc_protocol_data.cpp:903-909 | Simple strings and blob strings name fields, the null blob string the empty one, and no other key does |
| `ByteStreams.SocketStream.ReadBuffer` | Source/yarc_socket_stream.cpp:239-259 | One receive gives any positive number of the next bytes, or fails exactly at the end |
| `ByteStreams.SocketStream.ReadBufferNow` | Source/yarc_byte_stream.cpp:19-34 | However receives cut the bytes up, exactly the requested bytes are read, in order; it fails exactly when the connection ends too early |
| `ByteStreams.SocketStream.ReadByte` | Source/yarc_byte_stream.cpp:68-71 | The next byte, or failure at the end |
| `ByteStreams.SocketStream.WriteBuffer` | Source/yarc_socket_stream.cpp:261-277 | One send takes any positive number of the first bytes, or fails exactly when the connection is broken |
| `ByteStreams.SocketStream.WriteBufferNow` | Source/yarc_byte_stream.cpp:36-51 | However sends cut the bytes up, all of them go out in order; on failure the longest prefix the connection took |
| `ByteStreams.SocketStream.WriteByte` | Source/yarc_byte_stream.cpp:73-76 | The same for one byte |
| `ByteStreams.SocketStream.WriteFormat` | Source/yarc_byte_stream.cpp:53-66 | The same for formatted text that fits the 1024-byte buffer |
| `ByteStreams.SentTwice` | Source/yarc_byte_stream.cpp:36-51 | Two writes, the second only if the first succeeded, send what one write of both sends |
| `ProtocolData.ParseTree` | Source/yarc_protocol_data.cpp:136-156 | A value and the attribute before it, as `ParseNode` of the whole byte string says, whatever pieces the bytes come in; or that it never returns |
| `ProtocolData.ParseDataType` | Source/yarc_protocol_data.cpp:167-210 | The value announced by the next byte; other bytes are rejected |
| `ProtocolData.ParseCount` | Source/yarc_protocol_data.cpp:220-263 | A count in at most 126 digits, or the streamed mark |
| `ProtocolData.ParseCRLF` | Source/yarc_protocol_data.cpp:265-276 | Succeeds exactly on carriage return and line feed, and reads no more than needed to tell |
| `ProtocolData.ParseCRLFTerminatedString` | Source/yarc_protocol_data.cpp:278-301 | The bytes up to the first CRLF |
| `ProtocolData.BlobStringData.Parse` | Source/yarc_protocol_data.cpp:520-567 | A counted blob or the null blob; a count above 2^31 never returns |
| `ProtocolData.BlobStringData.ParseByteArrayData` | Source/yarc_protocol_data.cpp:569-577 | Exactly `count` bytes and a CRLF, for a count that the buffer can grow to |
| `ProtocolData.ArrayData.Parse` | Source/yarc_protocol_data.cpp:350-390 | Counted or streamed elements in order, or the null array |
| `ProtocolData.MapData.Parse` | Source/yarc_protocol_data.cpp:855-920 | Counted or streamed pairs, sorted out into the table |
| `ProtocolData.MapData.ParsePairList` | Source/yarc_protocol_data.cpp:864-893 | The pairs in arrival order, up to the count or the end marker |
| `ProtocolData.MapData.SortOutPairs` | Source/yarc_protocol_data.cpp:895-917 | The pairs absorbed into the table one after another: string keys bound, others kept in order |
| `ProtocolData.MapData.SetField` | Source/yarc_protocol_data.cpp:966-977 | The binding is replaced or inserted at its place, others stay |
| `ProtocolData.MapData.Clear` | Source/yarc_protocol_data.cpp:836-853 | The table is empty |
| `ProtocolData.ParseNumberLine` | Source/yarc_protocol_data.cpp:1114-1123 | A number as `strtol` reads the line; `errno` is set on overflow |
| `ProtocolData.ParseTextLine` | Source/yarc_protocol_data.cpp:766-769 | A simple string, simple error or big number line |
| `ProtocolPrinter.PrintTree` | Source/yarc_protocol_data.cpp:158-165 | The bytes of the attribute and the value go out, or a prefix of them if the connection breaks; success exactly when all went out |
| `ProtocolPrinter.PrintDataType` | Source/yarc_protocol_data.cpp:212-218 | The announcing byte and the body |
| `ProtocolPrinter.PrintBlob` | Source/yarc_protocol_data.cpp:579-594 | The count line, the bytes and CRLF |
| `ProtocolPrinter.PrintArray` | Source/yarc_protocol_data.cpp:392-408 | The count line and the elements in order |
| `ProtocolPrinter.PrintTable` | Source/yarc_protocol_data.cpp:922-950 | The count line, the pairs and then the fields in key order |
| `ProtocolPrinter.PrintPairs` | Source/yarc_protocol_data.cpp:927-936 | Each key and value in list order |
| `ProtocolPrinter.PrintFields` | Source/yarc_protocol_data.cpp:938-947 | Each name as a blob and its value in key order |
| `Crc16.Crc16` | Source/yarc_crc16.cpp:83-89 | The table loop computes the register fold `Crc` |
| `Crc16.CrcIsRemainder` | Source/yarc_crc16.cpp:33-89 | For every byte string the CRC is the remainder of its bits, followed by sixteen zeros, divided by x^16 + x^12 + x^5 + 1 |
| `Crc16.TableStepIsFeed` | Source/yarc_crc16.cpp:86-87 | One table step is eight single-bit shift steps |
| `Crc16.EntryIsFeed` | Source/yarc_crc16.cpp:48-81 | Each table entry is its index shifted bit by bit through the register |
| `Crc16Table.EntryIsShift` | Source/yarc_crc16.cpp:48-81 | Each of the 256 entries is one register shift away from the entry for half its index |
| `CrcDivision.FeedIsRemainder` | Source/yarc_crc16.cpp:33-46 | The shift register computes the polynomial remainder |
| `Crc16.CrcXor` | Source/yarc_crc16.cpp:83-89 | The CRC of the bytewise xor of equally long messages is the xor of their CRCs |
| `Crc16.CrcOfMessageWithCrc` | Source/yarc_crc16.cpp:83-89 | A message followed by its CRC, high byte first, has CRC zero |
| `HashSlot.CalcKeyHashSlot` | Source/yarc_protocol_data.cpp:42-76 | The scans for braces find the part to hash; the slot is its CRC modulo 16384 |
| `HashSlot.HashedRangeExactlyWhen` | Source/yarc_protocol_data.cpp:42-76 | The hashed part is the one the hash tag rule of the Redis Cluster specification names, if and only if the key has no NUL or its tag closes before the first NUL |
| `HashSlot.NulCutsKey` | Source/yarc_protocol_data.cpp:44-64 | A key that fails: of "A", NUL, "B" the rule names all three bytes and the code hashes one |
| `HashSlot.TaggedKeySlot` | Source/yarc_protocol_data.cpp:73-75 | A key with a tag belongs to the slot of the tag |
| `HashSlot.SameTagSameSlot` | Source/yarc_protocol_data.cpp:47-75 | Keys with the same tag belong to the same slot |
| `HashSlot.CalcCommandHashSlot` | Source/yarc_protocol_data.cpp:22-40 | The slot of a command is that of its second element if it is a string, else of the empty key |
| `HashSlot.SecondElementDecides` | Source/yarc_protocol_data.cpp:22-40 | The slot of any array of two or more elements, the second a blob string, is the CRC modulo 16384 of the part that the rule names, of the string's bytes before its first NUL |
| `HashSlot.WithoutKeyIsEmptyKey` | Source/yarc_protocol_data.cpp:22-40 | Every other command belongs to the slot of the empty key |
| `HashSlot.BracesDecide` | Source/yarc_protocol_data.cpp:47-75 | A key with bytes 123 and 125 around a tag belongs to the slot that is the CRC of the tag modulo 16384 |
| `Coverage.Combine` | Source/yarc_cluster_client.cpp:550-567 | Two ranges combine exactly when one ends where the other begins |
| `Coverage.CombineFirstPair` | Source/yarc_cluster_client.cpp:124-145 | One turn of the outer loop merges the first adjacent pair in list order, if there is one |
| `Coverage.ClusterConfigHasFullSlotCoverage` | Source/yarc_cluster_client.cpp:111-156 | The loop ends and answers `HasFullCoverage` |
| `Coverage.CoverageIsSound` | Source/yarc_cluster_client.cpp:111-156 | For any ranges, overlapping or backwards too: a yes means every slot lies in a given range |
| `Coverage.CoverageIsExact` | Source/yarc_cluster_client.cpp:111-156 | For ranges that do not run backwards: yes if and only if they are pairwise disjoint and their union is 0 to 16383 |
| `Coverage.MergedPartitions` | Source/yarc_cluster_client.cpp:130-144 | Merging any adjacent pair, not only the first, keeps the ranges a partition or no partition of the slots |
| `Coverage.AnyMergeOrder` | Source/yarc_cluster_client.cpp:120-149 | Any sequence of merges of adjacent pairs, in any order, that leaves none adjacent has fewer steps than there are ranges and gives the loop's answer |
| `Coverage.OverlapIsRefused` | Source/yarc_cluster_client.cpp:111-156 | Overlapping ranges that cover every slot can be refused |
| `RoutingTable.TableFollowsReply` | Source/yarc_cluster_client.cpp:215-286 | After an array reply the table gives exactly the ranges the reply mentions, each to its address, and no node is left without one |
| `RoutingTable.ReplyKeepsAddressesDistinct` | Source/yarc_cluster_client.cpp:253-259 | Processing a reply never makes two nodes for one address |
| `ClusterReplies.MastersGetTheirSlots` | Source/yarc_cluster_client.cpp:215-286 | After a reply of entries that list a first and a last slot, a master and any replicas, the table gives to each address exactly the ranges listed for it as master, whatever the table was before |
| `ClusterReplies.SlotIsAtItsMaster` | Source/yarc_cluster_client.cpp:215-286 | After such a reply a slot is found if and only if an entry lists it, and at the master of an entry that does; if only one does, at that one's |
| `ClusterReplies.RangesOfReply` | Source/yarc_cluster_client.cpp:215-286 | After such a reply the table holds the listed ranges, each as often as it is listed |
| `ClusterReplies.CoveredExactlyWhen` | Source/yarc_cluster_client.cpp:111-156 | After such a reply, none of whose ranges run backwards, the coverage check says yes if and only if the entries list each slot from 0 to 16383 once and nothing else |
| `ClusterReplies.NamesNoneExactlyWhen` | Source/yarc_cluster_client.cpp:228-243 | An element of the reply names no range if and only if it is no array or has fewer than three elements, or its third is no array or has fewer than two |
| `ClusterReplies.HostsAreRead` | Source/yarc_cluster_client.cpp:243-249 | The host is the text before the first NUL; a null one is empty, another kind of element leaves "127.0.0.1" |
| `ClusterReplies.NumbersAreCut` | Source/yarc_cluster_client.cpp:231-236 | Slot numbers and ports are cut to 16 bits; another kind of element counts as zero |
| `ClusterRuns.AnswerSettlesExactlyWhen` | Source/yarc_cluster_client.cpp:60-76 | In any state with a query out, the answer with such entries leads to STABLE if and only if they list every slot once, to the crash if and only if there are none, else to INCOMPLETE; when STABLE each slot is found at the master of an entry that lists it |
| `ClusterProofs.AddressesAreDistinct` | Source/yarc_cluster_client.cpp:215-286 | In every reachable state the node list holds at most one node for an address |
| `RoutingTable.CoverageMakesRoutable` | Source/yarc_cluster_client.cpp:569-601 | If the coverage check says yes of the table, the lookup of every slot succeeds |
| `RoutingTable.NoRangesExactlyWhen` | Source/yarc_cluster_client.cpp:215-286 | A reply leaves no range at all if and only if it is an array in which no element reads as an assignment, or the null array, or no array while no node had a range |
| `ClusterProofs.CrashesExactlyWhen` | Source/yarc_cluster_client.cpp:60-76 | A step leads to the crash if and only if it is the reply to CLUSTER SLOTS and the reply is one of those |
| `ClusterProofs.CrashesWithoutCluster` | Source/yarc_cluster_client.cpp:148-156 | A new client crashes when the server answers CLUSTER SLOTS with an error, whatever its address |
| `ClusterProofs.ErrorCodeExactlyWhen` | Source/yarc_protocol_data.cpp:807-814 | `GetErrorCode` returns the text before the first space, or nothing without one, if and only if the text has a space or is empty; otherwise it returns the whole text |
| `ClusterProofs.RedirectionDiffersExactlyWhen` | Source/yarc_cluster_client.cpp:386-432 | A response is followed as a redirection against its promised code if and only if it is the bare error ASK or MOVED |
| `ClusterProofs.BareMovedIsFollowed` | Source/yarc_cluster_client.cpp:432-464 | A run in which a bare MOVED, an ordinary error by its promised code, sends the request again and dirties the configuration |
| `Redirections.TextNamesAddress` | Source/yarc_cluster_client.cpp:469-487 | "code slot ip:port" names that address; without the port or the host that part stays what it was |
| `Redirections.FirstWordDecides` | Source/yarc_cluster_client.cpp:386-432 | A simple error is a MOVED or an ASK redirection if and only if that is its first word before a space; no other kind of value is one |
| `Redirections.MovedIsFollowed` | Source/yarc_cluster_client.cpp:432-464 | When a pass comes to a request with the response "MOVED slot ip:port": the second redirection in a row, or an unknown node, makes it UNSENT, otherwise it goes to that address; the configuration is dirty and the pass ends |
| `Redirections.AskIsFollowed` | Source/yarc_cluster_client.cpp:386-430 | When it comes to "ASK slot ip:port": the same, but ASKING is owed first, the configuration stays and the pass goes on |
| `Redirections.AskedGoesOn` | Source/yarc_cluster_client.cpp:412-427 | Whatever the response to ASKING, the request is then sent to the address if there is still a node, otherwise it is UNSENT |
| `ClusterRuns.MovedGoesThere` | Source/yarc_cluster_client.cpp:432-464 | A run in which "MOVED 0 127.0.0.1:6380" from the first of two masters sends the request to the second |
| `ClusterRuns.AskGoesThere` | Source/yarc_cluster_client.cpp:386-430 | A run in which "ASK 0 127.0.0.1:6380" sends ASKING to the second, and then the request |
| `ClusterRuns.IncompleteAsksAgain` | Source/yarc_cluster_client.cpp:94-106 | From INCOMPLETE with any countdown, one update more than the countdown leads to DIRTY, and the next sends the query |
| `ClusterRuns.IncompleteCountsFrom32` | Source/yarc_cluster_client.cpp:63-74 | Every step into INCOMPLETE starts the countdown at 32 |
| `ClusterProofs.StableIsReachable` | Source/yarc_cluster_client.cpp:60-66 | A run that reaches the STABLE state |
| `ClusterProofs.LookupIsReachable` | Source/yarc_cluster_client.cpp:322-326 | A run that brings a pass to an UNSENT request |
| `ClusterProofs.StableIsRoutable` | Source/yarc_cluster_client.cpp:44-109 | In every reachable STABLE state the lookup of every slot succeeds |
| `ClusterProofs.OneQueryAtATime` | Source/yarc_cluster_client.cpp:50-80 | In every reachable state at most one CLUSTER SLOTS query is out, and only in QUERY_PENDING |
| `ClusterProofs.LookupNeverFails` | Source/yarc_cluster_client.cpp:322-343 | In every reachable state, when a pass visits an UNSENT request the lookup succeeds and the request waits for one callback |
| `ClusterProofs.CallbacksFindTheirRequests` | Source/yarc_cluster_client.cpp:333-467 | In every reachable state a callback in flight finds its request in the list and PENDING, no request is owed two, and none has followed two direct redirections since its last lookup |
| `ClusterProofs.CallbackRunsOnce` | Source/yarc_cluster_client.cpp:349-361 | In every reachable state each request is in the list or has had its callback, never both and never twice, and no callback saw an ASK or MOVED error |
| `ClusterProofs.LeavesWhenDelivered` | Source/yarc_cluster_client.cpp:349-361 | A request leaves the list only when READY with a response that is no redirection and nothing in flight for it, and its callback runs with that response |
| `ClusterClient.ClusterClient.constructor` | Source/yarc_cluster_client.cpp:9-16 | A new client is in the initial state |
| `ClusterClient.ClusterClient.FindClusterNodeForSlot` | Source/yarc_cluster_client.cpp:589-601 | The first node that handles the slot, or none |
| `ClusterClient.ClusterClient.FindClusterNodeForAddress` | Source/yarc_cluster_client.cpp:603-614 | The first node with the address, or none |
| `ClusterClient.ClusterClient.SignalClusterConfigDirty` | Source/yarc_cluster_client.cpp:38-42 | STABLE becomes DIRTY, other states stay |
| `ClusterClient.ClusterClient.MakeRequestAsync` | Source/yarc_cluster_client.cpp:166-173 | One request joins the end of the list |
| `ClusterClient.ClusterClient.MakeTransactionRequestAsync` | Source/yarc_cluster_client.cpp:181-213 | A transaction is taken if and only if it is not empty and all its commands belong to one slot; it joins the end of the list |
| `ClusterClient.ClusterClient.Send` | Source/yarc_cluster_client.cpp:322-343 | An UNSENT request is sent to the node for its slot, or the configuration is marked dirty and the pass bails out |
| `ClusterClient.ClusterClient.HandleError` | Source/yarc_cluster_client.cpp:374-467 | ASK and MOVED errors redirect: the second in a row goes back to the slot table, an unknown address too; other errors are not handled |
| `ClusterClient.ClusterClient.ParseRedirectAddressAndPort` | Source/yarc_cluster_client.cpp:469-487 | The third and fourth token of the error become the address |
| `ClusterClient.ClusterClient.Reduce` | Source/yarc_cluster_client.cpp:316-372 | One visit of a pass does what the state machine's step does; what a user callback asks for joins the list |
| `ClusterClient.ClusterClient.DeleteRequest` | Source/yarc_reducer.cpp:34-38 | The request goes from the list, no callback in flight has captured it, and its user callback has run |
| `ClusterClient.ClusterClient.ReduceRequestList` | Source/yarc_cluster_client.cpp:94-98 | A pass ends although callbacks make new requests; unless a MOVED error ended it, it leaves no request READY |
| `ClusterClient.ClusterClient.ProcessClusterConfig` | Source/yarc_cluster_client.cpp:215-286 | The node list becomes the table `ProcessReply` says |
| `ClusterClient.ClusterClient.QueryAnswered` | Source/yarc_cluster_client.cpp:62-76 | The reply rebuilds the table; the coverage check decides between STABLE and INCOMPLETE; it crashes if and only if the reply and the old table are as `NamesNoRange` says |
| `ClusterClient.ClusterClient.RunCallback` | Source/yarc_cluster_client.cpp:333-464 | An owed callback runs as the state machine says, on a request that is still in the list |
| `ClusterClient.ClusterClient.UpdateConfig` | Source/yarc_cluster_client.cpp:48-106 | Outside the stable state one update seeds the list and sends the query, waits, or counts down |
| `ClusterClient.ClusterClient.RunUserCallback` | Source/yarc_cluster_client.cpp:356-358 | The requests a user callback makes are taken as if made from outside |
| `ClusterClient.ClusterClient.UpdateNodes` | Source/yarc_cluster_client.cpp:46-46 | The nodes' clients run or drop the callbacks that arrive, one state machine step each |
| `ClusterClient.ClusterClient.Update` | Source/yarc_cluster_client.cpp:44-109 | What arrives is handled first; then the state decides between a pass over the requests and a step of the configuration; when it ends in the stable state the lookup of every slot succeeds and no request is READY |
| `ClusterClient.NodeHandlesSlot` | Source/yarc_cluster_client.cpp:569-579 | Whether some range of the node contains the slot |
| `PipelineOrder.StepRefines` | Source/yarc_simple_client.cpp:111-294 | Each step of the interleaved threads is one entry, or none, in a ledger with a single queue |
| `PipelineOrder.PipelineIsFifo` | Source/yarc_simple_client.cpp:178-293 | In every interleaving: delivered, in callback, served, in the reception thread's hand, sent, in the caller's hand, unsent and being issued, read in this order, are the requests as issued without those cancelled or purged |
| `PipelineOrder.KthTakenIsKthMoved` | Source/yarc_simple_client.cpp:270-289 | On every connection the k-th request to meet a response is the k-th put on the sent list, and callbacks see responses in that order over all connections |
| `PipelineOrder.PopFindsRequest` | Source/yarc_simple_client.cpp:192-203 | The semaphore equals the served list's length less the request just put there and the one about to be taken; so the removal after a decrement always finds a request |
| `PipelineOrder.FlushedExactlyWhen` | Source/yarc_simple_client.cpp:230-240 | The in-flight counter is zero if and only if every list and hand is empty and nothing was ever purged; then every request was delivered or cancelled, in order |
| `PipelineOrder.PurgedIsNotServed` | Source/yarc_simple_client.cpp:139-155 | No request purged or cancelled is served, delivered, sent or queued |
| `PipelineOrder.InFlightIsConserved` | Source/yarc_simple_client.cpp:230-240 | In every interleaving the counter is the number of requests issued less those delivered or cancelled, and that is the number in all lists and hands and of those purged |
| `PipelineOrder.PurgedStaysCounted` | Source/yarc_simple_client.cpp:139-155 | What has been purged stays purged and counted, so after a purge the counter is never zero again |
| `PipelineRuns.PurgeStaysCounted` | Source/yarc_simple_client.cpp:139-155 | A run that loses its connection with one request sent: every list and hand is empty, and the counter is 1 |
| `PipelineOrder.RequestIsSomewhere` | Source/yarc_simple_client.cpp:178-293 | In every interleaving each request issued is delivered, in some list or hand, cancelled or purged |
| `PipelineMessages.PublishedAreMessages` | Source/yarc_simple_client.cpp:256-267 | A value is taken for a message if and only if it is push data, null or not, or an array whose first element is a blob string of the seven bytes "message", whatever follows |
| `PipelineMessages.DispatchSorts` | Source/yarc_simple_client.cpp:251-291 | Such a value joins the message list and leaves the sent list alone; any other leaves the message list alone and takes the head of the sent list, or is dropped if there is none |
| `PipelineMessages.LaterWordIsNone` | Source/yarc_simple_client.cpp:260-266 | An array with another first element is no message, wherever else the word stands |
| `PipelineMessages.MessagesAreToldApart` | Source/yarc_simple_client.cpp:251-291 | In every interleaving no request, on any connection, has met such a value, no callback is given one, and nothing else is handed out as a message |
| `PipelineServer.OwnAnswerExactlyWhen` | Source/yarc_simple_client.cpp:242-294 | On a connection where each response parsed is what one of the server's answers consists of, nothing is dropped, and the k-th request gets the server's answer to it if and only if the first byte of none of the first k + 1 answers was taken for part of a message or lost to a parse that failed |
| `PipelineServer.OwnAnswerInGeneral` | Source/yarc_simple_client.cpp:242-294 | Whatever bytes the server sends, while nothing has been dropped the k-th request gets the server's answer to it if and only if that answer was read as one response, with k responses read before it |
| `PipelineServer.BytesAreAccounted` | Source/yarc_simple_client.cpp:242-249 | On every connection values and failed parses use up the bytes one after the other: each byte read went into one value or was lost to a parse that failed |
| `PipelineAnswers.WholeValuesArrive` | Source/yarc_simple_client.cpp:242-249 | If the server sends whole values, however the parses and other steps interleave, what has been parsed are these values, from the first on |
| `PipelineAnswers.EncodedAnswersArrive` | Source/yarc_simple_client.cpp:242-294 | If the server prints trees that come back from their print, and unasked only messages: every response is one of its trees, none is dropped, and the k-th request gets the tree printed as the k-th answer if and only if none of the first k + 1 answers is a tree that looks like a message |
| `PipelineRuns.MessageMisleads` | Source/yarc_simple_client.cpp:256-278 | A run in which the first answer is an encoded tree that looks like a message, and the first request gets the answer to the second |
| `PipelineRuns.RejectedAnswerMisleads` | Source/yarc_simple_client.cpp:157-175 | A run in which the parser rejects each byte of the first answer, "(1" and a line end, each time ending the thread, which is reaped and spawned again, and the first request gets the answer to the second |
| `PipelineRuns.StrayIsRejected` | Source/yarc_protocol_data.cpp:174-198 | A byte that announces no value, such as an opening parenthesis, is rejected, whatever follows |
| `PipelineServer.KthResponseMeetsKthRequest` | Source/yarc_simple_client.cpp:242-294 | While nothing has been dropped, the k-th datum that is no message meets the k-th request sent on the connection |
| `PipelineServer.MessagesAreKept` | Source/yarc_simple_client.cpp:212-225 | Messages are handed out in arrival order over all connections, none lost |
| `PipelineCalls.TransactionContiguous` | Source/yarc_simple_client.cpp:369-401 | On every connection the requests of a call without cancellations stand together in order, MULTI to EXEC; completely, unless the client is still draining onto it |
| `PipelineCalls.TransactionNotSplit` | Source/yarc_simple_client.cpp:177-189 | No call without cancellations goes out on two connections |
| `SimpleClient.SimpleClient.constructor` | Source/yarc_simple_client.cpp:10-25 | A new client is in the initial state |
| `SimpleClient.SimpleClient.MakeRequestAsync` | Source/yarc_simple_client.cpp:318-328 | The request joins the unsent list with the next id, whatever the other threads do meanwhile |
| `SimpleClient.SimpleClient.MakeTransactionRequestAsync` | Source/yarc_simple_client.cpp:369-401 | MULTI, the commands and EXEC join the unsent list one after another |
| `SimpleClient.SimpleClient.CancelAsyncRequest` | Source/yarc_simple_client.cpp:330-367 | True if and only if the request was unsent at the call, or is on the sent or the served list at the end; then it is gone or its callback replaced. Otherwise nothing changed, and the request is in the reception thread's hand, in its callback, delivered, cancelled or purged |
| `SimpleClient.SimpleClient.OpenConnection` | Source/yarc_simple_client.cpp:125-136 | A new connection; the post-connect callback may make requests while it stands |
| `SimpleClient.SimpleClient.Prepare` | Source/yarc_simple_client.cpp:113-175 | Connects, or gives up a lost connection, or reaps an ended thread; ready only with a connection and a running thread |
| `SimpleClient.SimpleClient.LoseConnection` | Source/yarc_simple_client.cpp:139-155 | The reception thread has ended before the sent list is purged; purged requests stay counted |
| `SimpleClient.SimpleClient.MoveOne` | Source/yarc_simple_client.cpp:180-188 | The head of the unsent list goes on the sent list before it is written |
| `SimpleClient.SimpleClient.DrainUnsent` | Source/yarc_simple_client.cpp:177-189 | Every unsent request goes, in order, to this connection's sent list |
| `SimpleClient.SimpleClient.PopServed` | Source/yarc_simple_client.cpp:197-203 | The head of the served list, which is there |
| `SimpleClient.SimpleClient.NextServed` | Source/yarc_simple_client.cpp:192-203 | The head of the served list once the semaphore allows it |
| `SimpleClient.SimpleClient.ServeOne` | Source/yarc_simple_client.cpp:192-210 | One response is delivered, its callback run unless cancelled, and its request no longer counted |
| `SimpleClient.SimpleClient.ServeRequests` | Source/yarc_simple_client.cpp:192-210 | The loop ends and loses nothing |
| `SimpleClient.SimpleClient.TellOne` | Source/yarc_simple_client.cpp:213-224 | One message is handed out and its callback run |
| `SimpleClient.SimpleClient.TellMessages` | Source/yarc_simple_client.cpp:212-225 | The loop ends when it finds no message, and loses nothing |
| `SimpleClient.SimpleClient.Update` | Source/yarc_simple_client.cpp:111-228 | A successful update has put everything unsent on the current connection's sent list; a failed one has left it all unsent, and added to it only if it opened a connection |
| `SimpleClient.SimpleClient.Flush` | Source/yarc_simple_client.cpp:296-315 | True only when every request issued was delivered or cancelled, in order, and none purged |
| `SimpleClient.SimpleClient.DispatchOne` | Source/yarc_simple_client.cpp:251-291 | A message joins the message list; a response takes the head of the sent list |
| `SimpleClient.SimpleClient.ParseOne` | Source/yarc_simple_client.cpp:246-249 | The next value is parsed from where reading stopped, and reading goes on behind it |
| `SimpleClient.SimpleClient.FailToParse` | Source/yarc_simple_client.cpp:248-249 | A failed parse uses up some of what was sent and ends the thread; the connection and the sent list stay |
| `SimpleClient.SimpleClient.Receive` | Source/yarc_simple_client.cpp:247-292 | One datum parsed and dealt with, the others' steps in between; it uses up bytes |
| `SimpleClient.SimpleClient.ThreadFunc` | Source/yarc_simple_client.cpp:242-294 | The thread's loop is a run of its steps and ends with the thread exited; on a connection that stands it ends only with a failed parse |
| `SimpleClient.TransactionFrame` | Source/yarc_simple_client.cpp:375-392 | The bytes that go out before and after a transaction's commands: the arrays of the one word MULTI and of the one word EXEC |
| `LinkedList.LinkedList.constructor` | Source/yarc_linked_list.h:12-17 | An empty list |
| `LinkedList.LinkedList.InsertAfter` | Source/yarc_linked_list.h:87-103 | The new node stands behind the given one; links, ends and count fit. Without a given node the list becomes the new node alone, and is a list if and only if it was empty |
| `LinkedList.LinkedList.InsertBefore` | Source/yarc_linked_list.h:105-121 | The same in front of the given node |
| `LinkedList.LinkedList.AddTail` | Source/yarc_linked_list.h:77-80 | The value joins the end |
| `LinkedList.LinkedList.AddHead` | Source/yarc_linked_list.h:82-85 | The value joins the front |
| `LinkedList.LinkedList.Remove` | Source/yarc_linked_list.h:123-134 | The node is gone, its neighbours coupled, its delete flag raised |
| `LinkedList.LinkedList.RemoveAll` | Source/yarc_linked_list.h:136-140 | The list is empty and every delete flag raised |
| `LinkedList.LinkedList.Find` | Source/yarc_linked_list.h:142-160 | The first value that passes, and its removal if asked for |
| `LinkedList.LostListIsNoList` | Source/yarc_linked_list.h:91-92 | Once nodes are lost that way, no nodes make up the list that ends and count describe |
| `LinkedList.Node.Destroy` | Source/yarc_linked_list.h:38-42 | The flag the node points to is raised |
| `Reducer.AppendingTurn` | Source/yarc_reducer.cpp:13-42 | If the visited object at most appends, the pass goes on by position, which is how the cluster client's pass walks its requests |
| `Reducer.ReduceList` | Source/yarc_reducer.cpp:13-42 | With objects that append, remove any node and pass over the list again while being visited: the list stays valid and becomes what the pass without flags (`Passed`) says, which stops when the visited object is gone |
| `Reducer.Visit` | Source/yarc_reducer.cpp:18-27 | The pass's flag is raised if and only if the visited node has gone, through any nested passes, and an outer flag learns it |
| `Reducer.QuietPass` | Source/yarc_reducer.cpp:13-42 | If the objects leave the list alone, a pass keeps the order and removes exactly the objects that return DELETE before the first BAIL |
| `Reducer.PassReachesAll` | Source/yarc_reducer.cpp:15-41 | A pass that neither bails out nor loses its node has visited everything on the list in the end, appended objects too |
| `Reducer.PassedDerives` | Source/yarc_reducer.cpp:13-42 | After any pass what was on the list before stands in its old order, in front of what is new |
| `DynamicArray.DynamicArray.SetCount` | Source/yarc_dynamic_array.h:48-63 | What was stored stays; the array grows only when it must, to less than twice the new count |
| `DynamicArray.GrowthEndsExactlyWhen` | Source/yarc_dynamic_array.h:52-54 | The 32-bit doubling loop ends if and only if the new count is at most 2^31 |
| `DynamicArray.GrowthIsEndless` | Source/yarc_dynamic_array.h:52-54 | A count that fails: from size one no number of doublings reaches 2^31 + 1 |
| `DynamicArray.DynamicArray.Assign` | Source/yarc_dynamic_array.h:39-44 | The elements of the other array, or of itself; another array is unchanged |
| `ClusterSetup.Cluster.AddSlots` | Source/yarc_cluster.cpp:253-275 | The node is sent the slots from `minSlot` to `maxSlot`, in order, in commands of 1 to 100 |
| `ClusterSetup.Cluster.DistributeSlots` | Source/yarc_cluster.cpp:143-161 | Each master gets its share and the first also the remainder |
| `ClusterSetup.Cluster.AssignReplicas` | Source/yarc_cluster.cpp:169-182 | Each other node is told to replicate the master before it |
| `ClusterSetup.Cluster.Setup` | Source/yarc_cluster.cpp:143-184 | Both, from nodes that have nothing |
| `ClusterSetup.SlotsArePartitioned` | Source/yarc_cluster.cpp:202-220 | For 1 to 16384 masters every slot is assigned, nothing else is, and none twice, to two nodes or to one |
| `ClusterSetup.WhoHasSlot` | Source/yarc_cluster.cpp:202-220 | With b the quotient of 16384 and the number of masters, the slots from k b up to (k + 1) b belong to master number k alone, and what is left over to the first |
| `ClusterSetup.MastersHaveTheirSlaves` | Source/yarc_cluster.cpp:228-241 | Each master has exactly its number of slaves, masters replicate nobody, slaves replicate masters |
| `ClusterSetup.MasterHasItsSlaves` | Source/yarc_cluster.cpp:228-241 | The slaves of a master are the nodes right behind it |
| `ClusterSetup.SlaveHasNoSlaves` | Source/yarc_cluster.cpp:230-232 | Nobody replicates a slave |
| `ClusterSetup.SlavesReplicateMasters` | Source/yarc_cluster.cpp:230-240 | Masters replicate nobody, a slave replicates a master in front of it |
| `ClusterSetup.SetupRangesAreCovered` | Source/yarc_cluster.cpp:202-220 | The ranges handed out make the client's coverage check say yes |
| `ClusterSetup.SetupIsCovered` | Source/yarc_cluster.cpp:202-220 | So do any disjoint ranges that report the assigned slots, however the server cuts them |
| `ClusterSetup.CommandsFit` | Source/yarc_cluster.cpp:255-270 | Every ADDSLOTS command fits the 1024 bytes of the command formatter |

## Left out

- Doubles, streamed blob strings and bare chunks: the parser functions answer `NotModelled` where the
  input uses them. Conversion of floating-point text is not modelled, a streamed blob copies each chunk to
  the start of the buffer (Source/yarc_protocol_data.cpp:555-557), and an empty chunk prints a CRLF that
  is not read (Source/yarc_protocol_data.cpp:690-691).
- The platform is 64-bit Linux: `long` and `size_t` have 64 bits, `strtol` sets `errno` on overflow only.
- PipelineOrder.PopFindsRequest: is about what the semaphore means on Windows; on Linux its operations have
  no body (Source/yarc_semaphore.h:21-23, 33-45).
- `StringStream`, which answers zero at its end and makes the read loop spin, and a socket that reads
  zero bytes on Windows: `SocketStream` ends with a failure instead.
- ProtocolData.ParseTree: answers `NotModelled` where doubles, streamed blobs or chunks occur inside.
- ProtocolData.ParseDataType: the same.
- A connection on which the server sends such values: to the pipeline their parse is one that fails, so no
  value of theirs is delivered. A parse that never returns may there also end the thread.
- PipelineServer.OwnAnswerExactlyWhen: is about connections where each response is what one answer consists
  of. Where an answer holds two values, or the server sends more unasked than messages,
  `PipelineServer.OwnAnswerInGeneral` has the condition as long as no response was dropped.
- ProtocolData.BlobStringData.Parse: the streamed form answers `NotModelled`.
- ByteStreams.SocketStream.WriteFormat: text that does not fit the 1024-byte buffer overruns it in the
  code (Source/yarc_byte_stream.cpp:57-61) and has no defined outcome, so it is required to fit;
  `Shapes.Printable` says which trees print only such text.
- Sockets, address resolution, clocks, thread and process primitives: they are parameters of the methods
  or steps of the world. Pauses after a failed connection are a parameter of `SimpleClient.Update`.
- SimpleClient.SimpleClient.MakeRequestAsync: one thread calls the interface of a client, although the
  source calls this safe from any; the counter and the request ids are not protected against more.
- `Update` is not called from inside callbacks. Ids do not wrap.
- SimpleClient.SimpleClient.CancelAsyncRequest: the methods do not call it from inside a user's callback,
  though the step system allows it.
- The check of the list count before the lock in Source/yarc_thread_safe_list.h:57-70: finding it zero
  is the same as looking under the lock at that moment, so a removal is one step.
- What happens to requests after a connection is lost or a node removed: they are dropped, and only
  safety is proved.
- ASKING adjacency: other commands may be queued between ASKING and the redirected command.
- ClusterClient.ClusterClient.UpdateNodes: callbacks run in any order the caller names, not in the order
  the nodes' pipelines would give, so the states proved about include more than can occur.
- RoutingTable.TableFollowsReply: a host text of 32 bytes or more overruns the buffer of an address in the
  code (Source/yarc_socket_stream.cpp:33-36, Source/yarc_socket_stream.h:46); addresses here hold texts of
  any length.
- ClusterClient.ClusterClient.ParseRedirectAddressAndPort: the same, and an error text that does not fit the
  512-byte buffer (Source/yarc_cluster_client.cpp:471-472).
- All questions of who frees what.
- Removed list nodes stay allocated; the restore of a flag in a freed node
  (Source/yarc_reducer.cpp:25) is modelled as a write to a detached one.
- Steps 1 to 5 of the cluster setup, migration of slots, PubSub, the connection pool, recycling a
  connection, `MakeTransactionRequestSync`, cluster-wide `Flush`, the test client and the tester.
