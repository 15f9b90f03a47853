# A model of the telemetry server, its client and their wire format

Clients send samples (a uuid, a timestamp, two doubles) to a server that stores them in SQLite and, on
request, reports for each client the average of x and the sum of |y| over the last minute and the last
five minutes. Both sides speak Protocol Buffers messages over a websocket. This project models the two
parts where something can go wrong and proves what they keep.

**The codec** (`protobuf/tz.pb.cc`, `protobuf/tz.pb.h`).

- `Wire` is the wire format: varints, fixed-width words, length-delimited fields and groups, with the
  parser's own limits (a tag and a length of at most five bytes, a varint of at most ten, nesting to
  depth 100). The library routines that the generated code calls are written out from the Protocol
  Buffers "Encoding" specification, sections "Base 128 Varints", "Message Structure", "Signed Integers",
  "Submessages", "Last One Wins" and "Field Order". `Scalars` has the scalar kinds, with doubles as their
  64-bit patterns (section 3.4 of IEEE 754-2008); `Utf8` relates the string check to section 3 of RFC 3629.
  `Encoding` and `Layout` say in plain numbers and bytes what the definitions of these modules amount to, and
  `Prefix` says where a parse fails.
- `ClientPacketData`, `ClientPacket`, `ServerStatisticEntry` and `ServerStatistic` are the four messages
  as values, with the laws that tie parsing, serializing, sizing and merging together.
- `DataObject`, `PacketObject`, `StatisticObject` and `ReportObject` are the generated classes as they
  work: fields written in place, a has-bit beside a submessage kept for reuse, sizes cached between two
  passes, and the fast loop for the repeated field. Each method is proved against the value it stands for,
  the parsers also where they fail, since the server goes on with what a failed parse leaves. `Exchange` is
  where the two programs fill these objects in, write them, read them and act on them.

**The store and the statistics** (`Server/Server.cpp`, `Server/SQLite.cpp`, `Client/Client.cpp`).

- `Tables` is what the schema enforces. `Connections` is the server as a state machine: one thread for
  each connection, every SQL statement and every row fetch one atomic step, any interleaving, and storage
  faults at any statement. Runs start from any consistent store, since the file outlives the process.
- `Lifetime` says why a connection ends and that it serves every message until then. `Refinement` maps the
  tables to a map from uuid keys to bags of samples, on which every save is one atomic append. `Loss` and
  `LossHistory` say exactly when a packet is lost. `Collection` bounds what a collection sees while others
  keep saving, `Snapshot` says when that is a snapshot, and `TornCollections` has two runs in which it is none.
- `Statistics` is the group-by; `Server` is one thread's imperative code on the tables, proved against it;
  `Sender` is the client's loop, its exit flag set at any moment, and what its timer implies for the
  report; `EndToEnd`, `Dialogue` and `Readability` join the two ends; `Query` and `Statements` are the SQL
  text and how it is bound and fetched.

The main results: parse after serialize is the identity up to the sign of zero, for all four messages,
and exactly if and only if no negative zero is present; concatenated serializations parse to the merge;
whatever bytes are accepted have one canonical form; cached length prefixes are right; the fast loop is
plain dispatching; the has-bit invariant survives every method; all interleavings of saves refine atomic
appends; a connection has lost a packet if and only if a save of it was raced, bound a NaN or met a storage
fault (`LossHistory.LostIff`); a connection is closed for one of four reasons and for no other, and until then
serves any messages in their order (`Lifetime.ClosedIff`, `Lifetime.ServesNext`, `Lifetime.Conversation`);
every packet and report of ordinary size is read back, whatever it holds (`Layout.PacketReturns`,
`Layout.ReportReturns`); concurrent collections are sandwiched between two stores; the rows a
collection fetched are those of one store if and only if it missed no row of any client older than one it
has, and then its lines are that store's lines; stopping is prompt on both sides at any moment; what one
client can make the server report is bounded by its timer, and the bound is sharp; a report can be read if
and only if every key in it is UTF-8.

## Where the code falls short of what its names promise

- `CopyFrom`, the round trip through the wire, and a move across arenas turn -0.0 into +0.0, since a
  double that compares equal to zero counts as unset (`protobuf/tz.pb.cc:342`, `protobuf/tz.pb.cc:419-424`).
  The copy constructors of the packet, its payload and the statistics row do not. The lemmas state
  the exact condition, `HasNegativeZero`.
  `ClientPacket.NegativeZeroIsLost` shows a packet.
- A packet can be lost without any storage fault: two connections that register the same new client
  between them lose the second one's packet and connection (`Server/Server.cpp:70-78`).
  `LossHistory.FaultlessLostIff` gives the exact condition and `Loss.RaceLosesPacket` a run.
- A uuid is stored up to its first NUL byte (`Server/SQLite.cpp:123`), so clients are told apart by that
  prefix (`Tables.NulHidesTheRest`). All statements about the store are about this key; without NUL bytes
  it is the uuid (`Tables.NulFreeKeys`).
- A collection need not be a snapshot: `TornCollections.NoStoreExplains` is a run whose report has a later
  packet and misses an earlier one, `TornCollections.NewClientIsMissed` one that misses the earlier packet
  with its whole client, and `Snapshot.SnapshotIff` the exact condition.
- The window of a collection has no upper end, and its time is taken before the packets are fetched
  (`Server/Server.cpp:116-132`), so packets stamped later are counted and a minute can hold more than
  thirteen (`Sender.CapacityIsReached`, `Sender.FourteenInAMinute`).
- The outcome of `ParseFromString` is ignored on both sides (`Server/Server.cpp:17`,
  `Client/Client.cpp:111-112`). So a uuid that is no UTF-8 is stored (`Readability.BadUuidIsSaved`), and of a
  report with such keys a client shows the rows before the first of them, that one with zeros in place of
  its figures, and none of the rows after it (`Readability.OneBadKeySpoils`).

## Modelling choices

- The clock, the random draws, the order and moment of every step, the ids SQLite picks, and whether the
  input stream has a byte at hand to look ahead at are parameters or nondeterministic choices.
- A `SELECT` that fails while fetching ends its row loop without an error; the steps carry this as
  `silent` and `cut`. A fault at any other statement throws and closes the connection.
- What the library leaves in a member whose field it could not read is open; that nothing else changes is
  proved.
- Clock ticks are 100 nanoseconds, the unit of the system clock the project is built for.
- The codec works on bit patterns and the store on reals, where a NaN is a missing value.

## Model

| member | source | states |
|---|---|---|
| `Wire.VarintRoundTrip` | protobuf/tz.pb.cc:275 | A base-128 varint is read back as its value and leaves what follows it untouched |
| `Wire.VarintExtends` | protobuf/tz.pb.cc:275 | Reading a varint depends only on the bytes it takes |
| `Wire.VarintShortest` | protobuf/tz.pb.cc:275 | No accepted spelling of a varint is shorter than the canonical one |
| `Wire.WordFits` | protobuf/tz.pb.cc:275 | A 64-bit word takes at most ten bytes and a 32-bit word at most five, the limits the reader enforces |
| `Wire.LittleEndianRoundTrip` | protobuf/tz.pb.cc:283-284 | Eight little-endian bytes give the double's bit pattern back |
| `Wire.PayloadRoundTrip` | protobuf/tz.pb.cc:296-309 | Any storable field, groups included, is read back from its own encoding, whatever follows it |
| `Wire.GroupRoundTrip` | protobuf/tz.pb.cc:296-309 | A group is read back up to exactly its own end tag |
| `Wire.BodyRoundTrip` | protobuf/tz.pb.cc:353-356 | A body of storable fields is read back field for field, in order |
| `Wire.BodyConcat` | protobuf/tz.pb.cc:259-314 | After any accepted body the remaining bytes are read as if they stood alone |
| `Wire.PayloadSound` | protobuf/tz.pb.cc:296-309 | Whatever the reader produces can be written again, under the tag it was read under, in no more bytes |
| `Wire.GroupSound` | protobuf/tz.pb.cc:296-309 | The same for a group with its end tag |
| `Wire.BodySound` | protobuf/tz.pb.cc:259-314 | Every accepted body has a canonical form that is storable and no longer |
| `Wire.KnownTag` | protobuf/tz.pb.cc:262-295 | What is read under a tag that the switch has a case for |
| `Wire.IsTag` | protobuf/tz.pb.cc:262-264 | Comparing the field number and then only the low byte of a tag settles the whole tag |
| `Wire.PayloadTag` | protobuf/tz.pb.cc:296-309 | A field kept as unknown carries the tag it was read under, so a known number with a wrong wire type stays unknown |
| `Wire.NextTag` | protobuf/tz.pb.cc:261 | Reading at a pointer: succeeds exactly when the bytes ahead start with a tag, and moves the pointer past it |
| `Wire.NextUint64` | protobuf/tz.pb.cc:275 | The same for a varint |
| `Wire.NextDouble` | protobuf/tz.pb.cc:283-284 | The same for a double |
| `Wire.NextLen` | protobuf/tz.pb.cc:266 | The same for a length-delimited payload, which must lie within the buffer's limit; Encoding.LenIsRead says which lengths that are |
| `Wire.UnknownFieldParse` | protobuf/tz.pb.cc:296-309 | The default case: a zero tag or a stray end-group tag fails the parse, anything else readable is kept |
| `Encoding.Congruent` | protobuf/tz.pb.cc:553-560 | The word conversions keep a number modulo 2^64 and 2^32 |
| `Encoding.VarintDigits` | protobuf/tz.pb.cc:275 | A varint is the number in base 128, lowest digit first, high bits set on all bytes but the last, no zero digit at the high end |
| `Encoding.VarintIsRead` | protobuf/tz.pb.cc:275 | Any bytes of that form are read as the number they spell, if they are within the limit |
| `Encoding.EndlessIsRefused` | protobuf/tz.pb.cc:275 | Bytes none of which ends a varint are none |
| `Encoding.WordIsRead` | protobuf/tz.pb.cc:261-275 | A tag has at most five bytes and counts modulo 2^32, a number at most ten and counts modulo 2^64 |
| `Encoding.LenIsRead` | protobuf/tz.pb.cc:266 | A length of at most 0x7FFF_FFEF is followed when that many bytes are there; a longer one, or a prefix of more than five bytes, is refused |
| `Encoding.PayloadIsRead` | protobuf/tz.pb.cc:266 | Every payload of at most 0x7FFF_FFEF bytes is read back from behind its prefix, and no longer one is |
| `Encoding.LittleEndianDigit` | protobuf/tz.pb.cc:283-284 | Byte i of a fixed-width word is digit i of its number in base 256 |
| `Encoding.Samples` | protobuf/tz.pb.cc:353-356 | One field of each wire type byte for byte, and a group closed by another number refused |
| `Encoding.NestIff` | protobuf/tz.pb.cc:296-309 | Groups nested n deep are read back if and only if n is within the depth given |
| `Scalars.SkippedIffZero` | protobuf/tz.pb.cc:342 | The test that omits a double holds for both zeros and nothing else, so a NaN is always written |
| `Scalars.VarintSize` | protobuf/tz.pb.cc:376-379 | The size computed for a varint is the number of bytes written for it |
| `Scalars.FieldSize` | protobuf/tz.pb.cc:391 | The size computed for a retained field is the number of bytes written for it, nested groups included |
| `Scalars.UnknownSize` | protobuf/tz.pb.cc:391 | The same for all retained fields |
| `Scalars.LenSizeGrowth` | protobuf/tz.pb.cc:631-636 | A length prefix and its payload cost no more than those of two payloads that make it up |
| `Utf8.EncodedIsValid` | protobuf/tz.pb.cc:267 | Every UTF-8 encoding of scalar values passes the check on parsed strings |
| `Utf8.ValidIffEncoded` | protobuf/tz.pb.cc:267 | The check accepts exactly the UTF-8 encodings of sequences of Unicode scalar values |
| `Utf8.ScalarSamples` | protobuf/tz.pb.cc:267 | The encoding of one character of each length, and which numbers are scalar values |
| `ClientPacketData.SizeIsLength` | protobuf/tz.pb.cc:361-392 | The size pass equals the bytes written |
| `ClientPacketData.UnknownAreKept` | protobuf/tz.pb.cc:296-309 | Fields without a case are kept in order and change nothing else |
| `ClientPacketData.FieldsMerge` | protobuf/tz.pb.cc:407-426 | Applying the fields a message is written as has the effect of MergeFrom |
| `ClientPacketData.ParseIsMerge` | protobuf/tz.pb.cc:256-359 | Parsing a serialization on top of any message merges it |
| `ClientPacketData.MergeIntoDefault` | protobuf/tz.pb.cc:407-426 | Merging into a default message is the identity if and only if there is no negative zero |
| `ClientPacketData.RoundTrip` | protobuf/tz.pb.cc:256-359 | The round trip is the message with each negative zero made positive, and exact if and only if there was none |
| `ClientPacketData.NormalSerializesAlike` | protobuf/tz.pb.cc:319-359 | Losing the sign of a zero does not change the bytes |
| `ClientPacketData.ParseConcat` | protobuf/tz.pb.cc:256-317 | Parsing a concatenation is parsing the second part on top of the first |
| `ClientPacketData.ReachIsParse` | protobuf/tz.pb.cc:259-314 | The loop reaches the end of its input exactly when the whole parse succeeds, with the same message |
| `ClientPacketData.ReadableIff` | protobuf/tz.pb.cc:267 | Of all messages that setters can build, exactly those whose uuid is UTF-8 can be read back |
| `ClientPacketData.ReachBadString` | protobuf/tz.pb.cc:263-268 | A string that is no UTF-8 stops the parse with every field before it applied |
| `ClientPacketData.ApplyAllSound` | protobuf/tz.pb.cc:256-317 | Parsing keeps a message well formed and lets it grow by no more than the fields read |
| `ClientPacketData.ParseSound` | protobuf/tz.pb.cc:256-317 | The same for accepted bytes: the size grows by at most their number |
| `ClientPacketData.ParseStep` | protobuf/tz.pb.cc:259-314 | One turn of the loop against the whole parse |
| `ServerStatisticEntry.SizeIsLength` | protobuf/tz.pb.cc:895-931 | The size pass equals the bytes written |
| `ServerStatisticEntry.UnknownAreKept` | protobuf/tz.pb.cc:824-837 | Fields without a case are kept in order |
| `ServerStatisticEntry.FieldsMerge` | protobuf/tz.pb.cc:946-968 | Applying the fields a message is written as has the effect of MergeFrom |
| `ServerStatisticEntry.ParseIsMerge` | protobuf/tz.pb.cc:776-893 | Parsing a serialization on top of any message merges it |
| `ServerStatisticEntry.MergeIntoDefault` | protobuf/tz.pb.cc:946-968 | Merging into a default message is the identity if and only if there is no negative zero |
| `ServerStatisticEntry.RoundTrip` | protobuf/tz.pb.cc:776-893 | The round trip, exact if and only if there is no negative zero |
| `ServerStatisticEntry.NormalSerializesAlike` | protobuf/tz.pb.cc:847-893 | Losing the sign of a zero does not change the bytes |
| `ServerStatisticEntry.ParseConcat` | protobuf/tz.pb.cc:776-845 | Parsing a concatenation is parsing the second part on top of the first |
| `ServerStatisticEntry.ReachIsParse` | protobuf/tz.pb.cc:778-838 | The loop reaches the end of its input exactly when the whole parse succeeds, with the same message |
| `ServerStatisticEntry.ReadableIff` | protobuf/tz.pb.cc:787 | Of all messages that setters can build, exactly those whose uuid is UTF-8 can be read back |
| `ServerStatisticEntry.UnreadableLeaves` | protobuf/tz.pb.cc:783-791 | Of a row whose uuid is no UTF-8 a failed parse leaves the uuid and zeros |
| `ServerStatisticEntry.ParseSound` | protobuf/tz.pb.cc:776-845 | An accepted body leaves a well-formed message and adds no more than its length |
| `ClientPacket.SizeIsLength` | protobuf/tz.pb.cc:622-645 | The size pass, which visits the submessage before the enum, equals the bytes written in the other order |
| `ClientPacket.EnumRoundTrip` | protobuf/tz.pb.cc:553-560 | Any 32-bit enum value, negative or unknown, survives its ten-byte varint and the truncation back |
| `ClientPacket.FieldsMerge` | protobuf/tz.pb.cc:660-673 | Applying the fields a packet is written as has the effect of MergeFrom, with a second payload merged into the first |
| `ClientPacket.ParseIsMerge` | protobuf/tz.pb.cc:545-620 | Parsing a serialized packet on top of any packet merges it |
| `ClientPacket.RoundTrip` | protobuf/tz.pb.cc:545-620 | Every well-formed packet comes back whole, exactly if and only if its payload holds no negative zero |
| `ClientPacket.NormalSerializesAlike` | protobuf/tz.pb.cc:593-620 | Losing the sign of a zero does not change the bytes |
| `ClientPacket.ParseConcat` | protobuf/tz.pb.cc:545-591 | Parsing a concatenation is parsing the second part on top of the first |
| `ClientPacket.ReachIsParse` | protobuf/tz.pb.cc:548-589 | The loop reaches the end of its input exactly when the whole parse succeeds |
| `ClientPacket.ReadableIff` | protobuf/tz.pb.cc:562-568 | Of all packets that setters can build, exactly those whose uuid is UTF-8 can be read back |
| `ClientPacket.NegativeZeroIsLost` | protobuf/tz.pb.cc:342 | A packet with x = -0.0 comes back with x = +0.0 |
| `ClientPacket.ConcatenationIsMerge` | protobuf/tz.pb.cc:562-568 | The concatenation of two serialized packets parses to their merge, at both levels of nesting |
| `ClientPacket.DataApplySound` | protobuf/tz.pb.cc:562-568 | A payload merged into the submessage costs no more than its own field did |
| `ClientPacket.KindFits` | protobuf/tz.pb.cc:553-560 | An enum read from a varint is within six bytes of budget when it came out negative |
| `ClientPacket.ApplyAllSound` | protobuf/tz.pb.cc:545-591 | Parsing keeps a packet well formed and within the budget of the fields read |
| `ClientPacket.Canonical` | protobuf/tz.pb.cc:545-620 | For any accepted bytes: write and read again gives the same packet up to the sign of zero, a second write gives identical bytes, and the form grows by at most five bytes and only for a negative enum |
| `ClientPacket.ParseStep` | protobuf/tz.pb.cc:548-589 | One turn of the loop against the whole parse |
| `ServerStatistic.SizeIsLength` | protobuf/tz.pb.cc:1126-1142 | The size pass, which counts all element tags first, equals the bytes written |
| `ServerStatistic.ClientsAreAppended` | protobuf/tz.pb.cc:1069-1080 | Elements come back in order, each through its own round trip |
| `ServerStatistic.ParseIsMerge` | protobuf/tz.pb.cc:1062-1124 | Parsing a serialized report on top of any report appends its rows |
| `ServerStatistic.MergeIntoEmpty` | protobuf/tz.pb.cc:1157-1165 | Merging into an empty report is the identity if and only if no row holds a negative zero |
| `ServerStatistic.RoundTrip` | protobuf/tz.pb.cc:1062-1124 | Every well-formed report comes back row for row, exactly if and only if no row holds a negative zero |
| `ServerStatistic.ParseConcat` | protobuf/tz.pb.cc:1062-1102 | Parsing a concatenation is parsing the second part on top of the first |
| `ServerStatistic.ReachIsParse` | protobuf/tz.pb.cc:1064-1095 | The loop reaches the end of its input exactly when the whole parse succeeds |
| `ServerStatistic.ReadableIff` | protobuf/tz.pb.cc:1074-1075 | Of all reports that setters can build, exactly those whose every uuid is UTF-8 can be read back |
| `ServerStatistic.UnreadableLeaves` | protobuf/tz.pb.cc:1069-1080 | Of a report whose first uuid that is no UTF-8 is in row i, a failed parse leaves the rows before it, one row with that uuid and zeros, and nothing more |
| `ServerStatistic.ConcatenationIsMerge` | protobuf/tz.pb.cc:1157-1165 | The concatenation of two serialized reports parses to the first with the second's rows and unknown fields appended |
| `ServerStatistic.ApplyAllSound` | protobuf/tz.pb.cc:1062-1102 | Parsing keeps a report well formed and within the size of the fields read |
| `ServerStatistic.Canonical` | protobuf/tz.pb.cc:1062-1124 | For any accepted bytes: write and read again gives the same report up to the sign of zero, a second write gives identical bytes, never more than were read |
| `Layout.DataBytes` | protobuf/tz.pb.cc:319-359 | The bytes of a payload: tags 10, 16, 25 and 33 in this order, each left out for its default, then what was unknown |
| `Layout.StatisticBytes` | protobuf/tz.pb.cc:847-893 | The bytes of a row: tags 10, 17, 25, 33 and 41 |
| `Layout.PacketBytes` | protobuf/tz.pb.cc:593-620 | The bytes of a packet: tag 8 for the type and tag 18 for the payload, which is written even when empty |
| `Layout.ReportBytes` | protobuf/tz.pb.cc:1104-1124 | The bytes of a report: tag 10, length and body for each row in order |
| `Layout.LaterWins` | protobuf/tz.pb.cc:407-426 | Of two values of a member the later wins unless it is the default; unknown fields add up |
| `Layout.LaterStatisticWins` | protobuf/tz.pb.cc:946-968 | The same for a row |
| `Layout.LaterPacketWins` | protobuf/tz.pb.cc:562-568 | The later type wins, and a second payload is parsed on top of the first |
| `Layout.PacketReturns` | protobuf/tz.pb.cc:545-620 | Every packet of any type whose uuid has up to 2^31 - 81 bytes is read back if and only if the uuid is UTF-8, member for member up to negative zeros |
| `Layout.ReportReturns` | protobuf/tz.pb.cc:1062-1124 | Every report of any number of rows with such uuids is read back if and only if they are UTF-8, row for row up to negative zeros |
| `Layout.GroupsNest` | protobuf/tz.pb.cc:577-582 | Unknown groups are kept to a depth of exactly 100, in packets and reports |
| `Layout.SubmessageGroupsNest` | protobuf/tz.pb.cc:562-568 | Inside a payload or a row, which take a level of their own, to a depth of exactly 99 |
| `Layout.DataLeftAlone` | protobuf/tz.pb.cc:296-317 | A failed parse leaves alone every member but the one whose tag it stuck at, and any tag of zero or end-group leaves all |
| `Layout.StatisticLeftAlone` | protobuf/tz.pb.cc:824-845 | The same for a row |
| `Layout.PacketLeftAlone` | protobuf/tz.pb.cc:570-591 | The same for a packet |
| `Layout.ReportLeftAlone` | protobuf/tz.pb.cc:1084-1102 | A failed parse of a report keeps the rows read before and adds one at most |
| `Prefix.FieldTaken` | protobuf/tz.pb.cc:259-314 | A field is settled by the bytes it takes, whatever follows them |
| `Prefix.DataStuck` | protobuf/tz.pb.cc:259-317 | A payload that does not parse splits into a body that does, whose message is what the loop has reached, and a next field that cannot be read or is a string that is no UTF-8 |
| `Prefix.StatisticStuck` | protobuf/tz.pb.cc:778-845 | The same for a row |
| `Prefix.PacketStuck` | protobuf/tz.pb.cc:548-591 | The same for a packet, a payload that does not parse being such a field |
| `Prefix.ReportStuck` | protobuf/tz.pb.cc:1064-1102 | The same for a report, a row that does not parse being such a field |
| `DataObject.DataMessage.constructor` | protobuf/tz.pb.cc:213-220 | A new object stands for the default message |
| `DataObject.DataMessage.Copy` | protobuf/tz.pb.cc:199-211 | The copy constructor keeps every bit, negative zeros included |
| `DataObject.DataMessage.Clear` | protobuf/tz.pb.cc:243-254 | Resets the object to the default message |
| `DataObject.DataMessage.MergeFrom` | protobuf/tz.pb.cc:407-426 | The object becomes the merge of the two values |
| `DataObject.DataMessage.CopyFrom` | protobuf/tz.pb.cc:428-433 | The object becomes the other's value with each negative zero made positive; self-copy changes nothing |
| `DataObject.DataMessage.InternalSwap` | protobuf/tz.pb.cc:439-455 | The two objects exchange values |
| `DataObject.DataMessage.InternalParse` | protobuf/tz.pb.cc:256-317 | The loop succeeds exactly when the parse of the bytes up to the limit does and leaves its result; a failed parse leaves all that was read before and only the stuck field's member open |
| `DataObject.DataMessage.ParseField` | protobuf/tz.pb.cc:262-309 | The switch consumes one field and applies it, or fails with at most its own member changed, a string that is no UTF-8 being stored |
| `DataObject.DataMessage.ByteSizeLong` | protobuf/tz.pb.cc:361-392 | Returns and caches the exact serialized length |
| `DataObject.DataMessage.InternalSerialize` | protobuf/tz.pb.cc:319-359 | Appends exactly the serialization to the target |
| `StatisticObject.StatisticMessage.constructor` | protobuf/tz.pb.cc:733-739 | A new object stands for the default message |
| `StatisticObject.StatisticMessage.Copy` | protobuf/tz.pb.cc:719-731 | The copy constructor keeps every bit |
| `StatisticObject.StatisticMessage.Clear` | protobuf/tz.pb.cc:763-774 | Resets the object to the default message |
| `StatisticObject.StatisticMessage.MergeFrom` | protobuf/tz.pb.cc:946-968 | The object becomes the merge of the two values |
| `StatisticObject.StatisticMessage.CopyFrom` | protobuf/tz.pb.cc:970-975 | The object becomes the other's value with each negative zero made positive |
| `StatisticObject.StatisticMessage.InternalSwap` | protobuf/tz.pb.cc:981-997 | The two objects exchange values |
| `StatisticObject.StatisticMessage.InternalParse` | protobuf/tz.pb.cc:776-845 | The loop computes the parse of the bytes up to the limit; a failed parse leaves all that was read before and only the stuck field's member open |
| `StatisticObject.StatisticMessage.ParseField` | protobuf/tz.pb.cc:783-837 | The switch consumes one field and applies it, or fails with at most its own member changed |
| `StatisticObject.StatisticMessage.ByteSizeLong` | protobuf/tz.pb.cc:895-931 | Returns and caches the exact serialized length |
| `StatisticObject.StatisticMessage.InternalSerialize` | protobuf/tz.pb.cc:847-893 | Appends exactly the serialization to the target |
| `PacketObject.PacketMessage.constructor` | protobuf/tz.pb.cc:500-505 | A new packet satisfies the has-bit invariant and is empty |
| `PacketObject.PacketMessage.Copy` | protobuf/tz.pb.cc:487-498 | The copy has the same value bit for bit and satisfies the invariant |
| `PacketObject.PacketMessage.Clear` | protobuf/tz.pb.cc:529-543 | Keeps the submessage object but nothing of its contents; the value is empty |
| `PacketObject.PacketMessage.HasData` | protobuf/tz.pb.h:969-976 | The has-bit says whether the value has a payload |
| `PacketObject.PacketMessage.GetData` | protobuf/tz.pb.h:981-989 | Reading shows the payload or the defaults, never contents left over from before |
| `PacketObject.PacketMessage.ClearData` | protobuf/tz.pb.h:977-980 | Drops the payload from the value, keeping the object for reuse |
| `PacketObject.PacketMessage.ReleaseData` | protobuf/tz.pb.h:1003-1017 | Hands the submessage over, with the value it had |
| `PacketObject.PacketMessage.MutableData` | protobuf/tz.pb.h:1025-1037 | Gives the submessage to write to, created if need be; a missing payload starts from the defaults |
| `PacketObject.PacketMessage.SetAllocatedData` | protobuf/tz.pb.h:1038-1056 | Takes an object over, or drops the payload when given none |
| `PacketObject.PacketMessage.MergeFrom` | protobuf/tz.pb.cc:660-673 | The packet becomes the merge of the two values; the source is unchanged |
| `PacketObject.PacketMessage.CopyFrom` | protobuf/tz.pb.cc:675-680 | The packet becomes the other's value up to the sign of zero, whatever it held before |
| `PacketObject.PacketMessage.InternalSwap` | protobuf/tz.pb.cc:686-696 | The two packets exchange values and submessage objects |
| `PacketObject.PacketMessage.MoveAssign` | protobuf/tz.pb.h:304-317 | Within an arena a move exchanges the values exactly; across arenas it copies and loses the sign of a zero |
| `PacketObject.PacketMessage.InternalParse` | protobuf/tz.pb.cc:545-591 | The loop computes the parse of the bytes up to the limit and keeps the invariant; a failed parse leaves all that was read before and only the stuck field's member open |
| `PacketObject.PacketMessage.ParseField` | protobuf/tz.pb.cc:551-582 | The switch consumes one field and applies it, or fails with at most its own member changed |
| `PacketObject.PacketMessage.ParseMessage` | protobuf/tz.pb.cc:562-568 | A payload is parsed into the existing submessage, or into a new one; when that fails the submessage holds what its own failed parse left |
| `PacketObject.PacketMessage.ParseFromString` | Server/Server.cpp:16-17 | Parsing into a used packet gives what parsing into a new one gives, also what a failed parse leaves for the server to go on with |
| `PacketObject.PacketMessage.ByteSizeLong` | protobuf/tz.pb.cc:622-645 | Returns the exact length and leaves in the submessage the length its prefix will need |
| `PacketObject.PacketMessage.InternalSerialize` | protobuf/tz.pb.cc:593-620 | With the size pass done, the bytes written are the serialization, cached length prefix included |
| `PacketObject.PacketMessage.SerializeAsString` | Client/Client.cpp:72 | The two passes together write the serialization |
| `ReportObject.ReportMessage.constructor` | protobuf/tz.pb.cc:1010-1020 | A new report is empty |
| `ReportObject.ReportMessage.Copy` | protobuf/tz.pb.cc:1021-1026 | The copied rows are fresh objects merged from the other's, equal up to the sign of zero |
| `ReportObject.ReportMessage.Clear` | protobuf/tz.pb.cc:1052-1060 | The report becomes empty |
| `ReportObject.ReportMessage.AddClient` | protobuf/tz.pb.h:1218-1225 | Appends a fresh row of defaults and hands it out |
| `ReportObject.ReportMessage.MergeFrom` | protobuf/tz.pb.cc:1157-1165 | The other's rows are appended one by one as fresh objects behind the rows that were there, its unknown fields after this one's |
| `ReportObject.ReportMessage.CopyFrom` | protobuf/tz.pb.cc:1167-1172 | The report becomes the other's value up to the sign of zero |
| `ReportObject.ReportMessage.InternalSwap` | protobuf/tz.pb.cc:1178-1182 | The two reports exchange values |
| `ReportObject.ReportMessage.InternalParse` | protobuf/tz.pb.cc:1062-1102 | The parser with its fast path computes the parse that dispatches on every tag; a failed parse leaves the rows read before and at most one more |
| `ReportObject.ReportMessage.ParseClients` | protobuf/tz.pb.cc:1071-1077 | The do-while loop with its stepping back and forth ends where and with what plain dispatching ends, however often look-ahead is possible |
| `ReportObject.ReportMessage.ParseTurn` | protobuf/tz.pb.cc:1072-1077 | One turn of that loop keeps the outcome of the rest of the parse |
| `ReportObject.ReportMessage.ExpectTag` | protobuf/tz.pb.cc:1077 | With input at hand, true exactly when the next byte is the element tag, and the outcome is the same if it is stepped to |
| `ReportObject.ReportMessage.ParseElement` | protobuf/tz.pb.cc:1073-1075 | One element is parsed as one field of the message |
| `ReportObject.ReportMessage.ParseMessage` | protobuf/tz.pb.cc:1074 | An element is added and parsed from its own payload |
| `ReportObject.ReportMessage.ParseUnknown` | protobuf/tz.pb.cc:1084-1094 | Any other field is kept as unknown |
| `ReportObject.ReportMessage.ParseFromString` | Client/Client.cpp:111-112 | Parsing replaces whatever the report held, also when it fails |
| `ReportObject.ReportMessage.ByteSizeLong` | protobuf/tz.pb.cc:1126-1142 | Returns the exact length and leaves every element's own length in it |
| `ReportObject.ReportMessage.InternalSerialize` | protobuf/tz.pb.cc:1104-1124 | With the size pass done, the bytes written are the serialization |
| `ReportObject.ReportMessage.SerializeAsString` | Server/Server.cpp:31 | The two passes together write the serialization |
| `ReportObject.PeekTag` | protobuf/tz.pb.cc:1076-1077 | Recognising the next tag by one byte agrees with reading the tag |
| `ReportObject.ElementStep` | protobuf/tz.pb.cc:1074-1075 | Parsing an element payload into a fresh row is one turn of the plain loop |
| `Dialogue.SentIsSaved` | Client/Client.cpp:60-72 | What a client sends as a sample is what the server goes on to save, the sign of a zero apart |
| `Dialogue.RequestIsUnderstood` | Client/Client.cpp:95-97 | The statistics request is two bytes and starts a collection; an empty message does nothing |
| `Dialogue.SentIsDispatched` | Server/Server.cpp:19-37 | Of any packet sent, type 0 saves the payload if there is one, type 1 collects and every other number is ignored |
| `Exchange.WriteSample` | Client/Client.cpp:60-72 | Filling in a payload and a packet writes exactly the bytes of that uuid, time, x and y |
| `Exchange.WriteRequest` | Client/Client.cpp:95-97 | The request written is the two bytes 8 and 1 |
| `Exchange.ReadPacket` | Server/Server.cpp:16-37 | The server dispatches on whatever the parse left in the packet, by its type and has-bit, with that payload |
| `Exchange.AddLine` | Server/Server.cpp:184-189 | One more row with the five members given, in an object of its own |
| `Exchange.WriteReport` | Server/Server.cpp:31 | The report written is the rows' bytes in order |
| `Exchange.ReadReport` | Client/Client.cpp:111-126 | What is shown is, member by member and in order, every row the parse left |
| `Readability.BadUuidIsSaved` | Server/Server.cpp:17-27 | A packet whose uuid is no UTF-8 fails to parse and is saved all the same, with the values that came before the uuid |
| `Readability.ReadableIffKeysAre` | Server/Server.cpp:182-189 | A report can be read if and only if every key in it is UTF-8 |
| `Readability.OneBadKeySpoils` | Client/Client.cpp:111-127 | One stored key that is no UTF-8 and has a recent sample makes every client's parse fail, and what it goes on to show are the rows before the first such key and that key with zeros |
| `Readability.RowsLeft` | Client/Client.cpp:111-127 | The same for any report: exactly which rows a failed parse leaves to be shown |
| `Readability.KeyIsUtf8` | Server/SQLite.cpp:123 | The key of a UTF-8 uuid is UTF-8 |
| `Readability.RunKeepsUtf8` | Server/Server.cpp:56-98 | If every uuid saved is UTF-8, every stored key stays so over every run |
| `Readability.ReportsStayReadable` | Server/Server.cpp:182-189 | And then every report over stored clients is read back whole, up to the sign of zero |
| `Tables.KeyOfIdempotent` | Server/SQLite.cpp:123 | The stored key is the uuid up to its first NUL byte, and the whole uuid if and only if it has none |
| `Tables.FindIff` | Server/Server.cpp:200-205 | With ids and uuids unique, an id is found for a key if and only if the row with both is there |
| `Tables.NulFreeKeys` | Server/SQLite.cpp:123 | Uuids without NUL bytes have the same key only if they are the same |
| `Tables.NulHidesTheRest` | Server/SQLite.cpp:123 | Uuids that differ only after a NUL byte are one client |
| `Tables.FindAppend` | Server/Server.cpp:78 | Registering a client makes its key findable and changes no other |
| `Tables.FindGrows` | Server/Server.cpp:70 | A key once found keeps its id as rows are added |
| `Tables.NewClientHoldsNothing` | Server/Server.cpp:74-78 | A new client row keeps the tables consistent and adds no sample to any key |
| `Tables.NewPacketAdds` | Server/Server.cpp:83-90 | A packet row under a key's id adds its sample to that key and to no other |
| `Tables.ContentIff` | Server/Server.cpp:126-132 | A sample is held for a key if and only if a stored packet with it names the client row of that key |
| `Tables.NoPacketsHoldNothing` | Server/Server.cpp:126-132 | Without packets nothing is held for any key |
| `Connections.ActKeepsStore` | Server/Server.cpp:68-91 | Every step of a thread keeps the tables consistent and only appends to them |
| `Connections.GrowthKeepsPc` | Server/Server.cpp:70-90 | No step of one thread disturbs what another relies on between its statements |
| `Connections.StepKeepsInv` | Server/Server.cpp:70-90 | Every step of any thread keeps the invariant over tables, threads and accounts |
| `Connections.RunKeepsInv` | Server/Server.cpp:70-90 | Over every interleaving: ids and keys stay unique, packets name existing clients, rows stay, a held id is the thread's own client's, and a connection loses at most one payload |
| `Connections.AtMostOneMoreMessage` | Server/Server.cpp:11-38 | Counted over a run that starts stopped: at most one message read, and only by a thread that was reading |
| `Lifetime.StoppedIff` | Server/Server.cpp:11 | The flag a thread sees is set if and only if it was at the start or a stop came before |
| `Lifetime.ClosedIff` | Server/Server.cpp:11-51 | Over every run a connection is closed if and only if it polled after the stop flag was set, was disconnected, met a fault or lost a save |
| `Lifetime.EndIsLast` | Server/Server.cpp:39-51 | A closed connection does nothing any more |
| `Lifetime.OneMoreMessage` | Server/Server.cpp:11-14 | After the stop flag is set at any moment of a run, a connection reads at most one more message, and only if it was blocked in its read then |
| `Lifetime.FinishedPolls` | Server/Server.cpp:11-38 | A thread is back at its loop head if and only if it was just accepted, stored a packet, sent a report, or read a message with nothing to do |
| `Lifetime.ServesNext` | Server/Server.cpp:11-38 | In every run, while not stopped, a connection that finished any message can poll and read any next message, and is then at work on it |
| `Lifetime.AnythingCanHappen` | Server/Server.cpp:39-51 | Peers may send anything or leave, and statements may fail, at each step |
| `Lifetime.SavesAlone` | Server/Server.cpp:56-98 | A thread left alone ends its save: client registered if need be, and one packet row with its sample, or the payload lost to a NaN |
| `Lifetime.NextOfCollection` | Server/Server.cpp:104-190 | A collecting thread can always take a step that brings it nearer to its report |
| `Lifetime.CollectsAlone` | Server/Server.cpp:104-194 | So from any reachable stage, left alone, it comes to its report and goes back to its loop |
| `Lifetime.ServesAlone` | Server/Server.cpp:11-38 | Alone a connection reads and serves whatever message comes and is ready for the next |
| `Lifetime.Conversation` | Server/Server.cpp:11-38 | Any list of messages is read in order and served, each sample ending up under its own key and nothing else in the store |
| `Refinement.CommitContent` | Server/Server.cpp:90 | The last INSERT of a save appends its sample under its own key only |
| `Refinement.RegisterContent` | Server/Server.cpp:78 | Registering a client is invisible in the abstract store |
| `Refinement.StepRefines` | Server/Server.cpp:56-98 | Every step is one atomic append or a stutter |
| `Refinement.RunRefines` | Server/Server.cpp:56-98 | Every run of any number of threads leaves the store that the same appends, each under the NUL-free prefix of its uuid, leave one after another in the order of the last INSERTs |
| `Refinement.ContentAfter` | Server/Server.cpp:56-98 | Key by key the store holds what it held and what the run committed |
| `Refinement.StoredIsCommitted` | Server/Server.cpp:90 | Each connection's account counts exactly its own appends, and the table grows by one row for each append |
| `Loss.RunFind` | Server/Server.cpp:70-78 | A key is in the table after a run if and only if it was before or the run registered it |
| `Loss.LostIffRaced` | Server/Server.cpp:70-78 | A save that found no client loses its packet and its connection if and only if another thread registered the same key before its insert |
| `Loss.LossCauses` | Server/Server.cpp:68-96 | A step loses a payload exactly when it is a second registration of a key, binds a NaN, or meets a storage fault in a save |
| `Loss.ReselectNeverEmpty` | Server/Server.cpp:80-85 | In every reachable state the second select finds the client, so taking the first column is in range |
| `Loss.DistinctKeysLoseNothing` | Server/Server.cpp:68-96 | If saves under way carry distinct keys, with no fault and no NaN, no connection loses anything |
| `Loss.OwnKeysAreDistinct` | Client/Client.cpp:28 | Connections that each send under a key of their own never have two saves of one key under way |
| `Loss.OwnKeysLoseNothing` | Server/Server.cpp:11-51 | On any consistent store, with a key for each connection, every payload sent is stored or being saved |
| `Loss.RaceLosesPacket` | Server/Server.cpp:70-78 | From an empty store and no connections, a faultless run in which two connections of one new client interleave and the second loses its packet |
| `LossHistory.LastSelect` | Server/Server.cpp:70-78 | A thread about to register a client got there by its last select, which found none or was cut short |
| `LossHistory.Meanwhile` | Server/Server.cpp:70-78 | While it waits, the client appears if and only if another thread registers it |
| `LossHistory.WhyAt` | Server/Server.cpp:68-96 | A step loses a packet if and only if it ends a raced or misled registration, binds a NaN, or is struck by a fault |
| `LossHistory.LostIff` | Server/Server.cpp:68-96 | Over every run a connection has lost a packet if and only if some save of it was raced, was misled by a select cut short, bound a NaN, or was struck by a fault; never more than one, and it is closed then |
| `LossHistory.FaultlessLostIff` | Server/Server.cpp:68-96 | Without storage faults: lost if and only if raced between its select and its insert, or a NaN |
| `Statistics.TotalPermutation` | Server/Server.cpp:139-165 | Counts and sums do not depend on the order rows come in |
| `Statistics.SummaryPermutation` | Server/Server.cpp:132-190 | Nor does the reported line |
| `Statistics.TotalMonotone` | Server/Server.cpp:139-165 | A part of the samples counts and sums to no more than the whole |
| `Statistics.CountIsWindowSize` | Server/Server.cpp:145-164 | The count is the number of samples in the window, and zero exactly for an empty window |
| `Statistics.AverageBounds` | Server/Server.cpp:167-175 | An average lies between the least and the greatest x of its window |
| `Statistics.SummaryMeaning` | Server/Server.cpp:167-189 | One line exactly when the five-minute window is not empty, exact averages, the minute's sum within the five minutes', zeros for an empty minute |
| `Statistics.WindowIsFilter` | Server/Server.cpp:145-156 | A window holds exactly the samples stamped at or after its start, each as often as it was given |
| `Statistics.LineSums` | Server/Server.cpp:116-189 | The sums of a line are the sums of |y| over the windows that start 600,000,000 and 3,000,000,000 ticks before its time, and its averages the sums of x over the sizes of the same windows |
| `Statistics.SaveFrame` | Server/Server.cpp:116-190 | One more sample moves its own key's measures by exactly its weight in each window and no other line |
| `Statistics.ClockFrame` | Server/Server.cpp:116-118 | With nothing saved, later collections only drop lines and lower their sums |
| `Collection.FetchSandwich` | Server/SQLite.cpp:296-315 | What a scan fetched for a client lies between what was stored for it before and after |
| `Collection.StartIsKept` | Server/Server.cpp:114 | A collection under way keeps the store it started from as its reference |
| `Collection.Sandwich` | Server/Server.cpp:104-194 | Over every interleaving the samples collected for a client lie between those stored at the start and at the end, and no client with samples at the start is missed |
| `Collection.MeasureSandwich` | Server/Server.cpp:139-165 | So do its counts and sums of absolute values |
| `Collection.CollectedLine` | Server/Server.cpp:104-194 | A finished collection's counts and sums lie between the two stores', and the line is the group-by line if nothing was saved for that client meanwhile |
| `Collection.EarlierCommitIsCounted` | Server/Server.cpp:27-31 | Every packet committed before a collection begins is among the samples it fetches |
| `Collection.QueryIsFresh` | Server/SQLite.cpp:296-315 | What is fetched of a client includes every row that was there when the query for that client began, later than the collection, and no row of another client |
| `Collection.TimeIsTaken` | Server/Server.cpp:116 | The time a collection reports for is the one it took when it had listed the clients |
| `Collection.PickedIff` | Server/Server.cpp:134-140 | One sample for each row fetched, the row's own |
| `Collection.ReportIsWhole` | Server/Server.cpp:122-132 | A report is sent only when every client listed at the start has been fetched whole, unless a scan was cut |
| `Snapshot.SnapshotIff` | Server/Server.cpp:114-132 | What a collection fetched is all that one store of the run held and nothing else if and only if no row fetched is younger than a row missed, of a listed client or of one never listed |
| `Snapshot.QuietIsSnapshot` | Server/Server.cpp:114-132 | If nothing is committed while it runs, it fetched the whole store it started from |
| `Snapshot.SnapshotReports` | Server/Server.cpp:132-190 | The lines of a snapshot are the group-by lines of its store, and the store has no further line |
| `TornCollections.NoStoreExplains` | Server/Server.cpp:114-132 | A faultless run whose collection is no snapshot: it has a later commit and misses an earlier one |
| `TornCollections.NewClientIsMissed` | Server/Server.cpp:114-132 | Another, in which the packet missed is of a client registered after the clients were listed |
| `Sender.Start` | Client/Client.cpp:45-91 | For any clock, any draws and any moment of stopping: at a check a packet is sent if and only if the clock has reached the clock at the last setting of the timer plus the seconds drawn there, with the clock, x and y read at that step; check, send, set and look at the flag come in order; the stop is prompt; and on a clock that never goes back the spacing and the range hold |
| `Sender.TraceFollows` | Client/Client.cpp:52-80 | The same of the trace from any step on |
| `Sender.TraceInOrder` | Client/Client.cpp:54-86 | Each turn checks, perhaps sends and sets the timer, and looks at the flag last |
| `Sender.PacketsAre` | Client/Client.cpp:72 | The packets are those of the sending steps, in order |
| `Sender.SpacedMeans` | Client/Client.hpp:32-36 | The spacing is five seconds in ticks and the range ninety either way |
| `Sender.WorldMeans` | Client/Client.hpp:32-36 | The draws lie in 5 to 30 seconds and in -90 up to but without 90 |
| `Sender.TraceIsSpaced` | Client/Client.cpp:52-80 | On a clock that never goes back packets are at least the minimum interval apart and within the value range |
| `Sender.TraceIsPrompt` | Client/Client.cpp:54-80 | If the clock moves by at most a step at a time, packets are at most the maximum interval and four steps apart |
| `Sender.TraceStops` | Client/Client.cpp:82-91 | The flag may be set at any step, before the first or within a turn: at most one packet is sent at or after it, and the loop ends at its first look at the flag after it |
| `Sender.SpacedWindow` | Client/Client.cpp:80 | Packets a gap apart that lie in a window span all its gaps |
| `Sender.WindowCapacity` | Server/Server.cpp:116-118 | A window holds at most one packet more than the gaps between its start and the newest packet |
| `Sender.CapacityIsReached` | Client/Client.cpp:49-86 | The bound is sharp: for every window and last moment a run of the loop, with draws in range on a clock that never goes back, fills it in number and in the sum of |y| |
| `Sender.CapacityAtNow` | Server/Server.cpp:116-118 | Up to the collection's own moment that is 13 packets in a minute and 61 in five |
| `Sender.WindowBounds` | Server/Server.cpp:116-170 | Counts, sums and averages over any fetched part of one client's packets, none later than a given moment |
| `Sender.ReportBounds` | Client/Client.hpp:32-36 | Averages within 90 either way, sums within 90 for each packet that fits |
| `EndToEnd.ReportedWithinRate` | Server/Server.cpp:104-194 | Those bounds on the reported line hold through any interleaving of saves, also of packets stamped after the collection took its time; 1170 and 5490 if none of those was fetched |
| `EndToEnd.ClientWithinRate` | Client/Client.cpp:49-80 | In any run of the server from any consistent store, the line computed for a client whose packets its own loop sent is within the rate |
| `EndToEnd.CommitFrame` | Server/Server.cpp:56-98 | A step that commits a packet moves only its own client's line; any other step moves none |
| `Server.Store.SelectClient` | Server/SQLite.cpp:171-194 | The row loop finds the client of a key exactly when there is one |
| `Server.Store.InsertClient` | Server/Server.cpp:74-78 | Refused exactly when the key is there; the client is there afterwards and no key's samples change |
| `Server.Store.InsertPacket` | Server/Server.cpp:83-90 | Refused exactly for a NULL; otherwise adds one sample to one key |
| `Server.Store.SaveClientPacket` | Server/Server.cpp:56-98 | Alone on the store a save adds exactly the payload's timestamp, x and y under the NUL-free prefix of its uuid, registering the client first; it throws exactly for a NaN |
| `Server.Store.SelectPackets` | Server/Server.cpp:126-132 | Fetches exactly a client's samples |
| `Server.Store.Summarize` | Server/Server.cpp:134-190 | The two-window loop computes the group-by line, which Statistics.LineSums spells out |
| `Server.Store.CollectStatistics` | Server/Server.cpp:104-194 | Reports one line for each key that has one, each the group-by line, and nothing else |
| `Server.RowIsReported` | Server/Server.cpp:122-132 | Grouping by client id is grouping by uuid |
| `Query.AppendNames` | Server/SQLite.cpp:82-93 | The separator loop writes the names joined by commas |
| `Query.AppendMarks` | Server/SQLite.cpp:97-101 | The index loop writes as many marks as there are columns |
| `Query.RenderSelect` | Server/SQLite.cpp:199-253 | The SELECT text, or an exception for an empty table name or column list |
| `Query.RenderInsert` | Server/SQLite.cpp:75-103 | The INSERT text with one mark for each column, or an exception |
| `Query.NamesRoundTrip` | Server/SQLite.cpp:206-217 | A list of identifiers is read back from its text |
| `Query.WhereRoundTrip` | Server/SQLite.cpp:221-235 | So is a condition or its absence |
| `Query.OrderRoundTrip` | Server/SQLite.cpp:237-251 | So is an ordering or its absence |
| `Query.SelectRoundTrip` | Server/SQLite.cpp:204-253 | The text of a SELECT over identifiers parses to that SELECT |
| `Query.InsertRoundTrip` | Server/SQLite.cpp:80-103 | The text of an INSERT parses to that table and those columns with as many parameters |
| `Query.ClauseTexts` | Server/SQLite.cpp:221-251 | Each comparison and each ordering, letter by letter |
| `Query.SelectTexts` | Server/SQLite.cpp:204-253 | The text around them |
| `Query.InsertTexts` | Server/SQLite.cpp:80-103 | The text of an INSERT with one column and with two |
| `Statements.BindAll` | Server/SQLite.cpp:116-139 | The k-th value is bound to parameter k, counted from one |
| `Statements.StoredAt` | Server/SQLite.cpp:80-103 | The row stored gives each named column its own parameter and sets no other |
| `Statements.InsertOne` | Server/SQLite.cpp:73-169 | From rendering to storing: each column receives the value passed for it, text cut at a NUL and a NaN as NULL |
| `Statements.ReadRow` | Server/SQLite.cpp:298-312 | A fetched row is the requested columns in the requested order |
| `Statements.SelectMany` | Server/SQLite.cpp:296-315 | As many rows as the smaller of limit and scan, and cell j of row i is that of the i-th row scanned at the j-th column asked for, or NULL |
| `Statements.SelectOne` | Server/SQLite.cpp:171-194 | The cells of the first row scanned, in the order asked for, or an empty row; the head of what any larger limit would fetch |
| `Statements.MatchingIff` | Server/SQLite.cpp:221-235 | A selection keeps exactly the rows whose column holds the bound value; a NULL matches nothing |
| `Statements.FetchedPrefix` | Server/SQLite.cpp:296-315 | A smaller limit fetches a prefix of what a larger one does |
| `Statements.FetchedAt` | Server/SQLite.cpp:296-315 | The cell of each fetched row under each column asked for |
| `Statements.ClientLookup` | Server/Server.cpp:62-70 | Selecting the id by the bound uuid finds the id stored for its key |
| `Statements.PacketLookup` | Server/Server.cpp:126-132 | Selecting packets by client id fetches exactly that client's samples |
| `Statements.InsertPacketRow` | Server/Server.cpp:83-90 | The packet INSERT stores the payload's values, with a NULL exactly for a NaN |
| `Statements.InsertClientRow` | Server/Server.cpp:74-78 | The client INSERT stores exactly the key that the save goes by, in "uuid" and nothing else |
| `Statements.PayloadLookup` | Server/Server.cpp:62-70 | The select by the payload's bound uuid finds the id stored for that key |
| `Statements.PayloadKeys` | Server/Server.cpp:66-78 | Payloads with NUL-free uuids go by one key if and only if their uuids are equal |
| `Statements.PayloadSample` | Server/Server.cpp:86-89 | What is stored of a payload are its own timestamp, x and y |

## Left out

- What the library writes into the member of a field that it could not read to its end, for instance a
  string or number that runs past the end of the input. The failing parsers promise that at most that one
  member differs; the members are named by the tag, and any one member when the tag itself was cut off.
- Arenas, descriptors, reflection, `unsafe_arena_*`, move construction and the memory layout behind
  `memcpy` and `memswap`; only their effect on the fields is modelled.
- Writing through a pointer kept from `mutable_data` after `clear_data`, which would break the has-bit
  invariant.
- Reuse of element objects by a cleared repeated field: a cleared report forgets its elements and creates
  new ones, which hold the same defaults.
- The log message for invalid UTF-8 on serialization.
- ReportObject.ReportMessage.DataAvailable: promises only that there is a next byte when it says so, since how often it does depends on how the stream is buffered; the outcome of the parse does not.
- Server.Store.SelectClients: the order of rows is not promised, since the query has no ORDER BY; nothing built on it depends on the order.
- Server.Store.SaveClientPacket: describes one thread alone on the store; what concurrent threads do is the subject of `Connections`, where a save is a sequence of atomic steps on values.
- Comparisons other than equality and the effect of ORDER BY when a statement is run: the server uses
  neither. Their text is modelled and read back.
- The text of `CREATE TABLE`; its effect is the invariant of the tables. Type affinity, infinities and
  the exhaustion of row ids inside SQLite are not modelled.
- Rounding in sums and averages (the store side uses reals) and overflow of the `int` counters, which takes
  2^31 packets of one client.
- The formatted statistics text on the client, console output, argument parsing, sockets, handshakes and
  the accept loop; error texts. That joining the threads at shutdown ends, since a blocked read may never return.
