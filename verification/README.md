# Wire codec, framing and broadcast of the game server

The server fills an `S_TEST` message with nested `BuffData`, sizes the tree,
prints it from the sizes it cached, puts a 16-bit length header in front and
hands the buffer to every connected session. The client reads the packet with
the same generated tables. This project models that path in Dafny and proves
what it promises.

- `Wire` - varints, little-endian words, tagged records (Protocol Buffers
  Encoding, sections "Base 128 Varints" and "Message Structure").
- `Messages` - the two messages as values; their records; reading as a fold
  over records, what that fold means field by field ("Last One Wins", "Packed
  Repeated Fields"), and how much of refused bytes is read.
- `Codec` - round trip, canonicalisation, concatenation and merging.
- `Layout`, `Sizes` - the bytes of the second serialisation pass as a function
  of the cached sizes, when stale sizes spoil them, and how large messages get.
- `Format` - the format written out byte by byte, and what a reader makes of
  lists and messages printed under a stale size.
- `Tables` - the parse tables of both messages and the dispatch they drive.
- `Stream`, `StructPb`, `ProtocolPb` - `BuffData` and `S_TEST` as objects whose
  mutators leave the size caches alone. `SerializeToArray` asks nothing of the
  caches, so it covers whatever sets, adds, clears, merges, copies and swaps
  came before.
- `Framing` - `RxSendBuffer`, `MakeSendBuffer`, frames on a stream, the client's
  HandlePacket.
- `Receiving` - `RxReceiveBuffer` and the client's receives, one after another.
- `SendQueue`, `Broadcast`, `GameSessionManager` - the send path of a session
  and the session manager, as atomic steps in every interleaving and as objects
  whose methods are runs of those steps.

## Conventions

- `remainTime` is the 32 raw bits of the float; the code decides presence on
  the bits.
- A cached size is a 32-bit int: `ToCachedSize` truncates, a length prefix
  casts back to unsigned. Sizes themselves are unbounded.
- The packet header is the one the code declares
  (ServerCore/Sources/Network/Session/PacketSession.h:5-9): protocol id first,
  packet size second, both `uint16`, little-endian as on the target.
- That file, ServerCore/Sources/Network/Session/Session.cpp,
  Server/Sources/Packet/ServerPacketHandler.cpp and
  DummyClient/Sources/Packet/ClientPacketHandler.cpp are stored in a legacy
  Korean encoding. Rows about them cite the declaration or the call, and name
  the lines of the body in the last column.
- The parse loop, varint reader and unknown-field list belong to the Protocol
  Buffers runtime, which is not part of this model; they are written from the
  encoding specification and driven by the repository's tables. Tags take at
  most five bytes and are cut to 32 bits, values at most ten and are cut to 64,
  field number 0 is malformed. Lengths stay below 2 GiB; the runtime reserves a
  few bytes and refuses the very last ones below that, too.
- The server's receive path does not split a stream; `Split` is the plain
  length-prefix splitter, stated beside what the client really does. One call of
  HandlePacket shows one packet (`ClientReceive`). Nothing ever takes that packet
  off the receive buffer (`ProcessRead` is called nowhere), so each receive
  handles all that has accumulated, until Cleanup drops it (`Receiving`).
- The outcome of `WSASend`, the connection state and the bytes transferred are
  inputs. A WSASend counts as on the socket once it completed with everything it
  was handed, measured by the write sizes of the buffers (those of
  `Broadcast.WriteSize` for the frames of `MakeSendBuffer`); the code only tells
  0 bytes from more, and takes a part for the whole. Buffers handed over are not empty, which `MakeSendBuffer` sees to.
- The send path is modelled as written: the right to drain is not given back
  when a session is not connected or a send completed with 0 bytes
  (`stranded`), and a queued pointer is copied after it was popped, so that a
  buffer nobody else owns is gone by then (`Slot.intact`). Owners outside a
  session are the callers of Broadcast that still hold the buffer and the other
  sessions.

## Model

| member | source | states |
|---|---|---|
| `Codec.TestRoundTrip` | Server/Sources/Packet/ProtoBuffer/Protocol.pb.cc:282-335 | for every S_TEST whose print stays under 2 GiB, reading the print gives the same message back if and only if no unknown field, at either level, matches a table entry |
| `Codec.BuffRoundTrip` | Server/Sources/Packet/ProtoBuffer/Struct.pb.cc:272-316 | the same if-and-only-if for a BuffData on its own |
| `Codec.Canonicalisation` | Server/Sources/Packet/ProtoBuffer/Protocol.pb.cc:282-335 | for all accepted bytes, printing what was read and reading it again changes nothing, and the print is a fixed point |
| `Sizes.CanonicalisationOfInput` | Server/Sources/Packet/ProtoBuffer/Protocol.pb.cc:282-335 | the same with a premise on the input only: any accepted bytes below 1 GiB |
| `Layout.CanonicalForm` | Server/Sources/Packet/ProtoBuffer/Protocol.pb.cc:296-334 | what accepted bytes are printed back as: last value of each scalar unless zero, nested messages in order, then the unknown and foreign-wire-type records in their original order |
| `Codec.TestParseOk` | Server/Sources/Packet/ProtoBuffer/Protocol.pb.cc:215-265 | a message that was read never carries an unknown field that matches a table entry |
| `Codec.ConcatenationIsMerge` | Server/Sources/Packet/ProtoBuffer/Protocol.pb.cc:382-402 | for every two messages printing under 2 GiB: reading serialize(a) followed by serialize(b) gives MergeFrom of b into a if and only if no unknown field of either matches a table entry |
| `Codec.ConcatenationIsMergeIff` | Server/Sources/Packet/ProtoBuffer/Protocol.pb.cc:382-402 | for any two accepted byte strings, reading the concatenation is merging the two messages if and only if the second leaves no explicit zero in a scalar the first set |
| `Codec.ExplicitZeroIsNotMerge` | Server/Sources/Packet/ProtoBuffer/Protocol.pb.cc:392-394 | id = 5 followed by an explicit id = 0: the wire clears the field, the merge keeps it |
| `Codec.BuffConcatenationIsMerge` | Server/Sources/Packet/ProtoBuffer/Struct.pb.cc:357-373 | the same if-and-only-if for two BuffData prints in a row |
| `Codec.BuffConcatenationIsMergeIff` | Server/Sources/Packet/ProtoBuffer/Struct.pb.cc:357-373 | for any two accepted byte strings: if and only if the second leaves no explicit zero in a buffId or remainTime the first set |
| `Codec.BuffExplicitZeroIsNotMerge` | Server/Sources/Packet/ProtoBuffer/Struct.pb.cc:364-372 | any remainTime followed by an explicit zero one: the wire clears it, the merge keeps it |
| `Codec.BuffParseConcat` | Server/Sources/Packet/ProtoBuffer/Struct.pb.cc:211-255 | reading s then u is reading u on top of the BuffData s denotes, refusals included |
| `Codec.ParseConcat` | Server/Sources/Packet/ProtoBuffer/Protocol.pb.cc:216-265 | reading s then u is reading u on top of the message s denotes, refusals included |
| `Codec.PackedAndUnpackedAgree` | Server/Sources/Packet/ProtoBuffer/Struct.pb.cc:236-250 | any cut of a victims list into packed runs and single entries, interleaved with any other records, reads to exactly that list and the message of the other records |
| `Codec.TestMergeAssociative` | Server/Sources/Packet/ProtoBuffer/Protocol.pb.cc:382-402 | merging is associative on whole messages |
| `Codec.TestMergeIdentity` | Server/Sources/Packet/ProtoBuffer/Protocol.pb.cc:267-279 | the cleared message is a two-sided identity of merging |
| `Codec.BuffMergeAssociative` | Server/Sources/Packet/ProtoBuffer/Struct.pb.cc:357-373 | merging BuffData is associative |
| `Codec.BuffMergeIdentity` | Server/Sources/Packet/ProtoBuffer/Struct.pb.cc:257-269 | the cleared BuffData is a two-sided identity |
| `Messages.TestFoldIsProjection` | Server/Sources/Packet/ProtoBuffer/Protocol.pb.cc:233-261 | reading record by record equals collecting each field on its own: last scalar wins, nested messages line up, unknown records are kept in order; refused exactly when some nested message is malformed |
| `Messages.BuffFoldIsProjection` | Server/Sources/Packet/ProtoBuffer/Struct.pb.cc:228-251 | the same for BuffData, with victims from packed and unpacked records alike |
| `Messages.TestReadableConcat` | Server/Sources/Packet/ProtoBuffer/Protocol.pb.cc:216-265 | what is read of refused bytes: every accepted prefix in full, then the rest on top of it up to the record at fault, which is the same one |
| `Messages.BuffReadableConcat` | Server/Sources/Packet/ProtoBuffer/Struct.pb.cc:211-255 | the same for BuffData |
| `Messages.StopsAtFault` | Server/Sources/Packet/ProtoBuffer/Protocol.pb.cc:216-265 | nothing is read from the record at fault on |
| `Wire.RecordsRoundTrip` | Server/Sources/Packet/ProtoBuffer/Protocol.pb.cc:328-332 | any list of records (of any field, known or not) prints to bytes that read back to the same list |
| `Wire.DecodeRecordsConcat` | Server/Sources/Packet/ProtoBuffer/Protocol.pb.cc:328-332 | reading distributes over concatenation once the first part is accepted |
| `Wire.VarintRoundTrip` | Server/Sources/Packet/ProtoBuffer/Struct.pb.cc:289-290 | a varint followed by anything reads back to its value and stops at its end, with the bytes fixed by the two rows below |
| `Wire.EncodeVarintMeaning` | Server/Sources/Packet/ProtoBuffer/Struct.pb.cc:289-290 | what is written of a number is one varint: only its last byte is below 128, the low seven bits of its bytes are the base-128 digits of the number, lowest first, and there is no padding |
| `Wire.DecodeVarintMeaning` | Server/Sources/Packet/ProtoBuffer/Struct.pb.cc:241-243 | what is read is the digit sum of the varint at the front, padded or not, if it has at most the bytes allowed, and nothing otherwise |
| `Wire.NoVarint` | Server/Sources/Packet/ProtoBuffer/Struct.pb.cc:241-243 | bytes of which none ends a varint are refused |
| `Wire.VarintExamples` | Server/Sources/Packet/ProtoBuffer/Protocol.pb.cc:303-308 | 150, 20000 and the largest 32-bit number byte by byte |
| `Wire.Word32` | Server/Sources/Packet/ProtoBuffer/Struct.pb.cc:293-298 | a 32-bit word is written as its four bytes, lowest first |
| `Wire.Fixed32Bytes` | Server/Sources/Packet/ProtoBuffer/Struct.pb.cc:245-247 | four bytes are read as the word they are the bytes of, lowest first, and no other four are written for it |
| `Wire.Fixed64Bytes` | Server/Sources/Packet/ProtoBuffer/Struct.pb.cc:309-313 | eight bytes (an unknown field) are read as low word and high word, and written as the same eight |
| `Wire.RecordBytes` | Server/Sources/Packet/ProtoBuffer/Protocol.pb.cc:328-332 | the bytes of each kind of record: a tag of field number and wire type, then number, word or length and bytes |
| `Wire.ReadTagMeaning` | Server/Sources/Packet/ProtoBuffer/Protocol.pb.cc:233-246 | a tag is the varint at the front cut to 32 bits; refused when it takes more than five bytes or names field 0 |
| `Wire.ReadPayloadMeaning` | Server/Sources/Packet/ProtoBuffer/Protocol.pb.cc:233-246 | a number is the varint cut to 64 bits, of at most ten bytes; a length is a varint of at most five whose bytes are all there, and its record holds exactly those bytes |
| `Wire.ReadWordMeaning` | Server/Sources/Packet/ProtoBuffer/Struct.pb.cc:245-247 | fixed words need all their bytes, every other wire type is refused |
| `Format.BuffPrint` | Server/Sources/Packet/ProtoBuffer/Struct.pb.cc:286-315 | the bytes of a BuffData in full: 08 and the varint, 15 and four bytes, 1A, size and packed list, each unless zero or empty, then the unknown fields |
| `Format.TestPrint` | Server/Sources/Packet/ProtoBuffer/Protocol.pb.cc:296-334 | the bytes of an S_TEST in full: 08, 10 and 18 with their varints unless zero, the nested messages, then the unknown fields |
| `Format.NestedPrint` | Server/Sources/Packet/ProtoBuffer/Protocol.pb.cc:317-326 | nested messages stand in order, each as 22, its own length and its own print |
| `Format.Schema` | Server/Sources/Packet/ProtoBuffer/Struct.pb.cc:242-251 | exactly which field numbers and wire types are fields of the two messages |
| `Format.BuffFields` | Server/Sources/Packet/ProtoBuffer/Struct.pb.cc:241-251 | what each field of BuffData does to it, packed and unpacked victims and a malformed list included |
| `Format.TestFields` | Server/Sources/Packet/ProtoBuffer/Protocol.pb.cc:248-261 | what each field of S_TEST does to it: hp and attack cut to 32 bits, a nested message appended, or refused with it |
| `Format.PackedReads` | Server/Sources/Packet/ProtoBuffer/Struct.pb.cc:236-250 | a packed list is read varint by varint, each of at most ten bytes and cut to 64 bits, and refused if any is refused |
| `Tables.FastDispatchIsPlain` | Server/Sources/Packet/ProtoBuffer/Protocol.pb.cc:220-246 | for every input, masked fast slot, coded-tag check and fallback give the same field, record and length - or refusal - as decoding the whole record and looking up its number; both tables |
| `Tables.FindsDeclaredFields` | Server/Sources/Packet/ProtoBuffer/Protocol.pb.cc:220-224 | skip map, ones count and end-marked lookup table find entry i for field number i and nothing for any other number |
| `Tables.TablesWellFormed` | Server/Sources/Packet/ProtoBuffer/Struct.pb.cc:215-220 | no lookup through the skip map leaves the entry array |
| `Tables.EntryTargetIsSchema` | Server/Sources/Packet/ProtoBuffer/Struct.pb.cc:242-251 | an entry accepts exactly the wire types its field is declared with |
| `Tables.FastSlotsReachable` | Server/Sources/Packet/ProtoBuffer/Protocol.pb.cc:233-245 | every coded tag sits in the slot its own bits select |
| `Layout.TestLayout` | Server/Sources/Packet/ProtoBuffer/Protocol.pb.cc:317-334 | with the caches the first pass leaves, the second pass prints the serialisation, every nested and packed length prefix right |
| `Layout.TestSizeIsLength` | Server/Sources/Packet/ProtoBuffer/Protocol.pb.cc:345-379 | what ByteSizeLong adds up is the length of what is printed |
| `Layout.BuffLayout` | Server/Sources/Packet/ProtoBuffer/Struct.pb.cc:286-315 | tags 8, 21, 26, the cached packed size and the unknown fields, in this order, are the print of BuffData |
| `Layout.StaleVictimsCache` | Server/Sources/Packet/ProtoBuffer/Struct.pb.cc:302-306 | for every cache value: BuffData prints itself correctly if and only if the cache is the true packed size (non-positive for an empty list) |
| `Layout.StaleEntry` | Server/Sources/Packet/ProtoBuffer/Protocol.pb.cc:318-326 | for every pair of cached sizes: the nested record is right if and only if both are true, the victims cache and the cached size |
| `Layout.StaleCaches` | Server/Sources/Packet/ProtoBuffer/Protocol.pb.cc:317-334 | for a message whose unknown fields match no table entry, and whatever all caches of all nested messages hold: the packet prints itself correctly if and only if every cache is true; wrong sizes never cancel out |
| `Layout.AddToNested` | Server/Sources/Packet/ProtoBuffer/Protocol.pb.cc:318-326 | a victim added to one nested message between the passes always spoils the whole packet |
| `Layout.AddBetweenPasses` | Server/Sources/Packet/ProtoBuffer/Struct.pb.h:369-373 | a victim added between the passes always spoils the print |
| `Layout.SwapBetweenPasses` | Server/Sources/Packet/ProtoBuffer/Struct.pb.cc:383-393 | two sized BuffData swapped before printing print right if and only if their packed sizes agree, because the caches stay behind |
| `Format.CachedSizes` | Server/Sources/Packet/ProtoBuffer/Struct.pb.cc:300-307 | a cached size is the size modulo 2^32 as a signed 32-bit int |
| `Format.StalePrint` | Server/Sources/Packet/ProtoBuffer/Struct.pb.cc:286-315 | whatever the victims cache, the second pass and the true print differ in the packed list only |
| `Format.StaleListReads` | Server/Sources/Packet/ProtoBuffer/Struct.pb.cc:300-307 | a packed list printed under a wrong positive size is read as just so many bytes, cut off or swallowing what follows; under a non-positive one it is not there |
| `Format.StaleEntryReads` | Server/Sources/Packet/ProtoBuffer/Protocol.pb.cc:318-326 | a nested message printed under any cached size is read as just so many bytes of what stands behind its prefix |
| `Format.StaleEntryRefused` | Server/Sources/Packet/ProtoBuffer/Protocol.pb.cc:318-326 | and refused when the cached size runs past the end or is negative |
| `Format.StaleListRefused` | Server/Sources/Packet/ProtoBuffer/Struct.pb.cc:300-307 | the same for a packed list whose size runs past the end |
| `Format.StaleTestPrint` | Server/Sources/Packet/ProtoBuffer/Protocol.pb.cc:296-334 | whatever the sizes, the entries stand in order between the singular fields and the unknown fields |
| `Sizes.TestMergeSize` | Server/Sources/Packet/ProtoBuffer/Protocol.pb.cc:355-376 | a merge prints no longer than its parts together, the nested messages cost exactly their sum, and the whole exactly the sum if and only if no scalar is set in both |
| `Sizes.BuffMergeSize` | Server/Sources/Packet/ProtoBuffer/Struct.pb.cc:336-351 | the same for BuffData; one packed record is strictly smaller than two |
| `Sizes.TestParseSize` | Server/Sources/Packet/ProtoBuffer/Protocol.pb.cc:282-335 | reading and printing again at most doubles the size |
| `Sizes.BuffWorstCase` | Server/Sources/Packet/ProtoBuffer/Struct.pb.cc:334-351 | without unknown fields a BuffData with n victims takes at most 16 bytes plus, for n > 0, 1 + varintLen(10n) + 10n |
| `Sizes.BuffWorstCaseAttained` | Server/Sources/Packet/ProtoBuffer/Struct.pb.cc:334-351 | for every n some BuffData takes exactly that |
| `Sizes.TestWorstCase` | Server/Sources/Packet/ProtoBuffer/Protocol.pb.cc:361-377 | S_TEST takes at most 23 bytes plus its nested messages |
| `Sizes.FitsByCounts` | Server/Sources/Packet/ServerPacketHandler.h:25-26 | a bound on the number of nested messages and victims under which the 16-bit packet size cannot wrap |
| `Stream.SpliceSplice` | Server/Sources/Packet/ProtoBuffer/Struct.pb.cc:286-315 | advancing target: two writes in a row are one write of the concatenation |
| `Stream.WriteNonZero` | Server/Sources/Packet/ProtoBuffer/Protocol.pb.cc:296-301 | writes a singular varint field at target unless it is zero, and nothing else |
| `Stream.WriteFloat` | Server/Sources/Packet/ProtoBuffer/Struct.pb.cc:293-298 | writes the float unless all its 32 bits are zero |
| `Stream.WriteUInt64Packed` | Server/Sources/Packet/ProtoBuffer/Struct.pb.cc:300-307 | writes the packed list under its cached size, if that is positive |
| `StructPb.BuffData.constructor` | Server/Sources/Packet/ProtoBuffer/Struct.pb.cc:156-171 | all fields and both caches zero |
| `StructPb.BuffData.Copy` | Server/Sources/Packet/ProtoBuffer/Struct.pb.cc:126-155 | fields and unknown fields of the source, caches zero |
| `StructPb.BuffData.SetBuffId` | Server/Sources/Packet/ProtoBuffer/Struct.pb.h:315-326 | changes that field and no cache |
| `StructPb.BuffData.ClearBuffId` | Server/Sources/Packet/ProtoBuffer/Struct.pb.h:307-310 | zeroes that field |
| `StructPb.BuffData.SetRemainTime` | Server/Sources/Packet/ProtoBuffer/Struct.pb.h:337-348 | changes that field and no cache |
| `StructPb.BuffData.ClearRemainTime` | Server/Sources/Packet/ProtoBuffer/Struct.pb.h:329-332 | zeroes that field |
| `StructPb.BuffData.SetVictims` | Server/Sources/Packet/ProtoBuffer/Struct.pb.h:365-368 | replaces one victim |
| `StructPb.BuffData.AddVictims` | Server/Sources/Packet/ProtoBuffer/Struct.pb.h:369-373 | appends a victim and leaves the caches as they were |
| `StructPb.BuffData.ClearVictims` | Server/Sources/Packet/ProtoBuffer/Struct.pb.h:357-360 | empties the list |
| `StructPb.BuffData.Clear` | Server/Sources/Packet/ProtoBuffer/Struct.pb.cc:257-269 | the empty message; the caches are left as they were |
| `StructPb.BuffData.ByteSizeLong` | Server/Sources/Packet/ProtoBuffer/Struct.pb.cc:322-355 | from any caches: returns the length of the print, makes both caches true, changes nothing else |
| `StructPb.BuffData.InternalSerialize` | Server/Sources/Packet/ProtoBuffer/Struct.pb.cc:277-316 | from any caches: writes exactly the bytes those caches determine, at target, and nothing outside |
| `StructPb.BuffData.MergeImpl` | Server/Sources/Packet/ProtoBuffer/Struct.pb.cc:357-373 | the merge of the two old values; the source is another object and unchanged |
| `StructPb.BuffData.CopyFrom` | Server/Sources/Packet/ProtoBuffer/Struct.pb.cc:375-380 | the source's value, for every pair including the object itself; the source unchanged |
| `StructPb.BuffData.InternalSwap` | Server/Sources/Packet/ProtoBuffer/Struct.pb.cc:383-393 | exchanges the values and touches no cache |
| `StructPb.BuffData.Swap` | Server/Sources/Packet/ProtoBuffer/Struct.pb.h:127-138 | exchanges the values, also with itself |
| `StructPb.BuffData.MoveAssign` | Server/Sources/Packet/ProtoBuffer/Struct.pb.h:86-98 | exchanges the values within one arena, also with itself |
| `StructPb.BuffData.Store` | Server/Sources/Packet/ProtoBuffer/Struct.pb.cc:228-251 | stores one record into the field the table names, or refuses and changes at most the victims |
| `StructPb.BuffData.ParseRecord` | Server/Sources/Packet/ProtoBuffer/Struct.pb.cc:211-239 | one turn of the table-driven loop agrees with the record-by-record reading, of accepted and of refused bytes |
| `StructPb.BuffData.MergeFromBytes` | Server/Sources/Packet/ProtoBuffer/Struct.pb.cc:211-255 | the table-driven loop accepts exactly the readable bytes and then holds the message read on top of the old one; refused, it holds the records before the fault, with at most more victims |
| `StructPb.BuffData.ParseFromBytes` | Server/Sources/Packet/ProtoBuffer/Struct.pb.cc:211-255 | the same from a cleared object, refusals included |
| `ProtocolPb.STest.constructor` | Server/Sources/Packet/ProtoBuffer/Protocol.pb.cc:162-176 | the empty message, cache zero |
| `ProtocolPb.STest.Copy` | Server/Sources/Packet/ProtoBuffer/Protocol.pb.cc:133-161 | the source's value in nested objects of its own, cache zero; the source unchanged |
| `ProtocolPb.STest.SetId` | Server/Sources/Packet/ProtoBuffer/Protocol.pb.h:326-337 | changes that field and no cache |
| `ProtocolPb.STest.ClearId` | Server/Sources/Packet/ProtoBuffer/Protocol.pb.h:318-321 | zeroes that field |
| `ProtocolPb.STest.SetHp` | Server/Sources/Packet/ProtoBuffer/Protocol.pb.h:348-359 | changes that field and no cache |
| `ProtocolPb.STest.ClearHp` | Server/Sources/Packet/ProtoBuffer/Protocol.pb.h:340-343 | zeroes that field |
| `ProtocolPb.STest.SetAttack` | Server/Sources/Packet/ProtoBuffer/Protocol.pb.h:370-381 | changes that field and no cache |
| `ProtocolPb.STest.ClearAttack` | Server/Sources/Packet/ProtoBuffer/Protocol.pb.h:362-365 | zeroes that field |
| `ProtocolPb.STest.AddBuffs` | Server/Sources/Packet/ProtoBuffer/Protocol.pb.h:406-411 | appends a new empty element and hands out that very object |
| `ProtocolPb.STest.MutableBuffs` | Server/Sources/Packet/ProtoBuffer/Protocol.pb.h:390-394 | hands out the element object at an index |
| `ProtocolPb.STest.ClearBuffs` | Server/Sources/Packet/ProtoBuffer/Protocol.pb.cc:120-123 | empties the list |
| `ProtocolPb.STest.Clear` | Server/Sources/Packet/ProtoBuffer/Protocol.pb.cc:267-279 | the empty message |
| `ProtocolPb.STest.ByteSizeLong` | Server/Sources/Packet/ProtoBuffer/Protocol.pb.cc:341-380 | from any caches: returns the length of the print and makes every cache, nested ones included, true |
| `ProtocolPb.STest.SizeBuffs` | Server/Sources/Packet/ProtoBuffer/Protocol.pb.cc:353-360 | the loop over nested messages adds tag, length prefix and size of each |
| `ProtocolPb.STest.InternalSerialize` | Server/Sources/Packet/ProtoBuffer/Protocol.pb.cc:287-335 | from any caches: writes exactly the bytes they determine, at target, and nothing outside |
| `ProtocolPb.STest.WriteBuffs` | Server/Sources/Packet/ProtoBuffer/Protocol.pb.cc:317-326 | the loop over nested messages writes them in order |
| `ProtocolPb.WriteMessage` | Server/Sources/Packet/ProtoBuffer/Protocol.pb.cc:321-326 | tag, cached size and the nested message's own print |
| `ProtocolPb.STest.SerializeToArray` | Server/Sources/Packet/ServerPacketHandler.h:34 | from any state of the caches: writes the serialisation of the message into the room given, or leaves the array alone exactly when the room or 2 GiB is exceeded |
| `ProtocolPb.STest.AppendCopies` | Server/Sources/Packet/ProtoBuffer/Protocol.pb.cc:390-391 | appends new objects with the values of the source list, in order |
| `ProtocolPb.STest.MergeImpl` | Server/Sources/Packet/ProtoBuffer/Protocol.pb.cc:382-402 | the merge of the two old values, the added elements new objects; the source unchanged |
| `ProtocolPb.STest.CopyFrom` | Server/Sources/Packet/ProtoBuffer/Protocol.pb.cc:404-409 | the source's value in new nested objects, and nothing at all for the object itself; the source unchanged |
| `ProtocolPb.STest.InternalSwap` | Server/Sources/Packet/ProtoBuffer/Protocol.pb.cc:412-422 | exchanges the values; each cache stays with its object |
| `ProtocolPb.STest.Swap` | Server/Sources/Packet/ProtoBuffer/Protocol.pb.h:128-139 | exchanges the values, also with itself |
| `ProtocolPb.STest.MoveAssign` | Server/Sources/Packet/ProtoBuffer/Protocol.pb.h:87-99 | exchanges the values within one arena, also with itself |
| `ProtocolPb.STest.Store` | Server/Sources/Packet/ProtoBuffer/Protocol.pb.cc:233-261 | stores one record into the field the table names; a nested message becomes a new last element |
| `ProtocolPb.STest.ParseRecord` | Server/Sources/Packet/ProtoBuffer/Protocol.pb.cc:216-246 | one turn of the table-driven loop agrees with the record-by-record reading, of accepted and of refused bytes |
| `ProtocolPb.STest.MergeFromBytes` | Server/Sources/Packet/ProtoBuffer/Protocol.pb.cc:216-265 | the table-driven loop accepts exactly the readable bytes and then holds the message read on top of the old one; refused, it holds the records before the fault, and at most one more element with what could be read of the payload at fault; added elements are new objects |
| `ProtocolPb.STest.ParseFromArray` | DummyClient/Sources/Packet/ClientPacketHandler.h:13-14 | the same from a cleared object, refusals included (body: ClientPacketHandler.cpp:74-75) |
| `Framing.SendBuffer.constructor` | ServerCore/Sources/Network/Buffer/SendBuffer.cpp:4-7 | a zeroed buffer of the requested capacity, nothing to send |
| `Framing.SendBuffer.CopyBuffer` | ServerCore/Sources/Network/Buffer/SendBuffer.cpp:14-19 | the first bytes are the source's, the rest unchanged, write size set |
| `Framing.SendBuffer.SetWriteSize` | ServerCore/Sources/Network/Buffer/SendBuffer.h:14 | sets the write size |
| `Framing.WriteHeader` | Server/Sources/Packet/ServerPacketHandler.h:30-32 | writes the four bytes p % 256, p / 256, n % 256, n / 256 of protocol id p and packet size n, and nothing else |
| `Framing.HeaderBytes` | Server/Sources/Packet/ServerPacketHandler.h:30-32 | the header byte by byte for every protocol id and packet size |
| `Framing.FrameBytes` | Server/Sources/Packet/ServerPacketHandler.h:30-34 | a whole frame byte by byte: id, size of header and payload, payload |
| `Framing.SixteenBits` | Server/Sources/Packet/ServerPacketHandler.h:25-26 | the stored packet size is header plus data if and only if that is at most 65535; what goes wrong otherwise |
| `Framing.MakeSendBuffer` | Server/Sources/Packet/ServerPacketHandler.h:23-37 | makes the frame if and only if header and print fit 16 bits; then capacity, write size and header agree and the payload fills the rest; otherwise which of the two failures occurs |
| `Framing.FillFrame` | Server/Sources/Packet/ServerPacketHandler.h:30-34 | header first, payload right behind it |
| `Framing.SplitIff` | Server/Sources/Packet/ServerPacketHandler.h:26-32 | a byte stream splits by length prefix into given packets if and only if it is their frames in a row, so in at most one way (declared in PacketSession.h:5-9) |
| `Framing.StreamRoundTrip` | Server/Sources/Packet/ServerPacketHandler.h:25-36 | for any messages whose frames fit: the frames decode to the same list of protocol ids and messages if and only if no unknown field in them matches a table entry |
| `Framing.ClientReceiveBytes` | DummyClient/Sources/Packet/ClientPacketHandler.h:13-14 | from the first four bytes: ignored, misframed, shown or unparsed, and exactly which bytes are parsed (body: ClientPacketHandler.cpp:53-75) |
| `Framing.ClientReadsFirst` | DummyClient/Sources/Packet/ClientPacketHandler.h:13-14 | the client shows the first test packet of what it receives, whatever follows (body: ClientPacketHandler.cpp:53-75) |
| `Framing.ClientShowsBroken` | DummyClient/Sources/Packet/ClientPacketHandler.h:13-14 | a payload that breaks off is refused but shown: the client shows its complete records (body: ClientPacketHandler.cpp:74-75) |
| `Framing.ClientShowsAllIff` | DummyClient/Sources/Packet/ClientPacketHandler.h:13-14 | any messages handed to one HandlePacket back to back: the client shows at most the first, and every test packet if and only if none comes after the first message (body: ClientPacketHandler.cpp:53-75) |
| `Receiving.FirstAgainAndAgain` | DummyClient/Sources/Session/ServerSession.h:11 | a stream of messages received in any chunks, none of them empty up to here: until the buffer is first dropped, every receive ignores or misreads the stream's beginning while the first packet is incomplete and then shows that packet again, never another (body: Session.cpp:277-309, ClientPacketHandler.cpp:53-75) |
| `Receiving.HandlesFromStart` | DummyClient/Sources/Session/ServerSession.h:11 | a receive before the first drop, with no empty one before it, handles everything received so far, whatever comes later (body: Session.cpp:293-294) |
| `Receiving.HandlesSinceStart` | DummyClient/Sources/Session/ServerSession.h:11 | past any number of drops: a receive handles exactly what came since the last drop, and one that leaves less than 64 KB of room, but some, is the next drop (body: Session.cpp:293-307) |
| `Receiving.ReceiveOne` | DummyClient/Sources/Session/ServerSession.h:11 | the three outcomes of a receive by the room it leaves out of 655360 bytes: all kept; all dropped and the session still open; closed (body: Session.cpp:287-308) |
| `Receiving.ClosesForGood` | DummyClient/Sources/Session/ServerSession.h:11 | receiving nothing, or more than there is room for, closes the session for good; what is held stays and nothing is shown (body: Session.cpp:281-291) |
| `Receiving.ReceiveBuffer.constructor` | DummyClient/Sources/Session/ServerSession.h:11 | ten zeroed blocks, both positions at the front (body: ReceiveBuffer.cpp:9-14) |
| `Receiving.ReceiveBuffer.ProcessWrite` | DummyClient/Sources/Session/ServerSession.h:11 | moves the write position if there is room (body: ReceiveBuffer.cpp:56-65) |
| `Receiving.ReceiveBuffer.Cleanup` | DummyClient/Sources/Session/ServerSession.h:11 | with less than a block left everything is dropped, else nothing (body: ReceiveBuffer.cpp:21-43) |
| `Receiving.ServerSession.ProcessReceive` | DummyClient/Sources/Session/ServerSession.h:11 | one receive as the object does it is one step of the receiver: handle all that is held, drop it only when the buffer is nearly full, stop on nothing received or a full buffer (body: Session.cpp:277-309) |
| `Framing.TestFrameBytes` | Server/Sources/Packet/ServerPacketHandler.h:20 | the 32 bytes of the frame MakeTestPacket sends (body: ServerPacketHandler.cpp:48-65) |
| `Framing.BuildTestPacket` | Server/Sources/Packet/ServerPacketHandler.h:20 | filling the packet through the pointers handed out by add_buffs gives the fixed message (body: ServerPacketHandler.cpp:50-62) |
| `Framing.MakeTestPacket` | Server/Sources/Packet/ServerPacketHandler.h:20 | always a whole frame, always the same bytes whatever the arguments; the client reads it as that message (body: ServerPacketHandler.cpp:48-65) |
| `SendQueue.StepKeepsInv` | Server/Sources/Session/GameSessionManager.cpp:49-52 | every atomic step keeps: at most one live holder of the right to drain, none once one was stranded; the flag set exactly in these two cases; nothing lost, duplicated or reordered up to WSASend; buffers waiting without a live holder only after a refused WSASend or behind a stranded thread (body: Session.cpp:61-84) |
| `SendQueue.RunKeepsInv` | Server/Sources/Session/GameSessionManager.cpp:49-52 | the same over every sequence of steps (body: Session.cpp:203-254) |
| `SendQueue.DrainIsAtomic` | Server/Sources/Session/GameSessionManager.cpp:49-52 | while a thread drains the queue under the mutex nobody else pushes, and the queue changes by its own pops only (body: Session.cpp:67-70, 214-227) |
| `SendQueue.TransferredIff` | Server/Sources/Session/GameSessionManager.cpp:49-52 | a completion is taken for nothing if and only if it reports 0 bytes, is a part if and only if it reports fewer than were handed over, and is everything otherwise (body: Session.cpp:310-342) |
| `SendQueue.QuiescentDeliversIff` | Server/Sources/Session/GameSessionManager.cpp:49-52 | a session with no live holder has put everything sent on the socket, intact and in order, if and only if no WSASend was refused, came back empty or was cut short, no buffer waits behind a stranded thread and every buffer survived its pop (body: Session.cpp:203-254, 310-342) |
| `SendQueue.ReachedIsPrefix` | Server/Sources/Session/GameSessionManager.cpp:49-52 | at any time what completed WSASends put on the socket is a prefix of what was sent, while none fails and buffers survive their pops (body: Session.cpp:203-254, 310-342) |
| `SendQueue.PushRecoversIff` | Server/Sources/Session/GameSessionManager.cpp:49-52 | a further Send leaves someone draining if and only if no thread was stranded (body: Session.cpp:61-84) |
| `SendQueue.StrandedForever` | Server/Sources/Session/GameSessionManager.cpp:49-52 | after a thread returned without giving the right back - not connected, or 0 bytes sent - no run whatever hands anything more to the socket (body: Session.cpp:205-208, 315-319) |
| `SendQueue.StrandedByCheck` | Server/Sources/Session/GameSessionManager.cpp:49-52 | the input: a Send before the session is connected; connected again, it only ever queues (body: Session.cpp:205-208) |
| `SendQueue.DrainIntactIff` | Server/Sources/Session/GameSessionManager.cpp:49-52 | popping before copying hands over intact buffers if and only if each buffer has an owner outside the session or a second entry in the queue (body: Session.cpp:219-226) |
| `SendQueue.PopsRun` | Server/Sources/Session/GameSessionManager.cpp:49-52 | popping one by one is popping all, for every queue (body: Session.cpp:219-226) |
| `SendQueue.RefusalLeavesWaiting` | Server/Sources/Session/GameSessionManager.cpp:49-52 | the input at which a refused WSASend loses one buffer and leaves another waiting with nobody to drain it (body: Session.cpp:242-253) |
| `SendQueue.IncompleteSend` | Server/Sources/Session/GameSessionManager.cpp:49-52 | the inputs at which a WSASend that was accepted transfers nothing, or a part: the session ends idle and not stuck, with the buffer not on the socket; it is disconnected and stranded exactly when nothing was transferred (body: Session.cpp:310-342; completions with their byte counts: IocpCore.cpp:34-66) |
| `Broadcast.BroadcastHistories` | Server/Sources/Session/GameSessionManager.cpp:33-53 | over every interleaving, a session has been sent exactly the broadcasts made while it was a member, in mutex order and once each |
| `Broadcast.DueIsMembership` | Server/Sources/Session/GameSessionManager.cpp:33-53 | the list due to a session is exactly the broadcasts at which the last add or remove before was an add |
| `Broadcast.CommonBroadcastsInOrder` | Server/Sources/Session/GameSessionManager.cpp:45-53 | in every reachable state, any two sessions have been sent their common broadcasts in the same order |
| `Broadcast.MutexHolds` | Server/Sources/Session/GameSessionManager.cpp:45-53 | while one broadcast runs nobody is added or removed, no other begins, its caller keeps the buffer, it sends to one session after the other and ends only after the last |
| `Broadcast.MutexFree` | Server/Sources/Session/GameSessionManager.cpp:33-53 | otherwise add, remove and broadcast are possible and do what they say |
| `Broadcast.MemberAfterIff` | Server/Sources/Session/GameSessionManager.cpp:33-43 | a session is in the set exactly when it was added before and not removed since |
| `Broadcast.SocketHistories` | Server/Sources/Session/GameSessionManager.cpp:49-52 | the same down to the socket of an idle session: everything due arrived intact and in order if and only if no WSASend was refused, came back empty or was cut short, no buffer waits behind a stranded thread and every buffer survived its pop, by the owners of `PopOwner` (body: Session.cpp:203-254, 310-342) |
| `Broadcast.SocketPrefix` | Server/Sources/Session/GameSessionManager.cpp:45-53 | at any time what completed WSASends put on the socket is a prefix of it, while none fails and buffers survive |
| `Broadcast.PopOwner` | Server/Sources/Session/GameSessionManager.cpp:49-52 | the buffer at the front has another owner at its pop if and only if a caller holds it, it waits in the queue of another session, or it is alive in the event of another session (body: Session.cpp:69, 219-226) |
| `Broadcast.PopSlot` | Server/Sources/Session/GameSessionManager.cpp:49-52 | it is handed over intact if and only if it has one, waits once more in the same queue or was popped alive before (body: Session.cpp:219-226) |
| `Broadcast.SharedBufferSurvives` | Server/Sources/Session/GameSessionManager.cpp:45-53 | a reachable run of two sessions: the caller has let go of the buffer, and at the pop of one session it lives on in the queue of the other (body: Session.cpp:219-226) |
| `Broadcast.BufferFreedByPop` | Server/Sources/Session/GameSessionManager.cpp:45-53 | a reachable idle state where every WSASend completed in full and yet a buffer was freed by the pop before it was copied: its caller let go while it waited behind another send (body: Session.cpp:219-226) |
| `Broadcast.IncompleteBroadcast` | Server/Sources/Session/GameSessionManager.cpp:45-53 | a reachable state after one broadcast in which nothing is refused or stuck and what was due is not on the socket: its WSASend transferred nothing, or a part (body: Session.cpp:310-342) |
| `Broadcast.CarefulCallersKeepBuffers` | Server/Sources/Session/GameSessionManager.cpp:45-53 | callers that let go of a buffer only while it is in no queue never lose one, in any session and any interleaving |
| `Broadcast.SocketBytesDecode` | Server/Sources/Session/GameSessionManager.cpp:45-53 | while no WSASend fails and buffers survive their pops, the bytes of a session's completed WSASends decode to a prefix of the messages it was due, and to all of them when idle and not stuck |
| `Broadcast.TotalIsSocketBytes` | Server/Sources/Packet/ServerPacketHandler.h:36 | the bytes a completion is measured against are the bytes of the frames handed over (body: Session.cpp:231-240) |
| `GameSessionManager.GameSession.Push` | Server/Sources/Session/GameSessionManager.cpp:49-52 | pushes and claims the right to drain in one atomic step (body: Session.cpp:67-70) |
| `GameSessionManager.GameSession.CheckConnected` | Server/Sources/Session/GameSessionManager.cpp:49-52 | keeps the right to drain, or strands it with the flag set (body: Session.cpp:205-208) |
| `GameSessionManager.GameSession.DrainQueue` | Server/Sources/Session/GameSessionManager.cpp:49-52 | the loop that pops each front and then copies it is the run of pops, and hands over exactly the slots of `PopAll` (body: Session.cpp:215-227) |
| `GameSessionManager.GameSession.PostSend` | Server/Sources/Session/GameSessionManager.cpp:49-52 | hands the event over; on refusal drops it and clears the flag (body: Session.cpp:242-253) |
| `GameSessionManager.GameSession.RegisterSend` | Server/Sources/Session/GameSessionManager.cpp:49-52 | is a run of the atomic steps: one WSASend of the whole queue when connected, a stuck session otherwise (body: Session.cpp:203-254) |
| `GameSessionManager.GameSession.Send` | Server/Sources/Session/GameSessionManager.cpp:49-52 | is a run of the atomic steps that sends this buffer once (body: Session.cpp:61-84) |
| `GameSessionManager.GameSession.CompleteSend` | Server/Sources/Session/GameSessionManager.cpp:49-52 | lets go of the buffers and settles the WSASend by its byte count: nothing exactly on 0, a part exactly below the bytes of the slots handed over, everything otherwise; nothing disconnects and strands (body: Session.cpp:312-319) |
| `GameSessionManager.GameSession.FinishSend` | Server/Sources/Session/GameSessionManager.cpp:49-52 | gives the right back exactly when nothing is queued (body: Session.cpp:324-336) |
| `GameSessionManager.GameSession.ProcessSend` | Server/Sources/Session/GameSessionManager.cpp:49-52 | is a run of the atomic steps, whatever number of bytes was transferred, and leaves that WSASend settled by the number as `CompleteSend` says: sends next what was pushed meanwhile, gives the right back, or on 0 bytes disconnects (body: Session.cpp:310-342) |
| `GameSessionManager.SessionManager.AddGameSession` | Server/Sources/Session/GameSessionManager.cpp:33-37 | set insertion, and the Add step of `Broadcast` |
| `GameSessionManager.SessionManager.RemoveGameSession` | Server/Sources/Session/GameSessionManager.cpp:39-43 | set removal, and the Remove step of `Broadcast` |
| `GameSessionManager.SessionManager.SendAll` | Server/Sources/Session/GameSessionManager.cpp:49-52 | the loop over the set is a run of the pushes and drains of its sessions |
| `GameSessionManager.SessionManager.SendTurn` | Server/Sources/Session/GameSessionManager.cpp:49-52 | one turn of the loop: one send, all other sessions and everything still to be sent unchanged |
| `GameSessionManager.SessionManager.Broadcast` | Server/Sources/Session/GameSessionManager.cpp:45-53 | every session of the set is sent the buffer exactly once, each with its own WSASend outcome, no other session is touched; the call is a run of `Broadcast` |

## Left out

- StructPb.BuffData.MergeFromBytes: of the record that made the bytes refused, does not say how many victims it left behind; that is up to the runtime.
- ProtocolPb.STest.MergeFromBytes: likewise, in the element a refused nested message leaves behind, not how many victims its own record at fault added.
- ProtocolPb.STest.AddBuffs: always makes a new object; the runtime may hand out an element cleared before, with the caches it had. Printing asks nothing of the caches.
- Framing.MakeSendBuffer: is the Debug build; with NDEBUG (Server/Server.vcxproj:76) the assert and the serialisation inside it disappear and the payload stays zero. A header that would not fit the buffer is an outcome, not a write.
- Framing.ClientReceive: a packet size outside what was received is an outcome (`Misframed`); the client does not check for it and would read past the received bytes. `Unparsed` is a packet the client shows although parsing failed: it carries the completely read records, not what the record at fault added. Printing is left out.
- SendQueue.Survives: the pointer is copied after the pop destroyed it; its bytes are taken to be still there, so that the copy is good if and only if the buffer has another owner. A pointer copied from a freed buffer is recorded as not intact, whatever sending it then does.
- GameSessionManager.SessionManager.Broadcast: runs each Send to its end; the interleavings are in `Broadcast`. The disconnect that an error of `WSASend` can cause is a `SetConnected` step of its own.
- Group wire types (3 and 4) are refused, where the runtime would keep a well-formed group as an unknown field; the recursion limit is left out with them.
- Sizes of 4 GiB and more, where the runtime silently truncates a length-prefix size; printing refuses everything above 2 GiB anyway.
- The second chance of the packed fast entry for an unpacked tag: the model takes the fallback, with the same result.
- Arenas, swaps and moves between arenas, and the build flags that turn moves into copies; cleared list elements are not reused.
- Getters, descriptors, reflection, default instances, thread-sanitizer hooks, prefetching, stream refills.
- The copies of the generated files in Common and DummyClient, and the unused enum.
- Receiving.ReceiveBuffer.Cleanup: is the Debug build, where asking for the room left in a full buffer, or for the data of an empty one, fails an assertion; `ProcessRead`, which nothing calls, is left out.
- Buffer reader and writer cursors, the server's own packet handler and packet session, sockets, completion ports, services, listeners, singletons, thread pool: plumbing around the path modelled here.
