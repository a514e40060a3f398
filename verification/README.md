# Editing protocol server: a verified model

The server end of an in-game world editor. A client sends packets, singly or in tunnelled frames; the server reads NBT, paletted chunk sections, annotations and entity edits out of them, applies them to the world, and answers with packets of the same formats. This project models the byte-level engines and the small protocols of that server and proves what they promise.

Each component has two sides. A **specification** of functions over byte sequences and positions says what reading, writing or editing some bytes yields, errors included. Beside it stand **methods and classes in the shape of the program** (a reader with a position, a growing buffer, a list edited in place, loops), each proved to do exactly what the specification says. The theorems are then about the specification, against an independent meaning: NBT trees, bit fields, the last section that names a block, the server's list of annotations, paths between vehicles.

| file | component |
|---|---|
| `bytes.dfy`, `buf.dfy` | fixed-width and variable-length integers, the reader and the writer, packed block positions |
| `nbt_tree.dfy`, `nbt_measure.dfy` | NBT trees and their encoding; the walker that measures a payload |
| `nbt_fields.dfy`, `nbt_lists.dfy`, `nbt_roots.dfy` | splitting and joining compounds and lists; root names |
| `nbt_merge.dfy`, `nbt_merge_spec.dfy`, `nbt_merge_twice.dfy` | merging on bytes and on trees, what it means key by key, when a second merge changes nothing |
| `nbt_sanitize.dfy`, `nbt_sanitize_spec.dfy`, `nbt_entity.dfy`, `nbt_edit.dfy` | the allow-list on bytes and on trees; a whole entity edit, and what it does key by key |
| `nbt_walker.dfy` | the NBT code in the form of the program |
| `zstd_raw.dfy` | frames of stored blocks, and a decoder written from section 3.1.1 of RFC 8878 |
| `palette.dfy`, `palette_forms.dfy`, `block_remap.dfy` | chunk sections and every form they take; the id translation tables |
| `block_buffer.dfy`, `block_buffer_run.dfy`, `block_buffer_bytes.dfy` | block buffers: what they mean, how they are applied, how a client writes them |
| `annotation_bodies.dfy`, `annotation_layout.dfy`, `annotations.dfy`, `annotation_actions.dfy` | annotation bodies and their layout; the replicated store and its packets |
| `tunnel.dfy`, `player_state.dfy`, `player_runs.dfy` | frame reassembly; the handshake, the budget and the dispatcher; what a client knows over whole runs |
| `chunk_response.dfy`, `chunk_client.dfy`, `chunk_answer.dfy` | the splitting answer to a chunk request, a client's reading of it, and the two together |
| `passengers.dfy` | who rides whom |

## Conventions

- Bytes, `u16`, `i32` and `i64` are integers of those ranges. A shift is a multiplication or a division by a power of two, cut to the word where the program's is; a mask of low bits is a remainder; `|` is `Bytes.BitOr`.
- A read is `Ok` with the value and the position after it, or one of the program's error kinds. After a read that fails, the position of the reader is not described, since every caller gives up.
- A length that would overflow the address space and a length that runs past the data both read as "end of data", as in the program.
- `Inflate` is the decompressor: any function from compressed bytes and a size to the result, if there is one. Every theorem holds for all of them.
- A compound whose names may repeat is a sequence of named trees, so the order of fields and repeated names are part of every statement.

## Where the code and its comments part

- A list of anything but compounds is said to read as empty (`src/nbt.rs:533`). It does only if it holds no element that takes bytes; otherwise it is refused as trailing data. Hence an entity whose riders are, say, a list of strings cannot be edited at all (`NbtLists.SplitsList`, `NbtSanitizeSpec.CleansExactlySeatable`).
- Merging is not idempotent, even with unique names: an empty compound inside a compound that the left side lacks is stored, and the next merge removes it. `NbtMergeTwice.MergeTwice` says exactly when a second merge changes nothing, and `NbtMergeTwice.NotIdempotent` is the smallest case where it does.
- The comment at `src/annotations.rs:190` promises that every client's state equals the server's. That holds for a packet exactly if all of it reads, or what its actions before the first fault do comes to nothing (`Annotations.PacketConverges`, `Annotations.RunConverges`): a packet that fails midway keeps what it applied and relays nothing (`Annotations.FailedBatchIsNotRelayed`). At capacity a create is dropped even if it would only replace (`Annotations.CreateNeedsRoom`). A full copy of a full store holds 4097 actions, one more than the server itself would read (`Annotations.FullCopyPastTheLimit`).
- A FIRST frame without a body that is not also LAST is treated as if it had never come (`src/tunnel.rs:115`): the rest of its packet is skipped, however long (`Tunnels.EmptyFirstIsForgotten`). A packet cut anywhere at all is heard exactly if it came in one frame, or its first frame has bytes and it fits the buffer (`Tunnels.FramedReassembles`). The server's own splitter never makes an empty first frame (`Tunnels.FramesAreSound`).
- The chunk response does not check its keys, which come from the client: an entry whose key is the sentinel ends the list it stands in. The answer to a request reads back exactly if there is none and no length overflows its field (`ChunkClient.PayloadReadsExactly`, `ChunkAnswers.AnswerRequest`).
- `compress_raw` writes the length cut to 32 bits, so its frames are right for data below 4 GiB and for no longer data (`ZstdRaw.FrameDecodes`).

## Model

| member | source | states |
|---|---|---|
| `Buf.Reader.Take` | src/buf.rs:85-91 | takes exactly the next bytes and moves past them, or reports the end of data |
| `Buf.Reader.Since` | src/buf.rs:210-215 | the bytes between an earlier position and this one |
| `Buf.Reader.FullyRead` | src/buf.rs:77-83 | succeeds only at the end, and otherwise reports how many bytes are left |
| `Buf.Reader.Rest` | src/buf.rs:93-97 | all that is left |
| `Buf.Reader.Var` | src/buf.rs:142-154 | the varint loop reads what the specification of a number in groups of seven bits reads, to the byte limit |
| `Buf.Reader.VarI32` | src/buf.rs:142-154 | a number of at most five groups, taken as signed 32-bit |
| `Buf.Reader.VarI64` | src/buf.rs:165-175 | a number of at most ten groups, taken as signed 64-bit |
| `Buf.Reader.VarLen` | src/buf.rs:156-163 | a length is neither negative nor above its limit, or an error says so |
| `Buf.Reader.ByteArray` | src/buf.rs:184-187 | a length within the limit and that many bytes |
| `Buf.Reader.String` | src/buf.rs:177-182 | a length-prefixed text within the string limit, refused if it is not valid text |
| `Buf.Writer.VarI32` | src/buf.rs:308-318 | appends the groups of the number's unsigned form, low group first |
| `Buf.Writer.VarI64` | src/buf.rs:320-330 | the same for 64 bits |
| `Buf.Writer.ByteArray` | src/buf.rs:336-338 | appends the length and the bytes |
| `Buf.VarI32Inverse` | src/buf.rs:142-318 | any signed 32-bit number, written anywhere in a packet, reads back, from at most five bytes and no more than were written |
| `Buf.VarI64Inverse` | src/buf.rs:165-330 | any signed 64-bit number reads back from at most ten bytes, exactly consumed |
| `Buf.NumbersEnd` | src/buf.rs:142-175 | a number ends with its first byte below 128; five bytes that go on, or ten for 64 bits, are too long, and one that is cut off is cut off |
| `Buf.VarDigit` | src/buf.rs:308-330 | the bytes of a number: seven bits each, the least first, the top bit on all but the last |
| `Buf.ByteArrayInverse` | src/buf.rs:184-338 | a byte array reads back, exactly consumed, exactly if it is within the limit |
| `Buf.StringInverse` | src/buf.rs:177-182 | a text reads back exactly if it is at most 98301 bytes and well-formed UTF-8 |
| `Buf.I64Inverse` | src/buf.rs:127-294 | a big-endian long reads back |
| `Buf.BigEndianDigit` | src/buf.rs:287-294 | fixed-width numbers have their most significant byte first |
| `Buf.LittleEndianDigit` | src/nbt.rs:133-147 | the numbers of a frame of stored blocks have their least significant byte first |
| `Buf.UuidInverse` | src/buf.rs:189-342 | a uuid reads back as its two halves |
| `Buf.UnpackInvertsPack` | src/buf.rs:218-229 | a position within 26, 12 and 26 signed bits survives packing |
| `Buf.PackInvertsUnpack` | src/buf.rs:218-229 | any long unpacks to a position within those ranges and packs to itself, so the two are a bijection |
| `NbtWalker.SkipPayload` | src/nbt.rs:358-425 | the recursive walk ends where the specification of a payload's end says, or fails with the same error, at any depth |
| `NbtWalker.TakeNetworkTag` | src/nbt.rs:349-356 | reads past one tag and yields all of its bytes |
| `NbtMeasure.MeasuresEncoding` | src/nbt.rs:358-425 | the walk consumes the encoding of any tree that fits the depth left, whatever follows |
| `NbtMeasure.PayloadIsEncoding` | src/nbt.rs:358-425 | whatever the walk accepts is the encoding of a tree of that tag that fits the depth left |
| `NbtMeasure.EncodingUnique` | src/nbt.rs:358-425 | two trees of one tag whose encodings stand at the same place are the same tree |
| `NbtMeasure.TagIsConsumedExactly` | src/nbt.rs:344-356 | a tag in the middle of a packet is consumed exactly |
| `NbtMeasure.TagSpansOneTree` | src/nbt.rs:344-356 | the span of an accepted tag is the encoding of one tree within the limit, and of no other |
| `NbtMeasure.DepthLimitIsExact` | src/nbt.rs:340-367 | an encoded tag is accepted exactly when its tree is no deeper than 512 levels |
| `NbtWalker.ReadFields` | src/nbt.rs:497-514 | the loop yields the fields the specification splits off, with the position after them |
| `NbtWalker.ReadCompound` | src/nbt.rs:485-494 | the whole tag, split: an absent tag is empty, another root is refused, so is anything left over |
| `NbtWalker.WriteFields` | src/nbt.rs:523-531 | appends each field's tag, name and payload, and the end |
| `NbtWalker.WriteCompound` | src/nbt.rs:517-521 | the tag byte and the fields |
| `NbtFields.JoinThenSplit` | src/nbt.rs:485-531 | for any list of fields: written and read again it is the same list exactly when each is well formed (a name that fits, a payload of its own tag within the depth) |
| `NbtFields.SplitThenJoin` | src/nbt.rs:485-531 | any accepted bytes, read and written again, are the same bytes, except that "no tag" becomes the empty compound |
| `NbtFields.SplitsWhatTheWalkerTakes` | src/nbt.rs:349-514 | the splitter accepts exactly the compounds and absent tags that the walker consumes whole |
| `NbtFields.NestedCompoundSplits` | src/nbt.rs:497-514 | a compound payload found inside an accepted one, which is re-read from depth 1, is accepted there and ends at its end |
| `NbtFields.TreesOfCompound` | src/nbt.rs:485-494 | whatever reads as a compound is the raw form of a list of named trees, and its bytes are their encoding |
| `NbtFields.CompoundOfTrees` | src/nbt.rs:485-531 | the written form of any list of trees within the limit reads back as their raw fields |
| `NbtWalker.ReadCompoundList` | src/nbt.rs:535-547 | a list payload, split into its compounds |
| `NbtWalker.CompoundList` | src/nbt.rs:550-558 | a list payload from written compounds |
| `NbtLists.SplitsList` | src/nbt.rs:533-547 | an encoded list of compounds splits into theirs, an empty list of any type is empty, and any other list is refused with the number of bytes its elements take |
| `NbtLists.WritesItems` | src/nbt.rs:549-558 | the elements written are the encodings of the items, one after the other |
| `NbtWalker.FieldVec.Put` | src/nbt.rs:473-481 | replaces the first field of that name in its place, or adds the field at the end |
| `NbtWalker.FieldVec.Merge` | src/nbt.rs:681-707 | the recursive in-place merge leaves the list and the outcome the specification of the merge on raw fields gives |
| `NbtWalker.FieldVec.MergeField` | src/nbt.rs:683-704 | one change: recursion into a compound, removal, replacement or addition |
| `NbtMerge.MergesTrees` | src/nbt.rs:681-707 | on the fields of any two sound compounds the merge succeeds and yields the raw form of the merged trees, although it re-reads nested payloads from depth 1 |
| `NbtMerge.MergeStaysWithin` | src/nbt.rs:681-707 | a merge is no deeper than the deeper of its inputs and every name still fits |
| `NbtMergeSpec.MergeMeaning` | src/nbt.rs:675-680 | with names unique at every level the field-by-field merge is the key-by-key one: left keys in order, each as its change leaves it, then the new keys in order |
| `NbtMergeSpec.MergeKeepsUnique` | src/nbt.rs:681-707 | merging keeps names unique at every level |
| `NbtMergeTwice.SelfMerge` | src/nbt.rs:675-707 | a compound merged into itself is itself exactly when it holds no empty compound at any level |
| `NbtMergeTwice.MergeTwice` | src/nbt.rs:675-707 | merging the same change twice is merging it once exactly when no deletion in it is stored as an empty compound the first time |
| `NbtMergeTwice.NotIdempotent` | src/nbt.rs:684-691 | a concrete change for which the second merge deletes what the first stored |
| `NbtWalker.FieldVec.SanitizeEntity` | src/nbt.rs:653-673 | the in-place pass leaves the list and the outcome the specification gives, and terminates on the bytes of the payloads |
| `NbtWalker.PatchPayload` | src/nbt.rs:664-670 | one list of riders, each sanitized and written back |
| `NbtSanitizeSpec.SanitizesTrees` | src/nbt.rs:653-673 | on the fields of any sound compound sanitizing succeeds exactly when cleaning its tree does, and yields the raw form of the cleaned tree, no deeper than before |
| `NbtSanitizeSpec.CleanIsAllowed` | src/nbt.rs:651-659 | every key left is on the allow-list, in the entity and in every rider at any depth |
| `NbtSanitizeSpec.AllowedStays` | src/nbt.rs:653-673 | what is allowed throughout is left exactly as it is |
| `NbtSanitizeSpec.CleanKeepsSettable` | src/nbt.rs:654-659 | the settable fields other than riders are the same, in the same order |
| `NbtSanitizeSpec.CleanMirrors` | src/nbt.rs:660-671 | no settable field is lost at any level and every rider stays in its place |
| `NbtSanitizeSpec.CleansExactlySeatable` | src/nbt.rs:535-673 | sanitizing fails exactly when some kept list of riders, at any level, holds an element that is not a compound |
| `NbtEntity.MergeOnBytes` | src/nbt.rs:485-707 | any two tags that read merge without failing; the result, written, reads again as the merge of their trees, within the deeper one's depth |
| `NbtEntity.SanitizeOnBytes` | src/nbt.rs:485-673 | a sanitized tag reads again after writing, holds only allowed keys, and a second pass changes nothing |
| `NbtEntity.MergeLeavesOthers` | src/nbt.rs:681-707 | the fields whose names a change does not hold are the same fields in the same order, repeated names included |
| `NbtEntity.EditCannotTouch` | src/handlers.rs:1012-1025 | an edit that goes through leaves all the fields off the allow-list and the position as they were, in their order, and writes a tag that reads |
| `NbtEdit.LookupMerged` | src/nbt.rs:675-707 | a merge holds under any key what the right side makes of the left side's value under it |
| `NbtEdit.EditMerges` | src/handlers.rs:1013-1024 | once both tags read, an edit goes through exactly if no list of riders in the change holds what is not a compound, and is the merge with what is left of the change |
| `NbtEdit.EditTakesEffect` | src/handlers.rs:1013-1024 | with unique names, what the client asks for under a name it may set takes effect, and every other name keeps its value |
| `NbtRoots.NamingIsUndone` | src/nbt.rs:83-116 | exactly compounds can be given a root name, and taking it out gives the document back |
| `NbtRoots.AnyNameIsTakenOut` | src/nbt.rs:83-98 | a root name of any length is taken out whole |
| `ZstdRaw.CompressRaw` | src/nbt.rs:127-151 | the loop over 128 KiB chunks writes the header and the blocks of the specification, the last of them flagged |
| `ZstdRaw.BlocksDecode` | src/nbt.rs:138-150 | a decoder reads the blocks as the data and stops at the end of the last one |
| `ZstdRaw.FrameDecodes` | src/nbt.rs:118-151 | a decoder of the frame format gets the data back exactly when its length is below 4 GiB |
| `ZstdRaw.FrameHasSize` | src/nbt.rs:138-150 | a frame takes nine bytes, the data, and three for every started 128 KiB |
| `Palette.ReadSection` | src/palette.rs:42-95 | reads one section: a single value, a palette with indices of 4 to 8 bits, or direct ids |
| `Palette.ReadPacked` | src/palette.rs:62-94 | unpacks the 4096 entries, refusing an index past the palette |
| `Palette.ReadId` | src/palette.rs:97-104 | an id that fits 16 bits, or an error |
| `Palette.BuildPalette` | src/palette.rs:119-133 | the distinct ids in order of first appearance and every entry's place among them, unless there are more than 256 |
| `Palette.WriteSectionIndirect` | src/palette.rs:109-156 | fails and writes nothing exactly when there are more than 256 distinct ids; otherwise appends the section |
| `Palette.WritePacked` | src/palette.rs:144-154 | filling words from the low end and flushing full ones writes each group of indices as one number in that base |
| `Palette.PaletteIds` | src/palette.rs:119-133 | the palette holds each id of the section once and nothing else |
| `Palette.BitLengthCovers` | src/palette.rs:158-162 | the width chosen can address the palette |
| `Palette.BitLengthLeast` | src/palette.rs:158-162 | and no smaller width can |
| `Palette.DigitAt` | src/palette.rs:68-147 | shifting a word down by an entry's place and masking recovers the entry |
| `Palette.PackedWord` | src/palette.rs:33-154 | each word on the wire holds its own group of entries, none of which straddles two words |
| `Palette.IndirectSectionReads` | src/palette.rs:42-156 | a section that fits a palette, written anywhere in a packet, reads back as the same entries to its last byte, at any direct width |
| `Palette.DirectSectionReads` | src/palette.rs:58-94 | a section packed at the width the reader settles on reads back as its ids |
| `PaletteForms.SingleValueReads` | src/palette.rs:43-48 | a section that declares no bits reads as its one id 4096 times, exactly consumed, at any direct width |
| `PaletteForms.PaletteSectionReads` | src/palette.rs:50-94 | a section that declares 1 to 8 bits, packed at 4 or more, reads as the ids its indices name, exactly if the palette is no longer than the width can address and no index is past its end |
| `PaletteForms.WideSectionReads` | src/palette.rs:58-94 | a section that declares more than 8 bits is read at the larger of that and the reader's own width, but at most at 16 |
| `BlockRemap.Invert` | tools/gen_block_remap.py:54-56 | the map holds the lowest server id of every client id in the table, and no others |
| `BlockRemap.ToServerRuns` | tools/gen_block_remap.py:48-64 | the runs are in order and disjoint, cover exactly the inverse, and no two of them could be joined |
| `BlockRemap.PartitionPoint` | tools/gen_block_remap.py:119 | the halving search splits the runs into those that start at or before the id and the rest |
| `BlockRemap.ToServer` | tools/gen_block_remap.py:113-125 | over the runs of any table of fewer than 65536 ids, finds the lowest server id of the client id, and nothing exactly when there is none |
| `BlockRemap.ToClientReads` | tools/gen_block_remap.py:127-133 | the packed table gives back its entries and nothing past its end |
| `BlockRemap.ThereAndBack` | tools/gen_block_remap.py:113-133 | a client id translated to the server and back is itself |
| `BlockRemap.RunsFitTheTable` | tools/gen_block_remap.py:57-64 | lengths and offsets of the runs fit the emitted fields |
| `BlockBufferRuns.SortByOffset` | src/handlers.rs:415 | the entities in order of offset, none lost |
| `BlockBufferRuns.Search` | src/handlers.rs:440-442 | the halving search finds an entity at the offset, or there is none |
| `BlockBufferRuns.SearchIsScan` | src/handlers.rs:415-442 | with unique offsets, searching the sorted list finds what a scan of the list as sent finds |
| `BlockBuffers.Finds` | src/handlers.rs:440-443 | looking an entity up by its offset finds one exactly if one is there |
| `BlockBufferRuns.Translate` | src/handlers.rs:151-158 | a client's id in the server's registry, or nothing |
| `BlockBufferRuns.ReadPending` | src/handlers.rs:400-405 | one block entity as it stands in the buffer |
| `BlockBufferRuns.ReadSectionData` | src/handlers.rs:390-414 | one section with its entities, which are dropped where NBT is not permitted |
| `BlockBufferRuns.BufferEdit.ApplyBlockEntity` | src/handlers.rs:54-89 | charges the declared size to the budget, or skips the entity, and sets what unpacks |
| `BlockBufferRuns.BufferEdit.ApplyBlock` | src/handlers.rs:424-445 | one block in the loops' coordinates is the entry at its index, unless it is unknown or the empty id, and the entity found by its offset |
| `BlockBufferRuns.BufferEdit.ApplySection` | src/handlers.rs:415-448 | the three nested loops apply all 4096 entries in order |
| `BlockBufferRuns.BufferEdit.ApplyBlockBuffer` | src/handlers.rs:385-454 | the loop applies every section before the sentinel, or before the first failure, and reports the sections and what the client has left |
| `BlockBuffers.SectionSets` | src/handlers.rs:421-435 | a section gives each block of it the lowest server id for the client's id at the block's index, if that is in the registry and not the empty id, and leaves it as it was otherwise |
| `BlockBuffers.BufferMeaning` | src/handlers.rs:385-450 | every block of the world is what the last section that gives it an id says, and every other block is as it was |
| `BlockBuffers.EntryCoordinates` | src/palette.rs:27-31 | an entry's index and the coordinates of its block determine each other |
| `BlockBuffers.OffsetNamesBlock` | src/handlers.rs:46-48 | an entity's offset names one block, in another order of coordinates than the entries |
| `BlockBuffers.BufferAccounted` | src/handlers.rs:37-70 | what a buffer makes the server decompress never exceeds 32 MiB in all, and the budget left is the rest |
| `BlockBuffers.BufferEntities` | src/handlers.rs:54-445 | the documents at the blocks, in order, and the budget left are those of the entities that came with blocks the buffer set, of the known dictionary, each within what the ones before it left |
| `BlockBuffers.PlacedWhereSent` | src/handlers.rs:435-443 | each of those entities was sent in a section that set its block, under the offset of that block |
| `BlockBufferBytes.PendingReads` | src/handlers.rs:400-405 | a block entity reads as itself exactly if it is at most a mebibyte, packed and unpacked |
| `BlockBufferBytes.SectionTailReads` | src/handlers.rs:390-414 | a section reads as it was written; its entities survive exactly with the permission to place NBT |
| `BlockBufferBytes.TooManyEntities` | src/handlers.rs:395-397 | a section that claims more entities than it has blocks is refused |
| `BlockBufferBytes.BufferReads` | src/handlers.rs:385-454 | a buffer reads as the sections a client wrote, up to the sentinel, and then the client's own figure |
| `BlockBufferBytes.NothingAvailable` | src/handlers.rs:454 | a buffer that stops at its sentinel counts as a client with nothing left |
| `BlockBufferBytes.CopiedIsPlaced` | src/handlers.rs:400-708 | a block entity as it is copied out is, behind its place instead of its key, one as it is sent in |
| `AnnotationBodies.TakeBody` | src/annotations.rs:65-132 | consumes one body of any of the six kinds and returns its bytes |
| `AnnotationBodies.BodyLocal` | src/annotations.rs:65-132 | a body reads the same wherever its bytes stand |
| `AnnotationBodies.PositionedKinds` | src/annotations.rs:52-62 | of whole bodies, exactly text and image annotations have a transform |
| `AnnotationBodies.TransformIsOpaque` | src/annotations.rs:52-62 | any bytes may be put in place of the transform: the body stays whole and its transform stays where it is |
| `AnnotationBodies.TransformsStayWhole` | src/annotations.rs:167-185 | a moved or rotated body is whole, its transform where it was |
| `AnnotationBodies.TransformsCommute` | src/annotations.rs:167-185 | moving and rotating commute, and a second move or rotation replaces the first |
| `AnnotationLayout.LayoutReads` | src/annotations.rs:64-132 | a body of any of the six kinds, as a client lays it out, is taken to its last byte anywhere in a packet, exactly if its lengths are within the limits |
| `AnnotationLayout.LaidOutIsWhole` | src/annotations.rs:65-161 | so a create with such a body is one the server holds whole |
| `AnnotationLayout.TransformsSet` | src/annotations.rs:45-185 | a move is the same body with another position, a rotation the same body with another rotation, for texts and images; others do not change |
| `AnnotationActions.ActionReads` | src/annotations.rs:150-188 | each of the five actions, as a client writes it, reads as itself and to its last byte anywhere in a packet |
| `AnnotationActions.OtherTagsAreRefused` | src/annotations.rs:187 | there is no action above the fifth |
| `AnnotationActions.BatchReads` | src/annotations.rs:137-151 | a batch reads as its actions, whatever follows it, exactly if there are at most 4096 |
| `AnnotationActions.BatchIsAnswered` | src/annotations.rs:142-207 | the list after a batch is what its actions make of it one by one, and what is relayed is, byte for byte, a batch of those that were taken |
| `AnnotationActions.OthersKeepOrder` | src/annotations.rs:160-166 | deleting or replacing takes out the entries of that uuid and keeps the others in their order |
| `AnnotationActions.CreateGoesLast` | src/annotations.rs:160-161 | a create puts its entry at the end, also where it replaces one further up |
| `Annotations.ReadAction` | src/annotations.rs:150-188 | reads one action of a batch, or refuses it |
| `Annotations.Store.Patch` | src/annotations.rs:175-184 | overwrites the transform of the first annotation of that uuid in place, if it has one |
| `Annotations.Store.Handle` | src/annotations.rs:135-207 | a packet leaves the list, the outcome and the relayed bytes the specification gives, also when it fails midway |
| `Annotations.Store.SendAll` | src/annotations.rs:210-226 | a clear and one create for each annotation |
| `Annotations.ActionMeaning` | src/annotations.rs:153-186 | what an action does to the body held under any uuid: its own changes, every other stays |
| `Annotations.AnswersByReading` | src/annotations.rs:137-197 | whether a packet is handled to its end depends on its bytes alone, and the list afterwards is what its actions before the first fault make of it |
| `Annotations.PacketKeepsSound` | src/annotations.rs:134-207 | after any packet, also one that fails, uuids are unique, at most 4096, and every body is whole |
| `Annotations.ReachableIsSound` | src/annotations.rs:134-207 | so every store the server can reach from the empty one is sound |
| `Annotations.RelayReplays` | src/annotations.rs:190-193 | the relayed bytes, read as actions wherever they stand and applied without a capacity, lead from the old list to the new one |
| `Annotations.BatchConverges` | src/annotations.rs:134-207 | a packet that reads takes a copy of the old list to the new list, and if nothing was relayed the list did not change |
| `Annotations.PacketConverges` | src/annotations.rs:134-207 | a copy that equalled the list before a packet equals it afterwards exactly if the packet reads, or its actions before the first fault leave the list as it was |
| `Annotations.FullCopySyncs` | src/annotations.rs:209-226 | a full copy puts any client, whatever it held, in the server's state |
| `Annotations.FullCopyPastTheLimit` | src/annotations.rs:209-225 | a full copy is within the limit the server reads by exactly while the store is not full |
| `Annotations.CreateNeedsRoom` | src/annotations.rs:154-162 | a create is taken and relayed exactly while there is room; afterwards the body is held exactly if it was taken or was held before |
| `Annotations.RunConverges` | src/annotations.rs:134-226 | a client that got one full copy and every relay has the server's list, in order, all along a run exactly if each packet of it is one that copies follow, also where creates are dropped at capacity |
| `Annotations.FailedBatchIsNotRelayed` | src/annotations.rs:186-197 | a concrete batch that empties the server and tells no one |
| `Tunnels.Tunnel.Push` | src/tunnel.rs:97-132 | one frame: what is pending afterwards and what it yields |
| `Tunnels.Decode` | src/tunnel.rs:135-152 | the reads of an id, a size and flags, with the program's errors, and the body as it is or unpacked |
| `Tunnels.PacketDecodes` | src/tunnel.rs:135-152 | a packet comes out with its id and its body; only the lowest flag says that the body must be unpacked, to the declared size, which must be at most 2 MiB |
| `Tunnels.BadFramesAreRefused` | src/tunnel.rs:97-101 | a frame that is too long or empty is reported and changes nothing |
| `Tunnels.OtherFlagsAreIgnored` | src/tunnel.rs:103-104 | of a frame's flags only the lower two matter |
| `Tunnels.Tunnel.Reset` | src/tunnel.rs:91-94 | nothing pending, nothing skipped |
| `Tunnels.SplitFrames` | src/tunnel.rs:193-215 | the loop cuts the payload into the frames of the specification |
| `Tunnels.FramesAreSound` | src/tunnel.rs:190-215 | every frame but the last is as long as a frame may be, and none opens a longer packet without bytes |
| `Tunnels.RunsStayBounded` | src/tunnel.rs:97-132 | in every run at most 2 MiB are pending, and nothing while skipping |
| `Tunnels.FramedRun` | src/tunnel.rs:97-132 | from any state, the frames of a packet cut anywhere yield exactly: silence and then the packet; or silence throughout after an empty first frame; or one error at the frame that outgrows the buffer |
| `Tunnels.FramedReassembles` | src/tunnel.rs:97-132 | from any state, a packet cut anywhere is heard, silently until its last frame, exactly if it is a single frame or its first frame has bytes and it is at most 2 MiB; otherwise no frame yields a packet |
| `Tunnels.SplitsAsFramed` | src/tunnel.rs:190-215 | the server's own cut is one of those, and loses nothing |
| `Tunnels.SplitThenPush` | src/tunnel.rs:97-215 | the corollary for the server's own cut: from any state its frames of a packet of at most 2 MiB yield nothing until the last, which yields the packet decoded |
| `Tunnels.TooLongNeverCompletes` | src/tunnel.rs:121-124 | the corollary for a longer packet: none of the server's frames yields one |
| `Tunnels.SinglesDoNotDisturb` | src/tunnel.rs:106-108 | single-frame packets anywhere among other frames decode on their own and leave all else as if they had not come |
| `Tunnels.EmptyFirstIsForgotten` | src/tunnel.rs:110-119 | a packet of two or more frames whose first has no bytes is skipped to its end, from any state |
| `ChunkResponses.ChunkResponse.Push` | src/handlers.rs:614-619 | the entry joins the list that is open, in the next payload exactly where this one is too full |
| `ChunkResponses.ChunkResponse.EndEntities` | src/handlers.rs:622-625 | closes the entity list and changes nothing pushed so far |
| `ChunkResponses.ChunkResponse.Flush` | src/handlers.rs:627-642 | sends one payload with both lists closed, and the next goes on in the list that was open |
| `ChunkResponses.ChunkResponse.Finish` | src/handlers.rs:644-646 | all that was sent is closed payloads of the entries in order, only the last one flagged |
| `ChunkResponses.Respond` | src/handlers.rs:588-735 | for any entries: the payloads are closed, hold the entries in order with all entities before any section, only the last is flagged, and entries of at most the limit less 16 bytes keep each within the limit plus 17 |
| `ChunkClient.PayloadReadsExactly` | src/handlers.rs:588-647 | a payload parses as its id, its entities, its sections and its flag, with nothing left over, exactly if no key is the sentinel and no length overflows |
| `ChunkAnswers.AnswerRequest` | src/handlers.rs:689-735 | a client that reads every payload collects one entry for each compound found, with its key, its size and a frame of the document, and each section of at most 256 ids, none else, in order, exactly if no key of theirs is the sentinel and no length overflows; if the entities are short every payload is within the limit |
| `ChunkAnswers.AllSectionsArrive` | src/handlers.rs:714-735 | so if every section asked for has at most 256 ids, the sections collected are those asked for |
| `ChunkAnswers.RefuseRequest` | src/handlers.rs:658-687 | a refusal is an answer with nothing in it, complete at once |
| `ChunkClient.WriteEntity` | src/handlers.rs:704-708 | the bytes of one entity entry |
| `ChunkClient.WriteSectionEntry` | src/handlers.rs:719-731 | the bytes of one section entry, or none if it does not fit a palette |
| `ChunkClient.SectionsAreShort` | src/handlers.rs:719-732 | no section entry comes near the size of a payload |
| `ChunkAnswers.CopiedEntityReturns` | src/handlers.rs:54-708 | a block entity copied to a client and handed back unchanged is the document the world held, exactly if it is shorter than 4 GiB |
| `PlayerStates.PlayerState.TopUpDispatchSends` | src/proto.rs:196-211 | one tick's budget, capped, announced when the whole sections moved |
| `PlayerStates.PlayerState.ConsumeDispatchSends` | src/proto.rs:225-236 | charges a buffer with saturation and takes the client's own figure if that is less |
| `PlayerStates.PlayerState.UpdateRestrictions` | src/proto.rs:238-246 | sends restrictions only when they changed |
| `PlayerStates.PlayerState.Tick` | src/proto.rs:135-185 | one tick of one player: top-up, revocation, offer or refusal |
| `PlayerStates.PlayerState.HandleHello` | src/proto.rs:344-401 | the answer to an offer, in the program's order of checks |
| `PlayerStates.PlayerState.Activate` | src/proto.rs:403-430 | the state of a player that has just become active |
| `PlayerStates.PlayerState.OnPayload` | src/proto.rs:279-297 | a message through the tunnel or past it |
| `PlayerStates.PlayerState.Dispatch` | src/proto.rs:299-342 | only a greeting gets past an inactive player, and a handler that fails kicks |
| `PlayerStates.StepKeepsSound` | src/proto.rs:135-430 | every step keeps: active means no offer pending, inactive means an untouched tunnel and no budget, the budget is at most 20480, the tunnel is bounded |
| `PlayerStates.ActivationNeedsEcho` | src/proto.rs:344-430 | an inactive player becomes active exactly by echoing the pending token in the right version, with permission and a supported client |
| `PlayerStates.InactiveIsUntouched` | src/proto.rs:279-302 | nothing else it sends changes its tunnel, its budget or its flag |
| `PlayerStates.EachOfferWorksOnce` | src/proto.rs:165-377 | over every run a token is accepted at most as often as it was offered |
| `PlayerStates.AcceptedIsExact` | src/proto.rs:225-236 | nothing accepted saturates |
| `PlayerStates.ChargeMeaning` | src/proto.rs:225-236 | a buffer is within the limit exactly if neither what the server counts as left nor the client's own figure is below minus a full budget; the smaller of the two is kept, each cut to 32 bits |
| `PlayerStates.RateLimit` | src/proto.rs:196-236 | over every run of top-ups and buffers, twenty times the accepted sections is at most two full budgets and 1024 for each top-up |
| `PlayerStates.BudgetFollowsSpends` | src/proto.rs:135-342 | within one activation only top-ups and buffers move the budget, so every stretch of ticks and packets obeys the rate limit |
| `PlayerStates.AnnouncementsAddUp` | src/proto.rs:194-211 | what consecutive top-ups announce sums to the change in whole sections, also below zero |
| `PlayerStates.BudgetRecovers` | src/proto.rs:196-211 | forty ticks restore the full budget from anywhere a buffer was still accepted |
| `PlayerRuns.HelloReads` | src/proto.rs:344-352 | of the three numbers of a greeting the first is the protocol version, and the token follows them |
| `PlayerRuns.GreetingLetsIn` | src/proto.rs:354-399 | a player with permission and a supported client is let in by a greeting of version 10 with the token it was offered, and by no other |
| `PlayerRuns.GreetingRefusals` | src/proto.rs:354-397 | a wrong version is kicked and keeps its offer, a wrong token changes nothing, the right one is used up also without permission |
| `PlayerRuns.TunnelIsTransparent` | src/proto.rs:279-297 | for an active player a packet in a frame of the tunnel does what the packet itself does |
| `PlayerRuns.TunnelFailureKicks` | src/proto.rs:289-293 | a frame that fails gets its player kicked, and changes nothing but the tunnel |
| `PlayerRuns.ClientAgrees` | src/proto.rs:135-430 | over every run the client has the plugin on exactly while the player is active, and then knows exactly the restrictions the server holds |
| `PlayerRuns.SlowTickMeaning` | src/proto.rs:150-183 | after a slow tick a player without permission is inactive, without offer or budget; with it, an active one is held to its restrictions of that moment and any other has an offer |
| `PlayerRuns.RefusedOnce` | src/proto.rs:176-183 | a second slow tick without permission says nothing |
| `PlayerRuns.FastTickMeaning` | src/proto.rs:141-149 | between slow ticks only the budget of an active player moves |
| `PlayerRuns.NewsOnly` | src/proto.rs:203-245 | restrictions are sent exactly when they changed, and the budget is announced exactly when whole sections were gained |
| `PlayerRuns.FirstTopUp` | src/proto.rs:198-202 | the first top-up grants and announces the whole budget |
| `PlayerRuns.HandlersTakeEffect` | src/proto.rs:225-341 | a buffer beyond the budget, or a handler that fails, kicks; a trigger setting is kept |
| `PlayerRuns.TruncDivMeaning` | src/proto.rs:206-207 | division cuts towards zero, for budgets below zero too |
| `Passengers.RidesOn` | src/handlers.rs:1118-1132 | on a relation without loops the walk ends and is true exactly when the other is this entity or one below it |
| `Passengers.GuardIsExact` | src/handlers.rs:1065-1070 | seating an entity without a vehicle closes a loop exactly when the guard refuses it |
| `Passengers.PathIsShort` | src/handlers.rs:1124-1130 | without loops no walk is longer than the number of seated entities and one |
| `Passengers.RunsStayAcyclic` | src/handlers.rs:1060-1080 | over every run of additions, removals and ejections there is never a loop, whatever else decides who may be moved |
| `Passengers.ReachableIsAcyclic` | src/handlers.rs:1060-1080 | so no run from a world where nobody rides leads to a loop |
| `Passengers.AdditionsOnlySeat` | src/handlers.rs:1063-1072 | an addition unseats no one, and seats exactly those that were named at a moment when they had no vehicle, might be moved and did not carry the entity |
| `Passengers.RemovalsOnlyUnseat` | src/handlers.rs:1073-1079 | a removal unseats exactly the riders of the entity that were named at a moment when they might be moved, and keeps every other seat |
| `Passengers.EjectionsOnlyUnseat` | src/handlers.rs:1062 | after an ejection nobody rides the entity and every other seat is kept |
| `Passengers.World.AddPassengers` | src/handlers.rs:1063-1072 | the loop over the named passengers, each checked against the seats as they are by then |
| `Passengers.World.RemovePassengers` | src/handlers.rs:1073-1079 | the loop over the named passengers, each unseated only from this entity |
| `Passengers.World.EjectPassengers` | src/handlers.rs:1062 | no one rides the entity any more and every other seat is kept |

## Left out

- BlockBufferRuns.BufferEdit.ApplyBlockBuffer: where entities of one section share an offset, only the blocks and the decompression total are stated, since an unstable sort leaves open which entity is attached.
- PlayerStates.EachOfferWorksOnce: tokens are given, so two offers may carry the same one; randomness is not modelled.
- Zstd decompression and the embedded dictionary: an external library, here the parameter `Inflate`; only the writing of frames is the program's own. The kinds of its errors are one outcome.
- Error messages: reduced to their kinds and, where the kind carries one, their numbers.
- Floating point: angles, positions and sizes stay four- or eight-byte patterns; entity movement, hanging entities, spawn bounds, fly speed and teleport are not modelled.
- The host: worlds, chunks, loaded chunks, entities and permissions are maps, boolean answers and logs of what is sent. Blocks that the host refuses to set, or changes by itself, are not modelled.
- One dimension of annotations and one player at a time are modelled; the maps that hold them all, and dropping players that left beyond their state starting over are not.
- The handlers behind the dispatcher other than block buffers, chunk requests, annotations and the entity edit: set block, game mode, time, spawning, deleting, biomes, ticking. What they do to a player's state is the parameter `Effect`.
- Restrictions and the activation packet's list of packet ids: opaque bytes.
- The Rust text the table generator emits, and parsing its input; runs and tables are values.
- Reading a chunk request, and putting a section into an older client's ids before it is written: the list of what was found, and of sections as the client will see them, is given.
- Logging, diagnostics, timing, and the cap of 128 sections served for one request, which only shortens the list a request is answered for.
