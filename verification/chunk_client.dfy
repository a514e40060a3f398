/**
  A chunk data response from end to end: the entries the server writes, and a reader
  that takes each payload apart as its format says.  What the reader collects over all
  payloads is what the server put in.
 */
module ChunkClient {
  import opened Bytes
  import opened Buf
  import opened Palette
  import opened NbtRoots
  import opened ZstdRaw
  import opened ChunkResponses

  datatype EntityEntry = EntityEntry(key: i64, size: nat, dictionary: byte, compressed: seq<byte>)

  datatype SectionEntry = SectionEntry(key: i64, entries: Option<seq<u16>>)

  datatype Reply = Reply(id: i64, entities: seq<EntityEntry>, sections: seq<SectionEntry>, finished: bool)

  // ----- reading a payload -----

  function EntitiesAt(data: seq<byte>, pos: nat): (r: Result<Parsed<seq<EntityEntry>>>)
    requires pos <= |data|
    ensures r.Ok? ==> pos <= r.value.end <= |data|
    decreases |data| - pos
  {
    var key :- I64At(data, pos);
    if key.value == MIN_POSITION_LONG then Ok(Parsed([], key.end))
    else
      var size :- VarLenAt(data, key.end, 0x7FFF_FFFF);
      var dictionary :- U8At(data, size.end);
      var compressed :- ByteArrayAt(data, dictionary.end, 0x7FFF_FFFF);
      var rest :- EntitiesAt(data, compressed.end);
      var head := EntityEntry(key.value, size.value, dictionary.value, compressed.value);
      Ok(Parsed([head] + rest.value, rest.end))
  }

  function SectionsAt(data: seq<byte>, pos: nat, direct: byte): (r: Result<Parsed<seq<SectionEntry>>>)
    requires pos <= |data|
    ensures r.Ok? ==> pos <= r.value.end <= |data|
    decreases |data| - pos
  {
    var key :- I64At(data, pos);
    if key.value == MIN_POSITION_LONG then Ok(Parsed([], key.end))
    else
      var present :- U8At(data, key.end);
      if present.value == 0 then
        var rest :- SectionsAt(data, present.end, direct);
        Ok(Parsed([SectionEntry(key.value, None)] + rest.value, rest.end))
      else
        var entries :- SectionAt(data, present.end, direct);
        var rest :- SectionsAt(data, entries.end, direct);
        Ok(Parsed([SectionEntry(key.value, Some(entries.value))] + rest.value, rest.end))
  }

  function ReplyOf(data: seq<byte>, direct: byte): Result<Reply> {
    var id :- I64At(data, 0);
    var entities :- EntitiesAt(data, id.end);
    var sections :- SectionsAt(data, entities.end, direct);
    var finished :- U8At(data, sections.end);
    var _ :- ExpectFullyRead(data, finished.end);
    Ok(Reply(id.value, entities.value, sections.value, finished.value != 0))
  }

  // ----- the entries as written -----

  function EntityBytes(e: EntityEntry): seq<byte> {
    I64Bytes(e.key) + (VarI32Bytes(Signed32(e.size % TWO32)) + ([e.dictionary] + ByteArrayBytes(e.compressed)))
  }

  /** Lengths fit their fields and the key does not end the list. */
  predicate Sendable(e: EntityEntry) {
    e.key != MIN_POSITION_LONG && e.size < 0x8000_0000 && |e.compressed| < 0x8000_0000
  }

  predicate Fits(s: SectionEntry) {
    s.entries.Some? ==> |PaletteOf(s.entries.value)| <= MAX_INDIRECT_PALETTE
  }

  /** A section that is there has all its entries. */
  predicate FullEntry(s: SectionEntry) {
    s.entries.Some? ==> |s.entries.value| == SECTION_VOLUME
  }

  predicate SendableSection(s: SectionEntry) {
    s.key != MIN_POSITION_LONG && FullEntry(s)
  }

  predicate AllFit(ss: seq<SectionEntry>) {
    forall i :: 0 <= i < |ss| ==> Fits(ss[i])
  }

  predicate AllSendable(es: seq<EntityEntry>) {
    forall i :: 0 <= i < |es| ==> Sendable(es[i])
  }

  predicate AllFull(ss: seq<SectionEntry>) {
    forall i :: 0 <= i < |ss| ==> FullEntry(ss[i])
  }

  predicate AllSectionsSendable(ss: seq<SectionEntry>) {
    forall i :: 0 <= i < |ss| ==> SendableSection(ss[i])
  }

  function SectionEntryBytes(s: SectionEntry): seq<byte>
    requires Fits(s)
  {
    I64Bytes(s.key) + match s.entries
      case None => [0]
      case Some(entries) => [1] + SectionBytes(entries)
  }

  function AllEntityBytes(es: seq<EntityEntry>): (r: seq<seq<byte>>)
    ensures |r| == |es| && forall i :: 0 <= i < |es| ==> r[i] == EntityBytes(es[i])
  {
    seq(|es|, i requires 0 <= i < |es| => EntityBytes(es[i]))
  }

  function AllSectionBytes(ss: seq<SectionEntry>): (r: seq<seq<byte>>)
    requires AllFit(ss)
    ensures |r| == |ss| && forall i :: 0 <= i < |ss| ==> r[i] == SectionEntryBytes(ss[i])
  {
    seq(|ss|, i requires 0 <= i < |ss| => SectionEntryBytes(ss[i]))
  }

  lemma {:induction false} ConcatCons(entries: seq<seq<byte>>)
    requires entries != []
    ensures Concat(entries) == entries[0] + Concat(entries[1..])
    decreases |entries|
  {
    hide Concat;
    var n := |entries| - 1;
    var head, tail := entries[..n], entries[1..];
    assert entries == head + [entries[n]];
    ConcatAppend(head, entries[n]);
    NothingPushed();
    if n == 0 {
      assert head == [] && tail == [];
    } else {
      ConcatCons(head);
      assert tail == head[1..] + [entries[n]];
      ConcatAppend(head[1..], entries[n]);
      assert (head[0] + Concat(head[1..])) + entries[n] == head[0] + (Concat(head[1..]) + entries[n]);
    }
  }

  /** Both lists end at the sentinel. */
  lemma ListEnds(data: seq<byte>, pos: nat, direct: byte)
    requires At(data, pos, Sentinel())
    ensures EntitiesAt(data, pos) == Ok(Parsed([], pos + 8))
    ensures SectionsAt(data, pos, direct) == Ok(Parsed([], pos + 8))
  {
    hide I64Bytes, I64At, PackBlockPos;
    I64Inverse(data, pos, MIN_POSITION_LONG);
  }

  lemma EntityStep(e: EntityEntry, data: seq<byte>, pos: nat)
    requires Sendable(e) && At(data, pos, EntityBytes(e))
    ensures var rest := EntitiesAt(data, pos + |EntityBytes(e)|);
      EntitiesAt(data, pos) == if rest.Err? then rest else Ok(Parsed([e] + rest.value.value, rest.value.end))
  {
    hide I64Bytes, I64At, VarI32Bytes, VarI32At, ByteArrayBytes, ByteArrayAt, PackBlockPos;
    var size, tail := VarI32Bytes(e.size), ByteArrayBytes(e.compressed);
    assert EntityBytes(e) == I64Bytes(e.key) + (size + ([e.dictionary] + tail));
    AtConcat(data, pos, I64Bytes(e.key), size + ([e.dictionary] + tail));
    AtConcat(data, pos + 8, size, [e.dictionary] + tail);
    AtConcat(data, pos + 8 + |size|, [e.dictionary], tail);
    I64Inverse(data, pos, e.key);
    VarI32Inverse(data, pos + 8, e.size);
    assert data[pos + 8 + |size|] == data[pos + 8 + |size|..pos + 9 + |size|][0];
    ByteArrayInverse(data, pos + 9 + |size|, e.compressed, 0x7FFF_FFFF);
  }

  lemma {:induction false} EntitiesRead(es: seq<EntityEntry>, data: seq<byte>, pos: nat)
    requires AllSendable(es)
    requires At(data, pos, Concat(AllEntityBytes(es)) + Sentinel())
    ensures EntitiesAt(data, pos) == Ok(Parsed(es, pos + |Concat(AllEntityBytes(es))| + 8))
    decreases |es|
  {
    hide EntityBytes, Concat, Sendable, EntitiesAt, Sentinel;
    var raw := AllEntityBytes(es);
    AtConcat(data, pos, Concat(raw), Sentinel());
    if es == [] {
      assert raw == [];
      NothingPushed();
      ListEnds(data, pos, 0);
    } else {
      assert raw[1..] == AllEntityBytes(es[1..]);
      ConcatCons(raw);
      AtConcat(data, pos, raw[0], Concat(raw[1..]));
      AtConcat(data, pos + |raw[0]|, Concat(raw[1..]), Sentinel());
      EntityStep(es[0], data, pos);
      EntitiesRead(es[1..], data, pos + |raw[0]|);
      assert es == [es[0]] + es[1..];
    }
  }

  lemma SectionStep(s: SectionEntry, data: seq<byte>, pos: nat, direct: byte)
    requires SendableSection(s) && Fits(s) && At(data, pos, SectionEntryBytes(s))
    ensures var rest := SectionsAt(data, pos + |SectionEntryBytes(s)|, direct);
      SectionsAt(data, pos, direct) == if rest.Err? then rest else Ok(Parsed([s] + rest.value.value, rest.value.end))
  {
    hide I64Bytes, I64At, SectionBytes, SectionAt, PaletteOf, PackBlockPos;
    I64Prefix(s, data, pos);
    assert data[pos + 8] == data[pos + 8..pos + 9][0];
    if s.entries.Some? {
      PaletteIds(s.entries.value);
      IndirectSectionReads(s.entries.value, data, pos + 9, direct);
    }
  }

  lemma I64Prefix(s: SectionEntry, data: seq<byte>, pos: nat)
    requires Fits(s) && At(data, pos, SectionEntryBytes(s))
    ensures I64At(data, pos) == Ok(Parsed(s.key, pos + 8))
    ensures At(data, pos + 8, [if s.entries.Some? then 1 else 0])
    ensures s.entries.Some? ==> At(data, pos + 9, SectionBytes(s.entries.value))
    ensures |SectionEntryBytes(s)| == if s.entries.Some? then 9 + |SectionBytes(s.entries.value)| else 9
  {
    hide I64Bytes, I64At, SectionBytes;
    var tail := match s.entries
      case None => [0]
      case Some(entries) => [1] + SectionBytes(entries);
    AtConcat(data, pos, I64Bytes(s.key), tail);
    I64Inverse(data, pos, s.key);
    if s.entries.Some? {
      AtConcat(data, pos + 8, [1], SectionBytes(s.entries.value));
    }
  }

  lemma {:induction false} SectionsRead(ss: seq<SectionEntry>, data: seq<byte>, pos: nat, direct: byte)
    requires AllSectionsSendable(ss) && AllFit(ss)
    requires At(data, pos, Concat(AllSectionBytes(ss)) + Sentinel())
    ensures SectionsAt(data, pos, direct) == Ok(Parsed(ss, pos + |Concat(AllSectionBytes(ss))| + 8))
    decreases |ss|
  {
    hide SectionEntryBytes, Concat, SectionsAt, Fits, SendableSection, Sentinel;
    var raw := AllSectionBytes(ss);
    AtConcat(data, pos, Concat(raw), Sentinel());
    if ss == [] {
      assert raw == [];
      NothingPushed();
      ListEnds(data, pos, direct);
    } else {
      assert raw[1..] == AllSectionBytes(ss[1..]);
      ConcatCons(raw);
      AtConcat(data, pos, raw[0], Concat(raw[1..]));
      AtConcat(data, pos + |raw[0]|, Concat(raw[1..]), Sentinel());
      SectionStep(ss[0], data, pos, direct);
      SectionsRead(ss[1..], data, pos + |raw[0]|, direct);
      assert ss == [ss[0]] + ss[1..];
    }
  }

  /** Each payload reads as the entries put into it, and nothing is left over. */
  lemma PayloadReads(id: i64, es: seq<EntityEntry>, ss: seq<SectionEntry>, finished: bool, direct: byte)
    requires AllSendable(es)
    requires AllSectionsSendable(ss) && AllFit(ss)
    ensures var part := Part(AllEntityBytes(es), AllSectionBytes(ss));
      ReplyOf(Payload(id, part, finished), direct) == Ok(Reply(id, es, ss, finished))
  {
    hide *;
    var e, s := Concat(AllEntityBytes(es)), Concat(AllSectionBytes(ss));
    var part := Part(AllEntityBytes(es), AllSectionBytes(ss));
    var data := Payload(id, part, finished);
    PayloadParts(id, part, finished);
    EntitiesRead(es, data, 8);
    SectionsRead(ss, data, 16 + |e|, direct);
    ReplyFrom(data, id, es, ss, 16 + |e|, finished, direct);
  }

  /** Where the parts of a payload stand. */
  lemma PayloadParts(id: i64, part: Part, finished: bool)
    ensures var data, e, s := Payload(id, part, finished), Concat(part.entities), Concat(part.sections);
      |data| == 25 + |e| + |s|
      && I64At(data, 0) == Ok(Parsed(id, 8))
      && At(data, 8, e + Sentinel())
      && At(data, 16 + |e|, s + Sentinel())
      && data[24 + |e| + |s|] == (if finished then 1 else 0)
  {
    hide Concat, I64Bytes, I64At, Sentinel, PackBlockPos;
    var data, e, s := Payload(id, part, finished), Concat(part.entities), Concat(part.sections);
    var flag := [if finished then 1 else 0];
    assert At(data, 0, I64Bytes(id) + ((e + Sentinel()) + ((s + Sentinel()) + flag)));
    AtConcat(data, 0, I64Bytes(id), (e + Sentinel()) + ((s + Sentinel()) + flag));
    AtConcat(data, 8, e + Sentinel(), (s + Sentinel()) + flag);
    AtConcat(data, 16 + |e|, s + Sentinel(), flag);
    I64Inverse(data, 0, id);
  }

  lemma ReplyFrom(data: seq<byte>, id: i64, es: seq<EntityEntry>, ss: seq<SectionEntry>, mid: nat, finished: bool, direct: byte)
    requires 8 <= mid < |data|
    requires I64At(data, 0) == Ok(Parsed(id, 8)) && EntitiesAt(data, 8) == Ok(Parsed(es, mid))
    requires SectionsAt(data, mid, direct) == Ok(Parsed(ss, |data| - 1))
    requires data[|data| - 1] == if finished then 1 else 0
    ensures ReplyOf(data, direct) == Ok(Reply(id, es, ss, finished))
  {
    hide I64At, EntitiesAt, SectionsAt;
  }

  /** Whatever entries a reader gets have keys that end no list, and lengths that fit. */
  lemma {:induction false} EntitiesReadAreSendable(data: seq<byte>, pos: nat)
    requires pos <= |data| && EntitiesAt(data, pos).Ok?
    ensures AllSendable(EntitiesAt(data, pos).value.value)
    decreases |data| - pos
  {
    hide PackBlockPos, I64At, ByteArrayAt, VarLenAt;
    var key := I64At(data, pos).value;
    if key.value != MIN_POSITION_LONG {
      var compressed := ByteArrayAt(data, VarLenAt(data, key.end, 0x7FFF_FFFF).value.end + 1, 0x7FFF_FFFF).value;
      EntitiesReadAreSendable(data, compressed.end);
    }
  }

  predicate KeysAreFree(ss: seq<SectionEntry>) {
    forall i :: 0 <= i < |ss| ==> ss[i].key != MIN_POSITION_LONG
  }

  lemma {:induction false} SectionKeysRead(data: seq<byte>, pos: nat, direct: byte)
    requires pos <= |data| && SectionsAt(data, pos, direct).Ok?
    ensures KeysAreFree(SectionsAt(data, pos, direct).value.value)
    decreases |data| - pos
  {
    hide PackBlockPos, I64At, SectionAt;
    var key := I64At(data, pos).value;
    if key.value != MIN_POSITION_LONG {
      SectionKeysRead(data, if data[key.end] == 0 then key.end + 1 else SectionAt(data, key.end + 1, direct).value.end, direct);
    }
  }

  /** For any entries, a payload reads back exactly when no key among them is the sentinel
      and no length of theirs overflows its field; the writer looks at neither. */
  lemma PayloadReadsExactly(id: i64, es: seq<EntityEntry>, ss: seq<SectionEntry>, finished: bool, direct: byte)
    requires AllFull(ss) && AllFit(ss)
    ensures var part := Part(AllEntityBytes(es), AllSectionBytes(ss));
      ReplyOf(Payload(id, part, finished), direct) == Ok(Reply(id, es, ss, finished))
      <==> AllSendable(es) && KeysAreFree(ss)
  {
    hide PackBlockPos, Payload, AllEntityBytes, AllSectionBytes, Fits, FullEntry, ReplyOf, Sendable;
    var data := Payload(id, Part(AllEntityBytes(es), AllSectionBytes(ss)), finished);
    if AllSendable(es) && KeysAreFree(ss) {
      PayloadReads(id, es, ss, finished, direct);
    }
    if ReplyOf(data, direct) == Ok(Reply(id, es, ss, finished)) {
      ReplyIsSendable(data, direct);
    }
  }

  lemma ReplyIsSendable(data: seq<byte>, direct: byte)
    requires ReplyOf(data, direct).Ok?
    ensures var reply := ReplyOf(data, direct).value; AllSendable(reply.entities) && KeysAreFree(reply.sections)
  {
    hide I64At, EntitiesAt, SectionsAt;
    var entities := EntitiesAt(data, 8);
    EntitiesReadAreSendable(data, 8);
    SectionKeysRead(data, entities.value.end, direct);
  }

  // ----- the whole response -----

  function Join<T>(parts: seq<seq<T>>): seq<T> {
    if parts == [] then [] else Join(parts[..|parts| - 1]) + parts[|parts| - 1]
  }

  lemma JoinAppend<T>(head: seq<seq<T>>, whole: seq<T>, n: nat)
    requires n <= |whole| && Join(head) == whole[..n]
    ensures Join(head + [whole[n..]]) == whole
  {
    assert (head + [whole[n..]])[..|head|] == head;
    assert whole == whole[..n] + whole[n..];
  }

  /** What a client has of an answer: the entries so far, and whether it is complete. */
  datatype Collection = Collection(entities: seq<EntityEntry>, sections: seq<SectionEntry>, complete: bool)

  /** A client that takes payload after payload, all of one request, each to its last
      byte, and none after the one flagged finished. */
  function Collected(sent: seq<seq<byte>>, id: i64, direct: byte): Option<Collection> {
    if sent == [] then Some(Collection([], [], false))
    else
      var n := |sent| - 1;
      match (Collected(sent[..n], id, direct), ReplyOf(sent[n], direct))
      case (Some(before), Ok(reply)) =>
        if before.complete || reply.id != id then None
        else Some(Collection(before.entities + reply.entities, before.sections + reply.sections, reply.finished))
      case _ => None
  }

  lemma {:induction false} Collects(
    sent: seq<seq<byte>>, id: i64, direct: byte, es: seq<seq<EntityEntry>>, ss: seq<seq<SectionEntry>>, last: nat)
    requires |sent| == |es| == |ss| <= last + 1
    requires forall i :: 0 <= i < |sent| ==> ReplyOf(sent[i], direct) == Ok(Reply(id, es[i], ss[i], i == last))
    ensures Collected(sent, id, direct) == Some(Collection(Join(es), Join(ss), |sent| == last + 1))
    decreases |sent|
  {
    hide ReplyOf;
    if sent != [] {
      var n := |sent| - 1;
      Collects(sent[..n], id, direct, es[..n], ss[..n], last);
    }
  }

  /** What a client collects it has read, so no key in it ends a list. */
  lemma {:induction false} CollectedAreSendable(sent: seq<seq<byte>>, id: i64, direct: byte)
    requires Collected(sent, id, direct).Some?
    ensures var got := Collected(sent, id, direct).value; AllSendable(got.entities) && KeysAreFree(got.sections)
    decreases |sent|
  {
    hide ReplyOf, Sendable;
    if sent != [] {
      var n := |sent| - 1;
      CollectedAreSendable(sent[..n], id, direct);
      ReplyIsSendable(sent[n], direct);
    }
  }

  lemma {:induction false} SplitEntities(parts: seq<Part>, es: seq<EntityEntry>) returns (split: seq<seq<EntityEntry>>)
    requires Entities(parts) == AllEntityBytes(es)
    ensures |split| == |parts| && Join(split) == es
    ensures forall i :: 0 <= i < |parts| ==> AllEntityBytes(split[i]) == parts[i].entities
    ensures forall i, k :: 0 <= i < |split| && 0 <= k < |split[i]| ==> split[i][k] in es
    decreases |parts|
  {
    hide AllEntityBytes;
    if parts == [] {
      split := [];
      assert |AllEntityBytes(es)| == |es|;
    } else {
      var before, last := parts[..|parts| - 1], parts[|parts| - 1];
      var n := |es| - |last.entities|;
      assert |AllEntityBytes(es)| == |es|;
      assert Entities(before) == AllEntityBytes(es)[..n] && last.entities == AllEntityBytes(es)[n..];
      EntityBytesSplit(es, n);
      var head := SplitEntities(before, es[..n]);
      split := head + [es[n..]];
      JoinAppend(head, es, n);
    }
  }

  lemma EntityBytesSplit(es: seq<EntityEntry>, n: nat)
    requires n <= |es|
    ensures AllEntityBytes(es[..n]) == AllEntityBytes(es)[..n]
    ensures AllEntityBytes(es[n..]) == AllEntityBytes(es)[n..]
  {
    hide EntityBytes;
  }

  lemma {:induction false} SplitSections(parts: seq<Part>, ss: seq<SectionEntry>) returns (split: seq<seq<SectionEntry>>)
    requires AllFit(ss)
    requires Sections(parts) == AllSectionBytes(ss)
    ensures |split| == |parts| && Join(split) == ss
    ensures forall i, k :: 0 <= i < |split| && 0 <= k < |split[i]| ==> split[i][k] in ss
    ensures forall i :: 0 <= i < |parts| ==> AllFit(split[i]) && AllSectionBytes(split[i]) == parts[i].sections
    decreases |parts|
  {
    hide AllSectionBytes, AllFit, Sections;
    if parts == [] {
      split := [];
      NothingPushed();
      assert |AllSectionBytes(ss)| == |ss|;
    } else {
      var before, last := parts[..|parts| - 1], parts[|parts| - 1];
      var n := |ss| - |last.sections|;
      assert |AllSectionBytes(ss)| == |ss|;
      LastSections(parts, AllSectionBytes(ss));
      SectionBytesSplit(ss, n);
      var head := SplitSections(before, ss[..n]);
      split := head + [ss[n..]];
      JoinAppend(head, ss, n);
    }
  }

  lemma LastSections(parts: seq<Part>, raw: seq<seq<byte>>)
    requires parts != [] && Sections(parts) == raw
    ensures var last := parts[|parts| - 1].sections;
      |last| <= |raw| && Sections(parts[..|parts| - 1]) == raw[..|raw| - |last|] && last == raw[|raw| - |last|..]
  {
  }

  lemma SectionBytesSplit(ss: seq<SectionEntry>, n: nat)
    requires AllFit(ss) && n <= |ss|
    ensures AllFit(ss[..n]) && AllFit(ss[n..])
    ensures AllSectionBytes(ss[..n]) == AllSectionBytes(ss)[..n]
    ensures AllSectionBytes(ss[n..]) == AllSectionBytes(ss)[n..]
  {
    hide SectionEntryBytes, Fits;
  }

  /** The sections that one palette can hold; the others are left out of the answer. */
  function Servable(ss: seq<SectionEntry>): (r: seq<SectionEntry>)
    ensures AllFit(r) && forall i :: 0 <= i < |r| ==> r[i] in ss
  {
    if ss == [] then []
    else
      var n := |ss| - 1;
      Servable(ss[..n]) + if Fits(ss[n]) then [ss[n]] else []
  }

  /** The entry of one block entity: its key, the size of its NBT, and the NBT in a frame
      of raw blocks. */
  function EntityOf(key: i64, named: seq<byte>): EntityEntry {
    EntityEntry(key, |named|, SUPPORTED_DICTIONARY, Frame(named))
  }

  /** A block entity as the world holds it: a packed position and a document without a
      root name. */
  datatype Found = Found(key: i64, nbt: seq<byte>)

  /** The entries of what was found; what is not a compound is left out. */
  function EntitiesOf(found: seq<Found>): seq<EntityEntry> {
    if found == [] then []
    else
      var n := |found| - 1;
      match NamedRoot(found[n].nbt)
      case None => EntitiesOf(found[..n])
      case Some(named) => EntitiesOf(found[..n]) + [EntityOf(found[n].key, named)]
  }

  method WriteEntity(key: i64, named: seq<byte>) returns (entry: seq<byte>)
    ensures entry == EntityBytes(EntityOf(key, named))
  {
    hide I64Bytes, VarI32Bytes, Frame, ByteArrayBytes;
    var compressed := CompressRaw(named);
    var w := new Writer();
    w.I64(key);
    w.VarI32(Signed32(|named| % TWO32));
    w.U8(SUPPORTED_DICTIONARY);
    w.ByteArray(compressed);
    entry := w.buf;
    assert entry == EntityBytes(EntityOf(key, named));
  }

  method WriteSectionEntry(s: SectionEntry) returns (entry: Option<seq<byte>>)
    requires FullEntry(s)
    ensures entry.Some? <==> Fits(s)
    ensures entry.Some? ==> entry.value == SectionEntryBytes(s)
  {
    hide I64Bytes, SectionBytes, PaletteOf, Ids;
    var w := new Writer();
    w.I64(s.key);
    match s.entries {
      case None =>
        w.Bool(false);
      case Some(entries) =>
        w.Bool(true);
        PaletteIds(entries);
        var fits := WriteSectionIndirect(w, entries);
        if !fits { return None; }
    }
    assert w.buf == SectionEntryBytes(s);
    entry := Some(w.buf);
  }

  /** No section entry comes near the size of a payload. */
  lemma SectionsAreShort(ss: seq<SectionEntry>)
    requires AllFull(ss) && AllFit(ss)
    ensures Short(AllSectionBytes(ss))
  {
    hide SectionEntryBytes, Fits, FullEntry;
    forall i | 0 <= i < |ss|
      ensures |AllSectionBytes(ss)[i]| <= MAX_RESPONSE_BYTES - 16
    {
      SectionIsShort(ss[i]);
    }
  }

  lemma SectionIsShort(s: SectionEntry)
    requires FullEntry(s) && Fits(s)
    ensures |SectionEntryBytes(s)| <= 5400
  {
    hide SectionBytes, PaletteOf, I64Bytes;
    if s.entries.Some? { SectionSize(s.entries.value); }
  }
}
