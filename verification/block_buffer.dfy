/**
  A block buffer: sections of block ids and block entities, applied to the world as they
  are read.  The reference meaning is one line per block: the last section that gives it
  an id the server knows.
 */
module BlockBuffers {
  import opened Bytes
  import opened Buf
  import opened Palette
  import opened BlockRemap
  import opened NbtRoots
  import opened ZstdRaw

  const MAX_BLOCK_ENTITIES: nat := SECTION_VOLUME
  const MAX_BLOCK_ENTITY_BYTES: nat := 0x10_0000
  const MAX_DECOMPRESSED: nat := 0x10_0000
  const MAX_BUFFER_NBT_BYTES: nat := 0x200_0000

  /** Position within a section as `x | y << 4 | z << 8`: not the order of the entries. */
  datatype Pending = Pending(offset: u16, size: nat, dictionary: byte, compressed: seq<byte>)

  datatype Section = Section(key: i64, entries: seq<u16>, entities: seq<Pending>)

  // ----- reading -----

  function PendingAt(data: seq<byte>, pos: nat): (r: Result<Parsed<Pending>>)
    requires pos <= |data|
    ensures r.Ok? ==> pos < r.value.end <= |data| && r.value.value.size <= MAX_DECOMPRESSED
  {
    var offset :- U16At(data, pos);
    var size :- VarLenAt(data, offset.end, MAX_DECOMPRESSED);
    var dictionary :- U8At(data, size.end);
    var compressed :- ByteArrayAt(data, dictionary.end, MAX_BLOCK_ENTITY_BYTES);
    Ok(Parsed(Pending(offset.value, size.value, dictionary.value, compressed.value), compressed.end))
  }

  function PendingsAt(data: seq<byte>, pos: nat, n: nat): (r: Result<Parsed<seq<Pending>>>)
    requires pos <= |data|
    ensures r.Ok? ==> pos <= r.value.end <= |data|
    decreases |data| - pos
  {
    if n == 0 then Ok(Parsed([], pos))
    else
      var head :- PendingAt(data, pos);
      var rest :- PendingsAt(data, head.end, n - 1);
      Ok(Parsed([head.value] + rest.value, rest.end))
  }

  /** A section after its key.  Without the permission for NBT its entities are read past
      and dropped. */
  function SectionDataAt(data: seq<byte>, pos: nat, key: i64, direct: byte, allowNbt: bool): (r: Result<Parsed<Section>>)
    requires pos <= |data|
    ensures r.Ok? ==> pos < r.value.end <= |data| && |r.value.value.entries| == SECTION_VOLUME
  {
    var entries :- SectionAt(data, pos, direct);
    SectionHasVolume(data, pos, direct);
    var count :- VarLenAt(data, entries.end, MAX_BLOCK_ENTITIES);
    var entities :- PendingsAt(data, count.end, count.value);
    Ok(Parsed(Section(key, entries.value, if allowNbt then entities.value else []), entities.end))
  }

  lemma SectionHasVolume(data: seq<byte>, pos: nat, direct: byte)
    requires pos <= |data| && SectionAt(data, pos, direct).Ok?
    ensures |SectionAt(data, pos, direct).value.value| == SECTION_VOLUME
  {
    hide EntriesFrom, IdAt, IdsAt, VarLenAt, Pow2;
    var declared := data[pos];
    if 0 < declared {
      if declared <= 8 {
        var bits := Max(declared, MIN_INDIRECT_BITS);
        var palette := IdsAt(data, VarLenAt(data, pos + 1, Pow2(bits)).value.end, VarLenAt(data, pos + 1, Pow2(bits)).value.value);
        PackedHasVolume(data, palette.value.end, bits, Some(palette.value.value));
      } else {
        PackedHasVolume(data, pos + 1, DirectBits(declared, direct), None);
      }
    }
  }

  lemma PackedHasVolume(data: seq<byte>, pos: nat, bits: nat, palette: Option<seq<u16>>)
    requires pos <= |data| && 1 <= bits <= 64 && PackedAt(data, pos, bits, palette).Ok?
    ensures |PackedAt(data, pos, bits, palette).value.value| == SECTION_VOLUME
  {
    EntriesCount(data[pos..pos + PackedLen(bits) * 8], bits, palette, 0);
  }

  lemma {:induction false} EntriesCount(words: seq<byte>, bits: nat, palette: Option<seq<u16>>, i: nat)
    requires 1 <= bits <= 64 && |words| == PackedLen(bits) * 8 && i <= SECTION_VOLUME
    requires EntriesFrom(words, bits, palette, i).Ok?
    ensures |EntriesFrom(words, bits, palette, i).value| == SECTION_VOLUME - i
    decreases SECTION_VOLUME - i
  {
    hide EntryOf, RawAt;
    if i < SECTION_VOLUME {
      WordInRange(bits, i);
      EntriesCount(words, bits, palette, i + 1);
    }
  }

  /** The sections read before the buffer's sentinel, or before what cannot be read. */
  datatype Scan = Scan(sections: seq<Section>, end: Result<nat>)

  function ScanFrom(data: seq<byte>, pos: nat, direct: byte, allowNbt: bool): (r: Scan)
    requires pos <= |data|
    ensures r.end.Ok? ==> pos < r.end.value <= |data|
    decreases |data| - pos
  {
    match I64At(data, pos)
    case Err(e) => Scan([], Err(e))
    case Ok(key) =>
      if key.value == MIN_POSITION_LONG then Scan([], Ok(key.end))
      else
        match SectionDataAt(data, key.end, key.value, direct, allowNbt)
        case Err(e) => Scan([], Err(e))
        case Ok(section) =>
          var rest := ScanFrom(data, section.end, direct, allowNbt);
          Scan([section.value] + rest.sections, rest.end)
  }

  // ----- what the host supplies -----

  /** The forward table of the client's version, if ids need translating; the size of the
      server's registry; and the id that means "leave this block alone". */
  datatype Registry = Registry(forward: Option<seq<u16>>, stateCount: nat, empty: u16)

  function ServerState(reg: Registry, id: u16): Option<u16> {
    match reg.forward
    case None => if id < reg.stateCount then Some(id) else None
    case Some(forward) =>
      match LowestServer(forward, id)
      case None => None
      case Some(server) => if server < reg.stateCount && server < TWO16 then Some(server) else None
  }

  // ----- applying, entry by entry -----

  datatype World = World(
    blocks: map<BlockPos, u16>,
    nbt: seq<(BlockPos, seq<byte>)>,
    budget: nat,
    inflated: seq<nat>)

  function Sum(sizes: seq<nat>): nat {
    if sizes == [] then 0 else Sum(sizes[..|sizes| - 1]) + sizes[|sizes| - 1]
  }

  function AppliedEntity(w: World, pos: BlockPos, e: Pending, inflate: Inflate): World {
    if e.dictionary != SUPPORTED_DICTIONARY || e.size > w.budget then w
    else
      var charged := w.(budget := w.budget - e.size, inflated := w.inflated + [e.size]);
      match inflate(e.compressed, e.size)
      case None => charged
      case Some(named) =>
        match UnnamedRoot(named)
        case None => charged
        case Some(unnamed) => charged.(nbt := charged.nbt + [(pos, unnamed)])
  }

  /** Entry `i` is at x, y, z with `i == y << 8 | z << 4 | x`. */
  function PosOf(key: i64, i: nat): BlockPos
    requires i < SECTION_VOLUME
  {
    var section := UnpackBlockPos(key);
    BlockPos(section.x * 16 + i % 16, section.y * 16 + i / 256, section.z * 16 + i / 16 % 16)
  }

  /** The same block in the order of block entities: `x | y << 4 | z << 8`. */
  function OffsetOf(i: nat): nat
    requires i < SECTION_VOLUME
  {
    i % 16 + i / 256 * 16 + i / 16 % 16 * 256
  }

  function FindEntity(entities: seq<Pending>, offset: nat): Option<Pending> {
    if entities == [] then None
    else if entities[0].offset == offset then Some(entities[0])
    else FindEntity(entities[1..], offset)
  }

  function Value(s: Section, i: nat, reg: Registry): Option<u16>
    requires i < |s.entries|
  {
    var state := ServerState(reg, s.entries[i]);
    if state == Some(reg.empty) then None else state
  }

  function AppliedAt(w: World, s: Section, i: nat, reg: Registry, inflate: Inflate): World
    requires |s.entries| == SECTION_VOLUME && i < SECTION_VOLUME
  {
    match Value(s, i, reg)
    case None => w
    case Some(state) =>
      var pos := PosOf(s.key, i);
      var placed := w.(blocks := w.blocks[pos := state]);
      match FindEntity(s.entities, OffsetOf(i))
      case None => placed
      case Some(e) => AppliedEntity(placed, pos, e, inflate)
  }

  function AppliedTo(w: World, s: Section, n: nat, reg: Registry, inflate: Inflate): World
    requires |s.entries| == SECTION_VOLUME && n <= SECTION_VOLUME
  {
    if n == 0 then w else AppliedAt(AppliedTo(w, s, n - 1, reg, inflate), s, n - 1, reg, inflate)
  }

  predicate FullSections(ss: seq<Section>) {
    forall i :: 0 <= i < |ss| ==> |ss[i].entries| == SECTION_VOLUME
  }

  function AppliedAll(w: World, ss: seq<Section>, reg: Registry, inflate: Inflate): World
    requires FullSections(ss)
  {
    if ss == [] then w
    else AppliedTo(AppliedAll(w, ss[..|ss| - 1], reg, inflate), ss[|ss| - 1], SECTION_VOLUME, reg, inflate)
  }

  // ----- what it means -----

  function Get(blocks: map<BlockPos, u16>, q: BlockPos): Option<u16> {
    if q in blocks then Some(blocks[q]) else None
  }

  /** The id a section gives a block: the lowest id of the server for the client's id at the
      block's place, or the client's own where nothing needs translating.  None if the block
      is elsewhere, if there is no such id or it is past the server's registry, and if it is
      the one that means "leave this block alone". */
  function Given(s: Section, q: BlockPos, reg: Registry): Option<u16>
    requires |s.entries| == SECTION_VOLUME
  {
    if UnpackBlockPos(s.key) != BlockPos(q.x / 16, q.y / 16, q.z / 16) then None
    else
      var id := s.entries[q.y % 16 * 256 + q.z % 16 * 16 + q.x % 16];
      var server := if reg.forward.None? then Some(id) else LowestServer(reg.forward.value, id);
      match server
      case None => None
      case Some(n) => if n < reg.stateCount && n < 65536 && n != reg.empty then Some(n) else None
  }

  /** The last id any section gives a block. */
  function LastGiven(ss: seq<Section>, q: BlockPos, reg: Registry): Option<u16>
    requires FullSections(ss)
  {
    if ss == [] then None
    else
      var last := Given(ss[|ss| - 1], q, reg);
      if last.Some? then last else LastGiven(ss[..|ss| - 1], q, reg)
  }

  lemma EntryCoordinates(key: i64, i: nat)
    requires i < SECTION_VOLUME
    ensures var q, section := PosOf(key, i), UnpackBlockPos(key);
      section == BlockPos(q.x / 16, q.y / 16, q.z / 16) && q.y % 16 * 256 + q.z % 16 * 16 + q.x % 16 == i
  {
    hide UnpackBlockPos;
    SplitOffset(i);
    var section := UnpackBlockPos(key);
    DivideUnique(section.x * 16 + i % 16, 16, section.x, i % 16);
    DivideUnique(section.y * 16 + i / 256, 16, section.y, i / 256);
    DivideUnique(section.z * 16 + i / 16 % 16, 16, section.z, i / 16 % 16);
  }

  lemma PosOfEntry(key: i64, q: BlockPos)
    requires UnpackBlockPos(key) == BlockPos(q.x / 16, q.y / 16, q.z / 16)
    ensures var i := q.y % 16 * 256 + q.z % 16 * 16 + q.x % 16; i < SECTION_VOLUME && PosOf(key, i) == q
  {
    hide UnpackBlockPos;
    var x, y, z := q.x % 16, q.y % 16, q.z % 16;
    Digits16(x, z, y);
  }

  lemma EntityLeavesBlocks(w: World, pos: BlockPos, e: Pending, inflate: Inflate)
    ensures AppliedEntity(w, pos, e, inflate).blocks == w.blocks
  {
    hide UnnamedRoot;
  }

  lemma BlockAt(w: World, s: Section, i: nat, reg: Registry, inflate: Inflate, q: BlockPos)
    requires |s.entries| == SECTION_VOLUME && i < SECTION_VOLUME
    ensures Get(AppliedAt(w, s, i, reg, inflate).blocks, q)
         == if q == PosOf(s.key, i) && Value(s, i, reg).Some? then Value(s, i, reg) else Get(w.blocks, q)
  {
    hide UnpackBlockPos, PosOf, Value, AppliedEntity, FindEntity;
    if Value(s, i, reg).Some? && FindEntity(s.entities, OffsetOf(i)).Some? {
      var pos := PosOf(s.key, i);
      var placed := w.(blocks := w.blocks[pos := Value(s, i, reg).value]);
      EntityLeavesBlocks(placed, pos, FindEntity(s.entities, OffsetOf(i)).value, inflate);
    }
  }

  /** The run looks at its entry in the same way. */
  lemma GivenIsValue(s: Section, q: BlockPos, reg: Registry)
    requires |s.entries| == SECTION_VOLUME
    ensures var i := q.y % 16 * 256 + q.z % 16 * 16 + q.x % 16;
      i < SECTION_VOLUME
      && Given(s, q, reg)
           == if UnpackBlockPos(s.key) == BlockPos(q.x / 16, q.y / 16, q.z / 16) then Value(s, i, reg) else None
  {
    hide UnpackBlockPos, LowestServer;
  }

  lemma {:induction false} SectionSets(w: World, s: Section, n: nat, reg: Registry, inflate: Inflate, q: BlockPos)
    requires |s.entries| == SECTION_VOLUME && n <= SECTION_VOLUME
    ensures var i := q.y % 16 * 256 + q.z % 16 * 16 + q.x % 16;
      Get(AppliedTo(w, s, n, reg, inflate).blocks, q)
        == if i < n && Given(s, q, reg).Some? then Given(s, q, reg) else Get(w.blocks, q)
    decreases n
  {
    hide UnpackBlockPos, PosOf, Value, AppliedAt, Get, Given;
    GivenIsValue(s, q, reg);
    if n > 0 {
      SectionSets(w, s, n - 1, reg, inflate, q);
      BlockAt(AppliedTo(w, s, n - 1, reg, inflate), s, n - 1, reg, inflate, q);
      EntryCoordinates(s.key, n - 1);
      if UnpackBlockPos(s.key) == BlockPos(q.x / 16, q.y / 16, q.z / 16) {
        PosOfEntry(s.key, q);
      }
    }
  }

  /** Every block ends as the last section that gives it an id leaves it, and every block
      no section gives an id is as it was. */
  lemma {:induction false} BufferMeaning(w: World, ss: seq<Section>, reg: Registry, inflate: Inflate, q: BlockPos)
    requires FullSections(ss)
    ensures Get(AppliedAll(w, ss, reg, inflate).blocks, q)
         == if LastGiven(ss, q, reg).Some? then LastGiven(ss, q, reg) else Get(w.blocks, q)
    decreases |ss|
  {
    hide UnpackBlockPos, Given, AppliedTo, Get;
    if ss != [] {
      var n := |ss| - 1;
      BufferMeaning(w, ss[..n], reg, inflate, q);
      assert q.y % 16 * 256 + q.z % 16 * 16 + q.x % 16 < SECTION_VOLUME;
      SectionSets(AppliedAll(w, ss[..n], reg, inflate), ss[n], SECTION_VOLUME, reg, inflate, q);
    }
  }

  /** A section's entity is looked for at the block its offset names, in the other order
      of coordinates. */
  lemma OffsetNamesBlock(i: nat, offset: nat)
    requires i < SECTION_VOLUME
    ensures OffsetOf(i) < SECTION_VOLUME
    ensures OffsetOf(i) == offset
       <==> offset < SECTION_VOLUME && i % 16 == offset % 16 && i / 256 == offset / 16 % 16 && i / 16 % 16 == offset / 256
  {
    Digits16(i % 16, i / 256, i / 16 % 16);
    SplitOffset(offset);
  }

  lemma SplitOffset(offset: nat)
    ensures offset == offset % 16 + offset / 16 % 16 * 16 + offset / 256 * 256
  {
    var high := offset / 16;
    DivideUnique(offset, 256, high / 16, high % 16 * 16 + offset % 16);
  }

  lemma Digits16(x: nat, y: nat, z: nat)
    requires x < 16 && y < 16 && z < 16
    ensures var o := x + y * 16 + z * 256; o < SECTION_VOLUME && o % 16 == x && o / 16 % 16 == y && o / 256 == z
  {
    var o := x + y * 16 + z * 256;
    DivideUnique(o, 16, z * 16 + y, x);
    DivideUnique(z * 16 + y, 16, z, y);
    DivideUnique(o, 256, z, y * 16 + x);
  }

  // ----- the budget -----

  /** What has been passed to the decompressor and what is left make up the limit. */
  predicate Accounted(w: World) {
    Sum(w.inflated) + w.budget == MAX_BUFFER_NBT_BYTES
  }

  lemma EntityAccounted(w: World, pos: BlockPos, e: Pending, inflate: Inflate)
    requires Accounted(w)
    ensures Accounted(AppliedEntity(w, pos, e, inflate))
  {
    hide UnnamedRoot;
    assert (w.inflated + [e.size])[..|w.inflated|] == w.inflated;
  }

  lemma {:induction false} SectionAccounted(w: World, s: Section, n: nat, reg: Registry, inflate: Inflate)
    requires |s.entries| == SECTION_VOLUME && n <= SECTION_VOLUME && Accounted(w)
    ensures Accounted(AppliedTo(w, s, n, reg, inflate))
    decreases n
  {
    hide UnpackBlockPos, PosOf, Value, AppliedEntity, FindEntity;
    if n > 0 {
      SectionAccounted(w, s, n - 1, reg, inflate);
      var before := AppliedTo(w, s, n - 1, reg, inflate);
      if Value(s, n - 1, reg).Some? && FindEntity(s.entities, OffsetOf(n - 1)).Some? {
        var pos := PosOf(s.key, n - 1);
        var placed := before.(blocks := before.blocks[pos := Value(s, n - 1, reg).value]);
        EntityAccounted(placed, pos, FindEntity(s.entities, OffsetOf(n - 1)).value, inflate);
      }
    }
  }

  /** Whatever a buffer declares, no more than 32 MiB of it is ever decompressed. */
  lemma {:induction false} BufferAccounted(w: World, ss: seq<Section>, reg: Registry, inflate: Inflate)
    requires FullSections(ss) && Accounted(w)
    ensures Accounted(AppliedAll(w, ss, reg, inflate))
    ensures Sum(AppliedAll(w, ss, reg, inflate).inflated) <= 32 * 1024 * 1024
    decreases |ss|
  {
    hide AppliedTo;
    if ss != [] {
      BufferAccounted(w, ss[..|ss| - 1], reg, inflate);
      SectionAccounted(AppliedAll(w, ss[..|ss| - 1], reg, inflate), ss[|ss| - 1], SECTION_VOLUME, reg, inflate);
    }
  }

  // ----- the block entities -----

  /** The entity that comes with one entry: the block must be set, and the entity found at
      its offset. */
  function EntityAt(s: Section, i: nat, reg: Registry): Option<Pending>
    requires |s.entries| == SECTION_VOLUME && i < SECTION_VOLUME
  {
    if Given(s, PosOf(s.key, i), reg).None? then None else FindEntity(s.entities, OffsetOf(i))
  }

  /** The entities that come with a section's first entries, and where they go. */
  function PlacedTo(s: Section, n: nat, reg: Registry): seq<(BlockPos, Pending)>
    requires |s.entries| == SECTION_VOLUME && n <= SECTION_VOLUME
  {
    if n == 0 then []
    else
      PlacedTo(s, n - 1, reg)
      + match EntityAt(s, n - 1, reg)
        case None => []
        case Some(e) => [(PosOf(s.key, n - 1), e)]
  }

  function PlacedAll(ss: seq<Section>, reg: Registry): seq<(BlockPos, Pending)>
    requires FullSections(ss)
  {
    if ss == [] then [] else PlacedAll(ss[..|ss| - 1], reg) + PlacedTo(ss[|ss| - 1], SECTION_VOLUME, reg)
  }

  function Sizes(ps: seq<(BlockPos, Pending)>): nat {
    if ps == [] then 0 else Sizes(ps[..|ps| - 1]) + ps[|ps| - 1].1.size
  }

  predicate Admits(admitted: seq<(BlockPos, Pending)>, p: (BlockPos, Pending), budget: nat) {
    p.1.dictionary == SUPPORTED_DICTIONARY && Sizes(admitted) + p.1.size <= budget
  }

  /** Those that are unpacked: of a known dictionary, each within what the ones before it
      leave of the budget. */
  function Admitted(ps: seq<(BlockPos, Pending)>, budget: nat): seq<(BlockPos, Pending)> {
    if ps == [] then []
    else
      var before, last := Admitted(ps[..|ps| - 1], budget), ps[|ps| - 1];
      if Admits(before, last, budget) then before + [last] else before
  }

  /** The documents of those that unpack to a compound, at their blocks. */
  function Documents(ps: seq<(BlockPos, Pending)>, inflate: Inflate): seq<(BlockPos, seq<byte>)> {
    if ps == [] then []
    else Documents(ps[..|ps| - 1], inflate) + DocumentOf(ps[|ps| - 1], inflate)
  }

  function DocumentOf(p: (BlockPos, Pending), inflate: Inflate): seq<(BlockPos, seq<byte>)> {
    match inflate(p.1.compressed, p.1.size)
    case None => []
    case Some(named) =>
      match UnnamedRoot(named)
      case None => []
      case Some(unnamed) => [(p.0, unnamed)]
  }

  /** A world that has taken in these entities and no others since `w`. */
  predicate HoldsEntities(v: World, w: World, ps: seq<(BlockPos, Pending)>, inflate: Inflate) {
    var admitted := Admitted(ps, w.budget);
    v.nbt == w.nbt + Documents(admitted, inflate) && v.budget + Sizes(admitted) == w.budget
  }

  lemma OneEntityMore(v: World, w: World, ps: seq<(BlockPos, Pending)>, pos: BlockPos, e: Pending, inflate: Inflate)
    requires HoldsEntities(v, w, ps, inflate)
    ensures HoldsEntities(AppliedEntity(v, pos, e, inflate), w, ps + [(pos, e)], inflate)
  {
    hide UnnamedRoot, DocumentOf, Admitted, Documents, Sizes;
    var p, admitted := (pos, e), Admitted(ps, w.budget);
    AdmitsOneMore(ps, p, w.budget);
    KeepsOneMore(admitted, p, inflate);
    EntityDocument(v, pos, e, inflate);
    var documents := Documents(admitted, inflate);
    assert (w.nbt + documents) + DocumentOf(p, inflate) == w.nbt + (documents + DocumentOf(p, inflate));
  }

  lemma AdmitsOneMore(ps: seq<(BlockPos, Pending)>, p: (BlockPos, Pending), budget: nat)
    ensures var admitted := Admitted(ps, budget);
      Admitted(ps + [p], budget) == if Admits(admitted, p, budget) then admitted + [p] else admitted
  {
    hide Admits;
    assert (ps + [p])[..|ps|] == ps;
  }

  lemma KeepsOneMore(ps: seq<(BlockPos, Pending)>, p: (BlockPos, Pending), inflate: Inflate)
    ensures Documents(ps + [p], inflate) == Documents(ps, inflate) + DocumentOf(p, inflate)
    ensures Sizes(ps + [p]) == Sizes(ps) + p.1.size
  {
    hide DocumentOf;
    assert (ps + [p])[..|ps|] == ps;
  }

  lemma EntityDocument(v: World, pos: BlockPos, e: Pending, inflate: Inflate)
    ensures var after := AppliedEntity(v, pos, e, inflate);
      if e.dictionary == SUPPORTED_DICTIONARY && e.size <= v.budget then
        after.nbt == v.nbt + DocumentOf((pos, e), inflate) && after.budget == v.budget - e.size
      else after == v
  {
    hide UnnamedRoot;
  }

  lemma EntryEntities(v: World, w: World, ps: seq<(BlockPos, Pending)>, s: Section, i: nat, reg: Registry, inflate: Inflate)
    requires |s.entries| == SECTION_VOLUME && i < SECTION_VOLUME && HoldsEntities(v, w, ps, inflate)
    ensures var more := match EntityAt(s, i, reg)
        case None => []
        case Some(e) => [(PosOf(s.key, i), e)];
      HoldsEntities(AppliedAt(v, s, i, reg, inflate), w, ps + more, inflate)
  {
    hide AppliedEntity, PosOf, FindEntity, Value, Admitted, Documents, Sizes, Given, UnpackBlockPos;
    EntryCoordinates(s.key, i);
    GivenIsValue(s, PosOf(s.key, i), reg);
    if EntityAt(s, i, reg).Some? {
      var pos := PosOf(s.key, i);
      var placed := v.(blocks := v.blocks[pos := Value(s, i, reg).value]);
      OneEntityMore(placed, w, ps, pos, EntityAt(s, i, reg).value, inflate);
    } else {
      assert ps + [] == ps;
    }
  }

  lemma {:induction false} SectionEntities(
    v: World, w: World, ps: seq<(BlockPos, Pending)>, s: Section, n: nat, reg: Registry, inflate: Inflate)
    requires |s.entries| == SECTION_VOLUME && n <= SECTION_VOLUME && HoldsEntities(v, w, ps, inflate)
    ensures HoldsEntities(AppliedTo(v, s, n, reg, inflate), w, ps + PlacedTo(s, n, reg), inflate)
    decreases n
  {
    hide HoldsEntities, AppliedAt, EntityAt, PosOf;
    if n == 0 {
      assert ps + [] == ps;
    } else {
      SectionEntities(v, w, ps, s, n - 1, reg, inflate);
      var before := PlacedTo(s, n - 1, reg);
      EntryEntities(AppliedTo(v, s, n - 1, reg, inflate), w, ps + before, s, n - 1, reg, inflate);
      assert PlacedTo(s, n, reg) == before + match EntityAt(s, n - 1, reg)
        case None => []
        case Some(e) => [(PosOf(s.key, n - 1), e)];
      assert forall more :: (ps + before) + more == ps + (before + more);
    }
  }

  /** What a buffer leaves at the blocks, document by document in order, and of the budget:
      the entities that came with blocks it set, as far as the budget went. */
  lemma {:induction false} BufferEntities(w: World, ss: seq<Section>, reg: Registry, inflate: Inflate)
    requires FullSections(ss)
    ensures var after, admitted := AppliedAll(w, ss, reg, inflate), Admitted(PlacedAll(ss, reg), w.budget);
      after.nbt == w.nbt + Documents(admitted, inflate) && after.budget == w.budget - Sizes(admitted)
    decreases |ss|
  {
    hide AppliedTo, PlacedTo;
    if ss != [] {
      var n := |ss| - 1;
      BufferEntities(w, ss[..n], reg, inflate);
      SectionEntities(AppliedAll(w, ss[..n], reg, inflate), w, PlacedAll(ss[..n], reg), ss[n], SECTION_VOLUME, reg, inflate);
    } else {
      assert w.nbt + [] == w.nbt;
    }
  }

  /** Every entity placed was sent in a section that set the block it goes to, under the
      offset of that block. */
  lemma {:induction false} PlacedWhereSent(ss: seq<Section>, reg: Registry, k: nat) returns (i: nat, j: nat)
    requires FullSections(ss) && k < |PlacedAll(ss, reg)|
    ensures i < |ss| && j < SECTION_VOLUME && Given(ss[i], PosOf(ss[i].key, j), reg).Some?
    ensures var (pos, e) := PlacedAll(ss, reg)[k];
      pos == PosOf(ss[i].key, j) && e in ss[i].entities && e.offset == OffsetOf(j)
    decreases |ss|
  {
    hide PosOf, PlacedTo, Given;
    var n := |ss| - 1;
    var before := PlacedAll(ss[..n], reg);
    if k < |before| {
      i, j := PlacedWhereSent(ss[..n], reg, k);
    } else {
      i := n;
      j := PlacedInSection(ss[n], SECTION_VOLUME, reg, k - |before|);
    }
  }

  lemma {:induction false} PlacedInSection(s: Section, n: nat, reg: Registry, k: nat) returns (j: nat)
    requires |s.entries| == SECTION_VOLUME && n <= SECTION_VOLUME && k < |PlacedTo(s, n, reg)|
    ensures j < n && Given(s, PosOf(s.key, j), reg).Some?
    ensures var (pos, e) := PlacedTo(s, n, reg)[k];
      pos == PosOf(s.key, j) && e in s.entities && e.offset == OffsetOf(j)
    decreases n
  {
    hide PosOf, Given, FindEntity;
    var before := PlacedTo(s, n - 1, reg);
    if k < |before| {
      j := PlacedInSection(s, n - 1, reg, k);
    } else {
      j := n - 1;
      Finds(s.entities, OffsetOf(j));
    }
  }

  /** A linear scan finds something at an offset, or nothing, as any other search does. */
  lemma {:induction false} Finds(es: seq<Pending>, offset: nat)
    ensures FindEntity(es, offset).Some? ==> FindEntity(es, offset).value in es && FindEntity(es, offset).value.offset == offset
    ensures FindEntity(es, offset).None? ==> forall e :: e in es ==> e.offset != offset
    decreases |es|
  {
    if es != [] { Finds(es[1..], offset); }
  }
}
