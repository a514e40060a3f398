/**
  The buffer handler as the source runs it: reading and applying section by section, with
  the block entities sorted by offset and searched by halving.
 */
module BlockBufferRuns {
  import opened Bytes
  import opened Buf
  import opened Palette
  import opened BlockRemap
  import opened NbtRoots
  import opened ZstdRaw
  import opened BlockBuffers

  // ----- sorting and searching -----

  predicate ByOffset(es: seq<Pending>) {
    forall i, j :: 0 <= i < j < |es| ==> es[i].offset <= es[j].offset
  }

  predicate UniqueOffsets(es: seq<Pending>) {
    forall i, j :: 0 <= i < j < |es| ==> es[i].offset != es[j].offset
  }

  /** Any order that a sort by offset may yield; equal offsets may come in any order. */
  method SortByOffset(es: seq<Pending>) returns (sorted: seq<Pending>)
    ensures ByOffset(sorted) && multiset(sorted) == multiset(es)
  {
    sorted := [];
    for i := 0 to |es|
      invariant ByOffset(sorted) && multiset(sorted) == multiset(es[..i])
    {
      assert es[..i + 1] == es[..i] + [es[i]];
      sorted := Insert(sorted, es[i]);
    }
    assert es[..|es|] == es;
  }

  method Insert(es: seq<Pending>, e: Pending) returns (r: seq<Pending>)
    requires ByOffset(es)
    ensures ByOffset(r) && multiset(r) == multiset(es) + multiset{e}
  {
    var at := 0;
    while at < |es| && es[at].offset <= e.offset
      invariant at <= |es| && forall i :: 0 <= i < at ==> es[i].offset <= e.offset
    {
      at := at + 1;
    }
    r := Inserted(es, at, e);
    InsertedInOrder(es, at, e);
  }

  function Inserted(es: seq<Pending>, at: nat, e: Pending): seq<Pending>
    requires at <= |es|
  {
    es[..at] + ([e] + es[at..])
  }

  lemma InsertedInOrder(es: seq<Pending>, at: nat, e: Pending)
    requires ByOffset(es) && at <= |es|
    requires forall i :: 0 <= i < at ==> es[i].offset <= e.offset
    requires at < |es| ==> e.offset < es[at].offset
    ensures ByOffset(Inserted(es, at, e))
    ensures multiset(Inserted(es, at, e)) == multiset(es) + multiset{e}
  {
    var r := Inserted(es, at, e);
    InsertedIsMore(es, at, e);
    forall i, j | 0 <= i < j < |r|
      ensures r[i].offset <= r[j].offset
    {
      assert r[i] == if i < at then es[i] else if i == at then e else es[i - 1];
      assert r[j] == if j < at then es[j] else if j == at then e else es[j - 1];
    }
  }

  lemma InsertedIsMore(es: seq<Pending>, at: nat, e: Pending)
    requires at <= |es|
    ensures multiset(Inserted(es, at, e)) == multiset(es) + multiset{e}
  {
    assert es == es[..at] + es[at..];
    assert multiset([e] + es[at..]) == multiset{e} + multiset(es[at..]);
  }

  method Search(es: seq<Pending>, offset: nat) returns (found: Option<nat>)
    requires ByOffset(es)
    ensures found.Some? ==> found.value < |es| && es[found.value].offset == offset
    ensures found.None? ==> forall i :: 0 <= i < |es| ==> es[i].offset != offset
  {
    var low, high := 0, |es|;
    while low < high
      invariant 0 <= low <= high <= |es|
      invariant forall i :: 0 <= i < low ==> es[i].offset < offset
      invariant forall i :: high <= i < |es| ==> es[i].offset > offset
    {
      var mid := (low + high) / 2;
      if es[mid].offset == offset { return Some(mid); }
      if es[mid].offset < offset { low := mid + 1; } else { high := mid; }
    }
    found := None;
  }

  /** With unique offsets, searching the sorted list is scanning the list as sent. */
  lemma SearchIsScan(es: seq<Pending>, sorted: seq<Pending>, offset: nat, found: Option<nat>)
    requires multiset(sorted) == multiset(es)
    requires found.Some? ==> found.value < |sorted| && sorted[found.value].offset == offset
    requires found.None? ==> forall i :: 0 <= i < |sorted| ==> sorted[i].offset != offset
    ensures found.Some? <==> FindEntity(es, offset).Some?
    ensures found.Some? && UniqueOffsets(es) ==> FindEntity(es, offset) == Some(sorted[found.value])
  {
    Finds(es, offset);
    var scan := FindEntity(es, offset);
    if found.Some? {
      var e := sorted[found.value];
      assert e in multiset(sorted);
      assert e in es;
    }
    if scan.Some? {
      assert scan.value in multiset(es);
      assert scan.value in sorted;
    }
  }

  // ----- reading -----

  function PrependPending(done: seq<Pending>, rest: Result<Parsed<seq<Pending>>>): (r: Result<Parsed<seq<Pending>>>)
    ensures done == [] ==> r == rest
    ensures rest.Ok? && rest.value.value == [] ==> r == Ok(Parsed(done, rest.value.end))
    ensures rest.Err? ==> r == rest
  {
    match rest
    case Err(e) => Err(e)
    case Ok(p) =>
      assert [] + p.value == p.value && done + [] == done;
      Ok(Parsed(done + p.value, p.end))
  }

  lemma PendingStep(done: seq<Pending>, data: seq<byte>, pos: nat, n: nat)
    requires pos <= |data| && n > 0 && PendingAt(data, pos).Ok?
    ensures var head := PendingAt(data, pos).value;
      PrependPending(done, PendingsAt(data, pos, n)) == PrependPending(done + [head.value], PendingsAt(data, head.end, n - 1))
  {
    hide PendingAt;
    var head := PendingAt(data, pos).value;
    var rest := PendingsAt(data, head.end, n - 1);
    if rest.Ok? { assert done + ([head.value] + rest.value.value) == (done + [head.value]) + rest.value.value; }
  }

  method ReadPending(r: Reader) returns (res: Result<Pending>)
    requires r.Valid()
    modifies r
    ensures r.Yields(res, PendingAt(r.data, old(r.pos)))
  {
    hide U16At, VarLenAt, ByteArrayAt;
    var offset :- r.U16();
    var size :- r.VarLen(MAX_DECOMPRESSED);
    var dictionary :- r.U8();
    var compressed :- r.ByteArray(MAX_BLOCK_ENTITY_BYTES);
    res := Ok(Pending(offset, size, dictionary, compressed));
  }

  method ReadSectionData(r: Reader, key: i64, direct: byte, allowNbt: bool) returns (res: Result<Section>)
    requires r.Valid()
    modifies r
    ensures r.Yields(res, SectionDataAt(r.data, old(r.pos), key, direct, allowNbt))
  {
    hide SectionAt, VarLenAt, PendingAt, PrependPending;
    var entries :- ReadSection(r, direct);
    var count :- r.VarLen(MAX_BLOCK_ENTITIES);
    var entities: seq<Pending> := [];
    ghost var all: seq<Pending> := [];
    ghost var start := r.pos;
    for i := 0 to count
      invariant r.Valid() && entities == if allowNbt then all else []
      invariant PendingsAt(r.data, start, count) == PrependPending(all, PendingsAt(r.data, r.pos, count - i))
    {
      ghost var at := r.pos;
      var entity :- ReadPending(r);
      PendingStep(all, r.data, at, count - i);
      all := all + [entity];
      if allowNbt {
        entities := entities + [entity];
      }
    }
    res := Ok(Section(key, entries, entities));
  }

  // ----- translating -----

  predicate Translates(reg: Registry, runs: seq<Run>) {
    reg.forward.Some? ==> |reg.forward.value| < TWO16 && Ordered(runs) && RunsInvert(runs, reg.forward.value)
  }

  /** One id of the client's registry in the server's, checked against its size. */
  method Translate(reg: Registry, runs: seq<Run>, id: u16) returns (state: Option<u16>)
    requires Translates(reg, runs)
    ensures state == ServerState(reg, id)
  {
    hide LowestServer;
    var server: Option<u16> := Some(id);
    if reg.forward.Some? {
      server := ToServer(runs, id, reg.forward.value);
    }
    state := if server.Some? && server.value < reg.stateCount then server else None;
  }

  // ----- what is known of any section, unique offsets or not -----

  /** Entities do not decide what blocks become. */
  lemma BlocksOnly(v: World, w: World, s: Section, i: nat, reg: Registry, inflate: Inflate)
    requires |s.entries| == SECTION_VOLUME && i < SECTION_VOLUME && v.blocks == w.blocks
    ensures AppliedAt(v, s, i, reg, inflate).blocks == AppliedAt(w, s, i, reg, inflate).blocks
  {
    hide UnpackBlockPos, PosOf, Value, AppliedEntity, FindEntity;
    if Value(s, i, reg).Some? && FindEntity(s.entities, OffsetOf(i)).Some? {
      var pos, e := PosOf(s.key, i), FindEntity(s.entities, OffsetOf(i)).value;
      var blocks := v.blocks[pos := Value(s, i, reg).value];
      EntityLeavesBlocks(v.(blocks := blocks), pos, e, inflate);
      EntityLeavesBlocks(w.(blocks := blocks), pos, e, inflate);
    }
  }

  /** `v` is what a section's first entries make of the world: its blocks always, all of
      it when no two entities of the section share an offset. */
  predicate Follows(v: World, w: World, unique: bool) {
    v.blocks == w.blocks && Accounted(v) && (unique ==> v == w)
  }

  predicate AllUnique(ss: seq<Section>) {
    forall i :: 0 <= i < |ss| ==> UniqueOffsets(ss[i].entities)
  }

  /** What the client says it has left to send, zero if it does not say. */
  function Available(data: seq<byte>, pos: nat): i32
    requires pos <= |data|
  {
    match VarI32At(data, pos)
    case Ok(v) => v.value
    case Err(_) => 0
  }

  class BufferEdit {
    var blocks: map<BlockPos, u16>
    var nbt: seq<(BlockPos, seq<byte>)>
    var budget: nat
    ghost var inflated: seq<nat>

    ghost function View(): World
      reads this
    {
      World(blocks, nbt, budget, inflated)
    }

    constructor (blocks: map<BlockPos, u16>)
      ensures View() == World(blocks, [], MAX_BUFFER_NBT_BYTES, [])
    {
      this.blocks := blocks;
      nbt := [];
      budget := MAX_BUFFER_NBT_BYTES;
      inflated := [];
    }

    method ApplyBlockEntity(pos: BlockPos, entity: Pending, inflate: Inflate)
      modifies this
      ensures View() == AppliedEntity(old(View()), pos, entity, inflate)
    {
      hide UnnamedRoot;
      if entity.dictionary != SUPPORTED_DICTIONARY { return; }
      if entity.size > budget { return; }
      budget := budget - entity.size;
      inflated := inflated + [entity.size];
      var named := inflate(entity.compressed, entity.size);
      if named.Some? {
        var unnamed := UnnamedRoot(named.value);
        if unnamed.Some? {
          nbt := nbt + [(pos, unnamed.value)];
        }
      }
    }

    /** One block of a section, in the loops' own coordinates. */
    method ApplyBlock(s: Section, sorted: seq<Pending>, x: nat, y: nat, z: nat, reg: Registry, runs: seq<Run>, inflate: Inflate)
      requires |s.entries| == SECTION_VOLUME && x < 16 && y < 16 && z < 16 && Translates(reg, runs)
      requires ByOffset(sorted) && multiset(sorted) == multiset(s.entities) && Accounted(View())
      modifies this
      ensures var i := y * 256 + z * 16 + x;
        Follows(View(), AppliedAt(old(View()), s, i, reg, inflate), UniqueOffsets(s.entities))
    {
      hide UnpackBlockPos, ServerState, FindEntity, AppliedEntity, UniqueOffsets, Accounted, ByOffset, Translates;
      var i := y * 256 + z * 16 + x;
      Coordinates(x, y, z);
      var state := Translate(reg, runs, s.entries[i]);
      if state.None? { return; }
      if state.value == reg.empty { return; }
      var section := UnpackBlockPos(s.key);
      var pos := BlockPos(section.x * 16 + x, section.y * 16 + y, section.z * 16 + z);
      blocks := blocks[pos := state.value];
      assert Accounted(View()) by { SameAccounts(old(View()), View()); }
      ghost var placed := View();
      var found := Search(sorted, x + y * 16 + z * 256);
      SearchIsScan(s.entities, sorted, x + y * 16 + z * 256, found);
      if found.Some? {
        ApplyBlockEntity(pos, sorted[found.value], inflate);
        EntityAccounted(placed, pos, sorted[found.value], inflate);
        EntityLeavesBlocks(placed, pos, sorted[found.value], inflate);
        EntityLeavesBlocks(placed, pos, FindEntity(s.entities, x + y * 16 + z * 256).value, inflate);
      }
    }

    method ApplySection(s: Section, reg: Registry, runs: seq<Run>, inflate: Inflate)
      requires |s.entries| == SECTION_VOLUME && Translates(reg, runs) && Accounted(View())
      modifies this
      ensures Follows(View(), AppliedTo(old(View()), s, SECTION_VOLUME, reg, inflate), UniqueOffsets(s.entities))
    {
      hide AppliedAt, UniqueOffsets, Accounted, ByOffset, Translates;
      var sorted := SortByOffset(s.entities);
      ghost var w := View();
      ghost var unique := UniqueOffsets(s.entities);
      for y := 0 to 16
        invariant Follows(View(), AppliedTo(w, s, y * 256, reg, inflate), unique)
      {
        for z := 0 to 16
          invariant Follows(View(), AppliedTo(w, s, y * 256 + z * 16, reg, inflate), unique)
        {
          for x := 0 to 16
            invariant Follows(View(), AppliedTo(w, s, y * 256 + z * 16 + x, reg, inflate), unique)
          {
            ghost var before := View();
            ghost var i := y * 256 + z * 16 + x;
            ApplyBlock(s, sorted, x, y, z, reg, runs, inflate);
            BlocksOnly(before, AppliedTo(w, s, i, reg, inflate), s, i, reg, inflate);
          }
        }
      }
    }

    /** Applies a buffer; returns how many sections it had and what the client has left. */
    method ApplyBlockBuffer(r: Reader, reg: Registry, runs: seq<Run>, direct: byte, allowNbt: bool, inflate: Inflate)
      returns (res: Result<(nat, i32)>)
      requires r.Valid() && Translates(reg, runs) && Accounted(View())
      modifies this, r
      ensures var scan := ScanFrom(r.data, old(r.pos), direct, allowNbt);
        && FullSections(scan.sections)
        && Follows(View(), AppliedAll(old(View()), scan.sections, reg, inflate), AllUnique(scan.sections))
        && (scan.end.Err? ==> res == Err(scan.end.error))
        && (scan.end.Ok? ==> res == Ok((|scan.sections|, Available(r.data, scan.end.value))))
    {
      hide I64At, VarI32At, SectionDataAt, AppliedTo, AppliedAll, Accounted, Translates, UniqueOffsets, PackBlockPos, ScanFrom, AllUnique;
      NothingApplied(View(), reg, inflate);
      ghost var start, w := r.pos, View();
      ghost var done: seq<Section> := [];
      var sections := 0;
      ghost var scan := ScanFrom(r.data, start, direct, allowNbt);
      while true
        invariant r.Valid() && sections == |done| && FullSections(done)
        invariant Follows(View(), AppliedAll(w, done, reg, inflate), AllUnique(done))
        invariant scan == Scan(done + ScanFrom(r.data, r.pos, direct, allowNbt).sections,
                               ScanFrom(r.data, r.pos, direct, allowNbt).end)
        decreases |r.data| - r.pos
      {
        ghost var at := r.pos;
        ScanStops(r.data, at, direct, allowNbt);
        var key := r.I64();
        if key.Err? {
          assert done + [] == done;
          return Err(key.error);
        }
        if key.value == MIN_POSITION_LONG {
          assert done + [] == done;
          break;
        }
        var section := ReadSectionData(r, key.value, direct, allowNbt);
        if section.Err? {
          assert done + [] == done;
          return Err(section.error);
        }
        ghost var before := View();
        ScanStep(r.data, at, direct, allowNbt, done);
        ApplySection(section.value, reg, runs, inflate);
        SectionFollows(before, View(), w, done, section.value, reg, inflate);
        done := done + [section.value];
        sections := sections + 1;
      }
      var available := r.VarI32();
      res := Ok((sections, if available.Ok? then available.value else 0));
    }
  }

  lemma Coordinates(x: nat, y: nat, z: nat)
    requires x < 16 && y < 16 && z < 16
    ensures var i := y * 256 + z * 16 + x;
      i < SECTION_VOLUME && i % 16 == x && i / 256 == y && i / 16 % 16 == z && OffsetOf(i) == x + y * 16 + z * 256
  {
    var i := y * 256 + z * 16 + x;
    DivideUnique(i, 256, y, z * 16 + x);
    DivideUnique(i, 16, y * 16 + z, x);
    DivideUnique(y * 16 + z, 16, y, z);
  }

  lemma SameAccounts(v: World, w: World)
    requires Accounted(v) && v.inflated == w.inflated && v.budget == w.budget
    ensures Accounted(w)
  {
  }

  lemma NothingApplied(w: World, reg: Registry, inflate: Inflate)
    ensures AppliedAll(w, [], reg, inflate) == w && AllUnique([])
  {
  }

  /** Where a buffer stops: at the sentinel, or at what cannot be read. */
  lemma ScanStops(data: seq<byte>, pos: nat, direct: byte, allowNbt: bool)
    requires pos <= |data|
    ensures var key, scan := I64At(data, pos), ScanFrom(data, pos, direct, allowNbt);
      && (key.Err? ==> scan == Scan([], Err(key.error)))
      && (key.Ok? && key.value.value == MIN_POSITION_LONG ==> scan == Scan([], Ok(pos + 8)))
      && (key.Ok? && key.value.value != MIN_POSITION_LONG ==>
            var section := SectionDataAt(data, pos + 8, key.value.value, direct, allowNbt);
            section.Err? ==> scan == Scan([], Err(section.error)))
  {
    hide SectionDataAt, PackBlockPos, I64At;
  }

  lemma ScanStep(data: seq<byte>, pos: nat, direct: byte, allowNbt: bool, done: seq<Section>)
    requires pos <= |data| && I64At(data, pos).Ok? && I64At(data, pos).value.value != MIN_POSITION_LONG
    requires SectionDataAt(data, pos + 8, I64At(data, pos).value.value, direct, allowNbt).Ok?
    ensures var section := SectionDataAt(data, pos + 8, I64At(data, pos).value.value, direct, allowNbt).value;
      var scan, rest := ScanFrom(data, pos, direct, allowNbt), ScanFrom(data, section.end, direct, allowNbt);
      scan.end == rest.end && done + scan.sections == (done + [section.value]) + rest.sections
  {
    hide SectionDataAt, PackBlockPos;
  }

  lemma SectionFollows(
    before: World, after: World, w: World, done: seq<Section>, s: Section, reg: Registry, inflate: Inflate)
    requires FullSections(done) && |s.entries| == SECTION_VOLUME
    requires Follows(before, AppliedAll(w, done, reg, inflate), AllUnique(done))
    requires Follows(after, AppliedTo(before, s, SECTION_VOLUME, reg, inflate), UniqueOffsets(s.entities))
    ensures FullSections(done + [s])
    ensures Follows(after, AppliedAll(w, done + [s], reg, inflate), AllUnique(done + [s]))
  {
    hide AppliedTo, UniqueOffsets, Accounted;
    assert (done + [s])[..|done|] == done;
    SectionBlocksOnly(before, AppliedAll(w, done, reg, inflate), s, SECTION_VOLUME, reg, inflate);
    if AllUnique(done + [s]) {
      assert (done + [s])[|done|] == s;
      assert forall i :: 0 <= i < |done| ==> done[i] == (done + [s])[i];
    }
  }

  lemma {:induction false} SectionBlocksOnly(v: World, w: World, s: Section, n: nat, reg: Registry, inflate: Inflate)
    requires |s.entries| == SECTION_VOLUME && n <= SECTION_VOLUME && v.blocks == w.blocks
    ensures AppliedTo(v, s, n, reg, inflate).blocks == AppliedTo(w, s, n, reg, inflate).blocks
    decreases n
  {
    hide AppliedAt;
    if n > 0 {
      SectionBlocksOnly(v, w, s, n - 1, reg, inflate);
      BlocksOnly(AppliedTo(v, s, n - 1, reg, inflate), AppliedTo(w, s, n - 1, reg, inflate), s, n - 1, reg, inflate);
    }
  }
}
