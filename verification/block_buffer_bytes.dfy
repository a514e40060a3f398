/**
  Block buffers as a client writes them, and what the server sees of them: every section
  with its entries, and its block entities exactly where the player may place NBT.
 */
module BlockBufferBytes {
  import opened Bytes
  import opened Buf
  import opened Palette
  import opened BlockBuffers
  import opened BlockBufferRuns
  import ChunkClient

  // ----- block entities -----

  function PendingBytes(e: Pending): seq<byte>
    requires e.size < 0x8000_0000
  {
    BigEndian(2, e.offset) + (VarI32Bytes(e.size) + ([e.dictionary] + ByteArrayBytes(e.compressed)))
  }

  /** A mebibyte each, unpacked and packed. */
  predicate InLimits(e: Pending) {
    e.size <= 0x10_0000 && |e.compressed| <= 0x10_0000
  }

  /** A block entity reads as itself, to its last byte, exactly if it is within the limits. */
  lemma PendingReads(e: Pending, data: seq<byte>, pos: nat)
    requires e.size < 0x8000_0000 && |e.compressed| < 0x8000_0000 && At(data, pos, PendingBytes(e))
    ensures PendingAt(data, pos).Ok? <==> InLimits(e)
    ensures InLimits(e) ==> PendingAt(data, pos) == Ok(Parsed(e, pos + |PendingBytes(e)|))
  {
    hide BigEndian, U16At, VarI32Bytes, VarI32At, ByteArrayBytes, ByteArrayAt;
    var offset, size, dictionary := BigEndian(2, e.offset), VarI32Bytes(e.size), [e.dictionary];
    var compressed := ByteArrayBytes(e.compressed);
    AtConcat(data, pos, offset, size + (dictionary + compressed));
    AtConcat(data, pos + 2, size, dictionary + compressed);
    AtConcat(data, pos + 2 + |size|, dictionary, compressed);
    assert data[pos + 2 + |size|] == data[pos + 2 + |size|..pos + 3 + |size|][0];
    U16Inverse(data, pos, e.offset);
    VarI32Inverse(data, pos + 2, e.size);
    ByteArrayInverse(data, pos + 3 + |size|, e.compressed, 0x10_0000);
  }

  /** A block entity that was copied out goes back in as it came, behind its place in the
      section instead of its key. */
  lemma CopiedIsPlaced(e: ChunkClient.EntityEntry, offset: u16)
    requires e.size < 0x8000_0000
    ensures |ChunkClient.EntityBytes(e)| >= 8
    ensures PendingBytes(Pending(offset, e.size, e.dictionary, e.compressed))
         == BigEndian(2, offset) + ChunkClient.EntityBytes(e)[8..]
  {
    hide VarI32Bytes, ByteArrayBytes, BigEndian;
  }

  function PendingsBytes(es: seq<Pending>): seq<byte>
    requires AllInLimits(es)
  {
    if es == [] then [] else PendingBytes(es[0]) + PendingsBytes(es[1..])
  }

  predicate AllInLimits(es: seq<Pending>) {
    forall i :: 0 <= i < |es| ==> InLimits(es[i])
  }

  lemma {:induction false} PendingsRead(es: seq<Pending>, data: seq<byte>, pos: nat)
    requires AllInLimits(es) && At(data, pos, PendingsBytes(es))
    ensures PendingsAt(data, pos, |es|) == Ok(Parsed(es, pos + |PendingsBytes(es)|))
    decreases |es|
  {
    hide PendingBytes, PendingAt;
    if es != [] {
      AtConcat(data, pos, PendingBytes(es[0]), PendingsBytes(es[1..]));
      PendingReads(es[0], data, pos);
      PendingsRead(es[1..], data, pos + |PendingBytes(es[0])|);
      assert es == [es[0]] + es[1..];
    }
  }

  // ----- sections -----

  /** A section a client can write: of 4096 entries that share a palette, with at most as
      many entities, under a key that is not the sentinel. */
  predicate Writable(s: Section) {
    && |s.entries| == SECTION_VOLUME && |PaletteOf(s.entries)| <= MAX_INDIRECT_PALETTE
    && s.key != MIN_POSITION_LONG && |s.entities| <= 4096 && AllInLimits(s.entities)
  }

  function SectionTail(s: Section): seq<byte>
    requires Writable(s)
  {
    SectionBytes(s.entries) + (VarI32Bytes(|s.entities|) + PendingsBytes(s.entities))
  }

  /** The section as a player sees it who may, or may not, place NBT. */
  function Permitted(s: Section, allowNbt: bool): Section {
    if allowNbt then s else s.(entities := [])
  }

  /** What follows a section's key reads as the section; without the permission its
      entities are read past and gone. */
  lemma SectionTailReads(s: Section, data: seq<byte>, pos: nat, direct: byte, allowNbt: bool)
    requires Writable(s) && At(data, pos, SectionTail(s))
    ensures SectionDataAt(data, pos, s.key, direct, allowNbt)
         == Ok(Parsed(Permitted(s, allowNbt), pos + |SectionTail(s)|))
  {
    hide SectionBytes, SectionAt, VarI32Bytes, VarI32At, PendingsBytes, PendingsAt, PaletteOf, Ids, AllInLimits, PackBlockPos;
    var entries, count := SectionBytes(s.entries), VarI32Bytes(|s.entities|);
    AtConcat(data, pos, entries, count + PendingsBytes(s.entities));
    AtConcat(data, pos + |entries|, count, PendingsBytes(s.entities));
    PaletteIds(s.entries);
    IndirectSectionReads(s.entries, data, pos, direct);
    VarI32Inverse(data, pos + |entries|, |s.entities|);
    PendingsRead(s.entities, data, pos + |entries| + |count|);
  }

  /** A section that claims more entities than it has blocks is refused. */
  lemma TooManyEntities(s: Section, count: i32, data: seq<byte>, pos: nat, direct: byte, allowNbt: bool)
    requires Writable(s) && count > 4096 && At(data, pos, SectionBytes(s.entries) + VarI32Bytes(count))
    ensures SectionDataAt(data, pos, s.key, direct, allowNbt).Err?
  {
    hide SectionBytes, SectionAt, VarI32Bytes, VarI32At, PendingsAt, PaletteOf, Ids, AllInLimits, PackBlockPos;
    var entries := SectionBytes(s.entries);
    AtConcat(data, pos, entries, VarI32Bytes(count));
    PaletteIds(s.entries);
    IndirectSectionReads(s.entries, data, pos, direct);
    VarI32Inverse(data, pos + |entries|, count);
  }

  // ----- whole buffers -----

  predicate AllWritable(ss: seq<Section>) {
    forall i :: 0 <= i < |ss| ==> Writable(ss[i])
  }

  function SectionsBytes(ss: seq<Section>): seq<byte>
    requires AllWritable(ss)
  {
    if ss == [] then I64Bytes(MIN_POSITION_LONG)
    else I64Bytes(ss[0].key) + (SectionTail(ss[0]) + SectionsBytes(ss[1..]))
  }

  function AllPermitted(ss: seq<Section>, allowNbt: bool): (r: seq<Section>)
    ensures |r| == |ss| && forall i :: 0 <= i < |ss| ==> r[i] == Permitted(ss[i], allowNbt)
  {
    seq(|ss|, i requires 0 <= i < |ss| => Permitted(ss[i], allowNbt))
  }

  lemma {:induction false} BufferScans(ss: seq<Section>, data: seq<byte>, pos: nat, direct: byte, allowNbt: bool)
    requires AllWritable(ss) && At(data, pos, SectionsBytes(ss))
    ensures ScanFrom(data, pos, direct, allowNbt)
         == Scan(AllPermitted(ss, allowNbt), Ok(pos + |SectionsBytes(ss)|))
    decreases |ss|
  {
    hide SectionTail, Writable, SectionDataAt, I64At, I64Bytes, PackBlockPos, ScanFrom;
    if ss == [] {
      I64Inverse(data, pos, MIN_POSITION_LONG);
      ScanStops(data, pos, direct, allowNbt);
      assert AllPermitted(ss, allowNbt) == [];
    } else {
      var head, tail, rest := I64Bytes(ss[0].key), SectionTail(ss[0]), SectionsBytes(ss[1..]);
      AtConcat(data, pos, head, tail + rest);
      AtConcat(data, pos + 8, tail, rest);
      I64Inverse(data, pos, ss[0].key);
      KeyIsFree(ss[0]);
      SectionTailReads(ss[0], data, pos + 8, direct, allowNbt);
      ScanStep(data, pos, direct, allowNbt, []);
      BufferScans(ss[1..], data, pos + 8 + |tail|, direct, allowNbt);
      assert AllPermitted(ss, allowNbt) == [Permitted(ss[0], allowNbt)] + AllPermitted(ss[1..], allowNbt);
      var scan := ScanFrom(data, pos, direct, allowNbt);
      assert [] + scan.sections == scan.sections;
      assert [] + [Permitted(ss[0], allowNbt)] == [Permitted(ss[0], allowNbt)];
    }
  }

  lemma KeyIsFree(s: Section)
    requires Writable(s)
    ensures s.key != MIN_POSITION_LONG
  {
  }

  /** A buffer reads as the sections a client wrote, to the sentinel, at any direct width;
      the client's own figure is what follows, or nothing if nothing does. */
  lemma BufferReads(ss: seq<Section>, available: i32, data: seq<byte>, pos: nat, direct: byte, allowNbt: bool)
    requires AllWritable(ss) && At(data, pos, SectionsBytes(ss) + VarI32Bytes(available))
    ensures var scan := ScanFrom(data, pos, direct, allowNbt);
      && scan.sections == AllPermitted(ss, allowNbt)
      && scan.end.Ok? && Available(data, scan.end.value) == available
  {
    hide SectionsBytes, VarI32Bytes, VarI32At, ScanFrom, Writable, PackBlockPos;
    AtConcat(data, pos, SectionsBytes(ss), VarI32Bytes(available));
    BufferScans(ss, data, pos, direct, allowNbt);
    VarI32Inverse(data, pos + |SectionsBytes(ss)|, available);
  }

  /** A buffer that ends at its sentinel leaves the client with nothing. */
  lemma NothingAvailable(data: seq<byte>)
    ensures Available(data, |data|) == 0
  {
  }
}
