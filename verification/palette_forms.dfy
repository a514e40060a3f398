/**
  Every form a section can take on the wire, each with what it reads as: one id for all
  blocks, a palette with indices, or the ids themselves.  Widths are numbers here.
 */
module PaletteForms {
  import opened Bytes
  import opened Buf
  import opened Palette

  /** A section that declares no bits is one id, 4096 times over. */
  lemma SingleValueReads(id: u16, data: seq<byte>, pos: nat, direct: byte)
    requires At(data, pos, [0] + VarI32Bytes(id))
    ensures SectionAt(data, pos, direct)
         == Ok(Parsed(seq(SECTION_VOLUME, _ => id), pos + 1 + |VarI32Bytes(id)|))
  {
    hide VarI32Bytes, VarI32At, IdsAt, PackedAt;
    AtConcat(data, pos, [0], VarI32Bytes(id));
    assert data[pos] == data[pos..pos + 1][0];
    VarI32Inverse(data, pos + 1, id);
  }

  function PaletteSection(declared: byte, palette: seq<u16>, indices: seq<nat>, width: nat): seq<byte>
    requires 1 <= width <= 64 && |palette| < 0x8000_0000
  {
    [declared] + (VarI32Bytes(|palette|) + (IdsBytes(palette) + Packed(indices, width)))
  }

  /** A section that declares 1 to 8 bits is a palette and indices, which take 4 bits where
      fewer are declared.  It reads, as the ids its indices name, exactly if the palette is
      no longer than the width can address and no index is past its end. */
  lemma PaletteSectionReads(
    declared: byte, palette: seq<u16>, indices: seq<nat>, data: seq<byte>, pos: nat, direct: byte)
    requires 1 <= declared <= 8 && |palette| < 0x8000_0000 && |indices| == SECTION_VOLUME
    requires var width := if declared < 4 then 4 else declared;
      Digits(indices, width) && At(data, pos, PaletteSection(declared, palette, indices, width))
    ensures var width := if declared < 4 then 4 else declared;
      var read := SectionAt(data, pos, direct);
      && (read.Ok? <==> |palette| <= Pow2(width) && forall i :: 0 <= i < SECTION_VOLUME ==> indices[i] < |palette|)
      && (read.Ok? ==>
            && (forall i :: 0 <= i < SECTION_VOLUME ==> indices[i] < |palette|)
            && read.value.value == seq(SECTION_VOLUME, i requires 0 <= i < SECTION_VOLUME => palette[indices[i]])
            && read.value.end == pos + |PaletteSection(declared, palette, indices, width)|)
  {
    hide VarI32Bytes, VarI32At, IdsAt, PackedAt, IdsBytes, Packed, Pow2, EntryOf;
    var width := if declared < 4 then 4 else declared;
    var count, ids, packed := VarI32Bytes(|palette|), IdsBytes(palette), Packed(indices, width);
    AtConcat(data, pos, [declared], count + (ids + packed));
    AtConcat(data, pos + 1, count, ids + packed);
    AtConcat(data, pos + 1 + |count|, ids, packed);
    assert data[pos] == data[pos..pos + 1][0];
    VarI32Inverse(data, pos + 1, |palette|);
    if |palette| <= Pow2(width) {
      IdsInverse(palette, data, pos + 1 + |count|);
      IndicesRead(palette, indices, width, data, pos + 1 + |count| + |ids|);
    }
  }

  lemma IndicesRead(palette: seq<u16>, indices: seq<nat>, width: nat, data: seq<byte>, pos: nat)
    requires 1 <= width <= 64 && |indices| == SECTION_VOLUME && Digits(indices, width)
    requires At(data, pos, Packed(indices, width))
    ensures var read := PackedAt(data, pos, width, Some(palette));
      if forall i :: 0 <= i < SECTION_VOLUME ==> indices[i] < |palette| then
        read == Ok(Parsed(seq(SECTION_VOLUME, i requires 0 <= i < SECTION_VOLUME => palette[indices[i]]),
                          pos + |Packed(indices, width)|))
      else read.Err?
  {
    hide Packed, EntriesFrom;
    if forall i :: 0 <= i < SECTION_VOLUME ==> indices[i] < |palette| {
      var entries := seq(SECTION_VOLUME, i requires 0 <= i < SECTION_VOLUME => palette[indices[i]]);
      PackedInverse(entries, indices, width, Some(palette), data, pos);
    } else {
      var k :| 0 <= k < SECTION_VOLUME && indices[k] >= |palette|;
      RawInverse(indices, width, 0);
      PastTheEnd(palette, indices, width, 0, k);
    }
  }

  /** One index past the palette's end and the section is refused. */
  lemma {:induction false} PastTheEnd(palette: seq<u16>, indices: seq<nat>, width: nat, i: nat, k: nat)
    requires 1 <= width <= 64 && |indices| == SECTION_VOLUME && Digits(indices, width)
    requires i <= k < SECTION_VOLUME && indices[k] >= |palette|
    ensures |Packed(indices, width)| == PackedLen(width) * 8
    ensures EntriesFrom(Packed(indices, width), width, Some(palette), i).Err?
    decreases k - i
  {
    hide Packed, RawAt;
    RawInverse(indices, width, i);
    if i < k { PastTheEnd(palette, indices, width, i + 1, k); }
  }

  /** A section that declares more than 8 bits is read at what it declares or at what the
      reader's own registry takes, whichever is more, but at no more than 16. */
  lemma WideSectionReads(entries: seq<u16>, declared: byte, direct: byte, data: seq<byte>, pos: nat)
    requires |entries| == SECTION_VOLUME && declared > 8
    requires var wide: nat := if declared < direct then direct else declared;
      var width: nat := if wide > 16 then 16 else wide;
      Digits(entries, width) && At(data, pos, [declared] + Packed(entries, width))
    ensures var wide: nat := if declared < direct then direct else declared;
      var width: nat := if wide > 16 then 16 else wide;
      SectionAt(data, pos, direct) == Ok(Parsed(entries, pos + 1 + |Packed(entries, width)|))
  {
    hide Packed, SectionAt, Pow2;
    DirectSectionReads(entries, declared, direct, data, pos);
  }
}
