/**
  Paletted sections: 4096 block ids as a palette and packed indices.  The spec functions
  say what a section's bytes are and what a read of them yields; the round trip holds
  for every section the writer accepts.
 */
module Palette {
  import opened Bytes
  import opened Buf

  const SECTION_VOLUME: nat := 4096
  const MIN_INDIRECT_BITS: nat := 4
  const MAX_BITS: nat := 16
  const MAX_INDIRECT_PALETTE: nat := 256

  function Max(a: nat, b: nat): nat { if a < b then b else a }

  function Min(a: nat, b: nat): nat { if a < b then a else b }

  // ----- the palette -----

  function WithId(palette: seq<u16>, id: u16): seq<u16> {
    if id in palette then palette else palette + [id]
  }

  /** The ids of a section in the order they first occur. */
  function PaletteOf(entries: seq<u16>): seq<u16> {
    if entries == [] then [] else WithId(PaletteOf(entries[..|entries| - 1]), entries[|entries| - 1])
  }

  function PositionIn(palette: seq<u16>, id: u16): (i: nat)
    ensures i <= |palette| && (i < |palette| <==> id in palette)
    ensures i < |palette| ==> palette[i] == id
    ensures forall j :: 0 <= j < i ==> palette[j] != id
  {
    if palette == [] || palette[0] == id then 0 else 1 + PositionIn(palette[1..], id)
  }

  function Ids(entries: seq<u16>): set<u16> {
    set id | id in entries
  }

  predicate NoRepeats(s: seq<u16>) {
    forall i, j :: 0 <= i < j < |s| ==> s[i] != s[j]
  }

  lemma {:induction false} PaletteIds(entries: seq<u16>)
    ensures NoRepeats(PaletteOf(entries)) && Ids(PaletteOf(entries)) == Ids(entries)
    ensures |PaletteOf(entries)| == |Ids(entries)|
  {
    if entries != [] {
      var last, before := entries[|entries| - 1], entries[..|entries| - 1];
      PaletteIds(before);
      assert entries == before + [last];
      var p := PaletteOf(before);
      assert Ids(entries) == Ids(before) + {last};
      assert Ids(WithId(p, last)) == Ids(p) + {last};
      assert last in p <==> last in Ids(p);
    }
  }

  /** A palette only grows at its end as more entries are seen. */
  lemma {:induction false} PaletteGrows(entries: seq<u16>, n: nat)
    requires n <= |entries|
    ensures PaletteOf(entries[..n]) <= PaletteOf(entries)
    decreases |entries| - n
  {
    if n == |entries| {
      assert entries[..n] == entries;
    } else {
      assert entries[..n + 1][..n] == entries[..n];
      PaletteGrows(entries, n + 1);
    }
  }

  lemma PositionStays(palette: seq<u16>, longer: seq<u16>, id: u16)
    requires palette <= longer && id in palette
    ensures PositionIn(longer, id) == PositionIn(palette, id)
  {
    var i := PositionIn(palette, id);
    assert longer[i] == palette[i] == id;
    assert forall j :: 0 <= j < i ==> longer[j] == palette[j];
    var k := PositionIn(longer, id);
    assert k == i;
  }

  function Indices(entries: seq<u16>, palette: seq<u16>): (r: seq<nat>)
    ensures |r| == |entries| && forall i :: 0 <= i < |entries| ==> r[i] == PositionIn(palette, entries[i])
  {
    seq(|entries|, i requires 0 <= i < |entries| => PositionIn(palette, entries[i]))
  }

  // ----- widths -----

  function BitLength(n: nat): nat {
    if n == 0 then 0 else 1 + BitLength(n / 2)
  }

  /** The width of an index below `len`: 32 less the leading zeros. */
  function EncompassingBits(len: nat): nat {
    BitLength(Max(len, 2) - 1)
  }

  lemma {:induction false} BitLengthCovers(n: nat)
    ensures n < Pow2(BitLength(n))
  {
    if n > 0 { BitLengthCovers(n / 2); }
  }

  lemma {:induction false} BitLengthLeast(n: nat, k: nat)
    requires n < Pow2(k)
    ensures BitLength(n) <= k
  {
    if n > 0 { BitLengthLeast(n / 2, k - 1); }
  }

  function IndirectBits(len: nat): nat {
    Max(EncompassingBits(len), MIN_INDIRECT_BITS)
  }

  lemma IndirectWidth(len: nat)
    requires len <= MAX_INDIRECT_PALETTE
    ensures 4 <= IndirectBits(len) <= 8 && len <= Pow2(IndirectBits(len))
  {
    hide BitLength;
    var n := Max(len, 2) - 1;
    BitLengthCovers(n);
    BitLengthLeast(n, 8) by { Pow2Bytes(); }
    Pow2Monotone(BitLength(n), IndirectBits(len));
  }

  function PerWord(bits: nat): (n: nat)
    requires 1 <= bits <= 64
    ensures 1 <= n && Place(n, bits) <= 64
  {
    64 / bits
  }

  function PackedLen(bits: nat): nat
    requires 1 <= bits <= 64
  {
    Groups(SECTION_VOLUME, PerWord(bits))
  }

  // ----- packing -----

  /** How far digit `n` of a word is shifted. */
  function Place(n: nat, bits: nat): nat {
    n * bits
  }

  lemma PlaceAdd(a: nat, b: nat, bits: nat)
    ensures Place(a + b, bits) == Place(a, bits) + Place(b, bits)
    ensures Place(0, bits) == 0 && Place(1, bits) == bits
  {
  }

  /** One word: each digit or-ed in above the ones before it. */
  function Word(digits: seq<nat>, bits: nat): nat {
    if digits == [] then 0
    else
      var n := |digits| - 1;
      BitOr(Word(digits[..n], bits), digits[n] * Pow2(Place(n, bits)) % TWO64)
  }

  predicate Digits(digits: seq<nat>, bits: nat) {
    forall i :: 0 <= i < |digits| ==> digits[i] < Pow2(bits)
  }

  lemma {:induction false} WordStep(digits: seq<nat>, bits: nat)
    requires Digits(digits, bits) && digits != [] && Place(|digits|, bits) <= 64
    ensures var n := |digits| - 1;
      Word(digits[..n], bits) < Pow2(Place(n, bits))
      && Word(digits, bits) == Word(digits[..n], bits) + digits[n] * Pow2(Place(n, bits))
      && Word(digits, bits) < Pow2(Place(|digits|, bits)) <= TWO64
    decreases |digits|
  {
    hide BitOr, Pow2, Place;
    var n := |digits| - 1;
    var low := digits[..n];
    PlaceAdd(n, 1, bits);
    if n > 0 {
      WordStep(low, bits);
    } else {
      assert low == [] && Word(low, bits) == 0;
    }
    DigitFits(digits[n], Place(n, bits), bits);
    OrDisjoint(Word(low, bits), digits[n], Place(n, bits));
  }

  lemma DigitBound(d: nat, p: nat, base: nat)
    requires d < base && p > 0
    ensures 0 <= d * p && (d + 1) * p == d * p + p <= p * base
  {
    MulUpTo(d + 1, base, p);
  }

  lemma DigitFits(d: nat, k: nat, bits: nat)
    requires d < Pow2(bits) && k + bits <= 64
    ensures (d + 1) * Pow2(k) <= Pow2(k + bits) <= TWO64
    ensures d * Pow2(k) % TWO64 == d * Pow2(k) && d * Pow2(k) + Pow2(k) <= Pow2(k + bits)
  {
    hide Pow2;
    Pow2Add(k, bits);
    Pow2Monotone(k + bits, WORD_BITS);
    Pow2Word();
    DigitBound(d, Pow2(k), Pow2(bits));
    SmallMod(d * Pow2(k), TWO64);
  }

  /** Shifting down by a digit's place and masking recovers it. */
  lemma {:induction false} DigitAt(digits: seq<nat>, bits: nat, j: nat)
    requires Digits(digits, bits) && Place(|digits|, bits) <= 64 && j < |digits|
    ensures Word(digits, bits) / Pow2(Place(j, bits)) % Pow2(bits) == digits[j]
    decreases |digits|
  {
    hide BitOr, Pow2, Word, Place;
    var n := |digits| - 1;
    WordStep(digits, bits);
    var low := Word(digits[..n], bits);
    if j == n {
      DivideAbove(low, digits[n], Pow2(Place(n, bits)));
      SmallMod(digits[n], Pow2(bits));
    } else {
      PlaceAdd(n, 1, bits);
      DigitAt(digits[..n], bits, j);
      HigherPlace(j, n - j - 1, bits);
      HigherDigitsVanish(low, digits[n], Pow2(Place(j, bits)), Pow2(bits), Pow2(Place(n - j - 1, bits)));
    }
  }

  /** A higher place is a lower one, the digit between, and the gap above that. */
  lemma HigherPlace(j: nat, gap: nat, bits: nat)
    ensures Pow2(Place(j + 1 + gap, bits)) == Pow2(Place(j, bits)) * (Pow2(bits) * Pow2(Place(gap, bits)))
  {
    hide Pow2, Place;
    PlaceAdd(j, 1 + gap, bits);
    PlaceAdd(1, gap, bits);
    Pow2Add(Place(j, bits), bits + Place(gap, bits));
    Pow2Add(bits, Place(gap, bits));
  }

  lemma DivideAbove(low: nat, d: nat, p: nat)
    requires low < p
    ensures (low + d * p) / p == d
  {
    DivideUnique(low + d * p, p, d, low);
  }

  lemma HigherDigitsVanish(low: nat, d: nat, p: nat, base: nat, gap: nat)
    requires p > 0 && base > 0
    ensures (low + d * (p * (base * gap))) / p % base == low / p % base
  {
    Rearrange(d, p, base, gap);
    AddMultiple(low, (d * gap) * base, p);
    AddMultiple(low / p, d * gap, base);
  }

  lemma AddMultiple(n: nat, k: nat, p: nat)
    requires p > 0
    ensures (n + k * p) / p == n / p + k && (n + k * p) % p == n % p
  {
    var q, r := n / p, n % p;
    assert n == q * p + r;
    assert q * p + k * p == (q + k) * p;
    DivideUnique(n + k * p, p, q + k, r);
  }

  lemma Rearrange(d: nat, p: nat, base: nat, gap: nat)
    ensures d * (p * (base * gap)) == ((d * gap) * base) * p
  {
    var u := base * gap;
    assert d * (p * u) == (d * u) * p;
    assert d * u == (d * gap) * base;
  }

  /** Words of as many digits as fit; no digit is split across two. */
  function Packed(digits: seq<nat>, bits: nat): seq<byte>
    requires 1 <= bits <= 64
  {
    if digits == [] then []
    else
      var k := Min(PerWord(bits), |digits|);
      BigEndian(8, Word(digits[..k], bits)) + Packed(digits[k..], bits)
  }

  lemma {:induction false} PackedLength(digits: seq<nat>, bits: nat)
    requires 1 <= bits <= 64
    ensures |Packed(digits, bits)| == Groups(|digits|, PerWord(bits)) * 8
    decreases |digits|
  {
    hide BigEndian, Word, PerWord, Groups;
    var per := PerWord(bits);
    if digits != [] {
      var k := Min(per, |digits|);
      PackedLength(digits[k..], bits);
      CeilStep(|digits|, per);
    } else {
      NoGroups(per);
    }
  }

  /** How many groups of `per` it takes to hold `n`. */
  function Groups(n: nat, per: nat): nat
    requires per > 0
  {
    (n + per - 1) / per
  }

  lemma NoGroups(per: nat)
    requires per > 0
    ensures Groups(0, per) == 0
  {
    DivideUnique(per - 1, per, 0, per - 1);
  }

  lemma CeilStep(n: nat, per: nat)
    requires n > 0 && per > 0
    ensures Groups(n, per) == 1 + Groups(n - Min(per, n), per)
  {
    if n > per {
      var m := n - per + per - 1;
      assert n + per - 1 == m + per;
      var q, r := m / per, m % per;
      assert m == q * per + r;
      assert (q + 1) * per == q * per + per;
      DivideUnique(n + per - 1, per, q + 1, r);
    } else {
      DivideUnique(n + per - 1, per, 1, n - 1);
      DivideUnique(per - 1, per, 0, per - 1);
    }
  }

  /** The digits of the `g`-th word. */
  function Group(digits: seq<nat>, per: nat, g: nat): seq<nat>
    requires g * per <= |digits|
  {
    digits[g * per..Min((g + 1) * per, |digits|)]
  }

  lemma {:induction false} PackedWord(digits: seq<nat>, bits: nat, g: nat)
    requires 1 <= bits <= 64 && g * PerWord(bits) < |digits|
    ensures g * 8 + 8 <= |Packed(digits, bits)|
    ensures Packed(digits, bits)[g * 8..g * 8 + 8] == BigEndian(8, Word(Group(digits, PerWord(bits), g), bits))
    decreases g
  {
    hide BigEndian, Word;
    var per := PerWord(bits);
    var k := Min(per, |digits|);
    var head, rest := BigEndian(8, Word(digits[..k], bits)), Packed(digits[k..], bits);
    assert Packed(digits, bits) == head + rest;
    if g == 0 {
      assert Group(digits, per, 0) == digits[..k];
    } else {
      assert g * per == (g - 1) * per + per;
      assert k == per;
      PackedWord(digits[k..], bits, g - 1);
      GroupTail(digits, per, g);
      assert (head + rest)[g * 8..g * 8 + 8] == rest[(g - 1) * 8..(g - 1) * 8 + 8];
    }
  }

  lemma GroupTail(digits: seq<nat>, per: nat, g: nat)
    requires g > 0 && per > 0 && g * per < |digits|
    ensures per <= |digits| && (g - 1) * per <= |digits| - per
    ensures Group(digits[per..], per, g - 1) == Group(digits, per, g)
  {
    assert g * per == (g - 1) * per + per;
    assert (g + 1) * per == g * per + per;
    var lo, hi := (g - 1) * per, Min(g * per, |digits| - per);
    assert digits[per..][lo..hi] == digits[lo + per..hi + per];
  }

  // ----- reading -----

  function IdAt(data: seq<byte>, pos: nat): (r: Result<Parsed<u16>>)
    requires pos <= |data|
    ensures r.Ok? ==> pos < r.value.end <= |data|
  {
    var raw :- VarI32At(data, pos);
    if 0 <= raw.value < TWO16 then Ok(Parsed(raw.value, raw.end)) else Err(TooLarge(0, 0xFFFF))
  }

  function IdsAt(data: seq<byte>, pos: nat, n: nat): (r: Result<Parsed<seq<u16>>>)
    requires pos <= |data|
    ensures r.Ok? ==> pos <= r.value.end <= |data| && |r.value.value| == n
    decreases |data| - pos
  {
    if n == 0 then Ok(Parsed([], pos))
    else
      var head :- IdAt(data, pos);
      var rest :- IdsAt(data, head.end, n - 1);
      Ok(Parsed([head.value] + rest.value, rest.end))
  }

  /** The packed value of entry `i`. */
  function RawAt(words: seq<byte>, bits: nat, i: nat): nat
    requires 1 <= bits <= 64 && i / PerWord(bits) * 8 + 8 <= |words|
  {
    var start := i / PerWord(bits) * 8;
    FromBigEndian(words[start..start + 8]) / Pow2(Place(i % PerWord(bits), bits)) % Pow2(bits)
  }

  function EntryOf(raw: nat, palette: Option<seq<u16>>): Result<u16> {
    match palette
    case Some(p) => if raw < |p| then Ok(p[raw]) else Err(TooLarge(raw, |p|))
    case None => if raw < TWO16 then Ok(raw) else Err(TooLarge(raw, 0xFFFF))
  }

  lemma WordInRange(bits: nat, i: nat)
    requires 1 <= bits <= 64 && i < SECTION_VOLUME
    ensures i / PerWord(bits) * 8 + 8 <= PackedLen(bits) * 8
  {
    var per := PerWord(bits);
    var q, c := i / per, PackedLen(bits);
    assert i == q * per + i % per;
    var n := SECTION_VOLUME + per - 1;
    assert n == c * per + n % per;
    if c <= q {
      MulUpTo(c, q, per);
      assert false;
    }
  }

  function EntriesFrom(words: seq<byte>, bits: nat, palette: Option<seq<u16>>, i: nat): (r: Result<seq<u16>>)
    requires 1 <= bits <= 64 && |words| == PackedLen(bits) * 8 && i <= SECTION_VOLUME
    decreases SECTION_VOLUME - i
  {
    if i == SECTION_VOLUME then Ok([])
    else
      WordInRange(bits, i);
      var head :- EntryOf(RawAt(words, bits, i), palette);
      var rest :- EntriesFrom(words, bits, palette, i + 1);
      Ok([head] + rest)
  }

  function PackedAt(data: seq<byte>, pos: nat, bits: nat, palette: Option<seq<u16>>): (r: Result<Parsed<seq<u16>>>)
    requires pos <= |data| && 1 <= bits <= 64
    ensures r.Ok? ==> pos <= r.value.end <= |data|
  {
    var words :- TakeAt(data, pos, PackedLen(bits) * 8);
    var entries :- EntriesFrom(words.value, bits, palette, 0);
    Ok(Parsed(entries, words.end))
  }

  /** The width a section without a palette is packed at. */
  function DirectBits(declared: nat, direct: nat): nat {
    Min(Max(declared, direct), MAX_BITS)
  }

  function SectionAt(data: seq<byte>, pos: nat, direct: byte): (r: Result<Parsed<seq<u16>>>)
    requires pos <= |data|
    ensures r.Ok? ==> pos < r.value.end <= |data|
  {
    var declared :- U8At(data, pos);
    if declared.value == 0 then
      var id :- IdAt(data, declared.end);
      Ok(Parsed(seq(SECTION_VOLUME, _ => id.value), id.end))
    else if declared.value <= 8 then
      var bits := Max(declared.value, MIN_INDIRECT_BITS);
      var len :- VarLenAt(data, declared.end, Pow2(bits));
      var palette :- IdsAt(data, len.end, len.value);
      PackedAt(data, palette.end, bits, Some(palette.value))
    else PackedAt(data, declared.end, DirectBits(declared.value, direct), None)
  }

  // ----- writing -----

  function IdsBytes(ids: seq<u16>): seq<byte> {
    if ids == [] then [] else VarI32Bytes(ids[0]) + IdsBytes(ids[1..])
  }

  /** An indirect section, whose ids must fit one palette. */
  function SectionBytes(entries: seq<u16>): seq<byte>
    requires |PaletteOf(entries)| <= MAX_INDIRECT_PALETTE
  {
    var palette := PaletteOf(entries);
    IndirectWidth(|palette|);
    var bits := IndirectBits(|palette|);
    [bits] + (VarI32Bytes(|palette|) + (IdsBytes(palette) + Packed(Indices(entries, palette), bits)))
  }

  // ----- the round trip -----

  lemma {:induction false} IdsInverse(ids: seq<u16>, data: seq<byte>, pos: nat)
    requires At(data, pos, IdsBytes(ids))
    ensures IdsAt(data, pos, |ids|) == Ok(Parsed(ids, pos + |IdsBytes(ids)|))
    decreases |ids|
  {
    hide VarI32Bytes, VarI32At;
    if ids != [] {
      AtConcat(data, pos, VarI32Bytes(ids[0]), IdsBytes(ids[1..]));
      VarI32Inverse(data, pos, ids[0]);
      IdsInverse(ids[1..], data, pos + |VarI32Bytes(ids[0])|);
      assert ids == [ids[0]] + ids[1..];
    }
  }

  /** Every digit can be read back from its place. */
  lemma RawInverse(digits: seq<nat>, bits: nat, i: nat)
    requires 1 <= bits <= 64 && Digits(digits, bits) && |digits| == SECTION_VOLUME && i < SECTION_VOLUME
    ensures |Packed(digits, bits)| == PackedLen(bits) * 8
    ensures i / PerWord(bits) * 8 + 8 <= PackedLen(bits) * 8
    ensures RawAt(Packed(digits, bits), bits, i) == digits[i]
  {
    hide BigEndian, FromBigEndian, Word, Packed, Pow2, PerWord, Groups, Group;
    var per := PerWord(bits);
    var g, j := i / per, i % per;
    assert i == g * per + j;
    PackedLength(digits, bits);
    WordInRange(bits, i);
    PackedWord(digits, bits, g);
    var group := Group(digits, per, g);
    GroupDigits(digits, per, bits, g, j);
    WordStep(group, bits);
    Pow256Words();
    BigEndianInverse(8, Word(group, bits));
    DigitAt(group, bits, j);
  }

  lemma GroupDigits(digits: seq<nat>, per: nat, bits: nat, g: nat, j: nat)
    requires Digits(digits, bits) && j < per && g * per + j < |digits| && Place(per, bits) <= 64
    ensures var group := Group(digits, per, g);
      j < |group| && group[j] == digits[g * per + j] && Digits(group, bits) && Place(|group|, bits) <= 64
  {
    hide Pow2;
    assert (g + 1) * per == g * per + per;
    MulUpTo(|Group(digits, per, g)|, per, bits);
  }

  lemma {:induction false} EntriesInverse(entries: seq<u16>, digits: seq<nat>, bits: nat, palette: Option<seq<u16>>, i: nat)
    requires 1 <= bits <= 64 && Digits(digits, bits) && |entries| == |digits| == SECTION_VOLUME && i <= SECTION_VOLUME
    requires forall k :: 0 <= k < SECTION_VOLUME ==> EntryOf(digits[k], palette) == Ok(entries[k])
    ensures |Packed(digits, bits)| == PackedLen(bits) * 8
    ensures EntriesFrom(Packed(digits, bits), bits, palette, i) == Ok(entries[i..])
    decreases SECTION_VOLUME - i
  {
    hide Packed, EntryOf, RawAt;
    if i < SECTION_VOLUME {
      RawInverse(digits, bits, i);
      EntriesInverse(entries, digits, bits, palette, i + 1);
      assert entries[i..] == [entries[i]] + entries[i + 1..];
    } else {
      RawInverse(digits, bits, 0);
    }
  }

  lemma PackedInverse(
    entries: seq<u16>, digits: seq<nat>, bits: nat, palette: Option<seq<u16>>, data: seq<byte>, pos: nat)
    requires 1 <= bits <= 64 && Digits(digits, bits) && |entries| == |digits| == SECTION_VOLUME
    requires forall k :: 0 <= k < SECTION_VOLUME ==> EntryOf(digits[k], palette) == Ok(entries[k])
    requires At(data, pos, Packed(digits, bits))
    ensures PackedAt(data, pos, bits, palette) == Ok(Parsed(entries, pos + |Packed(digits, bits)|))
  {
    hide Packed, EntryOf, EntriesFrom;
    EntriesInverse(entries, digits, bits, palette, 0);
    assert entries[0..] == entries;
  }

  /** What the writer writes for a section that fits a palette reads back as the section,
      at whatever width the reader would use for a direct one, and to its last byte. */
  lemma IndirectSectionReads(entries: seq<u16>, data: seq<byte>, pos: nat, direct: byte)
    requires |entries| == SECTION_VOLUME && |Ids(entries)| <= MAX_INDIRECT_PALETTE
    ensures |PaletteOf(entries)| <= MAX_INDIRECT_PALETTE
    ensures At(data, pos, SectionBytes(entries)) ==>
      SectionAt(data, pos, direct) == Ok(Parsed(entries, pos + |SectionBytes(entries)|))
  {
    hide PaletteOf, Packed, IdsBytes, VarI32Bytes, VarI32At, IdsAt, PackedAt, IndirectBits, EntryOf, Pow2, PositionIn;
    PaletteIds(entries);
    if At(data, pos, SectionBytes(entries)) {
      var palette := PaletteOf(entries);
      var bits := IndirectBits(|palette|);
      IndirectWidth(|palette|);
      var digits := Indices(entries, palette);
      var count, ids, packed := VarI32Bytes(|palette|), IdsBytes(palette), Packed(digits, bits);
      AtConcat(data, pos, [bits], count + (ids + packed));
      AtConcat(data, pos + 1, count, ids + packed);
      AtConcat(data, pos + 1 + |count|, ids, packed);
      assert data[pos] == data[pos..pos + 1][0];
      VarI32Inverse(data, pos + 1, |palette|);
      IdsInverse(palette, data, pos + 1 + |count|);
      IndicesAddressPalette(entries, palette, bits);
      PackedInverse(entries, digits, bits, Some(palette), data, pos + 1 + |count| + |ids|);
    }
  }

  /** A palette of at most 256 ids and at most 512 words. */
  lemma SectionSize(entries: seq<u16>)
    requires |entries| == SECTION_VOLUME && |PaletteOf(entries)| <= MAX_INDIRECT_PALETTE
    ensures |SectionBytes(entries)| <= 1 + 5 + 5 * MAX_INDIRECT_PALETTE + 512 * 8
  {
    hide PaletteOf, Packed, VarI32Bytes, EncompassingBits, Indices, IdsBytes, IndirectBits, Groups;
    var palette := PaletteOf(entries);
    IndirectWidth(|palette|);
    WordsAreFew(Indices(entries, palette), IndirectBits(|palette|));
    VarI32IsShort(|palette|);
    IdsAreShort(palette);
  }

  lemma WordsAreFew(digits: seq<nat>, bits: nat)
    requires |digits| == SECTION_VOLUME && 4 <= bits <= 8
    ensures |Packed(digits, bits)| <= 512 * 8
  {
    hide Packed;
    PackedLength(digits, bits);
    assert PerWord(bits) == if bits == 4 then 16 else if bits == 5 then 12 else if bits == 6 then 10 else if bits == 7 then 9 else 8;
  }

  lemma VarI32IsShort(v: i32)
    ensures |VarI32Bytes(v)| <= 5
  {
    hide VarI32Bytes;
    VarI32Inverse(VarI32Bytes(v), 0, v);
  }

  lemma {:induction false} IdsAreShort(ids: seq<u16>)
    ensures |IdsBytes(ids)| <= 5 * |ids|
    decreases |ids|
  {
    hide VarI32Bytes;
    if ids != [] {
      VarI32IsShort(ids[0]);
      IdsAreShort(ids[1..]);
    }
  }

  lemma IndicesAddressPalette(entries: seq<u16>, palette: seq<u16>, bits: nat)
    requires Ids(palette) == Ids(entries) && |palette| <= Pow2(bits)
    ensures Digits(Indices(entries, palette), bits)
    ensures forall k :: 0 <= k < |entries| ==> EntryOf(Indices(entries, palette)[k], Some(palette)) == Ok(entries[k])
  {
    hide Pow2, PositionIn;
    forall k | 0 <= k < |entries|
      ensures PositionIn(palette, entries[k]) < |palette|
    {
      assert entries[k] in Ids(entries);
    }
  }

  /** A section packed without a palette, at the width the reader will use, reads back
      as the ids. */
  lemma DirectSectionReads(entries: seq<u16>, declared: byte, direct: byte, data: seq<byte>, pos: nat)
    requires |entries| == SECTION_VOLUME && declared > 8 && Digits(entries, DirectBits(declared, direct))
    requires At(data, pos, [declared] + Packed(entries, DirectBits(declared, direct)))
    ensures SectionAt(data, pos, direct)
         == Ok(Parsed(entries, pos + 1 + |Packed(entries, DirectBits(declared, direct))|))
  {
    hide Packed, PackedAt, Pow2;
    var bits := DirectBits(declared, direct);
    AtConcat(data, pos, [declared], Packed(entries, bits));
    assert data[pos] == data[pos..pos + 1][0];
    PackedInverse(entries, entries, bits, None, data, pos + 1);
  }

  // ----- the loops -----

  function PrependEntries(done: seq<u16>, rest: Result<seq<u16>>): (r: Result<seq<u16>>)
    ensures done == [] ==> r == rest
    ensures rest == Ok([]) ==> r == Ok(done)
    ensures rest.Err? ==> r == rest
  {
    match rest
    case Err(e) => Err(e)
    case Ok(es) =>
      assert [] + es == es && done + [] == done;
      Ok(done + es)
  }

  lemma PrependEntry(done: seq<u16>, id: u16, rest: Result<seq<u16>>)
    ensures rest.Ok? ==> PrependEntries(done, Ok([id] + rest.value)) == PrependEntries(done + [id], rest)
    ensures rest.Err? ==> PrependEntries(done, rest) == PrependEntries(done + [id], rest)
  {
    if rest.Ok? { assert done + ([id] + rest.value) == (done + [id]) + rest.value; }
  }

  function PrependIds(done: seq<u16>, rest: Result<Parsed<seq<u16>>>): (r: Result<Parsed<seq<u16>>>)
    ensures done == [] ==> r == rest
    ensures rest.Ok? && rest.value.value == [] ==> r == Ok(Parsed(done, rest.value.end))
    ensures rest.Err? ==> r == rest
  {
    match rest
    case Err(e) => Err(e)
    case Ok(ids) =>
      assert [] + ids.value == ids.value && done + [] == done;
      Ok(Parsed(done + ids.value, ids.end))
  }

  lemma IdsStep(done: seq<u16>, data: seq<byte>, pos: nat, n: nat)
    requires pos <= |data| && n > 0 && IdAt(data, pos).Ok?
    ensures var head := IdAt(data, pos).value;
      PrependIds(done, IdsAt(data, pos, n)) == PrependIds(done + [head.value], IdsAt(data, head.end, n - 1))
  {
    hide IdAt;
    var head := IdAt(data, pos).value;
    var rest := IdsAt(data, head.end, n - 1);
    if rest.Ok? { assert done + ([head.value] + rest.value.value) == (done + [head.value]) + rest.value.value; }
  }

  method ReadId(r: Reader) returns (res: Result<u16>)
    requires r.Valid()
    modifies r
    ensures r.Yields(res, IdAt(r.data, old(r.pos)))
  {
    var raw :- r.VarI32();
    if raw < 0 || raw >= TWO16 { return Err(TooLarge(0, 0xFFFF)); }
    res := Ok(raw);
  }

  method ReadPalette(r: Reader, len: nat) returns (res: Result<seq<u16>>)
    requires r.Valid()
    modifies r
    ensures r.Yields(res, IdsAt(r.data, old(r.pos), len))
  {
    hide IdAt, PrependIds;
    var palette: seq<u16> := [];
    ghost var start := r.pos;
    for i := 0 to len
      invariant r.Valid()
      invariant IdsAt(r.data, start, len) == PrependIds(palette, IdsAt(r.data, r.pos, len - i))
    {
      ghost var at := r.pos;
      var id :- ReadId(r);
      IdsStep(palette, r.data, at, len - i);
      palette := palette + [id];
    }
    res := Ok(palette);
  }

  method UnpackEntry(words: seq<byte>, bits: nat, i: nat) returns (raw: nat)
    requires 1 <= bits <= 64 && i / PerWord(bits) * 8 + 8 <= |words|
    ensures raw == RawAt(words, bits, i)
  {
    hide FromBigEndian, Pow2;
    var perWord := 64 / bits;
    var wordStart := i / perWord * 8;
    var word := FromBigEndian(words[wordStart..wordStart + 8]);
    raw := word / Pow2(Place(i % perWord, bits)) % Pow2(bits);
  }

  method ReadPacked(r: Reader, bits: nat, palette: Option<seq<u16>>) returns (res: Result<seq<u16>>)
    requires r.Valid() && 1 <= bits <= 64
    modifies r
    ensures r.Yields(res, PackedAt(r.data, old(r.pos), bits, palette))
  {
    hide PrependEntries, EntryOf, RawAt;
    var words :- r.Take(PackedLen(bits) * 8);
    var out: seq<u16> := [];
    for i := 0 to SECTION_VOLUME
      invariant r.Valid() && r.pos == old(r.pos) + PackedLen(bits) * 8
      invariant EntriesFrom(words, bits, palette, 0) == PrependEntries(out, EntriesFrom(words, bits, palette, i))
    {
      WordInRange(bits, i);
      var raw := UnpackEntry(words, bits, i);
      var entry := EntryOf(raw, palette);
      if entry.Err? {
        assert EntriesFrom(words, bits, palette, i) == Err(entry.error);
        return Err(entry.error);
      }
      PrependEntry(out, entry.value, EntriesFrom(words, bits, palette, i + 1));
      out := out + [entry.value];
    }
    res := Ok(out);
  }

  method ReadSection(r: Reader, direct: byte) returns (res: Result<seq<u16>>)
    requires r.Valid()
    modifies r
    ensures r.Yields(res, SectionAt(r.data, old(r.pos), direct))
  {
    hide IdAt, IdsAt, PackedAt, VarLenAt, Pow2;
    var declared :- r.U8();
    if declared == 0 {
      var id :- ReadId(r);
      return Ok(seq(SECTION_VOLUME, _ => id));
    }
    if declared <= 8 {
      var bits := Max(declared, MIN_INDIRECT_BITS);
      var len :- r.VarLen(Pow2(bits));
      var palette :- ReadPalette(r, len);
      res := ReadPacked(r, bits, Some(palette));
    } else {
      res := ReadPacked(r, Min(Max(declared, direct), MAX_BITS), None);
    }
  }

  /** The section's palette and each entry's index in it, built in one pass; `None` as
      soon as a 257th id turns up. */
  method BuildPalette(entries: seq<u16>) returns (built: Option<(seq<u16>, seq<nat>)>)
    ensures built.None? <==> |PaletteOf(entries)| > MAX_INDIRECT_PALETTE
    ensures built.Some? ==> built.value == (PaletteOf(entries), Indices(entries, PaletteOf(entries)))
  {
    hide PositionIn, PaletteOf;
    var palette: seq<u16> := [];
    assert PaletteOf([]) == [] by { NoIds(); }
    var indices: seq<nat> := [];
    for i := 0 to |entries|
      invariant palette == PaletteOf(entries[..i]) && |palette| <= MAX_INDIRECT_PALETTE
      invariant |indices| == i
      invariant forall k :: 0 <= k < i ==> entries[k] in palette && indices[k] == PositionIn(palette, entries[k])
    {
      var entry := entries[i];
      PaletteStep(entries, i);
      var index := PositionIn(palette, entry);
      if index == |palette| {
        if |palette| == MAX_INDIRECT_PALETTE {
          PaletteGrows(entries, i + 1);
          return None;
        }
        PositionsStay(palette, entry, entries, indices, i);
        palette := palette + [entry];
      }
      indices := indices + [index];
    }
    assert entries[..|entries|] == entries;
    assert indices == Indices(entries, palette);
    return Some((palette, indices));
  }

  lemma NoIds()
    ensures PaletteOf([]) == []
  {
  }

  lemma PaletteStep(entries: seq<u16>, i: nat)
    requires i < |entries|
    ensures PaletteOf(entries[..i + 1]) == WithId(PaletteOf(entries[..i]), entries[i])
  {
    assert entries[..i + 1][..i] == entries[..i];
  }

  lemma PositionsStay(palette: seq<u16>, id: u16, entries: seq<u16>, indices: seq<nat>, n: nat)
    requires n <= |entries| && n <= |indices| && id !in palette
    requires forall k :: 0 <= k < n ==> entries[k] in palette && indices[k] == PositionIn(palette, entries[k])
    ensures forall k :: 0 <= k < n ==>
      entries[k] in palette + [id] && indices[k] == PositionIn(palette + [id], entries[k])
    ensures PositionIn(palette + [id], id) == |palette|
  {
    hide PositionIn;
    forall k | 0 <= k < n
      ensures indices[k] == PositionIn(palette + [id], entries[k])
    {
      PositionStays(palette, palette + [id], entries[k]);
    }
    NewPosition(palette, id);
  }

  lemma NewPosition(palette: seq<u16>, id: u16)
    requires id !in palette
    ensures PositionIn(palette + [id], id) == |palette|
  {
    hide PositionIn;
    var longer := palette + [id];
    assert longer[|palette|] == id;
    var k := PositionIn(longer, id);
    assert forall j :: 0 <= j < |palette| ==> longer[j] == palette[j] != id;
  }

  /** Writes a section, or nothing at all when it holds more than 256 different ids. */
  method WriteSectionIndirect(w: Writer, entries: seq<u16>) returns (fits: bool)
    requires |entries| == SECTION_VOLUME
    modifies w
    ensures fits <==> |Ids(entries)| <= MAX_INDIRECT_PALETTE
    ensures fits ==> |PaletteOf(entries)| <= MAX_INDIRECT_PALETTE && w.buf == old(w.buf) + SectionBytes(entries)
    ensures !fits ==> w.buf == old(w.buf)
  {
    hide PaletteOf, Packed, VarI32Bytes, EncompassingBits, PositionIn, Ids;
    PaletteIds(entries);
    var built := BuildPalette(entries);
    if built.None? { return false; }
    var (palette, indices) := built.value;
    IndirectWidth(|palette|);
    var bits := Max(EncompassingBits(|palette|), MIN_INDIRECT_BITS);
    w.U8(bits);
    w.VarI32(|palette|);
    ghost var start := w.buf;
    for i := 0 to |palette|
      invariant w.buf + IdsBytes(palette[i..]) == start + IdsBytes(palette)
    {
      assert palette[i..][1..] == palette[i + 1..];
      w.VarI32(palette[i]);
    }
    assert palette[|palette|..] == [];
    assert Digits(indices, bits) by { IndicesAddressPalette(entries, palette, bits); }
    WritePacked(w, indices, bits);
    JoinFour(old(w.buf), [bits], VarI32Bytes(|palette|), IdsBytes(palette), Packed(indices, bits));
    return true;
  }

  lemma JoinFour(a: seq<byte>, b: seq<byte>, c: seq<byte>, d: seq<byte>, e: seq<byte>)
    ensures a + b + c + d + e == a + (b + (c + (d + e)))
  {
  }

  /** Packs the indices, flushing each word when it is full or the section ends. */
  method WritePacked(w: Writer, indices: seq<nat>, bits: nat)
    requires 1 <= bits <= 64 && Digits(indices, bits) && |indices| == SECTION_VOLUME
    modifies w
    ensures w.buf == old(w.buf) + Packed(indices, bits)
  {
    hide BitOr, Pow2, Packed, Word, Digits, I64Bytes;
    var perWord := 64 / bits;
    var word := 0;
    var inWord := 0;
    assert Word([], bits) == 0 by { NoDigits(bits); }
    for i := 0 to SECTION_VOLUME
      invariant inWord < perWord && inWord <= i
      invariant i == SECTION_VOLUME ==> inWord == 0
      invariant word == Word(indices[i - inWord..i], bits)
      invariant w.buf + Packed(indices[i - inWord..], bits) == old(w.buf) + Packed(indices, bits)
    {
      ghost var from := i - inWord;
      WordPush(indices, bits, from, i);
      word := BitOr(word, indices[i] * Pow2(Place(inWord, bits)) % TWO64);
      inWord := inWord + 1;
      if inWord == perWord || i == SECTION_VOLUME - 1 {
        PackedFlush(indices, bits, from, i + 1);
        w.I64(Signed64(word));
        word := 0;
        inWord := 0;
        assert indices[i + 1..i + 1] == [];
        NoDigits(bits);
      }
    }
    NoDigits(bits);
    assert indices[SECTION_VOLUME..] == [];
  }

  lemma NoDigits(bits: nat)
    requires 1 <= bits <= 64
    ensures Word([], bits) == 0 && Packed([], bits) == []
  {
  }

  lemma WordPush(indices: seq<nat>, bits: nat, from: nat, i: nat)
    requires from <= i < |indices|
    ensures Word(indices[from..i + 1], bits)
         == BitOr(Word(indices[from..i], bits), indices[i] * Pow2(Place(i - from, bits)) % TWO64)
  {
    hide BitOr, Pow2;
    var digits := indices[from..i + 1];
    assert digits[..i - from] == indices[from..i];
  }

  /** A full word, or the last one, is what the packing has next. */
  lemma PackedFlush(indices: seq<nat>, bits: nat, from: nat, to: nat)
    requires 1 <= bits <= 64 && Digits(indices, bits)
    requires from < to <= |indices| && to - from <= PerWord(bits)
    requires to - from == PerWord(bits) || to == |indices|
    ensures var word := Word(indices[from..to], bits);
      word < TWO64 && Packed(indices[from..], bits) == I64Bytes(Signed64(word)) + Packed(indices[to..], bits)
  {
    hide BigEndian, Word, Pow2;
    var rest, group := indices[from..], indices[from..to];
    assert rest[..to - from] == group && rest[to - from..] == indices[to..];
    assert Place(|group|, bits) <= 64 by { MulUpTo(|group|, PerWord(bits), bits); }
    WordStep(group, bits);
    Unsigned64Inverse(Word(group, bits));
  }
}
