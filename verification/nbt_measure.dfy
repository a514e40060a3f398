/**
  Measuring NBT: where a value ends, as a function of the bytes, and the proof that
  what it accepts are exactly the encodings of trees no deeper than the limit.
 */
module NbtMeasure {
  import opened Bytes
  import opened Buf
  import opened NbtTree

  // ----- measuring -----

  function ArrayLenAt(data: seq<byte>, pos: nat): (r: Result<Parsed<nat>>)
    requires pos <= |data|
    ensures r.Ok? ==> r.value.end == pos + 4 <= |data|
  {
    var raw :- I32At(data, pos);
    if raw.value < 0 then Err(TooLarge(0, 0x7FFF_FFFF)) else Ok(Parsed(raw.value, raw.end))
  }

  function Levels(depth: nat): nat {
    if depth > MAX_DEPTH then 0 else MAX_DEPTH + 1 - depth
  }

  /** Where the payload of a value of type `tag` ends.  The overflow check on
      `len * width` reports `Eof`, as the bounds check behind it would. */
  function PayloadEnd(data: seq<byte>, pos: nat, tag: byte, depth: nat): (r: Result<nat>)
    requires pos <= |data|
    ensures r.Ok? ==> pos <= r.value <= |data|
    decreases Levels(depth), 0, 0
  {
    if depth > MAX_DEPTH then Err(TooLarge(depth, MAX_DEPTH))
    else if tag == TAG_END then Ok(pos)
    else if IsScalarTag(tag) then Advance(data, pos, ScalarWidth(tag))
    else if IsArrayTag(tag) then
      var len :- ArrayLenAt(data, pos);
      Advance(data, len.end, len.value * CellWidth(tag))
    else if tag == TAG_STRING then
      var len :- U16At(data, pos);
      Advance(data, len.end, len.value)
    else if tag == TAG_LIST then
      var element :- U8At(data, pos);
      var len :- ArrayLenAt(data, element.end);
      if element.value == TAG_END then Ok(len.end) else ItemsEnd(data, len.end, element.value, len.value, depth + 1)
    else if tag == TAG_COMPOUND then EntriesEnd(data, pos, depth + 1)
    else Err(TooLarge(tag, 12))
  }

  function ItemsEnd(data: seq<byte>, pos: nat, element: byte, n: nat, depth: nat): (r: Result<nat>)
    requires pos <= |data|
    ensures r.Ok? ==> pos <= r.value <= |data|
    decreases Levels(depth), 1, n
  {
    if n == 0 then Ok(pos)
    else
      var end :- PayloadEnd(data, pos, element, depth);
      ItemsEnd(data, end, element, n - 1, depth)
  }

  /** Where a compound stops: past the zero byte after its last entry. */
  function EntriesEnd(data: seq<byte>, pos: nat, depth: nat): (r: Result<nat>)
    requires pos <= |data|
    ensures r.Ok? ==> pos < r.value <= |data|
    decreases Levels(depth), 1, |data| - pos
  {
    var entry :- U8At(data, pos);
    if entry.value == TAG_END then Ok(entry.end)
    else
      var len :- U16At(data, entry.end);
      var start :- Advance(data, len.end, len.value);
      var end :- PayloadEnd(data, start, entry.value, depth);
      EntriesEnd(data, end, depth)
  }

  /** Where a whole value ends, type byte included; a lone zero is "no tag". */
  function TagEnd(data: seq<byte>, pos: nat): (r: Result<nat>)
    requires pos <= |data|
    ensures r.Ok? ==> pos < r.value <= |data|
  {
    var tag :- U8At(data, pos);
    if tag.value == TAG_END then Ok(tag.end) else PayloadEnd(data, tag.end, tag.value, 0)
  }

  // ----- every encoding is measured exactly -----

  lemma {:induction false} MeasuresEncoding(t: Tree, data: seq<byte>, pos: nat, depth: nat)
    requires Wf(t) && At(data, pos, Encode(t)) && depth + Height(t) <= MAX_DEPTH
    ensures PayloadEnd(data, pos, Tag(t), depth) == Ok(pos + |Encode(t)|)
    decreases t, 1
  {
    hide BigEndian, FromBigEndian, I32At, U16At, ArrayLenAt, At, EncodeItems, EncodeFields, HeightItems, HeightFields,
      WfItems, WfFields, ItemsEnd, EntriesEnd;
    match t
    case Scalar(tag, bits) => MeasuresLeaf(t, data, pos, depth);
    case Array(tag, len, cells) => MeasuresLeaf(t, data, pos, depth);
    case Text(chars) => MeasuresLeaf(t, data, pos, depth);
    case List(element, len, items) =>
      ListHeader(element, len, EncodeItems(items), data, pos);
      if element != TAG_END {
        MeasuresItems(items, element, data, pos + 5, depth + 1);
      } else {
        EncodeNoItems();
      }
    case Compound(fields) =>
      MeasuresFields(fields, data, pos, depth + 1);
  }

  lemma MeasuresLeaf(t: Tree, data: seq<byte>, pos: nat, depth: nat)
    requires !t.List? && !t.Compound? && Wf(t) && At(data, pos, Encode(t)) && depth <= MAX_DEPTH
    ensures PayloadEnd(data, pos, Tag(t), depth) == Ok(pos + |Encode(t)|)
  {
    hide BigEndian, FromBigEndian, I32At, U16At, ItemsEnd, EntriesEnd;
    if t.Array? {
      AtConcat(data, pos, BigEndian(4, t.len), t.cells);
      I32Inverse(data, pos, t.len);
    } else if t.Text? {
      AtConcat(data, pos, BigEndian(2, |t.chars|), t.chars);
      U16Inverse(data, pos, |t.chars|);
    }
  }

  lemma ListHeader(element: byte, len: nat, body: seq<byte>, data: seq<byte>, pos: nat)
    requires len < 0x8000_0000 && At(data, pos, [element] + (BigEndian(4, len) + body))
    ensures U8At(data, pos) == Ok(Parsed(element, pos + 1))
    ensures ArrayLenAt(data, pos + 1) == Ok(Parsed(len, pos + 5))
    ensures At(data, pos + 5, body)
  {
    hide BigEndian, FromBigEndian, I32At;
    AtConcat(data, pos, [element], BigEndian(4, len) + body);
    AtConcat(data, pos + 1, BigEndian(4, len), body);
    I32Inverse(data, pos + 1, len);
    assert data[pos] == data[pos..pos + 1][0];
  }

  lemma {:induction false} MeasuresItems(items: seq<Tree>, element: byte, data: seq<byte>, pos: nat, depth: nat)
    requires WfItems(items, element) && At(data, pos, EncodeItems(items))
    requires depth > 0 && depth + HeightItems(items) <= MAX_DEPTH + 1
    ensures ItemsEnd(data, pos, element, |items|, depth) == Ok(pos + |EncodeItems(items)|)
    decreases items, 0
  {
    if items != [] {
      AtConcat(data, pos, Encode(items[0]), EncodeItems(items[1..]));
      MeasuresEncoding(items[0], data, pos, depth);
      MeasuresItems(items[1..], element, data, pos + |Encode(items[0])|, depth);
    }
  }

  lemma {:induction false} MeasuresFields(fields: seq<Named>, data: seq<byte>, pos: nat, depth: nat)
    requires WfFields(fields) && At(data, pos, EncodeFields(fields))
    requires depth > 0 && depth + HeightFields(fields) <= MAX_DEPTH + 1
    ensures EntriesEnd(data, pos, depth) == Ok(pos + |EncodeFields(fields)|)
    decreases fields, 0
  {
    hide EncodeField, Wf, Height, EntriesEnd;
    if fields == [] {
      EndsAtTagEnd(data, pos, depth);
    } else {
      AtConcat(data, pos, EncodeField(fields[0]), EncodeFields(fields[1..]));
      MeasuresField(fields[0], data, pos, depth);
      MeasuresFields(fields[1..], data, pos + |EncodeField(fields[0])|, depth);
    }
  }

  lemma EndsAtTagEnd(data: seq<byte>, pos: nat, depth: nat)
    requires At(data, pos, [TAG_END])
    ensures EntriesEnd(data, pos, depth) == Ok(pos + 1)
  {
    assert data[pos] == data[pos..pos + 1][0];
  }

  /** One field is stepped over. */
  lemma {:induction false} MeasuresField(f: Named, data: seq<byte>, pos: nat, depth: nat)
    requires |f.name| < TWO16 && Wf(f.value) && At(data, pos, EncodeField(f))
    requires depth + Height(f.value) <= MAX_DEPTH
    ensures EntriesEnd(data, pos, depth) == EntriesEnd(data, pos + |EncodeField(f)|, depth)
    decreases f
  {
    hide Wf, Encode, EncodeField, PayloadEnd, U16At, Height;
    FieldAt(f, data, pos);
    MeasuresEncoding(f.value, data, pos + 3 + |f.name|, depth);
  }

  /** The parts of one written field. */
  lemma FieldAt(f: Named, data: seq<byte>, pos: nat)
    requires |f.name| < TWO16 && Wf(f.value) && At(data, pos, EncodeField(f))
    ensures data[pos] == Tag(f.value) != TAG_END
    ensures U16At(data, pos + 1) == Ok(Parsed(|f.name|, pos + 3))
    ensures At(data, pos + 3, f.name)
    ensures At(data, pos + 3 + |f.name|, Encode(f.value))
    ensures |EncodeField(f)| == 3 + |f.name| + |Encode(f.value)|
  {
    hide BigEndian, FromBigEndian, U16At;
    var payload := Encode(f.value);
    AtConcat(data, pos, [Tag(f.value)], BigEndian(2, |f.name|) + (f.name + payload));
    AtConcat(data, pos + 1, BigEndian(2, |f.name|), f.name + payload);
    AtConcat(data, pos + 3, f.name, payload);
    U16Inverse(data, pos + 1, |f.name|);
    assert data[pos] == data[pos..pos + 1][0];
  }

  // ----- every measured span is an encoding -----

  lemma {:induction false} PayloadIsEncoding(data: seq<byte>, pos: nat, tag: byte, depth: nat) returns (t: Tree)
    requires pos <= |data| && tag != TAG_END && PayloadEnd(data, pos, tag, depth).Ok?
    ensures Wf(t) && Tag(t) == tag && depth + Height(t) <= MAX_DEPTH
    ensures At(data, pos, Encode(t)) && PayloadEnd(data, pos, tag, depth) == Ok(pos + |Encode(t)|)
    decreases Levels(depth), 0, 1
  {
    hide BigEndian, FromBigEndian, I32At, U16At, ItemsEnd, EntriesEnd, EncodeItems, EncodeFields, Advance, ArrayLenAt;
    if tag == TAG_LIST {
      t := ListIsEncoding(data, pos, depth);
    } else if tag == TAG_COMPOUND {
      var fields := EntriesAreEncoding(data, pos, depth + 1);
      t := Compound(fields);
    } else {
      t := LeafIsEncoding(data, pos, tag, depth);
    }
  }

  lemma LeafIsEncoding(data: seq<byte>, pos: nat, tag: byte, depth: nat) returns (t: Tree)
    requires pos <= |data| && tag != TAG_END && tag != TAG_LIST && tag != TAG_COMPOUND
    requires PayloadEnd(data, pos, tag, depth).Ok?
    ensures Wf(t) && Tag(t) == tag && depth + Height(t) <= MAX_DEPTH
    ensures At(data, pos, Encode(t)) && PayloadEnd(data, pos, tag, depth) == Ok(pos + |Encode(t)|)
  {
    hide BigEndian, FromBigEndian, I32At, U16At, ItemsEnd, EntriesEnd, EncodeItems, EncodeFields, At, WfItems, WfFields;
    var end := PayloadEnd(data, pos, tag, depth).value;
    if IsScalarTag(tag) {
      t := Scalar(tag, data[pos..end]);
      AtSlice(data, pos, end);
    } else if IsArrayTag(tag) {
      var len := ArrayLenAt(data, pos).value.value;
      t := Array(tag, len, data[pos + 4..end]);
      ArrayLenIs(data, pos);
      AtSlice(data, pos + 4, end);
      AtConcat(data, pos, BigEndian(4, len), data[pos + 4..end]);
    } else {
      var len := U16At(data, pos).value.value;
      t := Text(data[pos + 2..end]);
      U16Is(data, pos);
      AtSlice(data, pos + 2, end);
      AtConcat(data, pos, BigEndian(2, len), data[pos + 2..end]);
    }
  }

  lemma ArrayLenIs(data: seq<byte>, pos: nat)
    requires pos <= |data| && ArrayLenAt(data, pos).Ok?
    ensures ArrayLenAt(data, pos).value.value < 0x8000_0000
    ensures At(data, pos, BigEndian(4, ArrayLenAt(data, pos).value.value))
  {
    hide BigEndian, FromBigEndian;
    var b := data[pos..pos + 4];
    FromBigEndianBound(b);
    Pow256Words();
    FromBigEndianInverse(b);
  }

  lemma U16Is(data: seq<byte>, pos: nat)
    requires pos <= |data| && U16At(data, pos).Ok?
    ensures At(data, pos, BigEndian(2, U16At(data, pos).value.value))
  {
    hide BigEndian, FromBigEndian;
    FromBigEndianInverse(data[pos..pos + 2]);
  }

  lemma {:induction false} ListIsEncoding(data: seq<byte>, pos: nat, depth: nat) returns (t: Tree)
    requires pos <= |data| && PayloadEnd(data, pos, TAG_LIST, depth).Ok?
    ensures Wf(t) && Tag(t) == TAG_LIST && depth + Height(t) <= MAX_DEPTH
    ensures At(data, pos, Encode(t)) && PayloadEnd(data, pos, TAG_LIST, depth) == Ok(pos + |Encode(t)|)
    decreases Levels(depth), 0, 0
  {
    hide BigEndian, FromBigEndian, I32At, ItemsEnd, EncodeItems;
    var element := data[pos];
    var len := ArrayLenAt(data, pos + 1).value.value;
    ArrayLenIs(data, pos + 1);
    var items := [];
    if element == TAG_END {
      EncodeNoItems();
    } else {
      items := ItemsAreEncoding(data, pos + 5, element, len, depth + 1);
    }
    t := List(element, len, items);
    AtConcat(data, pos + 1, BigEndian(4, len), EncodeItems(items));
    AtConcat(data, pos, [element], BigEndian(4, len) + EncodeItems(items));
  }

  lemma EncodeNoItems()
    ensures EncodeItems([]) == [] && HeightItems([]) == 0
  {
  }

  lemma {:induction false} ItemsAreEncoding(data: seq<byte>, pos: nat, element: byte, n: nat, depth: nat)
    returns (items: seq<Tree>)
    requires depth > 0 && pos <= |data| && element != TAG_END && ItemsEnd(data, pos, element, n, depth).Ok?
    ensures |items| == n && WfItems(items, element)
    ensures HeightItems(items) == 0 || depth + HeightItems(items) <= MAX_DEPTH + 1
    ensures At(data, pos, EncodeItems(items))
    ensures ItemsEnd(data, pos, element, n, depth) == Ok(pos + |EncodeItems(items)|)
    decreases Levels(depth), 1, n
  {
    hide Encode, Wf, Height, PayloadEnd;
    if n == 0 {
      items := [];
    } else {
      var head := PayloadIsEncoding(data, pos, element, depth);
      var rest := ItemsAreEncoding(data, pos + |Encode(head)|, element, n - 1, depth);
      items := [head] + rest;
      assert items[1..] == rest;
      AtConcat(data, pos, Encode(head), EncodeItems(rest));
    }
  }

  lemma {:induction false} EntriesAreEncoding(data: seq<byte>, pos: nat, depth: nat) returns (fields: seq<Named>)
    requires depth > 0 && pos <= |data| && EntriesEnd(data, pos, depth).Ok?
    ensures WfFields(fields)
    ensures HeightFields(fields) == 0 || depth + HeightFields(fields) <= MAX_DEPTH + 1
    ensures At(data, pos, EncodeFields(fields))
    ensures EntriesEnd(data, pos, depth) == Ok(pos + |EncodeFields(fields)|)
    decreases Levels(depth), 1, |data| - pos, 1
  {
    hide Encode, Wf, Height, PayloadEnd, EncodeField, U16At;
    if data[pos] == TAG_END {
      fields := [];
      assert data[pos..pos + 1] == [TAG_END];
    } else {
      var f := EntryIsEncoding(data, pos, depth);
      var rest := EntriesAreEncoding(data, pos + |EncodeField(f)|, depth);
      fields := [f] + rest;
      assert fields[1..] == rest;
      AtConcat(data, pos, EncodeField(f), EncodeFields(rest));
    }
  }

  lemma {:induction false} EntryIsEncoding(data: seq<byte>, pos: nat, depth: nat) returns (f: Named)
    requires depth > 0 && pos < |data| && data[pos] != TAG_END && EntriesEnd(data, pos, depth).Ok?
    ensures |f.name| < TWO16 && Wf(f.value) && depth + Height(f.value) <= MAX_DEPTH
    ensures At(data, pos, EncodeField(f))
    ensures |EncodeField(f)| > 0 && EntriesEnd(data, pos, depth) == EntriesEnd(data, pos + |EncodeField(f)|, depth)
    decreases Levels(depth), 1, |data| - pos, 0
  {
    hide Encode, Wf, Height, PayloadEnd, U16At, BigEndian, EntriesEnd, At;
    var tag := data[pos];
    var len := OneEntry(data, pos, depth);
    var name := data[pos + 3..pos + 3 + len];
    U16Is(data, pos + 1);
    var value := PayloadIsEncoding(data, pos + 3 + len, tag, depth);
    f := Named(name, value);
    AtSlice(data, pos, pos + 1);
    AtSlice(data, pos + 3, pos + 3 + len);
    AtConcat(data, pos + 3, name, Encode(value));
    AtConcat(data, pos + 1, BigEndian(2, len), name + Encode(value));
    AtConcat(data, pos, [tag], BigEndian(2, len) + (name + Encode(value)));
  }

  lemma OneEntry(data: seq<byte>, pos: nat, depth: nat) returns (len: u16)
    requires pos < |data| && data[pos] != TAG_END && EntriesEnd(data, pos, depth).Ok?
    ensures U16At(data, pos + 1) == Ok(Parsed(len, pos + 3)) && pos + 3 + len <= |data|
    ensures PayloadEnd(data, pos + 3 + len, data[pos], depth).Ok?
    ensures EntriesEnd(data, pos, depth)
         == EntriesEnd(data, PayloadEnd(data, pos + 3 + len, data[pos], depth).value, depth)
  {
    hide U16At, PayloadEnd;
    len := U16At(data, pos + 1).value.value;
  }

  lemma AtSlice(data: seq<byte>, from: nat, to: nat)
    requires from <= to <= |data|
    ensures At(data, from, data[from..to])
    ensures to == from + 1 ==> data[from..to] == [data[from]]
  {
  }

  // ----- an encoding stands for one tree -----

  lemma {:induction false} EncodingUnique(t: Tree, u: Tree, data: seq<byte>, pos: nat)
    requires Wf(t) && Wf(u) && Tag(t) == Tag(u)
    requires At(data, pos, Encode(t)) && At(data, pos, Encode(u))
    ensures t == u
    decreases t, 1
  {
    hide BigEndian, FromBigEndian, I32At, U16At, ArrayLenAt, At, EncodeFields, EncodeItems;
    match t
    case Scalar(tag, bits) => LeafUnique(t, u, data, pos);
    case Array(tag, len, cells) => LeafUnique(t, u, data, pos);
    case Text(chars) => LeafUnique(t, u, data, pos);
    case List(element, len, items) =>
      ListHeader(element, len, EncodeItems(items), data, pos);
      ListHeader(u.element, u.len, EncodeItems(u.items), data, pos);
      if element != TAG_END {
        ItemsUnique(items, u.items, element, data, pos + 5);
      }
    case Compound(fields) =>
      FieldsUnique(fields, u.fields, data, pos);
  }

  lemma LeafUnique(t: Tree, u: Tree, data: seq<byte>, pos: nat)
    requires !t.List? && !t.Compound? && Wf(t) && Wf(u) && Tag(t) == Tag(u)
    requires At(data, pos, Encode(t)) && At(data, pos, Encode(u))
    ensures t == u
  {
    hide BigEndian, EncodeFields, EncodeItems, WfItems, WfFields;
    match t
    case Scalar(_, _) =>
    case Array(_, _, _) => ArrayUnique(t, u, data, pos);
    case Text(_) => TextUnique(t, u, data, pos);
  }

  lemma ArrayUnique(t: Tree, u: Tree, data: seq<byte>, pos: nat)
    requires t.Array? && u.Array? && Wf(t) && Wf(u) && t.tag == u.tag
    requires At(data, pos, BigEndian(4, t.len) + t.cells) && At(data, pos, BigEndian(4, u.len) + u.cells)
    ensures t == u
  {
    hide BigEndian, I32At;
    AtConcat(data, pos, BigEndian(4, t.len), t.cells);
    AtConcat(data, pos, BigEndian(4, u.len), u.cells);
    I32Inverse(data, pos, t.len);
    I32Inverse(data, pos, u.len);
  }

  lemma TextUnique(t: Tree, u: Tree, data: seq<byte>, pos: nat)
    requires t.Text? && u.Text? && Wf(t) && Wf(u)
    requires At(data, pos, BigEndian(2, |t.chars|) + t.chars) && At(data, pos, BigEndian(2, |u.chars|) + u.chars)
    ensures t == u
  {
    hide BigEndian, U16At;
    AtConcat(data, pos, BigEndian(2, |t.chars|), t.chars);
    AtConcat(data, pos, BigEndian(2, |u.chars|), u.chars);
    U16Inverse(data, pos, |t.chars|);
    U16Inverse(data, pos, |u.chars|);
  }

  lemma {:induction false} ItemsUnique(ts: seq<Tree>, us: seq<Tree>, element: byte, data: seq<byte>, pos: nat)
    requires |ts| == |us| && WfItems(ts, element) && WfItems(us, element)
    requires At(data, pos, EncodeItems(ts)) && At(data, pos, EncodeItems(us))
    ensures ts == us
    decreases ts, 0
  {
    hide Encode, Wf;
    if ts != [] {
      AtConcat(data, pos, Encode(ts[0]), EncodeItems(ts[1..]));
      AtConcat(data, pos, Encode(us[0]), EncodeItems(us[1..]));
      EncodingUnique(ts[0], us[0], data, pos);
      ItemsUnique(ts[1..], us[1..], element, data, pos + |Encode(ts[0])|);
      assert ts == [ts[0]] + ts[1..] && us == [us[0]] + us[1..];
    }
  }

  lemma {:induction false} FieldsUnique(fs: seq<Named>, gs: seq<Named>, data: seq<byte>, pos: nat)
    requires WfFields(fs) && WfFields(gs)
    requires At(data, pos, EncodeFields(fs)) && At(data, pos, EncodeFields(gs))
    ensures fs == gs
    decreases fs, 0
  {
    hide EncodeField, Wf;
    StartsWith(fs, data, pos);
    StartsWith(gs, data, pos);
    if fs != [] {
      FieldUnique(fs[0], gs[0], data, pos);
      FieldsUnique(fs[1..], gs[1..], data, pos + |EncodeField(fs[0])|);
      assert fs == [fs[0]] + fs[1..] && gs == [gs[0]] + gs[1..];
    }
  }

  /** The first byte of a compound's payload tells whether it has a field. */
  lemma StartsWith(fs: seq<Named>, data: seq<byte>, pos: nat)
    requires WfFields(fs) && At(data, pos, EncodeFields(fs))
    ensures pos < |data| && (data[pos] == TAG_END <==> fs == [])
    ensures fs != [] ==> At(data, pos, EncodeField(fs[0])) && At(data, pos + |EncodeField(fs[0])|, EncodeFields(fs[1..]))
  {
    hide EncodeField, Wf;
    if fs == [] {
      assert data[pos] == data[pos..pos + 1][0];
    } else {
      AtConcat(data, pos, EncodeField(fs[0]), EncodeFields(fs[1..]));
      FieldAt(fs[0], data, pos);
    }
  }

  lemma {:induction false} FieldUnique(f: Named, g: Named, data: seq<byte>, pos: nat)
    requires |f.name| < TWO16 && Wf(f.value) && |g.name| < TWO16 && Wf(g.value)
    requires At(data, pos, EncodeField(f)) && At(data, pos, EncodeField(g))
    ensures f == g
    decreases f
  {
    hide EncodeField, Encode, Wf, U16At;
    FieldAt(f, data, pos);
    FieldAt(g, data, pos);
    EncodingUnique(f.value, g.value, data, pos + 3 + |f.name|);
  }

  // ----- whole values -----

  /** A value with its type byte. */
  function EncodeTag(t: Tree): seq<byte> {
    [Tag(t)] + Encode(t)
  }

  /** A tag in the middle of a packet is consumed exactly, whatever follows it. */
  lemma TagIsConsumedExactly(t: Tree, data: seq<byte>, pos: nat)
    requires Wf(t) && Height(t) <= MAX_DEPTH && At(data, pos, EncodeTag(t))
    ensures TagEnd(data, pos) == Ok(pos + |EncodeTag(t)|)
  {
    AtConcat(data, pos, [Tag(t)], Encode(t));
    assert data[pos] == data[pos..pos + 1][0];
    MeasuresEncoding(t, data, pos + 1, 0);
  }

  /** The span of a present tag is the encoding of one tree, within the limit, and of
      no other tree of any depth. */
  lemma TagSpansOneTree(data: seq<byte>, pos: nat) returns (t: Tree)
    requires pos < |data| && data[pos] != TAG_END && TagEnd(data, pos).Ok?
    ensures Wf(t) && Height(t) <= MAX_DEPTH
    ensures data[pos..TagEnd(data, pos).value] == EncodeTag(t)
    ensures forall u :: Wf(u) && EncodeTag(u) == EncodeTag(t) ==> u == t
  {
    hide PayloadEnd, Encode, Wf, Height;
    t := PayloadIsEncoding(data, pos + 1, data[pos], 0);
    AtConcat(data, pos, [Tag(t)], Encode(t));
    forall u | Wf(u) && EncodeTag(u) == EncodeTag(t)
      ensures u == t
    {
      EncodeTagUnique(u, t);
    }
  }

  lemma EncodeTagUnique(u: Tree, t: Tree)
    requires Wf(u) && Wf(t) && EncodeTag(u) == EncodeTag(t)
    ensures u == t
  {
    hide Encode, Wf;
    assert EncodeTag(u)[0] == EncodeTag(t)[0];
    assert EncodeTag(u)[1..] == Encode(u) && EncodeTag(t)[1..] == Encode(t);
    EncodingUnique(u, t, Encode(t), 0);
  }

  /** The depth limit is exact: one level too many and the tag is refused. */
  lemma DepthLimitIsExact(t: Tree, data: seq<byte>, pos: nat)
    requires Wf(t) && At(data, pos, EncodeTag(t))
    ensures TagEnd(data, pos).Ok? <==> Height(t) <= 512
  {
    hide PayloadEnd, Encode, Wf, Height;
    AtConcat(data, pos, [Tag(t)], Encode(t));
    assert data[pos] == data[pos..pos + 1][0];
    TagNames(t);
    if Height(t) <= MAX_DEPTH {
      TagIsConsumedExactly(t, data, pos);
    }
    if TagEnd(data, pos).Ok? {
      var u := PayloadIsEncoding(data, pos + 1, data[pos], 0);
      EncodingUnique(t, u, data, pos + 1);
    }
  }

}
