/**
  The walker and the editor as the source runs them: one reader moving through the
  bytes, and field lists changed in place.  Each method computes the function of the
  same shape in the modules before this one.
 */
module NbtWalker {
  import opened Bytes
  import opened Buf
  import opened NbtTree
  import opened NbtMeasure
  import opened NbtFields
  import opened NbtLists
  import opened NbtMerge
  import opened NbtSanitize

  method ArrayLen(r: Reader) returns (res: Result<nat>)
    requires r.Valid()
    modifies r
    ensures r.Yields(res, ArrayLenAt(r.data, old(r.pos)))
  {
    var raw :- r.I32();
    if raw < 0 { return Err(TooLarge(0, 0x7FFF_FFFF)); }
    res := Ok(raw);
  }

  method SkipBytes(r: Reader, n: nat) returns (res: Result<()>)
    requires r.Valid()
    modifies r
    ensures EndsAt(r, res, Advance(r.data, old(r.pos), n))
  {
    var _ :- r.Take(n);
    res := Ok(());
  }

  method SkipPayload(r: Reader, tag: byte, depth: nat) returns (res: Result<()>)
    requires r.Valid()
    modifies r
    ensures EndsAt(r, res, PayloadEnd(r.data, old(r.pos), tag, depth))
    decreases Levels(depth), 0
  {
    if depth > MAX_DEPTH { return Err(TooLarge(depth, MAX_DEPTH)); }
    if tag == TAG_END {
      return Ok(());
    } else if IsScalarTag(tag) {
      res := SkipBytes(r, ScalarWidth(tag));
    } else if IsArrayTag(tag) {
      var len :- ArrayLen(r);
      res := SkipBytes(r, len * CellWidth(tag));
    } else if tag == TAG_STRING {
      var len :- r.U16();
      res := SkipBytes(r, len);
    } else if tag == TAG_LIST {
      res := SkipList(r, depth);
    } else if tag == TAG_COMPOUND {
      res := SkipCompound(r, depth);
    } else {
      return Err(TooLarge(tag, 12));
    }
  }

  method SkipList(r: Reader, depth: nat) returns (res: Result<()>)
    requires r.Valid() && depth <= MAX_DEPTH
    modifies r
    ensures EndsAt(r, res, PayloadEnd(r.data, old(r.pos), TAG_LIST, depth))
    decreases Levels(depth + 1), 2
  {
    var element :- r.U8();
    var len :- ArrayLen(r);
    if element == TAG_END { return Ok(()); }
    ghost var start := r.pos;
    for i := 0 to len
      invariant r.Valid()
      invariant ItemsEnd(r.data, start, element, len, depth + 1) == ItemsEnd(r.data, r.pos, element, len - i, depth + 1)
    {
      var _ :- SkipPayload(r, element, depth + 1);
    }
    res := Ok(());
  }

  method SkipCompound(r: Reader, depth: nat) returns (res: Result<()>)
    requires r.Valid() && depth <= MAX_DEPTH
    modifies r
    ensures EndsAt(r, res, EntriesEnd(r.data, old(r.pos), depth + 1))
    decreases Levels(depth + 1), 2
  {
    hide PayloadEnd, U16At;
    ghost var start := r.pos;
    while true
      invariant r.Valid()
      invariant EntriesEnd(r.data, start, depth + 1) == EntriesEnd(r.data, r.pos, depth + 1)
      decreases |r.data| - r.pos
    {
      var entry :- r.U8();
      if entry == TAG_END { return Ok(()); }
      var nameLen :- r.U16();
      var _ :- r.Take(nameLen);
      var _ :- SkipPayload(r, entry, depth + 1);
    }
  }

  /** Reads past one value with its type byte and yields all of it. */
  method TakeNetworkTag(r: Reader) returns (res: Result<seq<byte>>)
    requires r.Valid()
    modifies r
    ensures r.Valid()
    ensures var end := TagEnd(r.data, old(r.pos));
      (end.Ok? ==> r.pos == end.value && res == Ok(r.data[old(r.pos)..end.value])) && (end.Err? ==> res == Err(end.error))
  {
    var start := r.pos;
    var tag :- r.U8();
    if tag != TAG_END {
      var _ :- SkipPayload(r, tag, 0);
    }
    res := r.Since(start);
  }

  /** Items read so far in front of what the rest of a read yields. */
  function PrependAll<T>(done: seq<T>, rest: Result<Parsed<seq<T>>>): (r: Result<Parsed<seq<T>>>)
    ensures done == [] ==> r == rest
    ensures rest.Ok? && rest.value.value == [] ==> r == Ok(Parsed(done, rest.value.end))
    ensures rest.Err? ==> r == Err(rest.error)
  {
    match rest
    case Err(e) => Err(e)
    case Ok(r) =>
      assert [] + r.value == r.value && done + [] == done;
      Ok(Parsed(done + r.value, r.end))
  }

  lemma PrependAllStep(fs: seq<Field>, f: Field, rest: Result<Parsed<seq<Field>>>)
    ensures PrependAll(fs, Prepend(f, rest)) == PrependAll(fs + [f], rest)
  {
    if rest.Ok? { assert fs + ([f] + rest.value.value) == (fs + [f]) + rest.value.value; }
  }

  method ReadFields(r: Reader) returns (res: Result<seq<Field>>)
    requires r.Valid()
    modifies r
    ensures r.Yields(res, FieldsAt(r.data, old(r.pos)))
  {
    hide PayloadEnd, U16At, PrependAll;
    var fields: seq<Field> := [];
    ghost var start := r.pos;
    while true
      invariant r.Valid()
      invariant FieldsAt(r.data, start) == PrependAll(fields, FieldsAt(r.data, r.pos))
      decreases |r.data| - r.pos
    {
      ghost var at := r.pos;
      var tag :- r.U8();
      if tag == TAG_END { return Ok(fields); }
      var nameLen :- r.U16();
      var name :- r.Take(nameLen);
      var payloadStart := r.pos;
      var _ :- SkipPayload(r, tag, 1);
      var payload := r.Since(payloadStart);
      PrependAllStep(fields, Field(tag, name, payload.value), FieldsAt(r.data, r.pos));
      fields := fields + [Field(tag, name, payload.value)];
    }
  }

  method ReadCompound(tag: seq<byte>) returns (res: Result<seq<Field>>)
    ensures res == CompoundFields(tag)
  {
    var r := new Reader(tag);
    var root :- r.U8();
    var fields: seq<Field> := [];
    if root == TAG_COMPOUND {
      fields :- ReadFields(r);
    } else if root != TAG_END {
      return Err(Unexpected);
    }
    var _ :- r.FullyRead();
    res := Ok(fields);
  }

  lemma FieldsBytesAt(fields: seq<Field>, i: nat)
    requires i <= |fields|
    ensures FieldsBytes(fields[i..])
         == if i == |fields| then [TAG_END] else FieldBytes(fields[i]) + FieldsBytes(fields[i + 1..])
  {
    if i < |fields| { assert fields[i..][1..] == fields[i + 1..]; }
  }

  method WriteFields(out: Writer, fields: seq<Field>)
    modifies out
    ensures out.buf == old(out.buf) + FieldsBytes(fields)
  {
    hide FieldBytes, FieldsBytes;
    for i := 0 to |fields|
      invariant out.buf + FieldsBytes(fields[i..]) == old(out.buf) + FieldsBytes(fields)
    {
      FieldsBytesAt(fields, i);
      WriteField(out, fields[i]);
    }
    FieldsBytesAt(fields, |fields|);
    out.U8(TAG_END);
  }

  method WriteField(out: Writer, field: Field)
    modifies out
    ensures out.buf == old(out.buf) + FieldBytes(field)
  {
    hide BigEndian;
    out.U8(field.tag);
    out.Raw(BigEndian(2, |field.name| % TWO16));
    out.Raw(field.name);
    out.Raw(field.payload);
  }

  method WriteCompound(fields: seq<Field>) returns (tag: seq<byte>)
    ensures tag == CompoundBytes(fields)
  {
    var out := new Writer();
    out.U8(TAG_COMPOUND);
    WriteFields(out, fields);
    tag := out.buf;
  }

  lemma FieldListsStep(ls: seq<seq<Field>>, data: seq<byte>, pos: nat, n: nat)
    requires pos <= |data| && n > 0 && FieldsAt(data, pos).Ok?
    ensures var head := FieldsAt(data, pos).value;
      PrependAll(ls, FieldListsAt(data, pos, n)) == PrependAll(ls + [head.value], FieldListsAt(data, head.end, n - 1))
  {
    hide FieldsAt;
    var head := FieldsAt(data, pos).value;
    var rest := FieldListsAt(data, head.end, n - 1);
    if rest.Ok? {
      assert ls + ([head.value] + rest.value.value) == (ls + [head.value]) + rest.value.value;
    }
  }

  method ReadCompoundList(payload: seq<byte>) returns (res: Result<seq<seq<Field>>>)
    ensures res == CompoundListFields(payload)
  {
    hide FieldsAt, ArrayLenAt, PrependAll;
    var r := new Reader(payload);
    var element :- r.U8();
    var len :- ArrayLen(r);
    var compounds: seq<seq<Field>> := [];
    if element == TAG_COMPOUND {
      ghost var start := r.pos;
      for i := 0 to len
        invariant r.Valid() && r.data == payload
        invariant FieldListsAt(payload, start, len) == PrependAll(compounds, FieldListsAt(payload, r.pos, len - i))
      {
        ghost var at := r.pos;
        var fields :- ReadFields(r);
        FieldListsStep(compounds, payload, at, len - i);
        compounds := compounds + [fields];
      }
    }
    var _ :- r.FullyRead();
    res := Ok(compounds);
  }

  lemma ElementBytesAt(compounds: seq<seq<byte>>, i: nat)
    requires Written(compounds) && i < |compounds|
    ensures Written(compounds[i..]) && Written(compounds[i + 1..])
    ensures ElementBytes(compounds[i..]) == compounds[i][1..] + ElementBytes(compounds[i + 1..])
  {
    assert compounds[i..][1..] == compounds[i + 1..];
  }

  method CompoundList(compounds: seq<seq<byte>>) returns (payload: seq<byte>)
    requires Written(compounds)
    ensures payload == ListBytes(compounds)
  {
    hide BigEndian;
    payload := [TAG_COMPOUND] + BigEndian(4, |compounds| % TWO32);
    ghost var header := payload;
    for i := 0 to |compounds|
      invariant Written(compounds[i..])
      invariant payload + ElementBytes(compounds[i..]) == header + ElementBytes(compounds)
    {
      ElementBytesAt(compounds, i);
      payload := payload + compounds[i][1..];
    }
    assert compounds[|compounds|..] == [];
    assert header + ElementBytes(compounds) == [TAG_COMPOUND] + (BigEndian(4, |compounds| % TWO32) + ElementBytes(compounds));
  }

  /** The index of the first field of that name, if any. */
  method FindField(fields: seq<Field>, name: seq<byte>) returns (index: Option<nat>)
    ensures index == if Position(fields, name) < |fields| then Some(Position(fields, name)) else None
  {
    for i := 0 to |fields|
      invariant forall j :: 0 <= j < i ==> fields[j].name != name
    {
      if fields[i].name == name { return Some(i); }
    }
    return None;
  }

  /** A field list that edits change in place. */
  class FieldVec {
    var items: seq<Field>

    constructor (fields: seq<Field>)
      ensures items == fields
    {
      items := fields;
    }

    method Put(field: Field)
      modifies this
      ensures items == PutAt(old(items), Position(old(items), field.name), field)
    {
      var existing := FindField(items, field.name);
      if existing.Some? {
        items := items[existing.value := field];
      } else {
        items := items + [field];
      }
    }

    method Merge(right: seq<Field>) returns (res: Result<()>)
      modifies this
      ensures Edit(items, res) == MergedInto(old(items), right)
      decreases PayloadBytes(right), |right|, 1
    {
      for i := 0 to |right|
        invariant MergedInto(old(items), right) == MergedInto(items, right[i..])
      {
        assert right[i..][1..] == right[i + 1..];
        PayloadIsPart(right, i);
        var _ :- MergeField(right[i]);
      }
      assert right[|right|..] == [];
      res := Ok(());
    }

    /** One round of the loop over the changes. */
    method MergeField(field: Field) returns (res: Result<()>)
      modifies this
      ensures Edit(items, res) == MergedOne(old(items), field)
      decreases |field.payload|, 0, 2
    {
      hide FieldsAt, FieldsBytes, MergedInto, Position;
      var existing := FindField(items, field.name);
      if field.tag == TAG_COMPOUND {
        var r := new Reader(field.payload);
        var changes :- ReadFields(r);
        if changes == [] {
          if existing.Some? {
            items := items[..existing.value] + items[existing.value + 1..];
          }
          return Ok(());
        }
        if existing.Some? && items[existing.value].tag == TAG_COMPOUND {
          var index := existing.value;
          var payload :- MergeChild(items[index].payload, changes);
          items := items[index := items[index].(payload := payload)];
          return Ok(());
        }
      }
      if existing.Some? {
        items := items[existing.value := field];
      } else {
        items := items + [field];
      }
      res := Ok(());
    }

    method SanitizeEntity() returns (res: Result<()>)
      modifies this
      ensures Edit(items, res) == Sanitized(old(items))
      decreases PayloadBytes(items), 1
    {
      hide Allowed, Passengers;
      ghost var before := items;
      items := Retained(items);
      var i := 0;
      while i < |items|
        invariant 0 <= i <= |items|
        invariant PatchedFrom(items, i) == Sanitized(before)
        invariant PayloadBytes(items[i..]) <= PayloadBytes(before)
        decreases |items| - i
      {
        TailBytes(items, i);
        if items[i].name == Passengers() {
          var payload :- PatchPayload(items[i].payload);
          ghost var tail := items[i + 1..];
          items := items[i := items[i].(payload := payload)];
          assert items[i + 1..] == tail;
        }
        i := i + 1;
      }
      res := Ok(());
    }
  }

  /** A nested compound of the left side with the changes merged into it. */
  method MergeChild(mine: seq<byte>, changes: seq<Field>) returns (res: Result<seq<byte>>)
    ensures FieldsAt(mine, 0).Err? ==> res == Err(FieldsAt(mine, 0).error)
    ensures FieldsAt(mine, 0).Ok? ==> var merged := MergedInto(FieldsAt(mine, 0).value.value, changes);
      res == if merged.status.Err? then Err(merged.status.error) else Ok(FieldsBytes(merged.items))
    decreases PayloadBytes(changes), |changes|, 2
  {
    hide FieldsAt, FieldsBytes, MergedInto;
    var r := new Reader(mine);
    var fields :- ReadFields(r);
    var child := new FieldVec(fields);
    var _ :- child.Merge(changes);
    var payload := new Writer();
    WriteFields(payload, child.items);
    assert payload.buf == FieldsBytes(child.items);
    res := Ok(payload.buf);
  }

  lemma {:induction false} PayloadIsPart(fields: seq<Field>, i: nat)
    requires i < |fields|
    ensures |fields[i].payload| <= PayloadBytes(fields)
  {
    if i > 0 { PayloadIsPart(fields[1..], i - 1); }
  }

  function PrependWritten(ws: seq<seq<byte>>, rest: Result<seq<seq<byte>>>): (r: Result<seq<seq<byte>>>)
    ensures ws == [] ==> r == rest
    ensures rest == Ok([]) ==> r == Ok(ws)
    ensures rest.Err? ==> r == rest
  {
    match rest
    case Err(e) => Err(e)
    case Ok(r) =>
      assert [] + r == r && ws + [] == ws;
      Ok(ws + r)
  }

  /** The riders of one list, each sanitized and written again. */
  method PatchPayload(payload: seq<byte>) returns (res: Result<seq<byte>>)
    ensures res == PatchedPayload(payload)
    decreases |payload|, 0
  {
    hide Sanitized, CompoundListFields, FieldsBytes, ListBytes, PrependWritten;
    var riders :- ReadCompoundList(payload);
    assert riders[0..] == riders;
    var sanitized: seq<seq<byte>> := [];
    for i := 0 to |riders|
      invariant |sanitized| == i && Written(sanitized)
      invariant SanitizedRiders(riders, |payload|) == PrependWritten(sanitized, SanitizedRiders(riders[i..], |payload|))
    {
      var rider := new FieldVec(riders[i]);
      RidersStep(sanitized, riders, i, |payload|);
      var _ :- rider.SanitizeEntity();
      var written := WriteCompound(rider.items);
      sanitized := sanitized + [written];
    }
    assert riders[|riders|..] == [];
    var list := CompoundList(sanitized);
    res := Ok(list);
  }

  lemma RidersStep(ws: seq<seq<byte>>, riders: seq<seq<Field>>, i: nat, bound: nat)
    requires forall k :: 0 <= k < |riders| ==> PayloadBytes(riders[k]) < bound
    requires i < |riders|
    ensures var head := Sanitized(riders[i]);
      PrependWritten(ws, SanitizedRiders(riders[i..], bound))
        == if head.status.Err? then Err(head.status.error)
           else PrependWritten(ws + [CompoundBytes(head.items)], SanitizedRiders(riders[i + 1..], bound))
  {
    hide Sanitized, CompoundBytes;
    assert riders[i..][1..] == riders[i + 1..];
    var head := Sanitized(riders[i]);
    var rest := SanitizedRiders(riders[i + 1..], bound);
    if head.status.Ok? && rest.Ok? {
      assert ws + ([CompoundBytes(head.items)] + rest.value) == (ws + [CompoundBytes(head.items)]) + rest.value;
    }
  }
}
