/**
  Annotation bodies and actions as they are read: how far a body reaches, where it keeps
  its position and rotation, and that reading depends on nothing but the bytes read.
 */
module AnnotationBodies {
  import opened Bytes
  import opened Buf

  const POSITION_BYTES: nat := 12
  const ROTATION_BYTES: nat := 16
  const TRANSFORM_BYTES: nat := 28
  const MAX_POINTS: nat := 0x10_0000

  function VarsEnd(data: seq<byte>, pos: nat, n: nat): (r: Result<nat>)
    requires pos <= |data|
    ensures r.Ok? ==> pos <= r.value <= |data|
    decreases |data| - pos
  {
    if n == 0 then Ok(pos)
    else
      var v :- VarI32At(data, pos);
      VarsEnd(data, v.end, n - 1)
  }

  /** Where the fields after the type byte end. */
  function FieldsEnd(data: seq<byte>, pos: nat, kind: byte): (r: Result<nat>)
    requires pos <= |data|
    ensures r.Ok? ==> pos <= r.value <= |data|
  {
    if kind == 0 then
      var vars :- VarsEnd(data, pos, 3);
      var style :- Advance(data, vars, 4 + 4);
      var points :- ByteArrayAt(data, style, MAX_POINTS);
      Ok(points.end)
    else if kind == 1 then
      var text :- StringAt(data, pos);
      var transform :- Advance(data, text.end, TRANSFORM_BYTES);
      Advance(data, transform, 1 + 4 + 4 + 1 + 4 + 1)
    else if kind == 2 then
      var url :- StringAt(data, pos);
      var transform :- Advance(data, url.end, TRANSFORM_BYTES);
      Advance(data, transform, 1 + 4 + 4 + 4 + 1)
    else if kind == 3 then
      var vars :- VarsEnd(data, pos, 4);
      var style :- Advance(data, vars, 4);
      var points :- ByteArrayAt(data, style, MAX_POINTS);
      Ok(points.end)
    else if kind == 4 then
      var count :- VarLenAt(data, pos, MAX_POINTS);
      var points :- Advance(data, count.end, count.value * 8);
      Advance(data, points, 4)
    else if kind == 5 then
      var vars :- VarsEnd(data, pos, 6);
      Advance(data, vars, 4)
    else Err(TooLarge(kind, 5))
  }

  /** Where a whole body ends. */
  function BodyEnd(data: seq<byte>, pos: nat): (r: Result<nat>)
    requires pos <= |data|
    ensures r.Ok? ==> pos < r.value <= |data|
  {
    var kind :- U8At(data, pos);
    FieldsEnd(data, kind.end, kind.value)
  }

  predicate Whole(body: seq<byte>) {
    BodyEnd(body, 0) == Ok(|body|)
  }

  method SkipVars(r: Reader, n: nat) returns (res: Result<()>)
    requires r.Valid()
    modifies r
    ensures EndsAt(r, res, VarsEnd(r.data, old(r.pos), n))
  {
    hide VarI32At;
    ghost var start := r.pos;
    for i := 0 to n
      invariant r.Valid() && VarsEnd(r.data, start, n) == VarsEnd(r.data, r.pos, n - i)
    {
      var _ :- r.VarI32();
    }
    res := Ok(());
  }

  /** The two kinds that end in a byte array: lines and freehand outlines. */
  method TakeOffsets(r: Reader, kind: byte) returns (res: Result<()>)
    requires r.Valid() && (kind == 0 || kind == 3)
    modifies r
    ensures EndsAt(r, res, FieldsEnd(r.data, old(r.pos), kind))
  {
    hide StringAt, ByteArrayAt, VarLenAt, VarsEnd;
    if kind == 0 {
      var _ :- SkipVars(r, 3);
      var _ :- r.Take(4);
      var _ :- r.Take(4);
    } else {
      var _ :- SkipVars(r, 4);
      var _ :- r.Take(4);
    }
    var _ :- r.ByteArray(MAX_POINTS);
    res := Ok(());
  }

  /** The two kinds with a transform, which follows a leading string: text and images. */
  method TakeTransformed(r: Reader, kind: byte) returns (res: Result<()>)
    requires r.Valid() && (kind == 1 || kind == 2)
    modifies r
    ensures EndsAt(r, res, FieldsEnd(r.data, old(r.pos), kind))
  {
    hide StringAt;
    var _ :- r.String();
    var _ :- r.Take(POSITION_BYTES + ROTATION_BYTES);
    res := TakeStyle(r, kind);
  }

  function StyleBytes(kind: byte): nat { if kind == 1 then 15 else 14 }

  method TakeStyle(r: Reader, kind: byte) returns (res: Result<()>)
    requires r.Valid()
    modifies r
    ensures EndsAt(r, res, Advance(r.data, old(r.pos), StyleBytes(kind)))
  {
    var _ :- r.Take(1);
    var _ :- r.Take(4);
    var _ :- r.Take(4);
    if kind == 1 {
      var _ :- r.Take(1);
      var _ :- r.Take(4);
      var _ :- r.Take(1);
    } else {
      var _ :- r.Take(4);
      var _ :- r.Take(1);
    }
    res := Ok(());
  }

  /** The two outlines that close with their colour: lines and boxes. */
  method TakeOutline(r: Reader, kind: byte) returns (res: Result<()>)
    requires r.Valid() && (kind == 4 || kind == 5)
    modifies r
    ensures EndsAt(r, res, FieldsEnd(r.data, old(r.pos), kind))
  {
    hide StringAt, ByteArrayAt, VarLenAt, VarsEnd;
    if kind == 4 {
      var count :- r.VarLen(MAX_POINTS);
      var _ :- r.Take(count * 8);
    } else {
      var _ :- SkipVars(r, 6);
    }
    var _ :- r.Take(4);
    res := Ok(());
  }

  /** Reads past one body of any kind and yields its bytes. */
  method TakeBody(r: Reader) returns (res: Result<seq<byte>>)
    requires r.Valid()
    modifies r
    ensures r.Valid()
    ensures var end := BodyEnd(r.data, old(r.pos));
      (end.Ok? ==> r.pos == end.value && res == Ok(r.data[old(r.pos)..end.value]))
      && (end.Err? ==> res == Err(end.error))
  {
    var start := r.pos;
    var kind :- r.U8();
    if kind == 0 || kind == 3 {
      var _ :- TakeOffsets(r, kind);
    } else if kind == 1 || kind == 2 {
      var _ :- TakeTransformed(r, kind);
    } else if kind == 4 || kind == 5 {
      var _ :- TakeOutline(r, kind);
    } else {
      return Err(TooLarge(kind, 5));
    }
    res := r.Since(start);
  }

  // ----- reading depends on the bytes read only -----

  lemma VarI32Local(a: seq<byte>, i: nat, b: seq<byte>, j: nat)
    requires i <= |a| && j <= |b| && VarI32At(a, i).Ok?
    requires Same(a, i, b, j, VarI32At(a, i).value.end - i)
    ensures VarI32At(b, j) == Ok(Parsed(VarI32At(a, i).value.value, j + VarI32At(a, i).value.end - i))
  {
    hide VarFrom;
    VarLocal(a, i, b, j, 0, 0, 5, HALF_BITS);
  }

  lemma VarLenLocal(a: seq<byte>, i: nat, b: seq<byte>, j: nat, max: nat)
    requires i <= |a| && j <= |b| && VarLenAt(a, i, max).Ok?
    requires Same(a, i, b, j, VarLenAt(a, i, max).value.end - i)
    ensures VarLenAt(b, j, max) == Ok(Parsed(VarLenAt(a, i, max).value.value, j + VarLenAt(a, i, max).value.end - i))
  {
    hide VarI32At;
    VarI32Local(a, i, b, j);
  }

  lemma ByteArrayLocal(a: seq<byte>, i: nat, b: seq<byte>, j: nat, max: nat)
    requires i <= |a| && j <= |b| && ByteArrayAt(a, i, max).Ok?
    requires Same(a, i, b, j, ByteArrayAt(a, i, max).value.end - i)
    ensures ByteArrayAt(b, j, max)
         == Ok(Parsed(ByteArrayAt(a, i, max).value.value, j + ByteArrayAt(a, i, max).value.end - i))
  {
    hide VarLenAt;
    var len := VarLenAt(a, i, max).value;
    var n := ByteArrayAt(a, i, max).value.end - i;
    SamePart(a, i, b, j, n, 0, len.end - i);
    VarLenLocal(a, i, b, j, max);
    SamePart(a, i, b, j, n, len.end - i, len.value);
  }

  lemma StringLocal(a: seq<byte>, i: nat, b: seq<byte>, j: nat)
    requires i <= |a| && j <= |b| && StringAt(a, i).Ok?
    requires Same(a, i, b, j, StringAt(a, i).value.end - i)
    ensures StringAt(b, j) == Ok(Parsed(StringAt(a, i).value.value, j + StringAt(a, i).value.end - i))
  {
    hide ByteArrayAt, ValidUtf8;
    ByteArrayLocal(a, i, b, j, MAX_STRING_BYTES);
  }

  lemma {:induction false} VarsLocal(a: seq<byte>, i: nat, b: seq<byte>, j: nat, n: nat)
    requires i <= |a| && j <= |b| && VarsEnd(a, i, n).Ok?
    requires Same(a, i, b, j, VarsEnd(a, i, n).value - i)
    ensures VarsEnd(b, j, n) == Ok(j + VarsEnd(a, i, n).value - i)
    decreases n
  {
    hide VarI32At;
    if n > 0 {
      var v := VarI32At(a, i).value;
      var all := VarsEnd(a, i, n).value - i;
      SamePart(a, i, b, j, all, 0, v.end - i);
      VarI32Local(a, i, b, j);
      SamePart(a, i, b, j, all, v.end - i, all - (v.end - i));
      VarsLocal(a, v.end, b, j + v.end - i, n - 1);
    }
  }

  lemma VarFieldsLocal(a: seq<byte>, i: nat, b: seq<byte>, j: nat, kind: byte)
    requires i <= |a| && j <= |b| && (kind == 0 || kind == 3 || kind == 5) && FieldsEnd(a, i, kind).Ok?
    requires Same(a, i, b, j, FieldsEnd(a, i, kind).value - i)
    ensures FieldsEnd(b, j, kind) == Ok(j + FieldsEnd(a, i, kind).value - i)
  {
    hide VarsEnd, ByteArrayAt, StringAt, VarLenAt, Same;
    var n := FieldsEnd(a, i, kind).value - i;
    var count := if kind == 0 then 3 else if kind == 3 then 4 else 6;
    var vars := VarsEnd(a, i, count).value - i;
    SameFits(a, i, b, j, n);
    SamePart(a, i, b, j, n, 0, vars);
    VarsLocal(a, i, b, j, count);
    if kind != 5 {
      var skip := vars + if kind == 0 then 8 else 4;
      SamePart(a, i, b, j, n, skip, n - skip);
      ByteArrayLocal(a, i + skip, b, j + skip, MAX_POINTS);
    }
  }

  lemma SameFits(a: seq<byte>, i: nat, b: seq<byte>, j: nat, n: nat)
    requires Same(a, i, b, j, n)
    ensures i + n <= |a| && j + n <= |b|
  {
  }

  lemma FieldsLocal(a: seq<byte>, i: nat, b: seq<byte>, j: nat, kind: byte)
    requires i <= |a| && j <= |b| && FieldsEnd(a, i, kind).Ok?
    requires Same(a, i, b, j, FieldsEnd(a, i, kind).value - i)
    ensures FieldsEnd(b, j, kind) == Ok(j + FieldsEnd(a, i, kind).value - i)
  {
    hide VarsEnd, ByteArrayAt, StringAt, VarLenAt, Same;
    var n := FieldsEnd(a, i, kind).value - i;
    SameFits(a, i, b, j, n);
    if kind == 0 || kind == 3 || kind == 5 {
      VarFieldsLocal(a, i, b, j, kind);
    } else if kind == 1 || kind == 2 {
      SamePart(a, i, b, j, n, 0, StringAt(a, i).value.end - i);
      StringLocal(a, i, b, j);
    } else {
      SamePart(a, i, b, j, n, 0, VarLenAt(a, i, MAX_POINTS).value.end - i);
      VarLenLocal(a, i, b, j, MAX_POINTS);
    }
  }

  lemma BodyLocal(a: seq<byte>, i: nat, b: seq<byte>, j: nat)
    requires i <= |a| && j <= |b| && BodyEnd(a, i).Ok?
    requires Same(a, i, b, j, BodyEnd(a, i).value - i)
    ensures BodyEnd(b, j) == Ok(j + BodyEnd(a, i).value - i)
  {
    hide FieldsEnd;
    var n := BodyEnd(a, i).value - i;
    assert a[i] == a[i..i + n][0] == b[j..j + n][0] == b[j];
    SamePart(a, i, b, j, n, 1, n - 1);
    FieldsLocal(a, i + 1, b, j + 1, a[i]);
  }

  // ----- position and rotation -----

  function PositionedOffset(body: seq<byte>): (r: Option<nat>)
    ensures r.Some? ==> 0 < r.value && r.value + TRANSFORM_BYTES <= |body|
  {
    if body == [] || (body[0] != 1 && body[0] != 2) then None
    else
      match StringAt(body, 1)
      case Err(_) => None
      case Ok(text) => if |body| >= text.end + TRANSFORM_BYTES then Some(text.end) else None
  }

  /** Among whole bodies, exactly text and image annotations carry a transform. */
  lemma PositionedKinds(body: seq<byte>)
    requires Whole(body)
    ensures PositionedOffset(body).Some? <==> body[0] == 1 || body[0] == 2
  {
    hide StringAt;
  }

  function Overwritten(body: seq<byte>, at: nat, value: seq<byte>): (r: seq<byte>)
    requires at + |value| <= |body|
    ensures |r| == |body|
    ensures forall k :: 0 <= k < |body| ==> r[k] == if at <= k < at + |value| then value[k - at] else body[k]
  {
    body[..at] + value + body[at + |value|..]
  }

  /** Bytes of the transform can be replaced without moving anything else: the body stays
      whole, and the transform stays where it is. */
  lemma TransformIsOpaque(body: seq<byte>, at: nat, value: seq<byte>)
    requires Whole(body) && PositionedOffset(body).Some?
    requires PositionedOffset(body).value <= at && at + |value| <= PositionedOffset(body).value + TRANSFORM_BYTES
    ensures Whole(Overwritten(body, at, value))
    ensures PositionedOffset(Overwritten(body, at, value)) == PositionedOffset(body)
  {
    hide StringAt;
    var patched := Overwritten(body, at, value);
    var offset := PositionedOffset(body).value;
    assert body[1..offset] == patched[1..offset];
    assert Same(body, 1, patched, 1, offset - 1);
    StringLocal(body, 1, patched, 1);
    assert patched[0] == body[0];
  }

  function Moved(body: seq<byte>, value: seq<byte>): (r: seq<byte>)
    requires |value| == POSITION_BYTES
    ensures |r| == |body|
  {
    var offset := PositionedOffset(body);
    if offset.Some? then Overwritten(body, offset.value, value) else body
  }

  function Rotated(body: seq<byte>, value: seq<byte>): (r: seq<byte>)
    requires |value| == ROTATION_BYTES
    ensures |r| == |body|
  {
    var offset := PositionedOffset(body);
    if offset.Some? then Overwritten(body, offset.value + POSITION_BYTES, value) else body
  }

  lemma TransformsStayWhole(body: seq<byte>, position: seq<byte>, rotation: seq<byte>)
    requires Whole(body) && |position| == POSITION_BYTES && |rotation| == ROTATION_BYTES
    ensures Whole(Moved(body, position)) && PositionedOffset(Moved(body, position)) == PositionedOffset(body)
    ensures Whole(Rotated(body, rotation)) && PositionedOffset(Rotated(body, rotation)) == PositionedOffset(body)
  {
    hide PositionedOffset, BodyEnd;
    var offset := PositionedOffset(body);
    if offset.Some? {
      TransformIsOpaque(body, offset.value, position);
      TransformIsOpaque(body, offset.value + POSITION_BYTES, rotation);
    }
  }

  /** Moving and rotating touch different bytes, so their order does not matter, and the
      later of two moves or two rotations is the one that counts. */
  lemma TransformsCommute(body: seq<byte>, position: seq<byte>, rotation: seq<byte>, place: seq<byte>, turn: seq<byte>)
    requires Whole(body) && |position| == |place| == POSITION_BYTES && |rotation| == |turn| == ROTATION_BYTES
    ensures Rotated(Moved(body, position), rotation) == Moved(Rotated(body, rotation), position)
    ensures Moved(Moved(body, position), place) == Moved(body, place)
    ensures Rotated(Rotated(body, rotation), turn) == Rotated(body, turn)
  {
    hide PositionedOffset, BodyEnd;
    TransformsStayWhole(body, position, rotation);
    if PositionedOffset(body).Some? {
      var offset := PositionedOffset(body).value;
      var m, r := Overwritten(body, offset, position), Overwritten(body, offset + POSITION_BYTES, rotation);
      assert Overwritten(m, offset + POSITION_BYTES, rotation) == Overwritten(r, offset, position);
      assert Overwritten(m, offset, place) == Overwritten(body, offset, place);
      assert Overwritten(r, offset + POSITION_BYTES, turn) == Overwritten(body, offset + POSITION_BYTES, turn);
    }
  }
}
