/**
  Annotation bodies as a client lays them out, kind by kind.  A body is taken whole, up to
  its last byte, exactly if its lengths are within the limits, and moving or rotating it is
  setting its position or its rotation.
 */
module AnnotationLayout {
  import opened Bytes
  import opened Buf
  import opened AnnotationBodies

  /** Numbers are listed in the order they are sent; what is never interpreted is bytes. */
  datatype Body =
    | Line(start: seq<i32>, style: seq<byte>, offsets: seq<byte>)
    | Text(text: seq<byte>, position: seq<byte>, rotation: seq<byte>, style: seq<byte>)
    | Image(url: seq<byte>, position: seq<byte>, rotation: seq<byte>, style: seq<byte>)
    | Freehand(start: seq<i32>, style: seq<byte>, offsets: seq<byte>)
    | Lines(count: nat, points: seq<byte>, colour: seq<byte>)
    | Box(corners: seq<i32>, colour: seq<byte>)

  predicate HasTransform(b: Body) { b.Text? || b.Image? }

  /** The string before a transform. */
  function Label(b: Body): seq<byte>
    requires HasTransform(b)
  {
    if b.Text? then b.text else b.url
  }

  /** How many numbers and bytes each kind has. */
  predicate Shaped(b: Body) {
    match b
    case Line(start, style, offsets) => |start| == 3 && |style| == 8 && |offsets| < 0x8000_0000
    case Text(text, position, rotation, style) =>
      |text| < 0x8000_0000 && |position| == 12 && |rotation| == 16 && |style| == 15
    case Image(url, position, rotation, style) =>
      |url| < 0x8000_0000 && |position| == 12 && |rotation| == 16 && |style| == 14
    case Freehand(start, style, offsets) => |start| == 4 && |style| == 4 && |offsets| < 0x8000_0000
    case Lines(count, points, colour) => count < 0x8000_0000 && |points| == count * 8 && |colour| == 4
    case Box(corners, colour) => |corners| == 6 && |colour| == 4
  }

  /** The limits a body is held to: a megabyte of points, and a text of the usual length. */
  predicate InLimits(b: Body) {
    match b
    case Line(_, _, offsets) => |offsets| <= 0x10_0000
    case Text(text, _, _, _) => |text| <= 32767 * 3 && ValidUtf8(text)
    case Image(url, _, _, _) => |url| <= 32767 * 3 && ValidUtf8(url)
    case Freehand(_, _, offsets) => |offsets| <= 0x10_0000
    case Lines(count, _, _) => count <= 0x10_0000
    case Box(_, _) => true
  }

  function NumbersBytes(vs: seq<i32>): seq<byte> {
    if vs == [] then [] else VarI32Bytes(vs[0]) + NumbersBytes(vs[1..])
  }

  function FieldBytes(b: Body): seq<byte>
    requires Shaped(b)
  {
    match b
    case Line(start, style, offsets) => NumbersBytes(start) + (style + ByteArrayBytes(offsets))
    case Text(text, position, rotation, style) => ByteArrayBytes(text) + ((position + rotation) + style)
    case Image(url, position, rotation, style) => ByteArrayBytes(url) + ((position + rotation) + style)
    case Freehand(start, style, offsets) => NumbersBytes(start) + (style + ByteArrayBytes(offsets))
    case Lines(count, points, colour) => VarI32Bytes(count) + (points + colour)
    case Box(corners, colour) => NumbersBytes(corners) + colour
  }

  function Kind(b: Body): byte {
    match b
    case Line(_, _, _) => 0
    case Text(_, _, _, _) => 1
    case Image(_, _, _, _) => 2
    case Freehand(_, _, _) => 3
    case Lines(_, _, _) => 4
    case Box(_, _) => 5
  }

  function BodyBytes(b: Body): seq<byte>
    requires Shaped(b)
  {
    [Kind(b)] + FieldBytes(b)
  }

  // ----- what is laid out is read -----

  lemma {:induction false} NumbersRead(vs: seq<i32>, data: seq<byte>, pos: nat)
    requires At(data, pos, NumbersBytes(vs))
    ensures VarsEnd(data, pos, |vs|) == Ok(pos + |NumbersBytes(vs)|)
    decreases |vs|
  {
    hide VarI32Bytes, VarI32At;
    if vs != [] {
      AtConcat(data, pos, VarI32Bytes(vs[0]), NumbersBytes(vs[1..]));
      VarI32Inverse(data, pos, vs[0]);
      NumbersRead(vs[1..], data, pos + |VarI32Bytes(vs[0])|);
    }
  }

  /** Anywhere in a packet a body is taken to its last byte, or refused for its lengths. */
  lemma LayoutReads(b: Body, data: seq<byte>, pos: nat)
    requires Shaped(b) && At(data, pos, BodyBytes(b))
    ensures BodyEnd(data, pos).Ok? <==> InLimits(b)
    ensures InLimits(b) ==> BodyEnd(data, pos) == Ok(pos + |BodyBytes(b)|)
  {
    hide FieldsEnd, FieldBytes;
    AtConcat(data, pos, [Kind(b)], FieldBytes(b));
    assert data[pos] == data[pos..pos + 1][0];
    if HasTransform(b) {
      TransformedRead(b, data, pos + 1);
    } else {
      NumberedRead(b, data, pos + 1);
    }
  }

  lemma TransformedRead(b: Body, data: seq<byte>, pos: nat)
    requires Shaped(b) && HasTransform(b) && At(data, pos, FieldBytes(b))
    ensures FieldsEnd(data, pos, Kind(b)).Ok? <==> InLimits(b)
    ensures InLimits(b) ==> FieldsEnd(data, pos, Kind(b)) == Ok(pos + |FieldBytes(b)|)
  {
    hide ByteArrayBytes, StringAt, ValidUtf8;
    var caption, rest := ByteArrayBytes(Label(b)), (b.position + b.rotation) + b.style;
    AtConcat(data, pos, caption, rest);
    StringInverse(data, pos, Label(b));
  }

  lemma NumberedRead(b: Body, data: seq<byte>, pos: nat)
    requires Shaped(b) && !HasTransform(b) && At(data, pos, FieldBytes(b))
    ensures FieldsEnd(data, pos, Kind(b)).Ok? <==> InLimits(b)
    ensures InLimits(b) ==> FieldsEnd(data, pos, Kind(b)) == Ok(pos + |FieldBytes(b)|)
  {
    hide VarI32Bytes, VarI32At, ByteArrayBytes, ByteArrayAt, NumbersBytes, VarsEnd, At;
    match b
    case Line(start, style, offsets) => OffsetsRead(start, style, offsets, data, pos);
    case Freehand(start, style, offsets) => OffsetsRead(start, style, offsets, data, pos);
    case Lines(count, points, colour) => PointsRead(count, points, colour, data, pos);
    case Box(corners, colour) =>
      AtConcat(data, pos, NumbersBytes(corners), colour);
      NumbersRead(corners, data, pos);
      AtBytes(data, pos + |NumbersBytes(corners)|, colour);
  }

  lemma OffsetsRead(start: seq<i32>, style: seq<byte>, offsets: seq<byte>, data: seq<byte>, pos: nat)
    requires |offsets| < 0x8000_0000
    requires At(data, pos, NumbersBytes(start) + (style + ByteArrayBytes(offsets)))
    ensures VarsEnd(data, pos, |start|) == Ok(pos + |NumbersBytes(start)|)
    ensures var at := pos + |NumbersBytes(start)| + |style|;
      at <= |data| && var read := ByteArrayAt(data, at, 0x10_0000);
      if |offsets| <= 0x10_0000 then read == Ok(Parsed(offsets, at + |ByteArrayBytes(offsets)|)) else read.Err?
  {
    hide ByteArrayBytes, ByteArrayAt, NumbersBytes, VarsEnd;
    var numbers, points := NumbersBytes(start), ByteArrayBytes(offsets);
    AtConcat(data, pos, numbers, style + points);
    AtConcat(data, pos + |numbers|, style, points);
    NumbersRead(start, data, pos);
    ByteArrayInverse(data, pos + |numbers| + |style|, offsets, 0x10_0000);
  }

  lemma PointsRead(count: nat, points: seq<byte>, colour: seq<byte>, data: seq<byte>, pos: nat)
    requires count < 0x8000_0000 && At(data, pos, VarI32Bytes(count) + (points + colour))
    ensures VarI32At(data, pos) == Ok(Parsed(count, pos + |VarI32Bytes(count)|))
    ensures pos + |VarI32Bytes(count)| + |points| + |colour| <= |data|
  {
    hide VarI32Bytes, VarI32At;
    AtConcat(data, pos, VarI32Bytes(count), points + colour);
    VarI32Inverse(data, pos, count);
  }

  /** What a client may send is held as a whole body. */
  lemma LaidOutIsWhole(b: Body)
    requires Shaped(b)
    ensures Whole(BodyBytes(b)) <==> InLimits(b)
  {
    hide BodyBytes, BodyEnd;
    var data := BodyBytes(b);
    assert data[0..0 + |data|] == data;
    LayoutReads(b, data, 0);
  }

  // ----- moving and rotating -----

  /** A move sets the position and a rotation the rotation, of texts and images; no other
      byte changes, and bodies of other kinds do not change at all. */
  lemma TransformsSet(b: Body, position: seq<byte>, rotation: seq<byte>)
    requires Shaped(b) && InLimits(b) && |position| == 12 && |rotation| == 16
    ensures Moved(BodyBytes(b), position) == BodyBytes(if HasTransform(b) then b.(position := position) else b)
    ensures Rotated(BodyBytes(b), rotation) == BodyBytes(if HasTransform(b) then b.(rotation := rotation) else b)
  {
    hide BodyBytes, PositionedOffset, Overwritten, InLimits, ByteArrayBytes;
    OffsetOf(b);
    if HasTransform(b) {
      var head, moved, rotated := Head(b), b.(position := position), b.(rotation := rotation);
      Laid(b);
      Laid(moved);
      Laid(rotated);
      SetsMiddle(head, b.position, position, b.rotation + b.style);
      SetsMiddle(head + b.position, b.rotation, rotation, b.style);
    }
  }

  /** What stands before the position. */
  function Head(b: Body): seq<byte>
    requires HasTransform(b)
  {
    [Kind(b)] + ByteArrayBytes(Label(b))
  }

  lemma Laid(b: Body)
    requires Shaped(b) && HasTransform(b)
    ensures BodyBytes(b) == Head(b) + b.position + (b.rotation + b.style)
    ensures BodyBytes(b) == (Head(b) + b.position) + b.rotation + b.style
    ensures |Head(b)| == 1 + |ByteArrayBytes(Label(b))|
  {
    hide ByteArrayBytes;
    var head, caption, tail := [Kind(b)], ByteArrayBytes(Label(b)), b.rotation + b.style;
    assert caption + ((b.position + b.rotation) + b.style) == caption + b.position + tail;
    assert head + (caption + b.position + tail) == (head + caption) + b.position + tail;
  }

  lemma SetsMiddle(head: seq<byte>, old': seq<byte>, new': seq<byte>, tail: seq<byte>)
    requires |old'| == |new'|
    ensures Overwritten(head + old' + tail, |head|, new') == head + new' + tail
  {
    var body := head + old' + tail;
    assert body[..|head|] == head && body[|head| + |new'|..] == tail;
  }

  lemma OffsetOf(b: Body)
    requires Shaped(b) && InLimits(b)
    ensures PositionedOffset(BodyBytes(b)) == if HasTransform(b) then Some(1 + |ByteArrayBytes(Label(b))|) else None
  {
    hide ByteArrayBytes, StringAt, ValidUtf8, NumbersBytes, VarI32Bytes;
    if HasTransform(b) {
      var data, caption := BodyBytes(b), ByteArrayBytes(Label(b));
      assert At(data, 1, caption + ((b.position + b.rotation) + b.style));
      AtConcat(data, 1, caption, (b.position + b.rotation) + b.style);
      StringInverse(data, 1, Label(b));
    }
  }
}
