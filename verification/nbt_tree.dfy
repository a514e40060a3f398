/**
  The reference meaning of network NBT: trees, and the one way each is written.
  The walker in module Nbt never builds these; everything proved about it is stated
  in their terms.
 */
module NbtTree {
  import opened Bytes

  const MAX_DEPTH: nat := 512

  const TAG_END: byte := 0
  const TAG_STRING: byte := 8
  const TAG_LIST: byte := 9
  const TAG_COMPOUND: byte := 10

  datatype Tree =
    | Scalar(tag: byte, bits: seq<byte>)
    | Array(tag: byte, len: nat, cells: seq<byte>)
    | Text(chars: seq<byte>)
    | List(element: byte, len: nat, items: seq<Tree>)
    | Compound(fields: seq<Named>)

  datatype Named = Named(name: seq<byte>, value: Tree)

  function Tag(t: Tree): byte {
    match t
    case Scalar(tag, _) => tag
    case Array(tag, _, _) => tag
    case Text(_) => TAG_STRING
    case List(_, _, _) => TAG_LIST
    case Compound(_) => TAG_COMPOUND
  }

  predicate IsScalarTag(tag: byte) { 1 <= tag <= 6 }

  predicate IsArrayTag(tag: byte) { tag == 7 || tag == 11 || tag == 12 }

  function ScalarWidth(tag: byte): nat {
    if tag == 1 then 1 else if tag == 2 then 2 else if tag == 3 || tag == 5 then 4 else 8
  }

  function CellWidth(tag: byte): nat {
    if tag == 7 then 1 else if tag == 11 then 4 else 8
  }

  /** The trees the format can write.  A list of `TAG_End` has a length and no
      items; an empty list may name any element type. */
  predicate Wf(t: Tree)
    decreases t, 1
  {
    match t
    case Scalar(tag, bits) => IsScalarTag(tag) && |bits| == ScalarWidth(tag)
    case Array(tag, len, cells) => IsArrayTag(tag) && len < 0x8000_0000 && |cells| == len * CellWidth(tag)
    case Text(chars) => |chars| < TWO16
    case List(element, len, items) =>
      len < 0x8000_0000 && (if element == TAG_END then items == [] else |items| == len && WfItems(items, element))
    case Compound(fields) => WfFields(fields)
  }

  predicate WfItems(items: seq<Tree>, element: byte)
    decreases items, 0
  {
    items == [] || (Tag(items[0]) == element && Wf(items[0]) && WfItems(items[1..], element))
  }

  predicate WfFields(fields: seq<Named>)
    decreases fields, 0
  {
    fields == [] || (|fields[0].name| < TWO16 && Wf(fields[0].value) && WfFields(fields[1..]))
  }

  lemma TagNames(t: Tree)
    requires Wf(t)
    ensures (Tag(t) == TAG_COMPOUND <==> t.Compound?) && (Tag(t) == TAG_LIST <==> t.List?) && Tag(t) != TAG_END
  {
  }

  /** The payload of a value: everything but its type byte. */
  function Encode(t: Tree): seq<byte>
    decreases t, 1
  {
    match t
    case Scalar(_, bits) => bits
    case Array(_, len, cells) => BigEndian(4, len) + cells
    case Text(chars) => BigEndian(2, |chars|) + chars
    case List(element, len, items) => [element] + (BigEndian(4, len) + EncodeItems(items))
    case Compound(fields) => EncodeFields(fields)
  }

  function EncodeItems(items: seq<Tree>): seq<byte>
    decreases items, 0
  {
    if items == [] then [] else Encode(items[0]) + EncodeItems(items[1..])
  }

  function EncodeField(f: Named): seq<byte>
    decreases f
  {
    [Tag(f.value)] + (BigEndian(2, |f.name|) + (f.name + Encode(f.value)))
  }

  function EncodeFields(fields: seq<Named>): (bs: seq<byte>)
    ensures |bs| > 0
    decreases fields, 0
  {
    if fields == [] then [TAG_END] else EncodeField(fields[0]) + EncodeFields(fields[1..])
  }

  /** How many levels of children hang below a value. */
  function Height(t: Tree): nat
    decreases t, 1
  {
    match t
    case List(_, _, items) => HeightItems(items)
    case Compound(fields) => HeightFields(fields)
    case _ => 0
  }

  function Max(a: nat, b: nat): nat { if a < b then b else a }

  function HeightItems(items: seq<Tree>): nat
    decreases items, 0
  {
    if items == [] then 0 else Max(1 + Height(items[0]), HeightItems(items[1..]))
  }

  function HeightFields(fields: seq<Named>): nat
    decreases fields, 0
  {
    if fields == [] then 0 else Max(1 + Height(fields[0].value), HeightFields(fields[1..]))
  }
}
