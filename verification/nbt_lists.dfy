/**
  Lists of compounds, the shape of `Passengers`: split into the field lists of their
  elements and built from written compounds.
 */
module NbtLists {
  import opened Bytes
  import opened Buf
  import opened NbtTree
  import opened NbtMeasure
  import opened NbtFields

  function FieldListsAt(data: seq<byte>, pos: nat, n: nat): (r: Result<Parsed<seq<seq<Field>>>>)
    requires pos <= |data|
    ensures r.Ok? ==> pos <= r.value.end <= |data|
    ensures r.Ok? ==> forall i :: 0 <= i < |r.value.value| ==> PayloadBytes(r.value.value[i]) < r.value.end - pos
    decreases n
  {
    if n == 0 then Ok(Parsed([], pos))
    else
      var head :- FieldsAt(data, pos);
      var rest :- FieldListsAt(data, head.end, n - 1);
      Ok(Parsed([head.value] + rest.value, rest.end))
  }

  /** A list of anything but compounds reads as empty, but only if its elements take up
      no bytes: what follows the header must have been read. */
  function CompoundListFields(payload: seq<byte>): (r: Result<seq<seq<Field>>>)
    ensures r.Ok? ==> forall i :: 0 <= i < |r.value| ==> PayloadBytes(r.value[i]) < |payload|
  {
    var element :- U8At(payload, 0);
    var len :- ArrayLenAt(payload, element.end);
    if element.value == TAG_COMPOUND then
      var lists :- FieldListsAt(payload, len.end, len.value);
      var _ :- ExpectFullyRead(payload, lists.end);
      Ok(lists.value)
    else
      var _ :- ExpectFullyRead(payload, len.end);
      Ok([])
  }

  predicate Written(compounds: seq<seq<byte>>) {
    forall i :: 0 <= i < |compounds| ==> compounds[i] != []
  }

  /** In a list only the header names the type, so each compound loses its first byte. */
  function ElementBytes(compounds: seq<seq<byte>>): seq<byte>
    requires Written(compounds)
  {
    if compounds == [] then [] else compounds[0][1..] + ElementBytes(compounds[1..])
  }

  /** The count is cast to 32 bits. */
  function ListBytes(compounds: seq<seq<byte>>): seq<byte>
    requires Written(compounds)
  {
    [TAG_COMPOUND] + (BigEndian(4, |compounds| % TWO32) + ElementBytes(compounds))
  }

  // ----- lists as trees -----

  function RawItems(items: seq<Tree>): (r: seq<seq<Field>>)
    requires WfItems(items, TAG_COMPOUND)
    ensures |r| == |items|
  {
    if items == [] then []
    else
      CompoundTree(items[0]);
      [Raw(items[0].fields)] + RawItems(items[1..])
  }

  lemma {:induction false} SplitsItems(items: seq<Tree>, data: seq<byte>, pos: nat)
    requires WfItems(items, TAG_COMPOUND) && HeightItems(items) <= MAX_DEPTH
    requires At(data, pos, EncodeItems(items))
    ensures FieldListsAt(data, pos, |items|)
         == Ok(Parsed(RawItems(items), pos + |EncodeItems(items)|))
    decreases |items|
  {
    hide Wf, Height, FieldsAt, EncodeFields, Encode;
    if items != [] {
      var t := items[0];
      CompoundTree(t);
      AtConcat(data, pos, Encode(t), EncodeItems(items[1..]));
      SplitsEncoding(t.fields, data, pos);
      SplitsItems(items[1..], data, pos + |Encode(t)|);
    }
  }

  lemma CompoundTree(t: Tree)
    requires Wf(t) && Tag(t) == TAG_COMPOUND
    ensures t.Compound? && WfFields(t.fields) && HeightFields(t.fields) == Height(t)
    ensures Encode(t) == EncodeFields(t.fields)
  {
  }

  lemma {:induction false} ItemsTakeBytes(items: seq<Tree>, element: byte)
    requires WfItems(items, element) && items != []
    ensures |EncodeItems(items)| > 0
  {
    hide EncodeFields;
    TreeTakesBytes(items[0]);
  }

  lemma TreeTakesBytes(t: Tree)
    requires Wf(t)
    ensures |Encode(t)| > 0
  {
    hide EncodeItems, BigEndian;
  }

  /** Splitting an encoded list: compounds come back raw, an empty list of any type as
      empty, and a list of anything else that holds an element is refused. */
  lemma SplitsList(t: Tree)
    requires Wf(t) && t.List? && Height(t) <= MAX_DEPTH
    ensures t.element == TAG_COMPOUND ==>
      WfItems(t.items, TAG_COMPOUND) && CompoundListFields(Encode(t)) == Ok(RawItems(t.items))
    ensures t.element != TAG_COMPOUND && t.items == [] ==> CompoundListFields(Encode(t)) == Ok([])
    ensures t.element != TAG_COMPOUND && t.items != [] ==>
      CompoundListFields(Encode(t)) == Err(Trailing(|EncodeItems(t.items)|))
  {
    hide Wf, Height, FieldListsAt, EncodeItems, ArrayLenAt, BigEndian;
    var payload := Encode(t);
    ListTree(t);
    assert At(payload, 0, [t.element] + (BigEndian(4, t.len) + EncodeItems(t.items)));
    ListHeader(t.element, t.len, EncodeItems(t.items), payload, 0);
    if t.element == TAG_COMPOUND {
      SplitsItems(t.items, payload, 5);
    } else if t.items != [] {
      ItemsTakeBytes(t.items, t.element);
    } else {
      EncodeNoItems();
    }
  }

  lemma ListTree(t: Tree)
    requires Wf(t) && t.List?
    ensures t.len < 0x8000_0000 && Encode(t) == [t.element] + (BigEndian(4, t.len) + EncodeItems(t.items))
    ensures HeightItems(t.items) == Height(t)
    ensures t.element != TAG_END ==> |t.items| == t.len && WfItems(t.items, t.element)
    ensures t.element == TAG_END ==> t.items == []
  {
  }

  /** A list built from written compounds is the encoding of the list of them. */
  lemma {:induction false} WritesItems(items: seq<Tree>, compounds: seq<seq<byte>>)
    requires WfItems(items, TAG_COMPOUND) && |compounds| == |items| && Written(compounds)
    requires forall i :: 0 <= i < |items| ==> compounds[i] == [TAG_COMPOUND] + Encode(items[i])
    ensures ElementBytes(compounds) == EncodeItems(items)
    decreases |items|
  {
    hide Encode, Wf;
    if items != [] {
      assert compounds[0][1..] == Encode(items[0]);
      WritesItems(items[1..], compounds[1..]);
    }
  }
}
