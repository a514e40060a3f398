/**
  Compounds split into raw fields and joined again.  A payload is carried as bytes and
  not decoded; `Raw` says which field list stands for which tree, and splitting and
  joining are proved inverse to each other through it.
 */
module NbtFields {
  import opened Bytes
  import opened Buf
  import opened NbtTree
  import opened NbtMeasure

  datatype Field = Field(tag: byte, name: seq<byte>, payload: seq<byte>)

  function Prepend(f: Field, rest: Result<Parsed<seq<Field>>>): Result<Parsed<seq<Field>>> {
    match rest
    case Err(e) => Err(e)
    case Ok(r) => Ok(Parsed([f] + r.value, r.end))
  }

  /** What `read_fields` yields at a position. */
  function FieldsAt(data: seq<byte>, pos: nat): (r: Result<Parsed<seq<Field>>>)
    requires pos <= |data|
    ensures r.Ok? ==> pos < r.value.end <= |data|
    ensures r.Ok? ==> PayloadBytes(r.value.value) < r.value.end - pos
    decreases |data| - pos
  {
    var tag :- U8At(data, pos);
    if tag.value == TAG_END then Ok(Parsed([], tag.end))
    else
      var len :- U16At(data, tag.end);
      var name :- TakeAt(data, len.end, len.value);
      var end :- PayloadEnd(data, name.end, tag.value, 1);
      Prepend(Field(tag.value, name.value, data[name.end..end]), FieldsAt(data, end))
  }

  /** The bytes a field list carries: what recursion into payloads terminates on. */
  function PayloadBytes(fields: seq<Field>): nat {
    if fields == [] then 0 else |fields[0].payload| + PayloadBytes(fields[1..])
  }

  function CompoundFields(tag: seq<byte>): Result<seq<Field>> {
    var root :- U8At(tag, 0);
    if root.value == TAG_END then
      var _ :- ExpectFullyRead(tag, root.end);
      Ok([])
    else if root.value == TAG_COMPOUND then
      var fields :- FieldsAt(tag, root.end);
      var _ :- ExpectFullyRead(tag, fields.end);
      Ok(fields.value)
    else Err(Unexpected)
  }

  /** The length of a name is cast to 16 bits. */
  function FieldBytes(f: Field): seq<byte> {
    [f.tag] + (BigEndian(2, |f.name| % TWO16) + (f.name + f.payload))
  }

  function FieldsBytes(fields: seq<Field>): seq<byte> {
    if fields == [] then [TAG_END] else FieldBytes(fields[0]) + FieldsBytes(fields[1..])
  }

  function CompoundBytes(fields: seq<Field>): seq<byte> {
    [TAG_COMPOUND] + FieldsBytes(fields)
  }

  // ----- raw fields and trees -----

  function RawField(n: Named): Field {
    Field(Tag(n.value), n.name, Encode(n.value))
  }

  function Raw(ns: seq<Named>): (fs: seq<Field>)
    ensures |fs| == |ns| && forall i :: 0 <= i < |ns| ==> fs[i] == RawField(ns[i])
  {
    seq(|ns|, i requires 0 <= i < |ns| => RawField(ns[i]))
  }

  /** Trees a compound within the depth limit may hold. */
  predicate Sound(ns: seq<Named>) {
    WfFields(ns) && HeightFields(ns) <= MAX_DEPTH
  }

  lemma RawCons(ns: seq<Named>)
    requires ns != []
    ensures Raw(ns) == [RawField(ns[0])] + Raw(ns[1..])
  {
  }

  lemma {:induction false} WritesEncoding(ns: seq<Named>)
    requires WfFields(ns)
    ensures FieldsBytes(Raw(ns)) == EncodeFields(ns)
  {
    hide Encode, Wf;
    if ns != [] {
      RawCons(ns);
      assert Raw(ns)[1..] == Raw(ns[1..]);
      WritesEncoding(ns[1..]);
      assert FieldBytes(RawField(ns[0])) == EncodeField(ns[0]);
    }
  }

  /** Reading an encoding back yields its raw fields. */
  lemma {:induction false} SplitsEncoding(ns: seq<Named>, data: seq<byte>, pos: nat)
    requires Sound(ns) && At(data, pos, EncodeFields(ns))
    ensures FieldsAt(data, pos) == Ok(Parsed(Raw(ns), pos + |EncodeFields(ns)|))
    decreases |ns|
  {
    hide Encode, Wf, Height, EncodeField, FieldsAt;
    StartsWith(ns, data, pos);
    if ns == [] {
      FieldsEndHere(data, pos);
      assert Raw(ns) == [];
    } else {
      SplitsField(ns[0], data, pos);
      SplitsEncoding(ns[1..], data, pos + |EncodeField(ns[0])|);
      RawCons(ns);
    }
  }

  lemma FieldsEndHere(data: seq<byte>, pos: nat)
    requires pos < |data| && data[pos] == TAG_END
    ensures FieldsAt(data, pos) == Ok(Parsed([], pos + 1))
  {
  }

  lemma SplitsField(f: Named, data: seq<byte>, pos: nat)
    requires |f.name| < TWO16 && Wf(f.value) && 1 + Height(f.value) <= MAX_DEPTH
    requires At(data, pos, EncodeField(f))
    ensures FieldsAt(data, pos) == Prepend(RawField(f), FieldsAt(data, pos + |EncodeField(f)|))
  {
    hide Encode, Wf, Height, EncodeField, PayloadEnd, U16At, At, FieldsAt;
    FieldAt(f, data, pos);
    var start := pos + 3 + |f.name|;
    AtBytes(data, pos + 3, f.name);
    AtBytes(data, start, Encode(f.value));
    MeasuresEncoding(f.value, data, start, 1);
    SplitsOne(data, pos, |f.name|, start + |Encode(f.value)|);
  }

  lemma SplitsOne(data: seq<byte>, pos: nat, len: nat, end: nat)
    requires pos < |data| && data[pos] != TAG_END && U16At(data, pos + 1) == Ok(Parsed(len, pos + 3))
    requires pos + 3 + len <= |data| && PayloadEnd(data, pos + 3 + len, data[pos], 1) == Ok(end)
    ensures FieldsAt(data, pos)
         == Prepend(Field(data[pos], data[pos + 3..pos + 3 + len], data[pos + 3 + len..end]), FieldsAt(data, end))
  {
    hide U16At, PayloadEnd, Prepend;
  }

  /** Splitting and measuring accept the same bytes and end at the same place. */
  lemma {:induction false} SplitsWhatIsMeasured(data: seq<byte>, pos: nat)
    requires pos <= |data|
    ensures EntriesEnd(data, pos, 1).Ok? <==> FieldsAt(data, pos).Ok?
    ensures FieldsAt(data, pos).Ok? ==> EntriesEnd(data, pos, 1) == Ok(FieldsAt(data, pos).value.end)
    decreases |data| - pos
  {
    hide PayloadEnd, U16At;
    if pos < |data| && data[pos] != TAG_END {
      var len := U16At(data, pos + 1);
      if len.Ok? && len.value.end + len.value.value <= |data| {
        var start := len.value.end + len.value.value;
        var end := PayloadEnd(data, start, data[pos], 1);
        if end.Ok? {
          SplitsWhatIsMeasured(data, end.value);
        }
      }
    }
  }

  /** Whatever splits is a tree's raw fields. */
  lemma SplitsIntoTrees(data: seq<byte>, pos: nat) returns (ns: seq<Named>)
    requires pos <= |data| && FieldsAt(data, pos).Ok?
    ensures Sound(ns) && At(data, pos, EncodeFields(ns))
    ensures FieldsAt(data, pos) == Ok(Parsed(Raw(ns), pos + |EncodeFields(ns)|))
  {
    hide Encode, Wf, Height, EncodeField, FieldsAt, EntriesEnd;
    SplitsWhatIsMeasured(data, pos);
    ns := EntriesAreEncoding(data, pos, 1);
    SplitsEncoding(ns, data, pos);
  }

  lemma CompoundOfTrees(ns: seq<Named>)
    requires Sound(ns)
    ensures CompoundFields(CompoundBytes(Raw(ns))) == Ok(Raw(ns))
  {
    hide FieldsAt, EncodeFields, FieldsBytes;
    WritesEncoding(ns);
    var tag := CompoundBytes(Raw(ns));
    assert At(tag, 1, EncodeFields(ns));
    SplitsEncoding(ns, tag, 1);
  }

  lemma TreesOfCompound(tag: seq<byte>) returns (ns: seq<Named>)
    requires CompoundFields(tag).Ok?
    ensures Sound(ns) && CompoundFields(tag).value == Raw(ns)
    ensures tag == [TAG_END] || tag == EncodeTag(Compound(ns))
    ensures tag == [TAG_END] ==> ns == []
  {
    hide FieldsAt, EncodeFields;
    if tag[0] == TAG_END {
      ns := [];
      assert Raw(ns) == [];
      assert tag == [TAG_END];
    } else {
      ns := SplitsIntoTrees(tag, 1);
      assert tag == [tag[0]] + tag[1..];
    }
  }

  // ----- the round trips -----

  /** What a caller can check of a field list before writing it. */
  predicate WellFormed(fields: seq<Field>) {
    forall i :: 0 <= i < |fields| ==> WellFormedField(fields[i])
  }

  predicate WellFormedField(f: Field) {
    |f.name| < TWO16 && f.tag != TAG_END && PayloadEnd(f.payload, 0, f.tag, 1) == Ok(|f.payload|)
  }

  lemma {:induction false} TreesOfFields(fields: seq<Field>) returns (ns: seq<Named>)
    requires WellFormed(fields)
    ensures Sound(ns) && Raw(ns) == fields
  {
    hide Encode, Wf, Height, PayloadEnd;
    if fields == [] {
      ns := [];
    } else {
      var f := fields[0];
      var t := PayloadIsEncoding(f.payload, 0, f.tag, 1);
      assert f.payload == Encode(t);
      var rest := TreesOfFields(fields[1..]);
      ns := [Named(f.name, t)] + rest;
      assert ns[1..] == rest;
      RawCons(ns);
      assert fields == [f] + fields[1..];
    }
  }

  lemma {:induction false} SoundFieldsAreWellFormed(ns: seq<Named>)
    requires Sound(ns)
    ensures WellFormed(Raw(ns))
    decreases |ns|
  {
    hide Encode, Wf, Height, PayloadEnd;
    if ns != [] {
      var f := RawField(ns[0]);
      MeasuresEncoding(ns[0].value, f.payload, 0, 1);
      TagNames(ns[0].value);
      SoundFieldsAreWellFormed(ns[1..]);
      RawCons(ns);
      forall i | 0 <= i < |ns|
        ensures WellFormedField(Raw(ns)[i])
      {
        if i > 0 {
          assert Raw(ns)[i] == Raw(ns[1..])[i - 1];
        }
      }
    }
  }

  /** Joined fields split back into themselves exactly when each is well formed. */
  lemma JoinThenSplit(fields: seq<Field>)
    ensures CompoundFields(CompoundBytes(fields)) == Ok(fields) <==> WellFormed(fields)
  {
    hide CompoundFields, CompoundBytes;
    if WellFormed(fields) {
      var ns := TreesOfFields(fields);
      CompoundOfTrees(ns);
    }
    if CompoundFields(CompoundBytes(fields)) == Ok(fields) {
      var ns := TreesOfCompound(CompoundBytes(fields));
      SoundFieldsAreWellFormed(ns);
    }
  }

  /** Split bytes join back into themselves, except that "no tag" becomes the empty
      compound. */
  lemma SplitThenJoin(tag: seq<byte>)
    requires CompoundFields(tag).Ok?
    ensures CompoundBytes(CompoundFields(tag).value) == if tag == [TAG_END] then [TAG_COMPOUND, TAG_END] else tag
  {
    var ns := TreesOfCompound(tag);
    WritesEncoding(ns);
  }

  /** The splitter accepts exactly the compounds, or absent tags, that the walker
      consumes whole. */
  lemma SplitsWhatTheWalkerTakes(tag: seq<byte>)
    requires tag != []
    ensures CompoundFields(tag).Ok?
       <==> (tag[0] == TAG_END || tag[0] == TAG_COMPOUND) && TagEnd(tag, 0) == Ok(|tag|)
  {
    hide FieldsAt, EntriesEnd;
    SplitsWhatIsMeasured(tag, 1);
  }

  /** A nested compound of a split compound splits on its own, from depth 1 again, and
      so does every level below it. */
  lemma NestedCompoundSplits(tag: seq<byte>, i: nat)
    requires CompoundFields(tag).Ok? && i < |CompoundFields(tag).value|
    requires CompoundFields(tag).value[i].tag == TAG_COMPOUND
    ensures var payload := CompoundFields(tag).value[i].payload;
      CompoundFields([TAG_COMPOUND] + payload).Ok?
      && FieldsAt(payload, 0) == Ok(Parsed(CompoundFields([TAG_COMPOUND] + payload).value, |payload|))
  {
    hide FieldsAt, CompoundFields, Encode, Wf, Height;
    var ns := TreesOfCompound(tag);
    SoundAt(ns, i);
    NestedTrees(ns[i].value);
  }

  lemma NestedTrees(t: Tree)
    requires Wf(t) && Height(t) <= MAX_DEPTH && Tag(t) == TAG_COMPOUND
    ensures CompoundFields([TAG_COMPOUND] + Encode(t)) == Ok(Raw(t.fields))
    ensures FieldsAt(Encode(t), 0) == Ok(Parsed(Raw(t.fields), |Encode(t)|))
  {
    hide FieldsAt, CompoundFields, EncodeFields;
    CompoundOfTrees(t.fields);
    WritesEncoding(t.fields);
    SplitsEncoding(t.fields, Encode(t), 0);
  }

  lemma {:induction false} SoundAt(ns: seq<Named>, i: nat)
    requires Sound(ns) && i < |ns|
    ensures |ns[i].name| < TWO16 && Wf(ns[i].value) && 1 + Height(ns[i].value) <= HeightFields(ns)
    decreases |ns|
  {
    hide Wf, Height;
    if i > 0 { SoundAt(ns[1..], i - 1); }
  }
}
