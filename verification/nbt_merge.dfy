/**
  Merging an edit into an entity's compound.  `MergedInto` follows the source field by
  field over raw payloads.  It is proved to be a merge of trees, and that to be the
  key-by-key merge `MergeSpec`, which mentions neither payloads nor the order of edits.
 */
module NbtMerge {
  import opened Bytes
  import opened NbtTree
  import opened NbtFields

  /** The list an edit leaves behind, and whether it stopped early. */
  datatype Edit = Edit(items: seq<Field>, status: Result<()>)

  /** The first field of that name, or the length of the list. */
  function Position(fields: seq<Field>, name: seq<byte>): (i: nat)
    ensures i <= |fields| && (i < |fields| ==> fields[i].name == name)
    ensures forall j :: 0 <= j < i ==> fields[j].name != name
  {
    if fields == [] || fields[0].name == name then 0 else 1 + Position(fields[1..], name)
  }

  function Remove<T>(s: seq<T>, i: nat): seq<T> {
    if i < |s| then s[..i] + s[i + 1..] else s
  }

  function PutAt<T>(s: seq<T>, i: nat, x: T): seq<T> {
    if i < |s| then s[i := x] else s + [x]
  }

  function MergedInto(left: seq<Field>, right: seq<Field>): Edit
    decreases PayloadBytes(right), |right|, 0
  {
    if right == [] then Edit(left, Ok(()))
    else
      var step := MergedOne(left, right[0]);
      if step.status.Err? then step else MergedInto(step.items, right[1..])
  }

  /** One round of the loop.  A payload is re-read from its start; what may follow the
      compound in it is not looked at. */
  function MergedOne(left: seq<Field>, field: Field): Edit
    decreases |field.payload|, 0, 1
  {
    var at := Position(left, field.name);
    if field.tag == TAG_COMPOUND then
      var changes := FieldsAt(field.payload, 0);
      if changes.Err? then Edit(left, Err(changes.error))
      else if changes.value.value == [] then Edit(Remove(left, at), Ok(()))
      else if at < |left| && left[at].tag == TAG_COMPOUND then
        var child := FieldsAt(left[at].payload, 0);
        if child.Err? then Edit(left, Err(child.error))
        else
          var merged := MergedInto(child.value.value, changes.value.value);
          if merged.status.Err? then Edit(left, merged.status)
          else Edit(left[at := left[at].(payload := FieldsBytes(merged.items))], Ok(()))
      else Edit(PutAt(left, at, field), Ok(()))
    else Edit(PutAt(left, at, field), Ok(()))
  }

  // ----- the same edit on trees -----

  function Find(ns: seq<Named>, name: seq<byte>): (i: nat)
    ensures i <= |ns| && (i < |ns| ==> ns[i].name == name)
    ensures forall j :: 0 <= j < i ==> ns[j].name != name
  {
    if ns == [] || ns[0].name == name then 0 else 1 + Find(ns[1..], name)
  }

  function MergeTrees(left: seq<Named>, right: seq<Named>): seq<Named>
    decreases right, 0
  {
    if right == [] then left else MergeTrees(MergeOne(left, right[0]), right[1..])
  }

  function MergeOne(left: seq<Named>, change: Named): seq<Named>
    decreases change
  {
    var at := Find(left, change.name);
    if change.value == Compound([]) then Remove(left, at)
    else if change.value.Compound? && at < |left| && left[at].value.Compound? then
      left[at := Named(left[at].name, Compound(MergeTrees(left[at].value.fields, change.value.fields)))]
    else PutAt(left, at, change)
  }

  /** Fields a compound of at most `h` levels may hold. */
  predicate Within(ns: seq<Named>, h: nat) {
    forall i :: 0 <= i < |ns| ==> |ns[i].name| < TWO16 && Wf(ns[i].value) && 1 + Height(ns[i].value) <= h
  }

  lemma {:induction false} WithinIff(ns: seq<Named>, h: nat)
    ensures Within(ns, h) <==> WfFields(ns) && HeightFields(ns) <= h
    decreases |ns|
  {
    hide Wf, Height;
    if ns != [] {
      WithinIff(ns[1..], h);
      assert Within(ns, h) <==>
        |ns[0].name| < TWO16 && Wf(ns[0].value) && 1 + Height(ns[0].value) <= h && Within(ns[1..], h) by
      {
        assert forall i :: 1 <= i < |ns| ==> ns[i] == ns[1..][i - 1];
      }
    }
  }

  /** A merge is no deeper than the deeper input, and stays writable. */
  lemma {:induction false} MergeStaysWithin(left: seq<Named>, right: seq<Named>, h: nat)
    requires Within(left, h) && Within(right, h)
    ensures Within(MergeTrees(left, right), h)
    decreases right, 0
  {
    if right != [] {
      MergeOneStaysWithin(left, right[0], h);
      MergeStaysWithin(MergeOne(left, right[0]), right[1..], h);
    }
  }

  lemma {:induction false} MergeOneStaysWithin(left: seq<Named>, change: Named, h: nat)
    requires Within(left, h)
    requires |change.name| < TWO16 && Wf(change.value) && 1 + Height(change.value) <= h
    ensures Within(MergeOne(left, change), h)
    decreases change
  {
    var at := Find(left, change.name);
    if change.value.Compound? && change.value.fields != [] && at < |left| && left[at].value.Compound? {
      var mine, yours := left[at].value.fields, change.value.fields;
      WithinIff(mine, h - 1);
      WithinIff(yours, h - 1);
      MergeStaysWithin(mine, yours, h - 1);
      WithinIff(MergeTrees(mine, yours), h - 1);
    }
  }

  lemma {:induction false} FindsSame(ns: seq<Named>, name: seq<byte>)
    ensures Position(Raw(ns), name) == Find(ns, name)
    decreases |ns|
  {
    if ns != [] {
      RawCons(ns);
      assert Raw(ns)[1..] == Raw(ns[1..]);
      FindsSame(ns[1..], name);
    }
  }

  /** On the fields of any two sound compounds the merge succeeds, and its list is the
      raw form of the merged trees. */
  lemma {:induction false} MergesTrees(left: seq<Named>, right: seq<Named>)
    requires Sound(left) && Sound(right)
    ensures MergedInto(Raw(left), Raw(right)) == Edit(Raw(MergeTrees(left, right)), Ok(()))
    decreases right, 0
  {
    hide Wf, Height, Encode, MergedOne, MergeOne;
    if right == [] {
      assert Raw(right) == [];
    } else {
      RawCons(right);
      assert Raw(right)[1..] == Raw(right[1..]);
      MergesOne(left, right[0]);
      WithinIff(left, MAX_DEPTH);
      WithinIff(right, MAX_DEPTH);
      MergeOneStaysWithin(left, right[0], MAX_DEPTH);
      WithinIff(MergeOne(left, right[0]), MAX_DEPTH);
      MergesTrees(MergeOne(left, right[0]), right[1..]);
    }
  }

  lemma {:induction false} MergesOne(left: seq<Named>, change: Named)
    requires Sound(left)
    requires |change.name| < TWO16 && Wf(change.value) && 1 + Height(change.value) <= MAX_DEPTH
    ensures MergedOne(Raw(left), RawField(change)) == Edit(Raw(MergeOne(left, change)), Ok(()))
    decreases change
  {
    hide Wf, Height, Encode, FieldsAt, MergedInto, MergeTrees, CompoundFields, Find, Position, Raw, Remove, PutAt;
    var at := Find(left, change.name);
    FindsSame(left, change.name);
    RawEdits(left, at, change);
    if at < |left| { SoundAt(left, at); }
    if Tag(change.value) == TAG_COMPOUND {
      TagNames(change.value);
      NestedTrees(change.value);
      if change.value.fields != [] && at < |left| && Tag(left[at].value) == TAG_COMPOUND {
        TagNames(left[at].value);
        NestedTrees(left[at].value);
        MergesNested(left[at].value, change.value);
        RawEdits(left, at, Named(left[at].name, Compound(MergeTrees(left[at].value.fields, change.value.fields))));
      }
      RawIsEmpty(change.value.fields);
    } else {
      TagNames(change.value);
    }
    if at < |left| { TagNames(left[at].value); }
  }

  lemma RawIsEmpty(ns: seq<Named>)
    ensures Raw(ns) == [] <==> ns == []
  {
    assert |Raw(ns)| == |ns|;
  }

  /** Edits of a tree list are edits of its raw form. */
  lemma RawEdits(ns: seq<Named>, at: nat, n: Named)
    ensures Raw(Remove(ns, at)) == Remove(Raw(ns), at)
    ensures Raw(PutAt(ns, at, n)) == PutAt(Raw(ns), at, RawField(n))
    ensures at < |ns| ==> Raw(ns[at := n]) == Raw(ns)[at := RawField(n)]
  {
    hide Encode;
  }

  lemma {:induction false} MergesNested(mine: Tree, yours: Tree)
    requires mine.Compound? && yours.Compound?
    requires Wf(mine) && Height(mine) <= MAX_DEPTH && Wf(yours) && Height(yours) <= MAX_DEPTH
    ensures var merged := MergeTrees(mine.fields, yours.fields);
      MergedInto(Raw(mine.fields), Raw(yours.fields)) == Edit(Raw(merged), Ok(()))
      && FieldsBytes(Raw(merged)) == Encode(Compound(merged))
    decreases yours
  {
    MergesTrees(mine.fields, yours.fields);
    WithinIff(mine.fields, MAX_DEPTH);
    WithinIff(yours.fields, MAX_DEPTH);
    MergeStaysWithin(mine.fields, yours.fields, MAX_DEPTH);
    WithinIff(MergeTrees(mine.fields, yours.fields), MAX_DEPTH);
    WritesEncoding(MergeTrees(mine.fields, yours.fields));
  }
}
