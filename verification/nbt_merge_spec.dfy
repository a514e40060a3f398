/**
  What a merge means: for each key of the left side, the change the right side holds
  under that key; then the keys only the right side has.  Also when merging the same
  change a second time changes nothing.
 */
module NbtMergeSpec {
  import opened Bytes
  import opened NbtTree
  import opened NbtMerge

  predicate Has(ns: seq<Named>, name: seq<byte>) {
    exists i :: 0 <= i < |ns| && ns[i].name == name
  }

  function Lookup(ns: seq<Named>, name: seq<byte>): Option<Tree> {
    var at := Find(ns, name);
    if at < |ns| then Some(ns[at].value) else None
  }

  predicate Distinct(ns: seq<Named>) {
    forall i, j :: 0 <= i < j < |ns| ==> ns[i].name != ns[j].name
  }

  /** No compound reachable through compounds holds a name twice. */
  predicate UniqueNames(ns: seq<Named>)
    decreases ns
  {
    Distinct(ns) && forall i :: 0 <= i < |ns| && ns[i].value.Compound? ==> UniqueNames(ns[i].value.fields)
  }

  lemma TopNamesDistinct(fs: seq<Named>)
    requires UniqueNames(fs)
    ensures Distinct(fs)
  {
  }

  // ----- the key-by-key merge -----

  function MergeSpec(left: seq<Named>, right: seq<Named>): seq<Named>
    decreases left, 1
  {
    Kept(left, right) + Added(left, right)
  }

  /** Left keys in their order, each as the change under its name leaves it. */
  function Kept(left: seq<Named>, right: seq<Named>): seq<Named>
    decreases left, 0
  {
    if left == [] then [] else KeptOne(left[0], Lookup(right, left[0].name)) + Kept(left[1..], right)
  }

  function KeptOne(f: Named, change: Option<Tree>): (r: seq<Named>)
    ensures |r| <= 1 && (r == [] <==> change == Some(Compound([]))) && (r != [] ==> r[0].name == f.name)
    decreases f
  {
    match change
    case None => [f]
    case Some(v) =>
      if v == Compound([]) then []
      else if v.Compound? && f.value.Compound? then [Named(f.name, Compound(MergeSpec(f.value.fields, v.fields)))]
      else [Named(f.name, v)]
  }

  function AddedOne(left: seq<Named>, change: Named): seq<Named> {
    if Has(left, change.name) || change.value == Compound([]) then [] else [change]
  }

  /** Keys the left side lacks, in the right side's order. */
  function Added(left: seq<Named>, right: seq<Named>): seq<Named> {
    if right == [] then [] else AddedOne(left, right[0]) + Added(left, right[1..])
  }

  lemma {:induction false} KeptConcat(a: seq<Named>, b: seq<Named>, right: seq<Named>)
    ensures Kept(a + b, right) == Kept(a, right) + Kept(b, right)
    decreases |a|
  {
    hide KeptOne;
    if a == [] {
      assert a + b == b;
    } else {
      assert (a + b)[1..] == a[1..] + b;
      KeptConcat(a[1..], b, right);
    }
  }

  /** A change under a name the left side lacks keeps every left key as it was. */
  lemma {:induction false} KeptIgnores(left: seq<Named>, change: Named, right: seq<Named>)
    requires !Has(left, change.name)
    ensures Kept(left, [change] + right) == Kept(left, right)
    decreases |left|
  {
    hide KeptOne, Lookup;
    if left != [] {
      assert left[0].name != change.name;
      LookupCons(change, right, left[0].name);
      assert !Has(left[1..], change.name);
      KeptIgnores(left[1..], change, right);
    }
  }

  lemma {:induction false} KeptAll(left: seq<Named>)
    ensures Kept(left, []) == left
    decreases |left|
  {
    if left != [] { KeptAll(left[1..]); }
  }

  lemma {:induction false} AddedDependsOnNames(left: seq<Named>, other: seq<Named>, right: seq<Named>)
    requires forall i :: 0 <= i < |right| ==> (Has(left, right[i].name) <==> Has(other, right[i].name))
    ensures Added(left, right) == Added(other, right)
    decreases |right|
  {
    hide Has;
    if right != [] {
      AddedDependsOnNames(left, other, right[1..]);
    }
  }

  /** The left side around the field a change names. */
  lemma SplitAt(left: seq<Named>, name: seq<byte>)
    requires Distinct(left) && Find(left, name) < |left|
    ensures var at := Find(left, name);
      left == left[..at] + ([left[at]] + left[at + 1..])
      && !Has(left[..at], name) && !Has(left[at + 1..], name)
  {
  }

  lemma LookupCons(change: Named, right: seq<Named>, name: seq<byte>)
    ensures Lookup([change] + right, name) == if change.name == name then Some(change.value) else Lookup(right, name)
  {
    assert ([change] + right)[1..] == right;
  }

  lemma LookupMissing(right: seq<Named>, name: seq<byte>)
    requires !Has(right, name)
    ensures Lookup(right, name) == None
  {
  }

  lemma AddedStep(left: seq<Named>, change: Named, right: seq<Named>)
    ensures Added(left, [change] + right)
         == AddedOne(left, change) + Added(left, right)
  {
    assert ([change] + right)[1..] == right;
  }

  lemma KeptSingle(f: Named, right: seq<Named>)
    ensures Kept([f], right) == KeptOne(f, Lookup(right, f.name))
    ensures KeptOne(f, None) == [f]
  {
    assert [f][1..] == [];
  }

  /** Applying one change and then the rest is applying all of them. */
  lemma StepKeepsMeaning(left: seq<Named>, change: Named, right: seq<Named>)
    requires Distinct(left) && !Has(right, change.name)
    requires change.value.Compound? ==> forall i :: 0 <= i < |left| && left[i].value.Compound? ==>
      MergeTrees(left[i].value.fields, change.value.fields) == MergeSpec(left[i].value.fields, change.value.fields)
    ensures MergeSpec(MergeOne(left, change), right) == MergeSpec(left, [change] + right)
  {
    var at := Find(left, change.name);
    AddedStep(left, change, right);
    if at == |left| {
      StepAdds(left, change, right);
    } else {
      StepChanges(left, change, right);
    }
  }

  lemma StepAdds(left: seq<Named>, change: Named, right: seq<Named>)
    requires !Has(right, change.name) && Find(left, change.name) == |left|
    ensures MergeSpec(MergeOne(left, change), right) == MergeSpec(left, [change] + right)
  {
    hide KeptOne, MergeTrees, Kept, Added, Has, Find, Lookup, MergeOne;
    FindsIffHas(left, change.name);
    AddedStep(left, change, right);
    KeptIgnores(left, change, right);
    MergeOneAppends(left, change);
    if change.value != Compound([]) {
      KeptConcat(left, [change], right);
      KeptSingle(change, right);
      LookupMissing(right, change.name);
      HasAppend(left, change, right);
      AddedDependsOnNames(left + [change], left, right);
      assert (Kept(left, right) + [change]) + Added(left, right) == Kept(left, right) + ([change] + Added(left, right));
    }
  }

  lemma FindsIffHas(ns: seq<Named>, name: seq<byte>)
    ensures Find(ns, name) < |ns| <==> Has(ns, name)
  {
  }

  lemma MergeOneAppends(left: seq<Named>, change: Named)
    requires Find(left, change.name) == |left|
    ensures MergeOne(left, change) == if change.value == Compound([]) then left else left + [change]
  {
    hide MergeTrees;
  }

  lemma HasAppend(left: seq<Named>, extra: Named, right: seq<Named>)
    requires !Has(right, extra.name)
    ensures forall i :: 0 <= i < |right| ==> (Has(left, right[i].name) <==> Has(left + [extra], right[i].name))
  {
    forall i | 0 <= i < |right|
      ensures Has(left, right[i].name) <==> Has(left + [extra], right[i].name)
    {
      var name := right[i].name;
      assert name != extra.name;
      if Has(left, name) {
        var j :| 0 <= j < |left| && left[j].name == name;
        assert (left + [extra])[j].name == name;
      }
      if Has(left + [extra], name) {
        var j :| 0 <= j < |left| + 1 && (left + [extra])[j].name == name;
        assert left[j].name == name;
      }
    }
  }

  lemma StepChanges(left: seq<Named>, change: Named, right: seq<Named>)
    requires Distinct(left) && !Has(right, change.name) && Find(left, change.name) < |left|
    requires change.value.Compound? ==> forall i :: 0 <= i < |left| && left[i].value.Compound? ==>
      MergeTrees(left[i].value.fields, change.value.fields) == MergeSpec(left[i].value.fields, change.value.fields)
    ensures MergeSpec(MergeOne(left, change), right) == MergeSpec(left, [change] + right)
  {
    hide *;
    var at := Find(left, change.name);
    MergeOneReplaces(left, change);
    SpecParts(MergeOne(left, change), right);
    SpecParts(left, [change] + right);
    StepKeeps(left, change, right);
    StepAddsNothing(left, change, right);
  }

  /** The field a change names, as the change leaves it, between its neighbours. */
  function Replaced(left: seq<Named>, change: Named): seq<Named>
    requires Find(left, change.name) < |left|
  {
    var at := Find(left, change.name);
    left[..at] + (KeptOne(left[at], Some(change.value)) + left[at + 1..])
  }

  lemma StepKeeps(left: seq<Named>, change: Named, right: seq<Named>)
    requires Distinct(left) && !Has(right, change.name) && Find(left, change.name) < |left|
    ensures Kept(Replaced(left, change), right) == Kept(left, [change] + right)
  {
    hide Find, Has, Kept, KeptOne;
    var at := Find(left, change.name);
    var before, after := left[..at], left[at + 1..];
    var middle := KeptOne(left[at], Some(change.value));
    SplitAt(left, change.name);
    KeptAround(before, left[at], after, change, right);
    KeptMiddle(before, middle, after, change.name, right);
  }

  lemma StepAddsNothing(left: seq<Named>, change: Named, right: seq<Named>)
    requires !Has(right, change.name) && Find(left, change.name) < |left|
    ensures Added(Replaced(left, change), right) == Added(left, [change] + right)
  {
    hide Find, Has, KeptOne, Added;
    var at := Find(left, change.name);
    FindsIffHas(left, change.name);
    AddedStep(left, change, right);
    assert AddedOne(left, change) + Added(left, right) == Added(left, right);
    NamesAround(left, Replaced(left, change), at, KeptOne(left[at], Some(change.value)), right);
    AddedDependsOnNames(left, Replaced(left, change), right);
  }

  lemma SpecParts(left: seq<Named>, right: seq<Named>)
    ensures MergeSpec(left, right) == Kept(left, right) + Added(left, right)
  {
  }

  /** The left fields around the changed one are kept as the later changes leave them. */
  lemma KeptAround(before: seq<Named>, f: Named, after: seq<Named>, change: Named, right: seq<Named>)
    requires !Has(before, change.name) && !Has(after, change.name) && f.name == change.name
    ensures Kept(before + ([f] + after), [change] + right)
         == Kept(before, right) + (KeptOne(f, Some(change.value)) + Kept(after, right))
  {
    hide Kept, KeptOne, Has, Lookup;
    var all := [change] + right;
    KeptConcat(before, [f] + after, all);
    KeptConcat([f], after, all);
    KeptSingle(f, all);
    LookupCons(change, right, change.name);
    KeptIgnores(before, change, right);
    KeptIgnores(after, change, right);
  }

  lemma KeptMiddle(before: seq<Named>, middle: seq<Named>, after: seq<Named>, name: seq<byte>, right: seq<Named>)
    requires |middle| <= 1 && (middle != [] ==> middle[0].name == name) && !Has(right, name)
    ensures Kept(before + (middle + after), right) == Kept(before, right) + (middle + Kept(after, right))
  {
    hide KeptOne, Has, Lookup;
    KeptConcat(before, middle + after, right);
    KeptConcat(middle, after, right);
    LookupMissing(right, name);
    if middle != [] {
      assert middle == [middle[0]];
      KeptSingle(middle[0], right);
    }
  }

  lemma MergeOneReplaces(left: seq<Named>, change: Named)
    requires Find(left, change.name) < |left|
    requires var mine := left[Find(left, change.name)].value;
      mine.Compound? && change.value.Compound? ==>
        MergeTrees(mine.fields, change.value.fields) == MergeSpec(mine.fields, change.value.fields)
    ensures MergeOne(left, change) == Replaced(left, change)
  {
    hide MergeTrees, MergeSpec, Find;
    var at := Find(left, change.name);
    assert [] + left[at + 1..] == left[at + 1..];
    if change.value != Compound([]) {
      UpdateParts(left, at, KeptOne(left[at], Some(change.value))[0]);
    }
  }

  lemma UpdateParts(left: seq<Named>, at: nat, f: Named)
    requires at < |left|
    ensures left[at := f] == left[..at] + ([f] + left[at + 1..])
  {
  }

  lemma NamesAround(left: seq<Named>, merged: seq<Named>, at: nat, middle: seq<Named>, right: seq<Named>)
    requires at < |left| && merged == left[..at] + (middle + left[at + 1..])
    requires |middle| <= 1 && (middle != [] ==> middle[0].name == left[at].name)
    requires !Has(right, left[at].name)
    ensures forall i :: 0 <= i < |right| ==> (Has(left, right[i].name) <==> Has(merged, right[i].name))
  {
    forall i | 0 <= i < |right|
      ensures Has(left, right[i].name) <==> Has(merged, right[i].name)
    {
      var name := right[i].name;
      assert Has(right, name);
      if Has(left, name) {
        var j :| 0 <= j < |left| && left[j].name == name;
        assert j != at;
        assert merged[if j < at then j else j - 1 + |middle|].name == name;
      }
      if Has(merged, name) {
        var j :| 0 <= j < |merged| && merged[j].name == name;
        assert j < at || j >= at + |middle|;
        assert left[if j < at then j else j + 1 - |middle|].name == name;
      }
    }
  }

  /** Merging keeps names unique at every level. */
  lemma {:induction false} MergeKeepsUnique(left: seq<Named>, right: seq<Named>)
    requires UniqueNames(left) && UniqueNames(right)
    ensures UniqueNames(MergeTrees(left, right))
    decreases right, 0
  {
    if right != [] {
      MergeOneKeepsUnique(left, right[0]);
      assert UniqueNames(right[1..]);
      MergeKeepsUnique(MergeOne(left, right[0]), right[1..]);
    }
  }

  lemma {:induction false} MergeOneKeepsUnique(left: seq<Named>, change: Named)
    requires UniqueNames(left) && (change.value.Compound? ==> UniqueNames(change.value.fields))
    ensures UniqueNames(MergeOne(left, change))
    decreases change
  {
    var at := Find(left, change.name);
    if change.value.Compound? && at < |left| && left[at].value.Compound? {
      MergeKeepsUnique(left[at].value.fields, change.value.fields);
    }
  }

  /** The field-by-field merge is the key-by-key merge. */
  lemma {:induction false} MergeMeaning(left: seq<Named>, right: seq<Named>)
    requires UniqueNames(left) && UniqueNames(right)
    ensures MergeTrees(left, right) == MergeSpec(left, right)
    decreases right
  {
    hide KeptOne, Kept, MergeOne;
    if right == [] {
      KeptAll(left);
    } else {
      var change, rest := right[0], right[1..];
      assert right == [change] + rest;
      MergeOneKeepsUnique(left, change);
      assert UniqueNames(rest);
      MergeMeaning(MergeOne(left, change), rest);
      if change.value.Compound? {
        forall i | 0 <= i < |left| && left[i].value.Compound?
          ensures MergeTrees(left[i].value.fields, change.value.fields)
               == MergeSpec(left[i].value.fields, change.value.fields)
        {
          MergeMeaning(left[i].value.fields, change.value.fields);
        }
      }
      StepKeepsMeaning(left, change, rest);
    }
  }
}
