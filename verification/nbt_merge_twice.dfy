/**
  Merging the same change twice.  The editor's merge is not idempotent: an empty
  compound inside a compound that the left side lacks is stored the first time and
  deletes its key the second.  `Settled` is the exact condition.
 */
module NbtMergeTwice {
  import opened Bytes
  import opened NbtTree
  import opened NbtMerge
  import opened NbtMergeSpec

  /** No empty compound is reachable through compounds. */
  predicate NoDeletions(fs: seq<Named>)
    decreases fs
  {
    forall i :: 0 <= i < |fs| ==> NoDeletionsIn(fs[i].value)
  }

  predicate NoDeletionsIn(t: Tree)
    decreases t
  {
    t.Compound? ==> t.fields != [] && NoDeletions(t.fields)
  }

  /** Where the change meets a compound it must be settled there; what it stores whole
      must hold no deletions. */
  predicate Settled(left: seq<Named>, right: seq<Named>)
    decreases left, 1
  {
    && (forall i :: 0 <= i < |left| ==> SettledField(left[i], Lookup(right, left[i].name)))
    && (forall j :: 0 <= j < |right| && !Has(left, right[j].name) ==> StoredWhole(right[j].value))
  }

  predicate StoredWhole(v: Tree) {
    v == Compound([]) || NoDeletionsIn(v)
  }

  predicate SettledField(f: Named, change: Option<Tree>)
    decreases f
  {
    match change
    case None => true
    case Some(v) =>
      if v.Compound? && v.fields != [] && f.value.Compound? then Settled(f.value.fields, v.fields) else StoredWhole(v)
  }

  lemma {:induction false} SelfMerge(fs: seq<Named>)
    requires UniqueNames(fs)
    ensures MergeSpec(fs, fs) == fs <==> NoDeletions(fs)
    decreases fs, 1
  {
    SelfAdded(fs, fs);
    SelfKept(fs, fs);
    assert MergeSpec(fs, fs) == Kept(fs, fs);
  }

  lemma {:induction false} SelfAdded(left: seq<Named>, right: seq<Named>)
    requires forall i :: 0 <= i < |right| ==> Has(left, right[i].name) || right[i].value == Compound([])
    ensures Added(left, right) == []
    decreases |right|
  {
    if right != [] { SelfAdded(left, right[1..]); }
  }

  lemma {:induction false} SelfKept(part: seq<Named>, fs: seq<Named>)
    requires UniqueNames(fs)
    requires |part| <= |fs| && part == fs[|fs| - |part|..]
    ensures |Kept(part, fs)| <= |part|
    ensures Kept(part, fs) == part <==> forall i :: 0 <= i < |part| ==> NoDeletionsIn(part[i].value)
    decreases fs, 0, |part|
  {
    hide KeptOne, Lookup, UniqueNames, NoDeletionsIn;
    if part != [] {
      var at := |fs| - |part|;
      SelfKeptOne(fs, at);
      assert part[1..] == fs[|fs| - |part[1..]|..];
      SelfKept(part[1..], fs);
      assert part[0] == fs[at];
      LookupSelf(fs, at);
      assert Kept(part, fs) == KeptOne(part[0], Some(part[0].value)) + Kept(part[1..], fs);
      assert part == [part[0]] + part[1..];
      ConcatSplits(KeptOne(part[0], Some(part[0].value)), Kept(part[1..], fs), part);
      assert forall i :: 1 <= i < |part| ==> part[i] == part[1..][i - 1];
    }
  }

  /** At most one item, then at most the rest: equal only when both parts are. */
  lemma ConcatSplits(one: seq<Named>, rest: seq<Named>, whole: seq<Named>)
    requires whole != [] && |one| <= 1 && |rest| <= |whole| - 1
    ensures one + rest == whole <==> one == [whole[0]] && rest == whole[1..]
  {
    if one + rest == whole {
      assert |one| == 1 && one[0] == (one + rest)[0];
      assert rest == (one + rest)[1..];
    }
    if one == [whole[0]] && rest == whole[1..] {
      assert whole == [whole[0]] + whole[1..];
    }
  }

  lemma LookupSelf(fs: seq<Named>, i: nat)
    requires UniqueNames(fs) && i < |fs|
    ensures Lookup(fs, fs[i].name) == Some(fs[i].value)
  {
    hide Find, UniqueNames;
    assert Distinct(fs) by { TopNamesDistinct(fs); }
  }

  lemma {:induction false} SelfKeptOne(fs: seq<Named>, i: nat)
    requires UniqueNames(fs) && i < |fs|
    ensures KeptOne(fs[i], Some(fs[i].value)) == [fs[i]] <==> NoDeletionsIn(fs[i].value)
    decreases fs, 0, 0
  {
    hide MergeSpec, Kept, Added;
    if fs[i].value.Compound? && fs[i].value.fields != [] {
      SelfMerge(fs[i].value.fields);
    }
  }

  // ----- the theorem -----

  /** For any change and any entity with names unique at every level, merging again
      changes nothing exactly when the change is settled on the entity. */
  lemma {:induction false} MergeTwice(left: seq<Named>, right: seq<Named>)
    requires UniqueNames(left) && UniqueNames(right)
    ensures MergeTrees(MergeTrees(left, right), right) == MergeTrees(left, right) <==> Settled(left, right)
  {
    MergeMeaning(left, right);
    MergeKeepsUnique(left, right);
    MergeMeaning(MergeTrees(left, right), right);
    SpecTwice(left, right);
  }

  lemma {:induction false} SpecTwice(left: seq<Named>, right: seq<Named>)
    requires UniqueNames(left) && UniqueNames(right)
    ensures MergeSpec(MergeSpec(left, right), right) == MergeSpec(left, right) <==> Settled(left, right)
    decreases left, 1
  {
    hide KeptOne, Kept, Added, Lookup, UniqueNames, NoDeletionsIn, SettledField, Has, StoredWhole, MergeSpec;
    var kept, added := Kept(left, right), Added(left, right);
    SpecParts(left, right);
    SpecParts(kept + added, right);
    KeptConcat(kept, added, right);
    NothingLeftToAdd(left, right, right);
    SelfAdded(kept + added, right);
    KeptTwice(left, left, right);
    AddedTwice(left, right, right);
    assert MergeSpec(MergeSpec(left, right), right) == Kept(kept, right) + Kept(added, right);
    SameLengthConcat(Kept(kept, right), Kept(added, right), kept, added);
  }

  lemma SameLengthConcat(a: seq<Named>, b: seq<Named>, c: seq<Named>, d: seq<Named>)
    requires |a| == |c|
    ensures a + b == c + d <==> a == c && b == d
  {
    if a + b == c + d {
      assert a == (a + b)[..|a|] && c == (c + d)[..|a|];
      assert b == (a + b)[|a|..] && d == (c + d)[|a|..];
    }
  }

  /** After one merge every key of the change is there, or was deleted. */
  lemma {:induction false} NothingLeftToAdd(left: seq<Named>, rest: seq<Named>, right: seq<Named>)
    requires UniqueNames(right) && |rest| <= |right| && rest == right[|right| - |rest|..]
    ensures forall i :: 0 <= i < |rest| ==>
      Has(Kept(left, right) + Added(left, right), rest[i].name) || rest[i].value == Compound([])
    decreases |rest|
  {
    hide KeptOne, Kept, Added, Lookup, UniqueNames;
    forall i | 0 <= i < |rest| && rest[i].value != Compound([])
      ensures Has(Kept(left, right) + Added(left, right), rest[i].name)
    {
      var j := |right| - |rest| + i;
      LookupSelf(right, j);
      if Has(left, right[j].name) {
        HasInKept(left, right, right[j].name);
        var k :| 0 <= k < |Kept(left, right)| && Kept(left, right)[k].name == right[j].name;
        assert (Kept(left, right) + Added(left, right))[k].name == right[j].name;
      } else {
        HasInAdded(left, right, j);
        var k :| 0 <= k < |Added(left, right)| && Added(left, right)[k].name == right[j].name;
        assert (Kept(left, right) + Added(left, right))[|Kept(left, right)| + k].name == right[j].name;
      }
    }
  }

  lemma {:induction false} HasInKept(left: seq<Named>, right: seq<Named>, name: seq<byte>)
    requires Has(left, name) && Lookup(right, name) != Some(Compound([]))
    ensures Has(Kept(left, right), name)
    decreases |left|
  {
    hide KeptOne, Lookup;
    var one: seq<Named>, rest: seq<Named> := KeptOne(left[0], Lookup(right, left[0].name)), Kept(left[1..], right);
    if left[0].name == name {
      assert (one + rest)[0].name == name;
    } else {
      var i :| 0 <= i < |left| && left[i].name == name;
      assert left[1..][i - 1].name == name;
      HasInKept(left[1..], right, name);
      var k :| 0 <= k < |rest| && rest[k].name == name;
      assert (one + rest)[|one| + k].name == name;
    }
  }

  lemma {:induction false} HasInAdded(left: seq<Named>, right: seq<Named>, j: nat)
    requires j < |right| && !Has(left, right[j].name) && right[j].value != Compound([])
    ensures Has(Added(left, right), right[j].name)
    decreases |right|
  {
    var one: seq<Named>, rest: seq<Named> := AddedOne(left, right[0]), Added(left, right[1..]);
    if j == 0 {
      assert (one + rest)[0].name == right[0].name;
    } else {
      HasInAdded(left, right[1..], j - 1);
      var k :| 0 <= k < |rest| && rest[k].name == right[j].name;
      assert (one + rest)[|one| + k].name == right[j].name;
    }
  }

  lemma {:induction false} KeptTwice(part: seq<Named>, left: seq<Named>, right: seq<Named>)
    requires UniqueNames(left) && UniqueNames(right)
    requires |part| <= |left| && part == left[|left| - |part|..]
    ensures |Kept(Kept(part, right), right)| == |Kept(part, right)|
    ensures Kept(Kept(part, right), right) == Kept(part, right)
       <==> forall i :: 0 <= i < |part| ==> SettledField(part[i], Lookup(right, part[i].name))
    decreases left, 0, |part|
  {
    hide KeptOne, Lookup, UniqueNames, SettledField;
    if part != [] {
      var f, rest := part[0], Kept(part[1..], right);
      var one := KeptOne(f, Lookup(right, f.name));
      KeptTwice(part[1..], left, right);
      KeptOneTwice(left, |left| - |part|, right);
      KeptConcat(one, rest, right);
      assert Kept(part, right) == one + rest;
      if one != [] {
        assert one == [one[0]];
        KeptSingle(one[0], right);
      }
      SameLengthConcat(Kept(one, right), Kept(rest, right), one, rest);
      assert forall i :: 1 <= i < |part| ==> part[i] == part[1..][i - 1];
    }
  }

  lemma {:induction false} KeptOneTwice(left: seq<Named>, i: nat, right: seq<Named>)
    requires UniqueNames(left) && UniqueNames(right) && i < |left|
    ensures var change := Lookup(right, left[i].name);
      var one := KeptOne(left[i], change);
      one != [] ==> |KeptOne(one[0], change)| == 1 && (KeptOne(one[0], change) == one <==> SettledField(left[i], change))
    ensures Lookup(right, left[i].name) == Some(Compound([])) ==> SettledField(left[i], Lookup(right, left[i].name))
    decreases left, 0, 0
  {
    hide MergeSpec, Kept, Added, Settled;
    var f, change := left[i], Lookup(right, left[i].name);
    if change.Some? && change.value.Compound? && change.value.fields != [] {
      var v := change.value;
      assert UniqueNames(v.fields);
      if f.value.Compound? {
        SpecTwice(f.value.fields, v.fields);
      } else {
        SelfMerge(v.fields);
      }
    }
  }

  lemma {:induction false} AddedTwice(left: seq<Named>, part: seq<Named>, right: seq<Named>)
    requires UniqueNames(right) && |part| <= |right| && part == right[|right| - |part|..]
    ensures Kept(Added(left, part), right) == Added(left, part)
       <==> forall j :: 0 <= j < |part| && !Has(left, part[j].name) ==> StoredWhole(part[j].value)
    ensures |Kept(Added(left, part), right)| == |Added(left, part)|
    decreases |part|
  {
    hide KeptOne, Lookup, UniqueNames, StoredWhole, Has;
    if part != [] {
      var c, rest := part[0], Added(left, part[1..]);
      var one := AddedOne(left, c);
      AddedTwice(left, part[1..], right);
      KeptConcat(one, rest, right);
      AddedOneTwice(left, right, |right| - |part|);
      SameLengthConcat(Kept(one, right), Kept(rest, right), one, rest);
      assert forall j :: 1 <= j < |part| ==> part[j] == part[1..][j - 1];
    }
  }

  lemma AddedOneTwice(left: seq<Named>, right: seq<Named>, j: nat)
    requires UniqueNames(right) && j < |right|
    ensures var one := AddedOne(left, right[j]);
      |Kept(one, right)| == |one|
      && (Kept(one, right) == one <==> (!Has(left, right[j].name) ==> StoredWhole(right[j].value)))
  {
    hide MergeSpec, Has, Lookup;
    LookupSelf(right, j);
    if AddedOne(left, right[j]) != [] {
      KeptSingle(right[j], right);
      if right[j].value.Compound? {
        assert UniqueNames(right[j].value.fields);
        SelfMerge(right[j].value.fields);
      }
    }
  }

  /** The smallest change that is not settled: a compound holding a deletion, merged
      into an entity without it. */
  lemma NotIdempotent()
    ensures var change := [Named([1], Compound([Named([2], Compound([]))]))];
      MergeTrees([], change) == change
      && MergeTrees(change, change) == [Named([1], Compound([]))]
  {
    var inner := [Named([2], Compound([]))];
    var change := [Named([1], Compound(inner))];
    assert MergeOne([], change[0]) == change;
    assert MergeTrees(inner, inner) == MergeTrees(MergeOne(inner, inner[0]), []);
    assert MergeOne(inner, inner[0]) == [];
    assert MergeOne(change, change[0]) == [Named([1], Compound([]))];
    assert change[1..] == [];
  }
}
