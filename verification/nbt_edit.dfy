/**
  What an entity edit does, key by key: every field a client may set becomes what the client
  asks for, merged where both sides are compounds, and every other field stays.
 */
module NbtEdit {
  import opened Bytes
  import opened NbtTree
  import opened NbtFields
  import opened NbtMerge
  import opened NbtMergeSpec
  import opened NbtSanitize
  import opened NbtSanitizeSpec
  import opened NbtEntity

  /** What a change makes of the value under its name. */
  function Changed(mine: Option<Tree>, change: Option<Tree>): Option<Tree> {
    match change
    case None => mine
    case Some(v) =>
      if v == Compound([]) then None
      else if v.Compound? && mine.Some? && mine.value.Compound? then
        Some(Compound(MergeSpec(mine.value.fields, v.fields)))
      else Some(v)
  }

  // ----- looking a key up in a merge -----

  lemma {:induction false} LookupConcat(a: seq<Named>, b: seq<Named>, name: seq<byte>)
    ensures Lookup(a + b, name) == if Lookup(a, name).Some? then Lookup(a, name) else Lookup(b, name)
    decreases |a|
  {
    hide Lookup;
    if a == [] {
      assert a + b == b;
      LookupNothing(name);
    } else {
      assert a + b == [a[0]] + (a[1..] + b) && a == [a[0]] + a[1..];
      LookupCons(a[0], a[1..] + b, name);
      LookupCons(a[0], a[1..], name);
      LookupConcat(a[1..], b, name);
    }
  }

  lemma LookupNothing(name: seq<byte>)
    ensures Lookup([], name) == None
  {
  }

  lemma {:induction false} LookupKept(left: seq<Named>, right: seq<Named>, name: seq<byte>)
    requires Distinct(left)
    ensures Lookup(Kept(left, right), name)
         == if Lookup(left, name).None? then None else Changed(Lookup(left, name), Lookup(right, name))
    decreases |left|
  {
    hide Lookup, MergeSpec;
    if left == [] {
      LookupNothing(name);
    } else {
      var one, rest := KeptOne(left[0], Lookup(right, left[0].name)), Kept(left[1..], right);
      assert left == [left[0]] + left[1..];
      LookupCons(left[0], left[1..], name);
      LookupKept(left[1..], right, name);
      LookupConcat(one, rest, name);
      LookupAtMostOne(one, name);
      if left[0].name == name { OthersHaveOtherNames(left, name); }
    }
  }

  lemma LookupAtMostOne(one: seq<Named>, name: seq<byte>)
    requires |one| <= 1
    ensures Lookup(one, name) == if one != [] && one[0].name == name then Some(one[0].value) else None
  {
  }

  lemma OthersHaveOtherNames(ns: seq<Named>, name: seq<byte>)
    requires Distinct(ns) && ns != [] && ns[0].name == name
    ensures Lookup(ns[1..], name) == None
  {
    hide Find;
  }

  lemma {:induction false} LookupAdded(left: seq<Named>, right: seq<Named>, name: seq<byte>)
    requires Distinct(right)
    ensures Lookup(Added(left, right), name)
         == if Lookup(left, name).Some? || Lookup(right, name) == Some(Compound([])) then None else Lookup(right, name)
    decreases |right|
  {
    hide Lookup, Has;
    if right == [] {
      LookupNothing(name);
    } else {
      assert right == [right[0]] + right[1..];
      LookupCons(right[0], right[1..], name);
      LookupAdded(left, right[1..], name);
      LookupConcat(AddedOne(left, right[0]), Added(left, right[1..]), name);
      LookupAtMostOne(AddedOne(left, right[0]), name);
      LookupFindsHeld(left, right[0].name);
      if right[0].name == name { OthersHaveOtherNames(right, name); }
    }
  }

  lemma LookupFindsHeld(ns: seq<Named>, name: seq<byte>)
    ensures Lookup(ns, name).Some? <==> Has(ns, name)
  {
    hide Find;
  }

  /** A merge holds under any key what the right side makes of the left side's value. */
  lemma LookupMerged(left: seq<Named>, right: seq<Named>, name: seq<byte>)
    requires Distinct(left) && Distinct(right)
    ensures Lookup(MergeSpec(left, right), name) == Changed(Lookup(left, name), Lookup(right, name))
  {
    hide Lookup, Distinct, Kept, Added;
    LookupKept(left, right, name);
    LookupAdded(left, right, name);
    LookupConcat(Kept(left, right), Added(left, right), name);
  }

  // ----- what is left of what a client asks for -----

  lemma {:induction false} LookupClean(ns: seq<Named>, name: seq<byte>)
    requires Clean(ns).Some? && name != Passengers()
    ensures Lookup(Clean(ns).value, name) == if Allowed(name) then Lookup(ns, name) else None
    decreases |ns|
  {
    hide Lookup, Allowed, Passengers, CleanItems;
    if ns == [] {
      LookupNothing(name);
    } else {
      assert ns == [ns[0]] + ns[1..];
      LookupCons(ns[0], ns[1..], name);
      LookupClean(ns[1..], name);
      if Keeps(ns[0].name, Tag(ns[0].value)) {
        LookupCons(CleanField(ns[0]).value, Clean(ns[1..]).value, name);
      }
    }
  }

  lemma {:induction false} LookupWithoutPos(ns: seq<Named>, name: seq<byte>)
    ensures Lookup(TreesWithoutPos(ns), name) == if name == Pos() then None else Lookup(ns, name)
    decreases |ns|
  {
    hide Lookup, Pos;
    if ns == [] {
      LookupNothing(name);
    } else {
      var rest := TreesWithoutPos(ns[1..]);
      assert ns == [ns[0]] + ns[1..];
      LookupCons(ns[0], ns[1..], name);
      LookupCons(ns[0], rest, name);
      LookupWithoutPos(ns[1..], name);
      assert [] + rest == rest;
    }
  }

  /** Names stay unique when fields go, or give way to lists. */
  ghost predicate Lesser(fewer: seq<Named>, ns: seq<Named>) {
    (forall name :: Has(fewer, name) ==> Has(ns, name)) && (UniqueNames(ns) ==> UniqueNames(fewer))
  }

  lemma UniqueCons(n: Named, rest: seq<Named>)
    ensures UniqueNames([n] + rest)
       <==> !Has(rest, n.name) && UniqueNames(rest) && (n.value.Compound? ==> UniqueNames(n.value.fields))
    ensures forall name :: Has([n] + rest, name) <==> n.name == name || Has(rest, name)
  {
    var ns := [n] + rest;
    assert forall i :: 0 <= i < |rest| ==> ns[i + 1] == rest[i];
    assert forall i :: 1 <= i < |ns| ==> rest[i - 1] == ns[i];
    assert ns[0] == n;
  }

  lemma KeepsLesser(n: Named, c: Named, rest: seq<Named>, fewer: seq<Named>)
    requires Lesser(fewer, rest) && c.name == n.name && (c == n || !c.value.Compound?)
    ensures Lesser([c] + fewer, [n] + rest)
  {
    hide UniqueNames, Has;
    UniqueCons(n, rest);
    UniqueCons(c, fewer);
  }

  lemma DropsLesser(n: Named, rest: seq<Named>, fewer: seq<Named>)
    requires Lesser(fewer, rest)
    ensures Lesser(fewer, [n] + rest)
  {
    hide UniqueNames, Has;
    UniqueCons(n, rest);
  }

  lemma {:induction false} CleanIsLesser(ns: seq<Named>)
    requires Clean(ns).Some?
    ensures Lesser(Clean(ns).value, ns)
    decreases |ns|
  {
    hide Lesser, Allowed, Passengers, CleanItems;
    if ns == [] {
      NothingIsLesser();
    } else {
      assert ns == [ns[0]] + ns[1..];
      CleanIsLesser(ns[1..]);
      if Keeps(ns[0].name, Tag(ns[0].value)) {
        KeepsLesser(ns[0], CleanField(ns[0]).value, ns[1..], Clean(ns[1..]).value);
      } else {
        DropsLesser(ns[0], ns[1..], Clean(ns[1..]).value);
      }
    }
  }

  lemma NothingIsLesser()
    ensures Lesser([], [])
  {
  }

  lemma {:induction false} WithoutPosIsLesser(ns: seq<Named>)
    ensures Lesser(TreesWithoutPos(ns), ns)
    decreases |ns|
  {
    hide Lesser, Pos;
    if ns == [] {
      NothingIsLesser();
    } else {
      var rest := TreesWithoutPos(ns[1..]);
      assert ns == [ns[0]] + ns[1..] && [] + rest == rest;
      WithoutPosIsLesser(ns[1..]);
      KeepsLesser(ns[0], ns[0], ns[1..], rest);
      DropsLesser(ns[0], ns[1..], rest);
    }
  }

  lemma CleanedStaysUnique(ns: seq<Named>)
    requires Clean(ns).Some? && UniqueNames(ns)
    ensures UniqueNames(TreesWithoutPos(Clean(ns).value))
  {
    hide UniqueNames, Clean, TreesWithoutPos;
    CleanIsLesser(ns);
    WithoutPosIsLesser(Clean(ns).value);
  }

  // ----- the edit -----

  /** What is left of a change once it is sanitized and the position dropped. */
  function Permitted(asked: seq<Named>): seq<Named> {
    match Clean(asked)
    case None => []
    case Some(cleaned) => TreesWithoutPos(cleaned)
  }

  /** A tag that reads as the fields of these trees; `TreesOfCompound` has them for any tag
      that reads at all. */
  predicate ReadsAs(tag: seq<byte>, ns: seq<Named>) {
    Sound(ns) && CompoundFields(tag) == Ok(Raw(ns))
  }

  /** What an edit is: the entity's trees merged with what is left of the change.  Once both
      tags read, it goes through exactly if no list of riders in the change, at any level,
      holds what is not a compound. */
  lemma EditMerges(change: seq<byte>, current: seq<byte>, asked: seq<Named>, before: seq<Named>)
    requires ReadsAs(change, asked) && ReadsAs(current, before)
    ensures EditedEntity(change, current).Ok? <==> Seatable(asked)
    ensures Clean(asked).Some? <==> Seatable(asked)
    ensures EditedEntity(change, current).Ok? ==>
      ReadsAs(EditedEntity(change, current).value, MergeTrees(before, Permitted(asked)))
  {
    hide CompoundFields, CompoundBytes, Wf, Height, Encode, Clean, Sanitized, MergedInto, MergeTrees, Pos, Seatable,
      TreesWithoutPos, WithoutPos;
    CleansExactlySeatable(asked);
    SanitizesTrees(asked);
    if Clean(asked).Some? {
      var cleaned := Clean(asked).value;
      var right := TreesWithoutPos(cleaned);
      WithinIff(cleaned, MAX_DEPTH);
      DropsPos(cleaned);
      KeepsOthers(cleaned);
      FewerStayWithin(cleaned, right, MAX_DEPTH);
      WithinIff(right, MAX_DEPTH);
      MergesTrees(before, right);
      WithinIff(before, MAX_DEPTH);
      MergeStaysWithin(before, right, MAX_DEPTH);
      WithinIff(MergeTrees(before, right), MAX_DEPTH);
      CompoundOfTrees(MergeTrees(before, right));
    }
  }

  /** Key by key, where names are unique: what the client asks for under a name it may set
      takes effect, and every other name keeps its value.  Riders take effect as sanitizing
      leaves them. */
  lemma EditTakesEffect(
    change: seq<byte>, current: seq<byte>, asked: seq<Named>, before: seq<Named>, name: seq<byte>)
    returns (after: seq<Named>)
    requires ReadsAs(change, asked) && ReadsAs(current, before) && EditedEntity(change, current).Ok?
    requires UniqueNames(asked) && UniqueNames(before)
    ensures ReadsAs(EditedEntity(change, current).value, after) && UniqueNames(after)
    ensures name != Passengers() ==>
      Lookup(after, name)
        == Changed(Lookup(before, name), if Allowed(name) && name != Pos() then Lookup(asked, name) else None)
    ensures name == Passengers() ==>
      Clean(asked).Some? && Lookup(after, name) == Changed(Lookup(before, name), Lookup(Clean(asked).value, name))
  {
    hide CompoundFields, Clean, Sanitized, MergedInto, MergeTrees, MergeSpec, Pos, Seatable, TreesWithoutPos, WithoutPos, Lookup,
      Allowed, UniqueNames, Distinct, Changed, Passengers;
    EditMerges(change, current, asked, before);
    var right := TreesWithoutPos(Clean(asked).value);
    after := MergeTrees(before, right);
    CleanedStaysUnique(asked);
    MergeMeaning(before, right);
    MergeKeepsUnique(before, right);
    TopNamesDistinct(before);
    TopNamesDistinct(right);
    LookupMerged(before, right, name);
    LookupWithoutPos(Clean(asked).value, name);
    if name != Passengers() { LookupClean(asked, name); }
    PassengersAreNoPos();
  }

  lemma PassengersAreNoPos()
    ensures Passengers() != Pos()
  {
    assert |Passengers()| != |Pos()|;
  }
}
