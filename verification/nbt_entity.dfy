/**
  The edits on the bytes of a tag, from reading to writing: what merging and sanitizing
  promise of what goes back into the world, and what an entity edit cannot touch.
 */
module NbtEntity {
  import opened Bytes
  import opened NbtTree
  import opened NbtFields
  import opened NbtMerge
  import opened NbtMergeSpec
  import opened NbtSanitize
  import opened NbtSanitizeSpec

  /** Any two compounds that read merge without failing; the written result reads again
      as the merge of their trees, no deeper than the deeper of them, and with names
      unique in both it is the key-by-key merge. */
  lemma MergeOnBytes(left: seq<byte>, right: seq<byte>) returns (l: seq<Named>, r: seq<Named>)
    requires CompoundFields(left).Ok? && CompoundFields(right).Ok?
    ensures CompoundFields(left) == Ok(Raw(l)) && CompoundFields(right) == Ok(Raw(r))
    ensures MergedInto(Raw(l), Raw(r)) == Edit(Raw(MergeTrees(l, r)), Ok(()))
    ensures CompoundFields(CompoundBytes(Raw(MergeTrees(l, r)))) == Ok(Raw(MergeTrees(l, r)))
    ensures HeightFields(MergeTrees(l, r)) <= Max(HeightFields(l), HeightFields(r))
    ensures UniqueNames(l) && UniqueNames(r) ==> MergeTrees(l, r) == MergeSpec(l, r) && UniqueNames(MergeTrees(l, r))
  {
    hide CompoundFields, CompoundBytes, Wf, Height, Encode, MergeTrees, MergeSpec, UniqueNames;
    l := TreesOfCompound(left);
    r := TreesOfCompound(right);
    MergesTrees(l, r);
    var h := Max(HeightFields(l), HeightFields(r));
    WithinIff(l, h);
    WithinIff(r, h);
    MergeStaysWithin(l, r, h);
    WithinIff(MergeTrees(l, r), h);
    CompoundOfTrees(MergeTrees(l, r));
    if UniqueNames(l) && UniqueNames(r) {
      MergeMeaning(l, r);
      MergeKeepsUnique(l, r);
    }
  }

  /** A sanitized tag holds only allowed keys at every level, keeps the other settable
      fields in order, is no deeper, reads again, and a second pass leaves it alone. */
  lemma SanitizeOnBytes(tag: seq<byte>) returns (ns: seq<Named>, cleaned: seq<Named>)
    requires CompoundFields(tag).Ok? && Sanitized(CompoundFields(tag).value).status.Ok?
    ensures CompoundFields(tag) == Ok(Raw(ns)) && Sanitized(Raw(ns)) == Edit(Raw(cleaned), Ok(()))
    ensures Sound(cleaned) && OnlyAllowed(cleaned) && Settable(cleaned) == Settable(ns) && Mirrors(cleaned, ns)
    ensures HeightFields(cleaned) <= HeightFields(ns)
    ensures CompoundFields(CompoundBytes(Raw(cleaned))) == Ok(Raw(cleaned))
    ensures Sanitized(Raw(cleaned)) == Edit(Raw(cleaned), Ok(()))
  {
    hide CompoundFields, CompoundBytes, Wf, Height, Encode, Clean, Sanitized, OnlyAllowed, Allowed, Settable, Mirrors;
    ns := TreesOfCompound(tag);
    SanitizesTrees(ns);
    cleaned := Clean(ns).value;
    CleanIsAllowed(ns);
    CleanKeepsSettable(ns);
    CleanMirrors(ns);
    CompoundOfTrees(cleaned);
    AllowedStays(cleaned);
    SanitizesTrees(cleaned);
  }

  // ----- an entity edit -----

  function Pos(): seq<byte> { Ascii("Pos") }

  function WithoutPos(fields: seq<Field>): seq<Field> {
    if fields == [] then []
    else (if fields[0].name != Pos() then [fields[0]] else []) + WithoutPos(fields[1..])
  }

  /** The tag an edit writes back to an entity, from the change a client sent and the
      tag the entity has.  The steps run in the source's order: the change is read and
      sanitized before the entity's own tag is looked at. */
  function EditedEntity(change: seq<byte>, current: seq<byte>): Result<seq<byte>> {
    var changes :- CompoundFields(change);
    var sanitized := Sanitized(changes);
    if sanitized.status.Err? then Err(sanitized.status.error)
    else
      var fields :- CompoundFields(current);
      var merged := MergedInto(fields, WithoutPos(sanitized.items));
      if merged.status.Err? then Err(merged.status.error) else Ok(CompoundBytes(merged.items))
  }

  function TreesWithoutPos(ns: seq<Named>): seq<Named> {
    if ns == [] then []
    else (if ns[0].name != Pos() then [ns[0]] else []) + TreesWithoutPos(ns[1..])
  }

  lemma {:induction false} DropsPos(ns: seq<Named>)
    ensures WithoutPos(Raw(ns)) == Raw(TreesWithoutPos(ns))
    decreases |ns|
  {
    hide Encode, Pos, Raw, RawField;
    if ns == [] {
      assert Raw(ns) == [];
    } else {
      var rest := TreesWithoutPos(ns[1..]);
      RawStep(ns[0], ns[1..]);
      RawStep(ns[0], rest);
      assert [ns[0]] + ns[1..] == ns;
      DropsPos(ns[1..]);
      assert [] + rest == rest && [] + WithoutPos(Raw(ns[1..])) == WithoutPos(Raw(ns[1..]));
    }
  }

  lemma {:induction false} KeepsOthers(ns: seq<Named>)
    ensures forall f :: f in TreesWithoutPos(ns) ==> f in ns && f.name != Pos()
    decreases |ns|
  {
    hide Pos;
    if ns != [] { KeepsOthers(ns[1..]); }
  }

  lemma FewerStayWithin(ns: seq<Named>, fewer: seq<Named>, h: nat)
    requires Within(ns, h) && forall f :: f in fewer ==> f in ns
    ensures Within(fewer, h)
  {
    hide Wf, Height;
    forall i | 0 <= i < |fewer|
      ensures |fewer[i].name| < TWO16 && Wf(fewer[i].value) && 1 + Height(fewer[i].value) <= h
    {
      assert fewer[i] in ns;
      var k :| 0 <= k < |ns| && ns[k] == fewer[i];
    }
  }

  lemma RawStep(n: Named, rest: seq<Named>)
    ensures var raw := Raw([n] + rest);
      |raw| > 0 && raw[0].name == n.name && raw[1..] == Raw(rest) && raw == [raw[0]] + Raw(rest) && raw[0] == RawField(n)
  {
    RawCons([n] + rest);
    assert ([n] + rest)[1..] == rest;
  }

  /** The fields under names that a change does not hold, in order. */
  function Others(ns: seq<Named>, right: seq<Named>): seq<Named> {
    if ns == [] then [] else (if Has(right, ns[0].name) then [] else [ns[0]]) + Others(ns[1..], right)
  }

  lemma {:induction false} OthersConcat(a: seq<Named>, b: seq<Named>, right: seq<Named>)
    ensures Others(a + b, right) == Others(a, right) + Others(b, right)
    decreases |a|
  {
    hide Has;
    if a == [] {
      assert a + b == b;
    } else {
      assert (a + b)[1..] == a[1..] + b;
      OthersConcat(a[1..], b, right);
    }
  }

  /** A change leaves every field it does not name as it was: repeated names, their values
      and the order of all of them included. */
  lemma MergeLeavesOthers(left: seq<Named>, right: seq<Named>)
    ensures Others(MergeTrees(left, right), right) == Others(left, right)
  {
    ChangesLeaveOthers(left, right, right);
  }

  lemma {:induction false} ChangesLeaveOthers(left: seq<Named>, part: seq<Named>, right: seq<Named>)
    requires forall i :: 0 <= i < |part| ==> Has(right, part[i].name)
    ensures Others(MergeTrees(left, part), right) == Others(left, right)
    decreases |part|
  {
    hide MergeOne, Has;
    if part != [] {
      OneChangeLeavesOthers(left, part[0], right);
      ChangesLeaveOthers(MergeOne(left, part[0]), part[1..], right);
    }
  }

  lemma OneChangeLeavesOthers(left: seq<Named>, change: Named, right: seq<Named>)
    requires Has(right, change.name)
    ensures Others(MergeOne(left, change), right) == Others(left, right)
  {
    hide Has, Others, MergeOne;
    var at := Find(left, change.name);
    var before, after := left[..at], if at < |left| then left[at + 1..] else [];
    var mine, yours := MergeOneAround(left, change);
    OthersConcat(before, mine + after, right);
    OthersConcat(before, yours + after, right);
    OthersConcat(mine, after, right);
    OthersConcat(yours, after, right);
    NamedIsNoOther(mine, change.name, right);
    NamedIsNoOther(yours, change.name, right);
  }

  /** One change touches at most one field, of its own name. */
  lemma MergeOneAround(left: seq<Named>, change: Named) returns (mine: seq<Named>, yours: seq<Named>)
    ensures var at := Find(left, change.name);
      var before, after := left[..at], if at < |left| then left[at + 1..] else [];
      left == before + (mine + after) && MergeOne(left, change) == before + (yours + after)
    ensures |mine| <= 1 && |yours| <= 1
    ensures forall f :: f in mine || f in yours ==> f.name == change.name
  {
    hide MergeTrees, Find, Remove, PutAt;
    var at := Find(left, change.name);
    var merged := if at < |left| && change.value.Compound? && left[at].value.Compound?
      then Named(left[at].name, Compound(MergeTrees(left[at].value.fields, change.value.fields)))
      else change;
    EditsAround(left, at, merged);
    mine := left[at..][..if at < |left| then 1 else 0];
    yours := if change.value == Compound([]) then [] else [merged];
  }

  lemma EditsAround<T>(s: seq<T>, at: nat, x: T)
    requires at <= |s|
    ensures var before, after := s[..at], if at < |s| then s[at + 1..] else [];
      && s == before + (s[at..][..if at < |s| then 1 else 0] + after)
      && Remove(s, at) == before + ([] + after)
      && PutAt(s, at, x) == before + ([x] + after)
      && (at < |s| ==> s[at := x] == before + ([x] + after))
  {
  }

  lemma NamedIsNoOther(ns: seq<Named>, name: seq<byte>, right: seq<Named>)
    requires |ns| <= 1 && (forall f :: f in ns ==> f.name == name) && Has(right, name)
    ensures Others(ns, right) == []
  {
    hide Has;
    if ns != [] {
      assert ns[0] in ns && ns == [ns[0]];
      assert Others(ns[1..], right) == [];
    }
  }

  /** Names a client has no say over: off the allow-list, or the entity's position. */
  predicate IsProtected(name: seq<byte>) { !Allowed(name) || name == Pos() }

  /** The fields under such names, in order. */
  function Protected(ns: seq<Named>): seq<Named> {
    if ns == [] then [] else (if IsProtected(ns[0].name) then [ns[0]] else []) + Protected(ns[1..])
  }

  lemma {:induction false} ProtectedAreOthers(ns: seq<Named>, right: seq<Named>)
    requires forall i :: 0 <= i < |right| ==> !IsProtected(right[i].name)
    ensures Protected(Others(ns, right)) == Protected(ns)
    decreases |ns|
  {
    hide IsProtected, Has, Protected;
    if ns != [] {
      ProtectedAreOthers(ns[1..], right);
      var rest := Others(ns[1..], right);
      assert ns == [ns[0]] + ns[1..];
      ProtectedCons(ns[0], ns[1..]);
      ProtectedCons(ns[0], rest);
      if Has(right, ns[0].name) {
        HeldIsUnprotected(right, ns[0].name);
        assert Others(ns, right) == rest;
      }
    }
  }

  lemma ProtectedCons(n: Named, rest: seq<Named>)
    ensures Protected([n] + rest) == if IsProtected(n.name) then [n] + Protected(rest) else Protected(rest)
  {
    hide IsProtected;
    assert ([n] + rest)[1..] == rest;
  }

  lemma HeldIsUnprotected(right: seq<Named>, name: seq<byte>)
    requires Has(right, name) && forall i :: 0 <= i < |right| ==> !IsProtected(right[i].name)
    ensures !IsProtected(name)
  {
    hide IsProtected;
  }

  /** Whatever a client sends, an entity edit that goes through leaves all the fields off
      the allow-list, and the entity's position, exactly as they were and in their order;
      and what it writes can be read again. */
  lemma EditCannotTouch(change: seq<byte>, current: seq<byte>)
    returns (before: seq<Named>, after: seq<Named>)
    requires EditedEntity(change, current).Ok?
    ensures CompoundFields(current) == Ok(Raw(before))
    ensures CompoundFields(EditedEntity(change, current).value) == Ok(Raw(after))
    ensures Protected(after) == Protected(before)
  {
    hide CompoundFields, CompoundBytes, Wf, Height, Encode, Sanitized, OnlyAllowed, Allowed, MergedInto, MergeTrees, Pos,
      Settable, Mirrors, UniqueNames, TreesWithoutPos, WithoutPos, Others, Protected, IsProtected;
    var _, cleaned := SanitizeOnBytes(change);
    before := TreesOfCompound(current);
    WithinIff(cleaned, MAX_DEPTH);
    DropsPos(cleaned);
    KeepsOthers(cleaned);
    var right := TreesWithoutPos(cleaned);
    FewerStayWithin(cleaned, right, MAX_DEPTH);
    WithinIff(right, MAX_DEPTH);
    MergesTrees(before, right);
    after := MergeTrees(before, right);
    WithinIff(before, MAX_DEPTH);
    MergeStaysWithin(before, right, MAX_DEPTH);
    WithinIff(after, MAX_DEPTH);
    CompoundOfTrees(after);
    ChangesAreAllowed(cleaned, right);
    MergeLeavesOthers(before, right);
    ProtectedAreOthers(before, right);
    ProtectedAreOthers(after, right);
  }

  lemma ChangesAreAllowed(cleaned: seq<Named>, right: seq<Named>)
    requires OnlyAllowed(cleaned)
    requires forall f :: f in right ==> f in cleaned && f.name != Pos()
    ensures forall i :: 0 <= i < |right| ==> !IsProtected(right[i].name)
  {
    hide Allowed, Pos, Passengers;
    forall i | 0 <= i < |right|
      ensures !IsProtected(right[i].name)
    {
      assert right[i].name != Pos() && right[i] in cleaned;
      var k :| 0 <= k < |cleaned| && cleaned[k] == right[i];
      assert Allowed(cleaned[k].name);
    }
  }
}
