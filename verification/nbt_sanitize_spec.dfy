/**
  Why sanitizing is safe: the raw pass is `Clean` on trees, and a cleaned tree holds
  only allowed keys at every level of riders, keeps everything else as it was, and is
  left alone by a second pass.
 */
module NbtSanitizeSpec {
  import opened Bytes
  import opened NbtTree
  import opened NbtMeasure
  import opened NbtFields
  import opened NbtLists
  import opened NbtMerge
  import opened NbtSanitize

  // ----- the raw pass cleans the trees -----

  lemma {:induction false} RetainsKept(ns: seq<Named>)
    ensures Retained(Raw(ns)) == Raw(KeptFields(ns))
    decreases |ns|
  {
    hide Keeps, Encode;
    if ns != [] {
      RawCons(ns);
      assert Raw(ns)[1..] == Raw(ns[1..]);
      RetainsKept(ns[1..]);
      if Keeps(ns[0].name, Tag(ns[0].value)) {
        var kept := [ns[0]] + KeptFields(ns[1..]);
        RawCons(kept);
        assert kept[1..] == KeptFields(ns[1..]);
      }
    } else {
      assert Raw(ns) == [];
    }
  }

  predicate AllKept(ns: seq<Named>) {
    forall i :: 0 <= i < |ns| ==> Keeps(ns[i].name, Tag(ns[i].value))
  }

  lemma {:induction false} KeptShrinks(ns: seq<Named>, h: nat)
    requires Within(ns, h)
    ensures Within(KeptFields(ns), h) && AllKept(KeptFields(ns))
    ensures |EncodeFields(KeptFields(ns))| <= |EncodeFields(ns)|
    ensures Clean(KeptFields(ns)) == Clean(ns)
    decreases |ns|
  {
    hide Keeps, Wf, Height, EncodeField, CleanField;
    if ns != [] {
      assert Within(ns[1..], h);
      KeptShrinks(ns[1..], h);
      if Keeps(ns[0].name, Tag(ns[0].value)) {
        var kept := [ns[0]] + KeptFields(ns[1..]);
        assert kept[1..] == KeptFields(ns[1..]);
      }
    }
  }

  /** Sanitizing a compound's raw fields cleans its trees, or fails where that fails. */
  lemma {:induction false} SanitizesTrees(ns: seq<Named>)
    requires Sound(ns)
    ensures Sanitized(Raw(ns)).status.Ok? <==> Clean(ns).Some?
    ensures Clean(ns).Some? ==> Sanitized(Raw(ns)) == Edit(Raw(Clean(ns).value), Ok(())) && Sound(Clean(ns).value)
    ensures Clean(ns).Some? ==> HeightFields(Clean(ns).value) <= HeightFields(ns)
    decreases |EncodeFields(ns)|, 1
  {
    hide Keeps, Wf, Height, Encode, EncodeFields, Clean, PatchedFrom, Retained;
    var h := HeightFields(ns);
    var kept := KeptFields(ns);
    RetainsKept(ns);
    WithinIff(ns, h);
    KeptShrinks(ns, h);
    PatchesKept([], kept, h);
    assert [] + kept == kept;
    if Clean(ns).Some? {
      WithinIff(Clean(ns).value, h);
      assert [] + Clean(ns).value == Clean(ns).value;
    }
  }

  lemma {:induction false} PatchesKept(done: seq<Named>, todo: seq<Named>, h: nat)
    requires h <= MAX_DEPTH && Within(todo, h) && AllKept(todo)
    ensures PatchedFrom(Raw(done + todo), |done|).status.Ok? <==> Clean(todo).Some?
    ensures Clean(todo).Some? ==> PatchedFrom(Raw(done + todo), |done|) == Edit(Raw(done + Clean(todo).value), Ok(()))
    ensures Clean(todo).Some? ==> Within(Clean(todo).value, h)
    decreases |EncodeFields(todo)|, 0
  {
    hide Keeps, Wf, Height, Encode, CleanField, PatchedPayload, Passengers;
    if todo != [] {
      var n, rest := todo[0], todo[1..];
      assert Within(rest, h) && AllKept(rest);
      EncodedFieldsSize(todo);
      var all := Raw(done + todo);
      assert all[|done|] == RawField(n);
      if n.name == Passengers() {
        KeptRidersAreLists(n.name, Tag(n.value));
        PatchesField(n, h);
        if CleanField(n).Some? {
          PatchesNext(done, CleanField(n).value, todo, h);
        }
      } else {
        OtherFieldsStay(n);
        assert all[|done| := RawField(n)] == all;
        PatchesNext(done, n, todo, h);
      }
    } else {
      assert done + todo == done;
    }
  }

  lemma KeptRidersAreLists(name: seq<byte>, tag: byte)
    requires Keeps(name, tag) && name == Passengers()
    ensures tag == TAG_LIST
  {
    hide Allowed, Passengers;
  }

  lemma OtherFieldsStay(n: Named)
    requires n.name != Passengers()
    ensures CleanField(n) == Some(n)
  {
    hide Passengers;
  }

  lemma EncodedFieldsSize(ns: seq<Named>)
    requires ns != []
    ensures |EncodeFields(ns[1..])| < |EncodeFields(ns)| && |Encode(ns[0].value)| < |EncodeFields(ns)|
  {
    hide Encode, BigEndian;
  }

  /** The rest of the list, once its head has been patched to `head`. */
  lemma {:induction false} PatchesNext(done: seq<Named>, head: Named, todo: seq<Named>, h: nat)
    requires h <= MAX_DEPTH && Within(todo, h) && AllKept(todo) && todo != []
    ensures var rest := todo[1..];
      var next := PatchedFrom(Raw(done + todo)[|done| := RawField(head)], |done| + 1);
      (next.status.Ok? <==> Clean(rest).Some?)
      && (Clean(rest).Some? ==> next == Edit(Raw(done + ([head] + Clean(rest).value)), Ok(())) && Within(Clean(rest).value, h))
    decreases |EncodeFields(todo)|, 0, 0
  {
    hide Keeps, Wf, Height, Encode, Clean, PatchedFrom, EncodeFields;
    var rest := todo[1..];
    assert Within(rest, h) && AllKept(rest);
    EncodedFieldsSize(todo);
    PatchesKept(done + [head], rest, h);
    assert Raw(done + todo)[|done| := RawField(head)] == Raw((done + [head]) + rest);
    if Clean(rest).Some? {
      assert (done + [head]) + Clean(rest).value == done + ([head] + Clean(rest).value);
    }
  }

  lemma {:induction false} PatchesField(n: Named, h: nat)
    requires h <= MAX_DEPTH && |n.name| < TWO16 && Wf(n.value) && 1 + Height(n.value) <= h
    requires n.name == Passengers() && Tag(n.value) == TAG_LIST
    ensures PatchedPayload(Encode(n.value)).Ok? <==> CleanField(n).Some?
    ensures CleanField(n).Some? ==> var c := CleanField(n).value;
      PatchedPayload(Encode(n.value)) == Ok(Encode(c.value))
      && c.name == n.name && Tag(c.value) == TAG_LIST && Wf(c.value) && 1 + Height(c.value) <= h
    decreases |Encode(n.value)|, 3
  {
    hide Passengers, Encode, Wf, Height, SanitizedRiders, ListBytes, CompoundListFields, CleanItems;
    var t := n.value;
    TagNames(t);
    ListTree(t);
    SplitsList(t);
    if t.element == TAG_COMPOUND {
      SanitizesItems(t.items, |Encode(t)|, h);
      if CleanItems(t.items).Some? {
        var cleaned := CleanItems(t.items).value;
        WritesList(cleaned, SanitizedRiders(RawItems(t.items), |Encode(t)|).value);
        CleanedList(cleaned, h);
      }
    } else if t.items == [] {
      NoItems(|Encode(t)|);
      WritesList([], []);
      EncodeNoItems();
      CleanedList([], h);
    }
  }

  lemma CleanedList(items: seq<Tree>, h: nat)
    requires WfItems(items, TAG_COMPOUND) && |items| < 0x8000_0000 && 1 + HeightItems(items) <= h
    ensures var t := List(TAG_COMPOUND, |items|, items); Wf(t) && 1 + Height(t) <= h
  {
  }

  lemma WritesList(items: seq<Tree>, compounds: seq<seq<byte>>)
    requires WfItems(items, TAG_COMPOUND) && |compounds| == |items| < 0x8000_0000 && Written(compounds)
    requires forall i :: 0 <= i < |items| ==> compounds[i] == [TAG_COMPOUND] + Encode(items[i])
    ensures ListBytes(compounds) == Encode(List(TAG_COMPOUND, |items|, items))
  {
    hide BigEndian, ElementBytes, EncodeItems;
    WritesItems(items, compounds);
  }

  lemma {:induction false} SanitizesItems(items: seq<Tree>, bound: nat, h: nat)
    requires h <= MAX_DEPTH && WfItems(items, TAG_COMPOUND) && 1 + HeightItems(items) <= h
    requires forall i :: 0 <= i < |items| ==> PayloadBytes(RawItems(items)[i]) < bound
    ensures SanitizedRiders(RawItems(items), bound).Ok? <==> CleanItems(items).Some?
    ensures CleanItems(items).Some? ==> var cleaned := CleanItems(items).value;
      WfItems(cleaned, TAG_COMPOUND) && 1 + HeightItems(cleaned) <= h
      && forall i :: 0 <= i < |items| ==>
        SanitizedRiders(RawItems(items), bound).value[i] == [TAG_COMPOUND] + Encode(cleaned[i])
    decreases |EncodeItems(items)|, 2
  {
    hide Encode, Wf, Height, Clean, Sanitized, EncodeFields, Raw, CompoundBytes, HeightFields, SanitizedRiders, RawItems, CleanItems;
    if items == [] {
      NoItems(bound);
    } else {
      var t, rest := items[0], items[1..];
      CompoundTree(t);
      TailIsShorter(rest, t);
      SanitizesTrees(t.fields);
      RidersOfItems(items, bound);
      SanitizesItems(rest, bound, h);
      if Clean(t.fields).Some? && CleanItems(rest).Some? {
        var head := Compound(Clean(t.fields).value);
        CleanedCompound(Clean(t.fields).value);
        var cleaned := [head] + CleanItems(rest).value;
        assert cleaned[1..] == CleanItems(rest).value;
      }
    }
  }

  lemma NoItems(bound: nat)
    ensures RawItems([]) == [] && SanitizedRiders([], bound) == Ok([]) && CleanItems([]) == Some([])
  {
  }

  /** Riders are sanitized one after the other, as their trees are cleaned. */
  lemma RidersOfItems(items: seq<Tree>, bound: nat)
    requires items != [] && WfItems(items, TAG_COMPOUND)
    requires forall i :: 0 <= i < |items| ==> PayloadBytes(RawItems(items)[i]) < bound
    ensures items[0].Compound? && WfItems(items[1..], TAG_COMPOUND)
    ensures forall i :: 0 <= i < |items[1..]| ==> PayloadBytes(RawItems(items[1..])[i]) < bound
    ensures var head, rest := Sanitized(Raw(items[0].fields)), SanitizedRiders(RawItems(items[1..]), bound);
      SanitizedRiders(RawItems(items), bound) ==
        if head.status.Err? then Err(head.status.error)
        else if rest.Err? then rest
        else Ok([CompoundBytes(head.items)] + rest.value)
    ensures var head, rest := Clean(items[0].fields), CleanItems(items[1..]);
      CleanItems(items) == if head.Some? && rest.Some? then Some([Compound(head.value)] + rest.value) else None
  {
    hide Encode, Wf, Clean, Sanitized, EncodeFields, Raw, CompoundBytes, PayloadBytes;
    CompoundTree(items[0]);
    var raw := RawItems(items);
    assert raw[0] == Raw(items[0].fields) && raw[1..] == RawItems(items[1..]);
    assert forall i :: 0 <= i < |items[1..]| ==> raw[1..][i] == raw[i + 1];
  }

  lemma TailIsShorter(rest: seq<Tree>, t: Tree)
    requires Wf(t)
    ensures |Encode(t)| > 0
    ensures |Encode(t) + EncodeItems(rest)| > |EncodeItems(rest)|
  {
    hide EncodeItems;
    NbtLists.TreeTakesBytes(t);
  }

  lemma CleanedCompound(fields: seq<Named>)
    requires Sound(fields)
    ensures var t := Compound(fields);
      Wf(t) && Tag(t) == TAG_COMPOUND && Height(t) == HeightFields(fields) && CompoundBytes(Raw(fields)) == [TAG_COMPOUND] + Encode(t)
  {
    WritesEncoding(fields);
  }

  // ----- what cleaning guarantees -----

  /** Every key of the entity and of everything riding it is one a client may set, and
      what it rides with is a list of compounds. */
  predicate OnlyAllowed(ns: seq<Named>)
    decreases ns
  {
    forall i :: 0 <= i < |ns| ==>
      Allowed(ns[i].name)
      && (ns[i].name == Passengers() ==> ns[i].value.List? && RidersAllowed(ns[i].value))
  }

  predicate RidersAllowed(t: Tree)
    requires t.List?
    decreases t
  {
    t.element == TAG_COMPOUND
    && forall i :: 0 <= i < |t.items| ==> t.items[i].Compound? && OnlyAllowed(t.items[i].fields)
  }

  lemma {:induction false} CleanIsAllowed(ns: seq<Named>)
    requires Clean(ns).Some? && WfFields(ns)
    ensures OnlyAllowed(Clean(ns).value)
    decreases ns, 1
  {
    hide Allowed, Passengers, CleanField, Wf;
    if ns != [] {
      CleanIsAllowed(ns[1..]);
      if Keeps(ns[0].name, Tag(ns[0].value)) {
        FieldIsAllowed(ns[0]);
        var rest := Clean(ns[1..]).value;
        assert forall i :: 1 <= i < |Clean(ns).value| ==> Clean(ns).value[i] == rest[i - 1];
      }
    }
  }

  lemma {:induction false} FieldIsAllowed(n: Named)
    requires Keeps(n.name, Tag(n.value)) && Wf(n.value) && CleanField(n).Some?
    ensures var c := CleanField(n).value;
      Allowed(c.name) && c.name == n.name && (c.name == Passengers() ==> c.value.List? && RidersAllowed(c.value))
    decreases n
  {
    hide Allowed, Passengers, CleanItems;
    if n.name == Passengers() && n.value.element == TAG_COMPOUND {
      ItemsAreAllowed(n.value.items);
    }
  }

  lemma {:induction false} ItemsAreAllowed(items: seq<Tree>)
    requires CleanItems(items).Some? && WfItems(items, TAG_COMPOUND)
    ensures forall i :: 0 <= i < |items| ==>
      CleanItems(items).value[i].Compound? && OnlyAllowed(CleanItems(items).value[i].fields)
    decreases items, 0
  {
    hide OnlyAllowed, Clean;
    if items != [] {
      CompoundTree(items[0]);
      CleanIsAllowed(items[0].fields);
      ItemsAreAllowed(items[1..]);
    }
  }

  /** What is allowed throughout is left exactly as it is. */
  lemma {:induction false} AllowedStays(ns: seq<Named>)
    requires OnlyAllowed(ns) && WfFields(ns)
    ensures Clean(ns) == Some(ns)
    decreases ns, 1
  {
    hide Allowed, Passengers, CleanField, Wf;
    if ns != [] {
      assert forall i :: 0 <= i < |ns[1..]| ==> ns[1..][i] == ns[i + 1];
      AllowedStays(ns[1..]);
      AllowedFieldStays(ns[0]);
      assert ns == [ns[0]] + ns[1..];
    }
  }

  lemma {:induction false} AllowedFieldStays(n: Named)
    requires Allowed(n.name) && (n.name == Passengers() ==> n.value.List? && RidersAllowed(n.value)) && Wf(n.value)
    ensures Keeps(n.name, Tag(n.value)) && CleanField(n) == Some(n)
    decreases n
  {
    hide Allowed, Passengers, CleanItems;
    if n.name == Passengers() {
      AllowedItemsStay(n.value.items);
    }
  }

  lemma {:induction false} AllowedItemsStay(items: seq<Tree>)
    requires WfItems(items, TAG_COMPOUND)
    requires forall i :: 0 <= i < |items| ==> items[i].Compound? && OnlyAllowed(items[i].fields)
    ensures CleanItems(items) == Some(items)
    decreases items, 0
  {
    hide OnlyAllowed, Clean;
    if items != [] {
      CompoundTree(items[0]);
      AllowedStays(items[0].fields);
      AllowedItemsStay(items[1..]);
      assert items == [items[0]] + items[1..];
    }
  }

  /** The fields a client may set, riders aside, in order. */
  function Settable(ns: seq<Named>): seq<Named> {
    if ns == [] then []
    else (if Allowed(ns[0].name) && ns[0].name != Passengers() then [ns[0]] else []) + Settable(ns[1..])
  }

  lemma {:induction false} CleanKeepsSettable(ns: seq<Named>)
    requires Clean(ns).Some?
    ensures Settable(Clean(ns).value) == Settable(ns)
    decreases |ns|
  {
    hide Allowed, Passengers, CleanItems;
    if ns != [] {
      CleanKeepsSettable(ns[1..]);
      if Keeps(ns[0].name, Tag(ns[0].value)) {
        assert Clean(ns).value[1..] == Clean(ns[1..]).value;
      }
    }
  }

  /** A cleaned list mirrors what was kept of the original: the same fields in the same
      order, each as it was, except that rider lists hold a mirror of every rider. */
  predicate Mirrors(cleaned: seq<Named>, ns: seq<Named>)
    decreases cleaned, 1
  {
    var kept := KeptFields(ns);
    |cleaned| == |kept| && forall i :: 0 <= i < |cleaned| ==> FieldMirrors(cleaned[i], kept[i])
  }

  predicate FieldMirrors(c: Named, n: Named)
    decreases c
  {
    if n.name != Passengers() then c == n
    else
      c.name == n.name && c.value.List? && n.value.List? && |c.value.items| == |n.value.items|
      && forall j :: 0 <= j < |c.value.items| ==> RiderMirrors(c.value.items[j], n.value.items[j])
  }

  predicate RiderMirrors(c: Tree, n: Tree)
    decreases c
  {
    c.Compound? && n.Compound? && Mirrors(c.fields, n.fields)
  }

  /** Nothing a client may set is lost, at any level: every rider stays, in its place. */
  lemma {:induction false} CleanMirrors(ns: seq<Named>)
    requires Clean(ns).Some? && WfFields(ns)
    ensures Mirrors(Clean(ns).value, ns)
    decreases ns, 1
  {
    hide Allowed, Passengers, CleanField, Wf, FieldMirrors, Keeps;
    if ns != [] {
      CleanMirrors(ns[1..]);
      if Keeps(ns[0].name, Tag(ns[0].value)) {
        CleanFieldMirrors(ns[0]);
        var cleaned, kept := Clean(ns).value, KeptFields(ns);
        assert forall i :: 1 <= i < |cleaned| ==> cleaned[i] == Clean(ns[1..]).value[i - 1];
        assert forall i :: 1 <= i < |kept| ==> kept[i] == KeptFields(ns[1..])[i - 1];
      }
    }
  }

  lemma {:induction false} CleanFieldMirrors(n: Named)
    requires CleanField(n).Some? && Wf(n.value)
    ensures FieldMirrors(CleanField(n).value, n)
    decreases n
  {
    hide Passengers, CleanItems, Mirrors;
    if n.name == Passengers() && n.value.List? && n.value.element == TAG_COMPOUND {
      CleanItemsMirror(n.value.items);
    }
  }

  lemma {:induction false} CleanItemsMirror(items: seq<Tree>)
    requires CleanItems(items).Some? && WfItems(items, TAG_COMPOUND)
    ensures forall j :: 0 <= j < |items| ==> RiderMirrors(CleanItems(items).value[j], items[j])
    decreases items, 0
  {
    hide Mirrors, Clean;
    if items != [] {
      CompoundTree(items[0]);
      CleanMirrors(items[0].fields);
      CleanItemsMirror(items[1..]);
    }
  }

  /** Cleaning fails exactly when some rider list that would be kept, at some level,
      holds elements that are not compounds. */
  predicate Seatable(ns: seq<Named>)
    decreases ns, 1
  {
    forall i :: 0 <= i < |ns| && ns[i].name == Passengers() && ns[i].value.List? && Allowed(ns[i].name) ==>
      SeatableList(ns[i].value)
  }

  predicate SeatableList(t: Tree)
    requires t.List?
    decreases t
  {
    t.items != [] ==>
      t.element == TAG_COMPOUND
      && forall i :: 0 <= i < |t.items| && t.items[i].Compound? ==> Seatable(t.items[i].fields)
  }

  lemma {:induction false} CleansExactlySeatable(ns: seq<Named>)
    requires WfFields(ns)
    ensures Clean(ns).Some? <==> Seatable(ns)
    decreases ns, 1
  {
    hide Allowed, Passengers, CleanField, Wf, SeatableList;
    if ns != [] {
      CleansExactlySeatable(ns[1..]);
      FieldSeatable(ns[0]);
      assert forall i :: 0 <= i < |ns[1..]| ==> ns[1..][i] == ns[i + 1];
      assert forall i :: 1 <= i < |ns| ==> ns[i] == ns[1..][i - 1];
      TagNames(ns[0].value);
    }
  }

  lemma {:induction false} FieldSeatable(n: Named)
    requires Wf(n.value)
    ensures Keeps(n.name, Tag(n.value)) ==>
      (CleanField(n).Some? <==> (n.name == Passengers() ==> n.value.List? && SeatableList(n.value)))
    decreases n
  {
    hide Allowed, Passengers, CleanItems;
    if n.name == Passengers() && n.value.List? {
      if n.value.element == TAG_COMPOUND {
        ItemsSeatable(n.value.items);
      }
    }
  }

  lemma {:induction false} ItemsSeatable(items: seq<Tree>)
    requires WfItems(items, TAG_COMPOUND)
    ensures CleanItems(items).Some?
       <==> forall i :: 0 <= i < |items| && items[i].Compound? ==> Seatable(items[i].fields)
    decreases items, 0
  {
    hide Seatable, Clean;
    if items != [] {
      CompoundTree(items[0]);
      CleansExactlySeatable(items[0].fields);
      ItemsSeatable(items[1..]);
      assert forall i :: 0 <= i < |items[1..]| ==> items[1..][i] == items[i + 1];
      assert forall i :: 1 <= i < |items| ==> items[i] == items[1..][i - 1];
    }
  }
}
