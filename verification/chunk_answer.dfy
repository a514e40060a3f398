/**
  The answer to a chunk request, from what the world holds to what a client has when the
  last payload is in: every compound that was found and every section with few enough ids,
  and nothing else.
 */
module ChunkAnswers {
  import opened Bytes
  import opened Buf
  import opened Palette
  import opened NbtRoots
  import opened ZstdRaw
  import opened ChunkResponses
  import opened ChunkClient

  // ----- what an answer must hold -----

  predicate Ascending(at: seq<nat>, n: nat) {
    (forall k :: 0 <= k < |at| ==> at[k] < n) && forall j, k :: 0 <= j < k < |at| ==> at[j] < at[k]
  }

  /** The places of what is to be kept, in order. */
  predicate Places(at: seq<nat>, keep: seq<bool>) {
    Ascending(at, |keep|) && forall i :: 0 <= i < |keep| ==> (i in at <==> keep[i])
  }

  lemma OneMorePlace(at: seq<nat>, keep: seq<bool>, kept: bool)
    requires Places(at, keep)
    ensures Places(if kept then at + [|keep|] else at, keep + [kept])
  {
    var more: seq<nat> := if kept then at + [|keep|] else at;
    var n := |keep|;
    assert forall i :: 0 <= i < n ==> (i in more <==> i in at);
    assert n in more <==> kept;
  }

  function WithFewIds(ss: seq<SectionEntry>): seq<bool> {
    seq(|ss|, i requires 0 <= i < |ss| => HasFewIds(ss[i]))
  }

  function Compounds(found: seq<Found>): seq<bool> {
    seq(|found|, i requires 0 <= i < |found| => IsCompound(found[i].nbt))
  }

  /** A section without blocks, or of at most 256 different ids. */
  predicate HasFewIds(s: SectionEntry) { s.entries.Some? ==> |Ids(s.entries.value)| <= 256 }

  /** The sections picked are those requested at these places: every one with few ids and
      no other. */
  predicate PickedSections(picked: seq<SectionEntry>, requested: seq<SectionEntry>, at: seq<nat>) {
    && Places(at, WithFewIds(requested)) && |at| == |picked|
    && forall k :: 0 <= k < |at| ==> picked[k] == requested[at[k]]
  }

  predicate IsCompound(nbt: seq<byte>) { nbt != [] && nbt[0] == 10 }

  /** An entry under the key of what was found, with the size of its named form, and a frame
      from which the document can be had back. */
  predicate Carries(e: EntityEntry, f: Found) {
    && e.key == f.key && e.size == |f.nbt| + 2 && e.dictionary == 0 && |e.compressed| == FrameSize(e.size)
    && (e.size < TWO32 ==>
          match DecodeFrame(e.compressed)
          case None => false
          case Some(named) => |named| == e.size && UnnamedRoot(named) == Some(f.nbt))
  }

  /** The entries picked carry what was found at these places: every compound, nothing else. */
  predicate PickedEntities(picked: seq<EntityEntry>, found: seq<Found>, at: seq<nat>) {
    && Places(at, Compounds(found)) && |at| == |picked|
    && forall k :: 0 <= k < |at| ==> Carries(picked[k], found[at[k]])
  }

  /** A complete answer: all that was found and fits, in order. */
  ghost predicate Delivers(got: Option<Collection>, found: seq<Found>, requested: seq<SectionEntry>) {
    && got.Some? && got.value.complete
    && (exists at :: PickedEntities(got.value.entities, found, at))
    && exists at :: PickedSections(got.value.sections, requested, at)
  }

  /** No key that is sent is the sentinel, and no document makes a frame of 2 GiB. */
  predicate KeysAndLengthsFit(found: seq<Found>, requested: seq<SectionEntry>) {
    && (forall i :: 0 <= i < |found| && IsCompound(found[i].nbt) ==>
          found[i].key != MIN_POSITION_LONG && FrameSize(|found[i].nbt| + 2) < 0x8000_0000)
    && forall i :: 0 <= i < |requested| && HasFewIds(requested[i]) ==> requested[i].key != MIN_POSITION_LONG
  }

  lemma {:induction false} ServableIsPicked(requested: seq<SectionEntry>) returns (at: seq<nat>)
    ensures PickedSections(Servable(requested), requested, at)
    decreases |requested|
  {
    hide HasFewIds, Fits, PickedSections;
    if requested == [] {
      at := [];
      NothingPicked();
    } else {
      var n := |requested| - 1;
      var before := ServableIsPicked(requested[..n]);
      FewIdsFit(requested[n]);
      OneMoreSection(Servable(requested[..n]), requested, before);
      at := if HasFewIds(requested[n]) then before + [n] else before;
    }
  }

  lemma NothingPicked()
    ensures PickedSections([], [], []) && PickedEntities([], [], [])
  {
  }

  lemma OneMoreSection(picked: seq<SectionEntry>, requested: seq<SectionEntry>, at: seq<nat>)
    requires requested != [] && PickedSections(picked, requested[..|requested| - 1], at)
    ensures var n := |requested| - 1;
      if HasFewIds(requested[n]) then PickedSections(picked + [requested[n]], requested, at + [n])
      else PickedSections(picked + [], requested, at)
  {
    hide HasFewIds, Ascending;
    var n := |requested| - 1;
    OneMorePlace(at, WithFewIds(requested[..n]), HasFewIds(requested[n]));
    assert WithFewIds(requested) == WithFewIds(requested[..n]) + [HasFewIds(requested[n])];
    PlacesFit(at, WithFewIds(requested[..n]));
    assert picked + [] == picked;
  }

  lemma PlacesFit(at: seq<nat>, keep: seq<bool>)
    requires Places(at, keep)
    ensures forall k :: 0 <= k < |at| ==> at[k] < |keep|
  {
  }

  lemma FewIdsFit(s: SectionEntry)
    ensures Fits(s) <==> HasFewIds(s)
  {
    hide Ids, PaletteOf;
    if s.entries.Some? { PaletteIds(s.entries.value); }
  }

  lemma {:induction false} EntitiesArePicked(found: seq<Found>) returns (at: seq<nat>)
    ensures PickedEntities(EntitiesOf(found), found, at)
    decreases |found|
  {
    hide Carries, EntityOf, NamedRoot, IsCompound, PickedEntities;
    if found == [] {
      at := [];
      NothingPicked();
    } else {
      var n := |found| - 1;
      var before := EntitiesArePicked(found[..n]);
      CompoundsAreNamed(found[n].nbt);
      at := if IsCompound(found[n].nbt) then before + [n] else before;
      var entries := EntitiesOf(found[..n]);
      if IsCompound(found[n].nbt) {
        EntityCarries(found[n]);
        entries := entries + [EntityOf(found[n].key, NamedRoot(found[n].nbt).value)];
      }
      OneMoreEntity(EntitiesOf(found[..n]), entries, found, before);
    }
  }

  lemma OneMoreEntity(picked: seq<EntityEntry>, more: seq<EntityEntry>, found: seq<Found>, at: seq<nat>)
    requires found != [] && PickedEntities(picked, found[..|found| - 1], at)
    requires var last := found[|found| - 1];
      if IsCompound(last.nbt) then |more| == |picked| + 1 && more[..|picked|] == picked && Carries(more[|picked|], last)
      else more == picked
    ensures var n := |found| - 1;
      PickedEntities(more, found, if IsCompound(found[n].nbt) then at + [n] else at)
  {
    hide Carries, IsCompound, Ascending;
    var n := |found| - 1;
    OneMorePlace(at, Compounds(found[..n]), IsCompound(found[n].nbt));
    assert Compounds(found) == Compounds(found[..n]) + [IsCompound(found[n].nbt)];
    PlacesFit(at, Compounds(found[..n]));
    assert forall k :: 0 <= k < |picked| ==> more[k] == more[..|picked|][k];
  }

  lemma CompoundsAreNamed(nbt: seq<byte>)
    ensures NamedRoot(nbt).Some? <==> IsCompound(nbt)
  {
    hide NamedRoot;
    NamingIsUndone(nbt);
  }

  lemma EntityCarries(f: Found)
    requires NamedRoot(f.nbt).Some?
    ensures Carries(EntityOf(f.key, NamedRoot(f.nbt).value), f)
  {
    hide DecodeFrame, Frame, UnnamedRoot, BigEndian, FrameSize;
    var named := NamedRoot(f.nbt).value;
    CopiedEntityReturns(f);
    FrameHasSize(named);
  }

  lemma SendableIsFitting(found: seq<Found>, requested: seq<SectionEntry>)
    ensures AllSendable(EntitiesOf(found)) && KeysAreFree(Servable(requested)) <==> KeysAndLengthsFit(found, requested)
  {
    hide EntitiesOf, Servable, AllSendable, KeysAreFree, KeysAndLengthsFit;
    var es := EntitiesArePicked(found);
    var ss := ServableIsPicked(requested);
    if AllSendable(EntitiesOf(found)) && KeysAreFree(Servable(requested)) {
      PickedFits(EntitiesOf(found), Servable(requested), found, requested, es, ss);
    }
    if KeysAndLengthsFit(found, requested) {
      FittingIsSendable(EntitiesOf(found), Servable(requested), found, requested, es, ss);
    }
  }

  lemma PickedFits(
    entities: seq<EntityEntry>, sections: seq<SectionEntry>, found: seq<Found>, requested: seq<SectionEntry>,
    es: seq<nat>, ss: seq<nat>)
    requires PickedEntities(entities, found, es) && PickedSections(sections, requested, ss)
    requires AllSendable(entities) && KeysAreFree(sections)
    ensures KeysAndLengthsFit(found, requested)
  {
    hide Carries, HasFewIds, IsCompound, FrameSize, Sendable;
    forall i | 0 <= i < |found| && IsCompound(found[i].nbt)
      ensures found[i].key != MIN_POSITION_LONG && FrameSize(|found[i].nbt| + 2) < 0x8000_0000
    {
      assert Compounds(found)[i] && i in es;
      var k :| 0 <= k < |es| && es[k] == i;
      CarriesWithin(entities[k], found[i]);
    }
    forall i | 0 <= i < |requested| && HasFewIds(requested[i])
      ensures requested[i].key != MIN_POSITION_LONG
    {
      assert WithFewIds(requested)[i] && i in ss;
      var k :| 0 <= k < |ss| && ss[k] == i;
      assert sections[k] == requested[i];
    }
  }

  lemma FittingIsSendable(
    entities: seq<EntityEntry>, sections: seq<SectionEntry>, found: seq<Found>, requested: seq<SectionEntry>,
    es: seq<nat>, ss: seq<nat>)
    requires PickedEntities(entities, found, es) && PickedSections(sections, requested, ss)
    requires KeysAndLengthsFit(found, requested)
    ensures AllSendable(entities) && KeysAreFree(sections)
  {
    hide Carries, HasFewIds, IsCompound, FrameSize, Sendable;
    forall k | 0 <= k < |entities|
      ensures Sendable(entities[k])
    {
      assert es[k] in es && Compounds(found)[es[k]];
      CarriesWithin(entities[k], found[es[k]]);
    }
    forall k | 0 <= k < |sections|
      ensures sections[k].key != MIN_POSITION_LONG
    {
      assert ss[k] in ss && WithFewIds(requested)[ss[k]];
    }
  }

  lemma CarriesWithin(e: EntityEntry, f: Found)
    requires Carries(e, f)
    ensures Sendable(e) <==> f.key != MIN_POSITION_LONG && FrameSize(|f.nbt| + 2) < 0x8000_0000
  {
    hide DecodeFrame, UnnamedRoot, PackBlockPos;
  }

  /** When every section asked for has few ids, all of them arrive, as they are. */
  lemma AllSectionsArrive(got: Option<Collection>, found: seq<Found>, requested: seq<SectionEntry>)
    requires Delivers(got, found, requested) && forall i :: 0 <= i < |requested| ==> HasFewIds(requested[i])
    ensures got.value.sections == requested
  {
    hide HasFewIds;
    var at :| PickedSections(got.value.sections, requested, at);
    assert forall i :: 0 <= i < |requested| ==> WithFewIds(requested)[i];
    EveryPlace(at, |requested|);
  }

  lemma LastIsLargest(at: seq<nat>, n: nat, k: nat)
    requires Ascending(at, n) && k < |at|
    ensures var last := |at| - 1; at[k] <= at[last] < n && (at[k] == at[last] ==> k == last)
  {
  }

  lemma {:induction false} EveryPlace(at: seq<nat>, n: nat)
    requires Ascending(at, n) && forall i :: 0 <= i < n ==> i in at
    ensures |at| == n && forall k :: 0 <= k < n ==> at[k] == k
    decreases n
  {
    assert at == [] || at[0] < n;
    if n > 0 {
      assert n - 1 in at;
      var last := |at| - 1;
      var k :| 0 <= k <= last && at[k] == n - 1;
      LastIsLargest(at, n, k);
      var before := at[..last];
      forall i | 0 <= i < n - 1
        ensures i in before
      {
        assert i in at;
        var j :| 0 <= j < |at| && at[j] == i;
        assert before[j] == i;
      }
      EveryPlace(before, n - 1);
    }
  }

  /** The answer to a request, from what the world holds.  A client collects the block
      entities that were found and the sections with few enough ids, every one of them, in
      order, and knows with the last payload, not before, that it has them all, if and only
      if no key is the sentinel and no length overflows.  It does not matter at what width
      the client would decode a direct section.  Entities that leave room for what closes
      a payload keep every payload within its limit. */
  method AnswerRequest(id: i64, found: seq<Found>, requested: seq<SectionEntry>)
    returns (sent: seq<seq<byte>>)
    requires AllFull(requested)
    ensures forall direct: byte ::
      Delivers(Collected(sent, id, direct), found, requested) <==> KeysAndLengthsFit(found, requested)
    ensures forall direct: byte ::
      Collected(sent, id, direct) == Some(Collection(EntitiesOf(found), Servable(requested), true))
      <==> AllSendable(EntitiesOf(found)) && KeysAreFree(Servable(requested))
    ensures Short(AllEntityBytes(EntitiesOf(found))) ==> WithinLimit(sent)
  {
    hide EntityBytes, SectionEntryBytes, Frame, Fits, Payload, Concat, ReplyOf, Collected, Short, FullEntry, Sendable, EntityOf,
      PickedEntities, PickedSections, KeysAndLengthsFit;
    var entities := WriteEntities(found);
    var sections := WriteSections(requested);
    ghost var parts: seq<Part>;
    sent, parts := Respond(id, entities, sections);
    ServableAreFull(requested);
    SectionsAreShort(Servable(requested));
    SendableIsFitting(found, requested);
    ghost var atEntities := EntitiesArePicked(found);
    ghost var atSections := ServableIsPicked(requested);
    forall direct: byte
      ensures Collected(sent, id, direct) == Some(Collection(EntitiesOf(found), Servable(requested), true))
        <==> AllSendable(EntitiesOf(found)) && KeysAreFree(Servable(requested))
      ensures Delivers(Collected(sent, id, direct), found, requested) <==> KeysAndLengthsFit(found, requested)
    {
      if AllSendable(EntitiesOf(found)) && KeysAreFree(Servable(requested)) {
        ResponseCollects(sent, parts, id, direct, EntitiesOf(found), Servable(requested));
      }
      if Collected(sent, id, direct).Some? {
        CollectedAreSendable(sent, id, direct);
      }
      if Delivers(Collected(sent, id, direct), found, requested) {
        DeliveredFits(Collected(sent, id, direct), found, requested);
      }
    }
  }

  /** What a client got under a key it did read is not under the sentinel. */
  lemma DeliveredFits(got: Option<Collection>, found: seq<Found>, requested: seq<SectionEntry>)
    requires Delivers(got, found, requested) && AllSendable(got.value.entities) && KeysAreFree(got.value.sections)
    ensures KeysAndLengthsFit(found, requested)
  {
    hide PickedEntities, PickedSections, KeysAndLengthsFit, AllSendable, KeysAreFree;
    var es :| PickedEntities(got.value.entities, found, es);
    var ss :| PickedSections(got.value.sections, requested, ss);
    PickedFits(got.value.entities, got.value.sections, found, requested, es, ss);
  }

  /** A refusal is an answer with nothing in it, complete at once. */
  method RefuseRequest(id: i64) returns (sent: seq<seq<byte>>)
    ensures forall direct: byte :: Collected(sent, id, direct) == Some(Collection([], [], true))
  {
    hide Payload, Concat, ReplyOf, Entities, Sections, Collected, EntityBytes, SectionEntryBytes;
    var response := new ChunkResponse(id);
    ghost var parts := response.Finish();
    sent := response.sent;
    NothingPushed();
    forall direct: byte
      ensures Collected(sent, id, direct) == Some(Collection([], [], true))
    {
      ResponseCollects(sent, parts, id, direct, [], []);
    }
  }

  lemma ResponseCollects(
    sent: seq<seq<byte>>, parts: seq<Part>, id: i64, direct: byte, es: seq<EntityEntry>, ss: seq<SectionEntry>)
    requires Response(sent, id, parts) && AllFit(ss)
    requires Entities(parts) == AllEntityBytes(es) && Sections(parts) == AllSectionBytes(ss)
    requires AllSendable(es) && AllFull(ss) && KeysAreFree(ss)
    ensures Collected(sent, id, direct) == Some(Collection(es, ss, true))
  {
    hide EntityBytes, SectionEntryBytes, Fits, Payload, Concat, ReplyOf, Collected, FullEntry, Sendable, Entities, Sections;
    var es' := SplitEntities(parts, es);
    var ss' := SplitSections(parts, ss);
    forall i | 0 <= i < |sent|
      ensures ReplyOf(sent[i], direct) == Ok(Reply(id, es'[i], ss'[i], i == |sent| - 1))
    {
      assert parts[i] == Part(AllEntityBytes(es'[i]), AllSectionBytes(ss'[i]));
      PartSendable(es'[i], es, ss'[i], ss);
      PayloadReads(id, es'[i], ss'[i], i == |sent| - 1, direct);
    }
    Collects(sent, id, direct, es', ss', |sent| - 1);
  }

  lemma PartSendable(part: seq<EntityEntry>, es: seq<EntityEntry>, sections: seq<SectionEntry>, ss: seq<SectionEntry>)
    requires forall k :: 0 <= k < |part| ==> part[k] in es
    requires AllSendable(es)
    requires forall k :: 0 <= k < |sections| ==> sections[k] in ss
    requires AllFull(ss) && KeysAreFree(ss)
    ensures AllSendable(part) && AllSectionsSendable(sections)
  {
    hide Sendable, FullEntry;
    forall k | 0 <= k < |sections|
      ensures SendableSection(sections[k])
    {
      assert sections[k] in ss;
      var j :| 0 <= j < |ss| && ss[j] == sections[k];
    }
    forall k | 0 <= k < |part|
      ensures Sendable(part[k])
    {
      assert part[k] in es;
      var j :| 0 <= j < |es| && es[j] == part[k];
    }
  }

  lemma ServableAreFull(requested: seq<SectionEntry>)
    requires AllFull(requested)
    ensures AllFull(Servable(requested))
  {
    hide FullEntry, Servable;
    forall k | 0 <= k < |Servable(requested)|
      ensures FullEntry(Servable(requested)[k])
    {
      assert Servable(requested)[k] in requested;
      var j :| 0 <= j < |requested| && requested[j] == Servable(requested)[k];
    }
  }

  method WriteEntities(found: seq<Found>) returns (entities: seq<seq<byte>>)
    ensures entities == AllEntityBytes(EntitiesOf(found))
  {
    hide EntityBytes, EntityOf, NamedRoot;
    entities := [];
    for i := 0 to |found|
      invariant entities == AllEntityBytes(EntitiesOf(found[..i]))
    {
      assert found[..i + 1][..i] == found[..i];
      var named := NamedRoot(found[i].nbt);
      if named.Some? {
        var entry := WriteEntity(found[i].key, named.value);
        entities := entities + [entry];
      }
    }
    assert found[..|found|] == found;
  }

  method WriteSections(requested: seq<SectionEntry>) returns (sections: seq<seq<byte>>)
    requires AllFull(requested)
    ensures sections == AllSectionBytes(Servable(requested))
  {
    hide SectionEntryBytes, Fits, FullEntry;
    sections := [];
    for i := 0 to |requested|
      invariant sections == AllSectionBytes(Servable(requested[..i]))
    {
      assert requested[..i + 1][..i] == requested[..i];
      var entry := WriteSectionEntry(requested[i]);
      if entry.Some? {
        sections := sections + [entry.value];
      }
    }
    assert requested[..|requested|] == requested;
  }

  /** A block entity that is copied out and handed back unchanged is the document the
      world held: unpacked and with the root name taken out, the entry is it again, unless
      it is too long for its frame. */
  lemma CopiedEntityReturns(found: Found)
    requires NamedRoot(found.nbt).Some?
    ensures var named := NamedRoot(found.nbt).value;
      var e := EntityOf(found.key, named);
      && e.size == |named| && UnnamedRoot(named) == Some(found.nbt)
      && (DecodeFrame(e.compressed) == Some(named) <==> e.size < TWO32)
  {
    hide DecodeFrame, Frame, UnnamedRoot, NamedRoot;
    FrameDecodes(NamedRoot(found.nbt).value);
    NamingIsUndone(found.nbt);
  }
}
