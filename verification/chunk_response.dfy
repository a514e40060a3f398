/**
  The chunk data response, split into payloads as it fills.  Every payload closes both
  of its lists, and the payloads together carry what was pushed, in order.
 */
module ChunkResponses {
  import opened Bytes
  import opened Buf

  const MAX_RESPONSE_BYTES: nat := 0x10_0000 - 64

  function Sentinel(): (bs: seq<byte>)
    ensures |bs| == 8
  {
    I64Bytes(MIN_POSITION_LONG)
  }

  function Concat(entries: seq<seq<byte>>): seq<byte> {
    if entries == [] then [] else Concat(entries[..|entries| - 1]) + entries[|entries| - 1]
  }

  lemma ConcatAppend(entries: seq<seq<byte>>, entry: seq<byte>)
    ensures Concat(entries + [entry]) == Concat(entries) + entry
  {
    assert (entries + [entry])[..|entries|] == entries;
  }

  /** The entries of one payload: block entities, then sections. */
  datatype Part = Part(entities: seq<seq<byte>>, sections: seq<seq<byte>>)

  function Payload(id: i64, part: Part, finished: bool): seq<byte> {
    I64Bytes(id) + Concat(part.entities) + Sentinel() + Concat(part.sections) + Sentinel()
    + [if finished then 1 else 0]
  }

  function Entities(parts: seq<Part>): seq<seq<byte>> {
    if parts == [] then [] else Entities(parts[..|parts| - 1]) + parts[|parts| - 1].entities
  }

  function Sections(parts: seq<Part>): seq<seq<byte>> {
    if parts == [] then [] else Sections(parts[..|parts| - 1]) + parts[|parts| - 1].sections
  }

  lemma AppendPart(parts: seq<Part>, part: Part)
    ensures Entities(parts + [part]) == Entities(parts) + part.entities
    ensures Sections(parts + [part]) == Sections(parts) + part.sections
  {
    assert (parts + [part])[..|parts|] == parts;
  }

  /** No payload repeats the entity list once a section went out before it. */
  predicate EntitiesFirst(parts: seq<Part>) {
    forall i, j :: 0 <= i < j < |parts| && parts[i].sections != [] ==> parts[j].entities == []
  }

  /** Payloads of which none is the last. */
  predicate Unfinished(sent: seq<seq<byte>>, id: i64, parts: seq<Part>) {
    |sent| == |parts| && forall i :: 0 <= i < |parts| ==> sent[i] == Payload(id, parts[i], false)
  }

  /** The payloads of a whole response: all closed the same way, the last one finished. */
  predicate Response(sent: seq<seq<byte>>, id: i64, parts: seq<Part>) {
    |sent| == |parts| > 0 && forall i :: 0 <= i < |parts| ==> sent[i] == Payload(id, parts[i], i == |parts| - 1)
  }

  predicate WithinLimit(sent: seq<seq<byte>>) {
    forall i :: 0 <= i < |sent| ==> |sent[i]| <= MAX_RESPONSE_BYTES + 17
  }

  predicate Short(entries: seq<seq<byte>>) {
    forall i :: 0 <= i < |entries| ==> |entries[i]| <= MAX_RESPONSE_BYTES - 16
  }

  /** A payload that is still being filled. */
  function Opened(id: i64, part: Part, entitiesOpen: bool): seq<byte> {
    if entitiesOpen then I64Bytes(id) + Concat(part.entities)
    else I64Bytes(id) + Concat(part.entities) + Sentinel() + Concat(part.sections)
  }

  function With(part: Part, entitiesOpen: bool, entry: seq<byte>): Part {
    if entitiesOpen then Part(part.entities + [entry], part.sections)
    else Part(part.entities, part.sections + [entry])
  }

  lemma OpenedAppend(id: i64, part: Part, entitiesOpen: bool, entry: seq<byte>)
    ensures Opened(id, With(part, entitiesOpen, entry), entitiesOpen) == Opened(id, part, entitiesOpen) + entry
  {
    hide I64Bytes, Sentinel, Concat;
    ConcatAppend(part.entities, entry);
    ConcatAppend(part.sections, entry);
    if entitiesOpen {
      assert I64Bytes(id) + (Concat(part.entities) + entry) == I64Bytes(id) + Concat(part.entities) + entry;
    } else {
      var head := I64Bytes(id) + Concat(part.entities) + Sentinel();
      assert head + (Concat(part.sections) + entry) == head + Concat(part.sections) + entry;
    }
  }

  lemma OpenedEmpty(id: i64, entitiesOpen: bool)
    ensures Opened(id, Part([], []), entitiesOpen) == I64Bytes(id) + if entitiesOpen then [] else Sentinel()
  {
    hide I64Bytes, Sentinel;
  }

  /** Closing the entity list where it is still open, then the section list. */
  lemma Closes(id: i64, part: Part, entitiesOpen: bool, finished: bool)
    requires entitiesOpen ==> part.sections == []
    ensures var flag := [if finished then 1 else 0];
      Opened(id, part, entitiesOpen) + (if entitiesOpen then Sentinel() else []) + Sentinel() + flag
        == Payload(id, part, finished)
  {
    hide I64Bytes, Sentinel;
    assert Concat([]) == [];
  }

  class ChunkResponse {
    const id: i64
    var buf: seq<byte>
    var entitiesOpen: bool
    /** What went out, oldest first. */
    var sent: seq<seq<byte>>

    /** What the payloads sent, and the one being filled, hold. */
    ghost var parts: seq<Part>
    ghost var current: Part

    ghost predicate Valid()
      reads this
    {
      && Unfinished(sent, id, parts)
      && EntitiesFirst(parts + [current])
      && (entitiesOpen ==> current.sections == [] && Sections(parts) == [])
      && buf == Opened(id, current, entitiesOpen)
    }

    ghost function PushedEntities(): seq<seq<byte>>
      reads this
    {
      Entities(parts) + current.entities
    }

    ghost function PushedSections(): seq<seq<byte>>
      reads this
    {
      Sections(parts) + current.sections
    }

    /** So far every payload is within the limit, and what is in the buffer leaves room
        for what closes it. */
    ghost predicate Small()
      reads this
    {
      WithinLimit(sent) && |buf| <= if entitiesOpen then MAX_RESPONSE_BYTES else MAX_RESPONSE_BYTES + 8
    }

    constructor (id: i64)
      ensures Valid() && Small() && entitiesOpen && this.id == id && sent == []
      ensures PushedEntities() == [] && PushedSections() == []
    {
      hide I64Bytes, Sentinel;
      this.id := id;
      buf := I64Bytes(id);
      entitiesOpen := true;
      sent := [];
      parts := [];
      current := Part([], []);
      new;
      OpenedEmpty(id, true);
    }

    /** Puts an entry into the list that is open, in the next payload where this one is too full for it. */
    method Push(entry: seq<byte>)
      requires Valid()
      modifies this
      ensures Valid() && entitiesOpen == old(entitiesOpen)
      ensures PushedEntities() == old(PushedEntities()) + if entitiesOpen then [entry] else []
      ensures PushedSections() == old(PushedSections()) + if entitiesOpen then [] else [entry]
      ensures old(Small()) && |entry| <= MAX_RESPONSE_BYTES - 16 ==> Small()
      ensures sent == old(sent)
        + if |old(buf)| + |entry| > MAX_RESPONSE_BYTES then [Payload(id, old(current), false)] else []
    {
      hide I64Bytes, Sentinel, Opened, Entities, Sections, Payload;
      if |buf| + |entry| > MAX_RESPONSE_BYTES {
        Flush(false);
      }
      buf := buf + entry;
      OpenedAppend(id, current, entitiesOpen, entry);
      StillFirst(parts, current, entitiesOpen, entry);
      current := With(current, entitiesOpen, entry);
    }

    /** From here on entries are sections: the list of entities ends. */
    method EndEntities()
      requires Valid() && entitiesOpen
      modifies this
      ensures Valid() && !entitiesOpen
      ensures PushedEntities() == old(PushedEntities()) && PushedSections() == old(PushedSections())
      ensures old(Small()) ==> Small()
    {
      hide I64Bytes, Sentinel, Entities, Sections, Payload;
      buf := buf + Sentinel();
      entitiesOpen := false;
      NothingPushed();
    }

    /** Closes the lists that are open, sends the payload and starts the next one at the
        same point. */
    method Flush(finished: bool)
      requires Valid()
      modifies this
      ensures !finished ==> Valid()
      ensures entitiesOpen == old(entitiesOpen) && |buf| <= 16
      ensures parts == old(parts) + [old(current)] && current == Part([], [])
      ensures PushedEntities() == old(PushedEntities()) && PushedSections() == old(PushedSections())
      ensures sent == old(sent) + [Payload(id, old(current), finished)]
      ensures old(Small()) ==> Small()
    {
      hide I64Bytes, Sentinel, Opened, Entities, Sections, Payload;
      Closes(id, current, entitiesOpen, finished);
      if entitiesOpen {
        buf := buf + Sentinel();
      }
      buf := buf + Sentinel();
      buf := buf + [if finished then 1 else 0];
      assert buf == Payload(id, current, finished) by { AppendNothing(old(buf)); }
      sent := sent + [buf];
      buf := I64Bytes(id);
      if !entitiesOpen {
        buf := buf + Sentinel();
      }
      OpenedEmpty(id, entitiesOpen);
      assert buf == Opened(id, Part([], []), entitiesOpen) by { AppendNothing(I64Bytes(id)); }
      AppendPart(parts, current);
      EmptyPartLast(parts + [current]);
      parts := parts + [current];
      current := Part([], []);
    }

    /** The last payload, flagged as such. */
    method Finish() returns (ghost all: seq<Part>)
      requires Valid()
      modifies this
      ensures Response(sent, id, all) && EntitiesFirst(all)
      ensures Entities(all) == old(PushedEntities()) && Sections(all) == old(PushedSections())
      ensures old(Small()) ==> WithinLimit(sent)
    {
      hide I64Bytes, Sentinel, Opened, Entities, Sections, Payload;
      all := parts + [current];
      AppendPart(parts, current);
      Flush(true);
    }
  }

  lemma AppendNothing(bs: seq<byte>)
    ensures bs + [] == bs
  {
  }

  lemma NothingPushed()
    ensures Concat([]) == [] && Sections([]) == []
  {
  }

  lemma {:induction false} NoSectionsIn(parts: seq<Part>)
    requires Sections(parts) == []
    ensures forall i :: 0 <= i < |parts| ==> parts[i].sections == []
    decreases |parts|
  {
    if parts != [] {
      NoSectionsIn(parts[..|parts| - 1]);
      assert forall i :: 0 <= i < |parts| - 1 ==> parts[i] == parts[..|parts| - 1][i];
    }
  }

  lemma StillFirst(parts: seq<Part>, current: Part, entitiesOpen: bool, entry: seq<byte>)
    requires EntitiesFirst(parts + [current]) && (entitiesOpen ==> Sections(parts) == [])
    ensures EntitiesFirst(parts + [With(current, entitiesOpen, entry)])
  {
    if entitiesOpen { NoSectionsIn(parts); }
    var before, after := parts + [current], parts + [With(current, entitiesOpen, entry)];
    assert forall i :: 0 <= i < |parts| ==> before[i] == after[i] == parts[i];
    assert before[|parts|] == current;
  }

  lemma EmptyPartLast(parts: seq<Part>)
    requires EntitiesFirst(parts)
    ensures EntitiesFirst(parts + [Part([], [])])
  {
  }

  // ----- a whole response -----

  method PushAll(response: ChunkResponse, entries: seq<seq<byte>>)
    requires response.Valid()
    modifies response
    ensures response.Valid() && response.entitiesOpen == old(response.entitiesOpen)
    ensures response.PushedEntities() == old(response.PushedEntities()) + if response.entitiesOpen then entries else []
    ensures response.PushedSections() == old(response.PushedSections()) + if response.entitiesOpen then [] else entries
    ensures old(response.Small()) && Short(entries) ==> response.Small()
  {
    hide Entities, Sections, Payload, Opened;
    for i := 0 to |entries|
      invariant response.Valid() && response.entitiesOpen == old(response.entitiesOpen)
      invariant response.PushedEntities()
             == old(response.PushedEntities()) + if response.entitiesOpen then entries[..i] else []
      invariant response.PushedSections()
             == old(response.PushedSections()) + if response.entitiesOpen then [] else entries[..i]
      invariant old(response.Small()) && Short(entries) ==> response.Small()
    {
      assert entries[..i + 1] == entries[..i] + [entries[i]];
      response.Push(entries[i]);
    }
    assert entries[..|entries|] == entries;
  }

  /** Whatever is pushed comes out, split at will but in order, each payload closed and
      only the last one finished; short entries keep every payload near the limit. */
  method Respond(id: i64, entities: seq<seq<byte>>, sections: seq<seq<byte>>)
    returns (sent: seq<seq<byte>>, ghost parts: seq<Part>)
    ensures Response(sent, id, parts) && EntitiesFirst(parts)
    ensures Entities(parts) == entities && Sections(parts) == sections
    ensures Short(entities) && Short(sections) ==> WithinLimit(sent)
  {
    hide Entities, Sections, Payload, Opened, EntitiesFirst, Short;
    var response := new ChunkResponse(id);
    PushAll(response, entities);
    response.EndEntities();
    PushAll(response, sections);
    assert [] + entities == entities && [] + sections == sections;
    parts := response.Finish();
    sent := response.sent;
  }
}
