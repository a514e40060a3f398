/**
  The shared annotation store.  The server applies a batch of actions and relays the
  bytes of those it took; a client that clears and fills itself from a full copy and
  then applies every relayed payload holds the same list.
 */
module Annotations {
  import opened Bytes
  import opened Buf
  import opened AnnotationBodies

  const MAX_ANNOTATIONS: nat := 4096

  datatype Annotation = Annotation(uuid: Uuid, body: seq<byte>)

  datatype Action =
    | Create(uuid: Uuid, body: seq<byte>)
    | Delete(uuid: Uuid)
    | Move(uuid: Uuid, position: seq<byte>)
    | Clear
    | Rotate(uuid: Uuid, rotation: seq<byte>)

  // ----- reading actions -----

  function ActionAt(data: seq<byte>, pos: nat): (r: Result<Parsed<Action>>)
    requires pos <= |data|
    ensures r.Ok? ==> pos < r.value.end <= |data|
    ensures r.Ok? && r.value.value.Move? ==> |r.value.value.position| == POSITION_BYTES
    ensures r.Ok? && r.value.value.Rotate? ==> |r.value.value.rotation| == ROTATION_BYTES
  {
    var tag :- U8At(data, pos);
    if tag.value == 3 then Ok(Parsed(Clear, tag.end))
    else if tag.value > 4 then Err(Unexpected)
    else
      var uuid :- UuidAt(data, tag.end);
      if tag.value == 0 then
        var end :- BodyEnd(data, uuid.end);
        Ok(Parsed(Create(uuid.value, data[uuid.end..end]), end))
      else if tag.value == 1 then Ok(Parsed(Delete(uuid.value), uuid.end))
      else
        var value :- TakeAt(data, uuid.end, if tag.value == 2 then POSITION_BYTES else ROTATION_BYTES);
        Ok(Parsed(if tag.value == 2 then Move(uuid.value, value.value) else Rotate(uuid.value, value.value), value.end))
  }

  /** An action reads the same wherever its bytes stand. */
  lemma ActionLocal(a: seq<byte>, i: nat, b: seq<byte>, j: nat)
    requires i <= |a| && j <= |b| && ActionAt(a, i).Ok?
    requires Same(a, i, b, j, ActionAt(a, i).value.end - i)
    ensures ActionAt(b, j) == Ok(Parsed(ActionAt(a, i).value.value, j + ActionAt(a, i).value.end - i))
  {
    hide BodyEnd, UuidAt;
    var n := ActionAt(a, i).value.end - i;
    assert a[i] == a[i..i + n][0] == b[j..j + n][0] == b[j];
    if a[i] != 3 {
      SamePart(a, i, b, j, n, 1, 16);
      UuidLocal(a, i + 1, b, j + 1);
      SamePart(a, i, b, j, n, 17, n - 17);
      if a[i] == 0 {
        BodyLocal(a, i + 17, b, j + 17);
      }
    }
  }

  lemma UuidLocal(a: seq<byte>, i: nat, b: seq<byte>, j: nat)
    requires Same(a, i, b, j, 16)
    ensures UuidAt(a, i).Ok? && UuidAt(b, j) == Ok(Parsed(UuidAt(a, i).value.value, j + 16))
  {
    hide FromBigEndian;
    SamePart(a, i, b, j, 16, 0, 8);
    SamePart(a, i, b, j, 16, 8, 8);
  }

  // ----- applying actions -----

  function Without(store: seq<Annotation>, uuid: Uuid): seq<Annotation> {
    if store == [] then []
    else if store[0].uuid == uuid then Without(store[1..], uuid)
    else [store[0]] + Without(store[1..], uuid)
  }

  /** The first annotation of that uuid, patched; the others as they were. */
  function Patched(store: seq<Annotation>, action: Action): (r: seq<Annotation>)
    requires Applicable(action) && (action.Move? || action.Rotate?)
    ensures |r| == |store|
  {
    if store == [] then []
    else if store[0].uuid == action.uuid then
      [store[0].(body := PatchedBody(store[0].body, action))] + store[1..]
    else [store[0]] + Patched(store[1..], action)
  }

  lemma {:induction false} PatchedAt(store: seq<Annotation>, action: Action, i: nat)
    requires Applicable(action) && (action.Move? || action.Rotate?)
    requires i <= |store| && forall j :: 0 <= j < i ==> store[j].uuid != action.uuid
    ensures i == |store| ==> Patched(store, action) == store
    ensures i < |store| && store[i].uuid == action.uuid ==>
      Patched(store, action) == store[i := store[i].(body := PatchedBody(store[i].body, action))]
    decreases |store|
  {
    hide PatchedBody;
    if i > 0 {
      PatchedAt(store[1..], action, i - 1);
    } else if store != [] {
      var head := store[0].(body := PatchedBody(store[0].body, action));
      assert store[0 := head] == [head] + store[1..];
    }
  }

  function PatchedBody(body: seq<byte>, action: Action): seq<byte>
    requires Applicable(action) && (action.Move? || action.Rotate?)
  {
    if action.Move? then Moved(body, action.position) else Rotated(body, action.rotation)
  }

  predicate Applicable(action: Action) {
    (action.Move? ==> |action.position| == POSITION_BYTES) && (action.Rotate? ==> |action.rotation| == ROTATION_BYTES)
  }

  /** What an action does to a list: the client's reading of it. */
  function Applied(store: seq<Annotation>, action: Action): seq<Annotation>
    requires Applicable(action)
  {
    match action
    case Create(uuid, body) => Without(store, uuid) + [Annotation(uuid, body)]
    case Delete(uuid) => Without(store, uuid)
    case Clear => []
    case Move(_, _) => Patched(store, action)
    case Rotate(_, _) => Patched(store, action)
  }

  /** The server takes no create once it is full, even one that would replace. */
  predicate Refused(store: seq<Annotation>, action: Action) {
    action.Create? && |store| >= MAX_ANNOTATIONS
  }

  /** The body a list holds for a uuid. */
  function BodyOf(store: seq<Annotation>, uuid: Uuid): Option<seq<byte>> {
    if store == [] then None
    else if store[0].uuid == uuid then Some(store[0].body)
    else BodyOf(store[1..], uuid)
  }

  /** What an action means for the body of any uuid: only its own changes. */
  function BodyAfter(before: Option<seq<byte>>, action: Action, uuid: Uuid): Option<seq<byte>>
    requires Applicable(action)
  {
    if action.Clear? then None
    else if action.uuid != uuid then before
    else
      match action
      case Create(_, body) => Some(body)
      case Delete(_) => None
      case Move(_, position) => if before.Some? then Some(Moved(before.value, position)) else None
      case Rotate(_, rotation) => if before.Some? then Some(Rotated(before.value, rotation)) else None
  }

  lemma {:induction false} ActionMeaning(store: seq<Annotation>, action: Action, uuid: Uuid)
    requires Applicable(action)
    ensures BodyOf(Applied(store, action), uuid) == BodyAfter(BodyOf(store, uuid), action, uuid)
  {
    hide Moved, Rotated;
    match action
    case Create(own, body) =>
      BodyOfAppend(Without(store, own), Annotation(own, body), uuid);
      BodyWithout(store, own, uuid);
    case Delete(own) => BodyWithout(store, own, uuid);
    case Clear =>
    case Move(_, _) => BodyPatched(store, action, uuid);
    case Rotate(_, _) => BodyPatched(store, action, uuid);
  }

  lemma {:induction false} BodyOfAppend(store: seq<Annotation>, a: Annotation, uuid: Uuid)
    ensures BodyOf(store + [a], uuid)
         == if BodyOf(store, uuid).Some? then BodyOf(store, uuid) else if a.uuid == uuid then Some(a.body) else None
    decreases |store|
  {
    if store != [] {
      assert (store + [a])[1..] == store[1..] + [a];
      BodyOfAppend(store[1..], a, uuid);
    } else {
      assert (store + [a])[1..] == [];
    }
  }

  lemma {:induction false} BodyWithout(store: seq<Annotation>, removed: Uuid, uuid: Uuid)
    ensures BodyOf(Without(store, removed), uuid) == if removed == uuid then None else BodyOf(store, uuid)
    decreases |store|
  {
    if store != [] {
      BodyWithout(store[1..], removed, uuid);
      assert ([store[0]] + Without(store[1..], removed))[1..] == Without(store[1..], removed);
    }
  }

  lemma {:induction false} BodyPatched(store: seq<Annotation>, action: Action, uuid: Uuid)
    requires Applicable(action) && (action.Move? || action.Rotate?)
    ensures BodyOf(Patched(store, action), uuid) == BodyAfter(BodyOf(store, uuid), action, uuid)
    decreases |store|
  {
    hide Moved, Rotated;
    if store != [] {
      var patched := Patched(store, action);
      if store[0].uuid == action.uuid {
        assert patched[1..] == store[1..];
      } else {
        assert patched[1..] == Patched(store[1..], action);
        BodyPatched(store[1..], action, uuid);
      }
    }
  }

  // ----- a batch on the server -----

  /** How a batch leaves the store, what it took and whether it ran to its end. */
  datatype Batch = Batch(store: seq<Annotation>, taken: seq<seq<byte>>, status: Result<()>)

  function Handled(store: seq<Annotation>, data: seq<byte>, pos: nat, n: nat): Batch
    requires pos <= |data|
    decreases n
  {
    if n == 0 then Batch(store, [], Ok(()))
    else
      match ActionAt(data, pos)
      case Err(e) => Batch(store, [], Err(e))
      case Ok(action) =>
        if Refused(store, action.value) then Handled(store, data, action.end, n - 1)
        else
          var rest := Handled(Applied(store, action.value), data, action.end, n - 1);
          rest.(taken := [data[pos..action.end]] + rest.taken)
  }

  function Joined(chunks: seq<seq<byte>>): seq<byte> {
    if chunks == [] then [] else chunks[0] + Joined(chunks[1..])
  }

  function Relay(taken: seq<seq<byte>>): seq<byte>
    requires |taken| <= MAX_ANNOTATIONS
  {
    VarI32Bytes(|taken|) + Joined(taken)
  }

  datatype Answer = Answer(store: seq<Annotation>, relayed: Option<seq<byte>>, status: Result<()>)

  lemma {:induction false} TakenBound(store: seq<Annotation>, data: seq<byte>, pos: nat, n: nat)
    requires pos <= |data|
    ensures |Handled(store, data, pos, n).taken| <= n
    decreases n
  {
    hide Refused, Applied, ActionAt;
    if n > 0 && ActionAt(data, pos).Ok? {
      var action := ActionAt(data, pos).value;
      TakenBound(store, data, action.end, n - 1);
      TakenBound(Applied(store, action.value), data, action.end, n - 1);
    }
  }

  /** A whole update packet: a batch that fails keeps what it applied and relays nothing. */
  function Answered(store: seq<Annotation>, packet: seq<byte>): Answer {
    match VarLenAt(packet, 0, MAX_ANNOTATIONS)
    case Err(e) => Answer(store, None, Err(e))
    case Ok(count) =>
      var batch := Handled(store, packet, count.end, count.value);
      TakenBound(store, packet, count.end, count.value);
      if batch.status.Err? then Answer(batch.store, None, batch.status)
      else Answer(batch.store, if batch.taken == [] then None else Some(Relay(batch.taken)), Ok(()))
  }

  // ----- what a packet holds, whoever reads it -----

  /** The actions up to the first that cannot be read, and whether that is all of them. */
  datatype Reading = Reading(actions: seq<Action>, status: Result<()>)

  predicate AllApplicable(actions: seq<Action>) {
    forall i :: 0 <= i < |actions| ==> Applicable(actions[i])
  }

  function ReadingFrom(data: seq<byte>, pos: nat, n: nat): (r: Reading)
    requires pos <= |data|
    ensures AllApplicable(r.actions)
    decreases |data| - pos
  {
    if n == 0 then Reading([], Ok(()))
    else
      match ActionAt(data, pos)
      case Err(e) => Reading([], Err(e))
      case Ok(action) =>
        var rest := ReadingFrom(data, action.end, n - 1);
        rest.(actions := [action.value] + rest.actions)
  }

  function ReadingOf(packet: seq<byte>): (r: Reading)
    ensures AllApplicable(r.actions)
  {
    match VarLenAt(packet, 0, MAX_ANNOTATIONS)
    case Err(e) => Reading([], Err(e))
    case Ok(count) => ReadingFrom(packet, count.end, count.value)
  }

  /** The count is within the limit and so many actions follow. */
  predicate Readable(packet: seq<byte>) { ReadingOf(packet).status.Ok? }

  /** What actions in a row make of the server's list. */
  function AppliedAll(store: seq<Annotation>, actions: seq<Action>): seq<Annotation>
    requires AllApplicable(actions)
    decreases |actions|
  {
    if actions == [] then store
    else
      var next := if Refused(store, actions[0]) then store else Applied(store, actions[0]);
      AppliedAll(next, actions[1..])
  }

  lemma {:induction false} BatchAppliesWhatItReads(store: seq<Annotation>, data: seq<byte>, pos: nat, n: nat)
    requires pos <= |data|
    ensures Handled(store, data, pos, n).status == ReadingFrom(data, pos, n).status
    ensures Handled(store, data, pos, n).store == AppliedAll(store, ReadingFrom(data, pos, n).actions)
    decreases n
  {
    hide ActionAt, Refused, Applied;
    if n > 0 && ActionAt(data, pos).Ok? {
      var action := ActionAt(data, pos).value;
      var rest := ReadingFrom(data, action.end, n - 1).actions;
      assert ([action.value] + rest)[1..] == rest;
      var next := if Refused(store, action.value) then store else Applied(store, action.value);
      BatchAppliesWhatItReads(next, data, action.end, n - 1);
    }
  }

  /** Whether a packet is handled to its end depends on its bytes alone, and what it does
      to the list is what the actions before its first fault do. */
  lemma AnswersByReading(store: seq<Annotation>, packet: seq<byte>)
    ensures Answered(store, packet).status.Ok? <==> Readable(packet)
    ensures Answered(store, packet).store == AppliedAll(store, ReadingOf(packet).actions)
  {
    hide VarLenAt, ReadingFrom, Handled;
    var count := VarLenAt(packet, 0, MAX_ANNOTATIONS);
    if count.Ok? {
      BatchAppliesWhatItReads(store, packet, count.value.end, count.value.value);
    }
  }

  // ----- a client's copy -----

  function Replayed(store: seq<Annotation>, data: seq<byte>, pos: nat, n: nat): (r: Result<Parsed<seq<Annotation>>>)
    requires pos <= |data|
    ensures r.Ok? ==> pos <= r.value.end <= |data|
    decreases n
  {
    if n == 0 then Ok(Parsed(store, pos))
    else
      var action :- ActionAt(data, pos);
      Replayed(Applied(store, action.value), data, action.end, n - 1)
  }

  /** The copy after one payload, whose every byte must be read.  There is no limit on
      the number of actions: a full copy may hold one more than a batch. */
  function Synced(store: seq<Annotation>, payload: seq<byte>): Result<seq<Annotation>> {
    var count :- VarI32At(payload, 0);
    if count.value < 0 then Err(TooLarge(0, 0x7FFF_FFFF))
    else
      var copy :- Replayed(store, payload, count.end, count.value);
      var _ :- ExpectFullyRead(payload, copy.end);
      Ok(copy.value)
  }

  // ----- what every store keeps -----

  predicate UniqueUuids(store: seq<Annotation>) {
    forall i, j :: 0 <= i < j < |store| ==> store[i].uuid != store[j].uuid
  }

  predicate Sound(store: seq<Annotation>) {
    && UniqueUuids(store) && |store| <= MAX_ANNOTATIONS
    && forall i :: 0 <= i < |store| ==> SoundEntry(store[i])
  }

  predicate SoundEntry(a: Annotation) {
    Whole(a.body) && a.uuid.high < TWO64 && a.uuid.low < TWO64
  }

  predicate SoundAction(action: Action) {
    Applicable(action) && (action.Create? ==> SoundEntry(Annotation(action.uuid, action.body)))
  }

  /** Any action that can be read at all carries a whole body. */
  lemma ReadActionIsSound(data: seq<byte>, pos: nat)
    requires pos <= |data| && ActionAt(data, pos).Ok?
    ensures SoundAction(ActionAt(data, pos).value.value)
  {
    hide BodyEnd, I64At;
    var action := ActionAt(data, pos).value;
    if action.value.Create? {
      var start := pos + 17;
      assert Same(data, start, data[start..action.end], 0, action.end - start);
      BodyLocal(data, start, data[start..action.end], 0);
    }
  }

  lemma {:induction false} WithoutRemoves(store: seq<Annotation>, uuid: Uuid)
    ensures |Without(store, uuid)| <= |store|
    ensures forall i :: 0 <= i < |Without(store, uuid)| ==>
      Without(store, uuid)[i].uuid != uuid && Without(store, uuid)[i] in store
    ensures UniqueUuids(store) ==> UniqueUuids(Without(store, uuid))
    decreases |store|
  {
    if store != [] {
      WithoutRemoves(store[1..], uuid);
      var rest := Without(store[1..], uuid);
      assert forall i :: 0 <= i < |store[1..]| ==> store[1..][i] == store[i + 1];
      if UniqueUuids(store) && store[0].uuid != uuid {
        forall j | 0 <= j < |rest|
          ensures rest[j].uuid != store[0].uuid
        {
          var k :| 0 <= k < |store[1..]| && store[1..][k] == rest[j];
          assert store[k + 1] == rest[j];
        }
      }
    }
  }

  lemma PatchedBodyIsWhole(body: seq<byte>, action: Action)
    requires Whole(body) && Applicable(action) && (action.Move? || action.Rotate?)
    ensures Whole(PatchedBody(body, action))
  {
    hide Whole, Moved, Rotated;
    var position := if action.Move? then action.position else seq(POSITION_BYTES, _ => 0);
    var rotation := if action.Rotate? then action.rotation else seq(ROTATION_BYTES, _ => 0);
    TransformsStayWhole(body, position, rotation);
  }

  lemma {:induction false} PatchedEach(store: seq<Annotation>, action: Action, i: nat)
    requires Applicable(action) && (action.Move? || action.Rotate?) && i < |store|
    ensures var after := Patched(store, action)[i];
      after.uuid == store[i].uuid && (after.body == store[i].body || after.body == PatchedBody(store[i].body, action))
    decreases |store|
  {
    hide PatchedBody;
    if i > 0 && store[0].uuid != action.uuid { PatchedEach(store[1..], action, i - 1); }
  }

  lemma PatchKeeps(store: seq<Annotation>, action: Action)
    requires SoundAction(action) && (action.Move? || action.Rotate?)
    requires forall i :: 0 <= i < |store| ==> SoundEntry(store[i])
    ensures forall i :: 0 <= i < |store| ==>
      Patched(store, action)[i].uuid == store[i].uuid && SoundEntry(Patched(store, action)[i])
  {
    hide Whole, PatchedBody, Patched;
    forall i | 0 <= i < |store|
      ensures Patched(store, action)[i].uuid == store[i].uuid && SoundEntry(Patched(store, action)[i])
    {
      assert SoundEntry(store[i]);
      PatchedEach(store, action, i);
      PatchedBodyIsWhole(store[i].body, action);
    }
  }

  lemma ActionKeepsSound(store: seq<Annotation>, action: Action)
    requires Sound(store) && SoundAction(action) && !Refused(store, action)
    ensures Sound(Applied(store, action))
  {
    hide SoundEntry;
    if action.Create? || action.Delete? {
      WithoutRemoves(store, action.uuid);
      var rest := Without(store, action.uuid);
      forall i | 0 <= i < |rest|
        ensures SoundEntry(rest[i])
      {
        assert rest[i] in store;
      }
    } else if action.Move? || action.Rotate? {
      PatchKeeps(store, action);
    }
  }

  lemma {:induction false} BatchKeepsSound(store: seq<Annotation>, data: seq<byte>, pos: nat, n: nat)
    requires Sound(store) && pos <= |data|
    ensures Sound(Handled(store, data, pos, n).store)
    decreases n
  {
    hide Sound, Applied, Refused, SoundAction;
    if n > 0 && ActionAt(data, pos).Ok? {
      var action := ActionAt(data, pos).value;
      ReadActionIsSound(data, pos);
      if Refused(store, action.value) {
        BatchKeepsSound(store, data, action.end, n - 1);
      } else {
        ActionKeepsSound(store, action.value);
        BatchKeepsSound(Applied(store, action.value), data, action.end, n - 1);
      }
    }
  }

  /** Whatever packet arrives, and even if it fails midway: uuids stay unique, the store
      stays within its capacity, every body stays whole. */
  lemma PacketKeepsSound(store: seq<Annotation>, packet: seq<byte>)
    requires Sound(store)
    ensures Sound(Answered(store, packet).store)
  {
    hide Sound;
    var count := VarLenAt(packet, 0, MAX_ANNOTATIONS);
    if count.Ok? {
      BatchKeepsSound(store, packet, count.value.end, count.value.value);
    }
  }

  // ----- convergence -----

  /** The chunks a batch took are the actions it applied, in order. */
  lemma {:induction false} RelayReplays(
    store: seq<Annotation>, data: seq<byte>, pos: nat, n: nat, payload: seq<byte>, at: nat)
    requires pos <= |data| && Handled(store, data, pos, n).status.Ok?
    requires At(payload, at, Joined(Handled(store, data, pos, n).taken))
    ensures var batch := Handled(store, data, pos, n);
      Replayed(store, payload, at, |batch.taken|) == Ok(Parsed(batch.store, at + |Joined(batch.taken)|))
    decreases n
  {
    hide Refused, Applied, ActionAt;
    if n > 0 {
      var action := ActionAt(data, pos).value;
      if Refused(store, action.value) {
        RelayReplays(store, data, action.end, n - 1, payload, at);
      } else {
        var chunk := data[pos..action.end];
        var rest := Handled(Applied(store, action.value), data, action.end, n - 1);
        assert ([chunk] + rest.taken)[1..] == rest.taken;
        AtConcat(payload, at, chunk, Joined(rest.taken));
        ActionLocal(data, pos, payload, at);
        RelayReplays(Applied(store, action.value), data, action.end, n - 1, payload, at + |chunk|);
      }
    } else {
      assert Joined([]) == [];
    }
  }

  /** A copy after what a packet makes the server relay, if anything. */
  function CopyAfter(copy: seq<Annotation>, store: seq<Annotation>, packet: seq<byte>): Result<seq<Annotation>> {
    var answer := Answered(store, packet);
    if answer.relayed.None? then Ok(copy) else Synced(copy, answer.relayed.value)
  }

  /** After a packet that reads, a copy equal to the store before it is equal to the store
      after it, and where nothing was relayed the store did not change. */
  lemma BatchConverges(store: seq<Annotation>, packet: seq<byte>)
    requires Readable(packet)
    ensures CopyAfter(store, store, packet) == Ok(Answered(store, packet).store)
    ensures Answered(store, packet).relayed.None? ==> Answered(store, packet).store == store
  {
    hide VarI32Bytes, VarI32At, Replayed, Joined, VarLenAt, Handled, ReadingOf;
    AnswersByReading(store, packet);
    var count := VarLenAt(packet, 0, MAX_ANNOTATIONS).value;
    var batch := Handled(store, packet, count.end, count.value);
    TakenBound(store, packet, count.end, count.value);
    var payload := Relay(batch.taken);
    assert At(payload, 0, VarI32Bytes(|batch.taken|) + Joined(batch.taken));
    AtConcat(payload, 0, VarI32Bytes(|batch.taken|), Joined(batch.taken));
    VarI32Inverse(payload, 0, |batch.taken|);
    RelayReplays(store, packet, count.end, count.value, payload, |VarI32Bytes(|batch.taken|)|);
    if batch.taken == [] {
      NothingReplayed(store, payload, |VarI32Bytes(0)|);
    }
  }

  /** A packet that copies follow: all of it reads, or what it does before its first
      fault comes to nothing. */
  predicate InStep(store: seq<Annotation>, packet: seq<byte>) {
    Readable(packet) || AppliedAll(store, ReadingOf(packet).actions) == store
  }

  /** A copy that equals the store before a packet equals it afterwards exactly then. */
  lemma PacketConverges(store: seq<Annotation>, packet: seq<byte>)
    ensures CopyAfter(store, store, packet) == Ok(Answered(store, packet).store) <==> InStep(store, packet)
  {
    hide ReadingOf, AppliedAll, Synced, Handled, VarLenAt, Relay;
    AnswersByReading(store, packet);
    if Readable(packet) {
      BatchConverges(store, packet);
    }
  }

  lemma NothingReplayed(store: seq<Annotation>, payload: seq<byte>, at: nat)
    requires at <= |payload|
    ensures Replayed(store, payload, at, 0) == Ok(Parsed(store, at))
  {
  }

  // ----- a full copy -----

  function CreateBytes(a: Annotation): seq<byte> {
    [0] + (UuidBytes(a.uuid) + a.body)
  }

  function Creates(store: seq<Annotation>): seq<byte> {
    if store == [] then [] else CreateBytes(store[0]) + Creates(store[1..])
  }

  /** A clear, followed by a create for each entry of the list. */
  function FullCopy(store: seq<Annotation>): seq<byte> {
    VarI32Bytes(Signed32((|store| + 1) % TWO32)) + ([3] + Creates(store))
  }

  lemma CreateReads(a: Annotation, data: seq<byte>, pos: nat)
    requires SoundEntry(a) && At(data, pos, CreateBytes(a))
    ensures ActionAt(data, pos) == Ok(Parsed(Create(a.uuid, a.body), pos + |CreateBytes(a)|))
  {
    hide UuidBytes, UuidAt, BodyEnd;
    AtConcat(data, pos, [0], UuidBytes(a.uuid) + a.body);
    AtConcat(data, pos + 1, UuidBytes(a.uuid), a.body);
    assert data[pos] == data[pos..pos + 1][0];
    UuidInverse(data, pos + 1, a.uuid);
    UuidLength(a.uuid);
    BodyLocal(a.body, 0, data, pos + 17);
  }

  lemma UuidLength(u: Uuid)
    ensures |UuidBytes(u)| == 16
  {
  }

  lemma {:induction false} WithoutAbsent(store: seq<Annotation>, uuid: Uuid)
    requires forall i :: 0 <= i < |store| ==> store[i].uuid != uuid
    ensures Without(store, uuid) == store
    decreases |store|
  {
    if store != [] { WithoutAbsent(store[1..], uuid); }
  }

  lemma {:induction false} CreatesReplay(done: seq<Annotation>, todo: seq<Annotation>, data: seq<byte>, pos: nat)
    requires UniqueUuids(done + todo) && (forall i :: 0 <= i < |todo| ==> SoundEntry(todo[i]))
    requires At(data, pos, Creates(todo))
    ensures Replayed(done, data, pos, |todo|) == Ok(Parsed(done + todo, pos + |Creates(todo)|))
    decreases |todo|
  {
    hide CreateBytes, ActionAt, SoundEntry, UniqueUuids, Applied;
    if todo == [] {
      assert done + todo == done;
    } else {
      var a, rest := todo[0], todo[1..];
      AtConcat(data, pos, CreateBytes(a), Creates(rest));
      CreateReads(a, data, pos);
      CreateAppends(done, todo);
      CreatesReplay(done + [a], rest, data, pos + |CreateBytes(a)|);
    }
  }

  lemma CreateAppends(done: seq<Annotation>, todo: seq<Annotation>)
    requires UniqueUuids(done + todo) && todo != []
    ensures done + todo == (done + [todo[0]]) + todo[1..]
    ensures Applied(done, Create(todo[0].uuid, todo[0].body)) == done + [todo[0]]
  {
    hide Without;
    assert forall i :: 0 <= i < |done| ==> done[i] == (done + todo)[i];
    assert (done + todo)[|done|] == todo[0];
    WithoutAbsent(done, todo[0].uuid);
  }

  lemma ClearReads(held: seq<Annotation>, data: seq<byte>, pos: nat, n: nat)
    requires At(data, pos, [3])
    ensures Replayed(held, data, pos, n + 1) == Replayed([], data, pos + 1, n)
  {
    hide UuidAt, BodyEnd, TakeAt;
    assert data[pos] == data[pos..pos + 1][0];
    assert ActionAt(data, pos) == Ok(Parsed(Clear, pos + 1));
  }

  /** A full copy puts any client, whatever it held, in the server's state. */
  lemma FullCopySyncs(store: seq<Annotation>, held: seq<Annotation>)
    requires Sound(store)
    ensures Synced(held, FullCopy(store)) == Ok(store)
  {
    hide VarI32Bytes, VarI32At, Creates, Replayed, SoundEntry;
    var n: i32 := |store| + 1;
    var data := FullCopy(store);
    assert At(data, 0, VarI32Bytes(n) + ([3] + Creates(store)));
    AtConcat(data, 0, VarI32Bytes(n), [3] + Creates(store));
    var at := |VarI32Bytes(n)|;
    AtConcat(data, at, [3], Creates(store));
    VarI32Inverse(data, 0, n);
    ClearReads(held, data, at, |store|);
    assert [] + store == store;
    CreatesReplay([], store, data, at + 1);
  }

  lemma {:induction false} ReplayReads(store: seq<Annotation>, data: seq<byte>, pos: nat, n: nat)
    requires pos <= |data|
    ensures Replayed(store, data, pos, n).Ok? <==> ReadingFrom(data, pos, n).status.Ok?
    decreases n
  {
    hide ActionAt, Applied;
    if n > 0 && ActionAt(data, pos).Ok? {
      ReplayReads(Applied(store, ActionAt(data, pos).value.value), data, ActionAt(data, pos).value.end, n - 1);
    }
  }

  /** The server's own limit lets a full copy through unless the store is full: then it
      holds an action too many. */
  lemma FullCopyPastTheLimit(store: seq<Annotation>)
    requires Sound(store)
    ensures VarLenAt(FullCopy(store), 0, MAX_ANNOTATIONS).Ok? <==> |store| < MAX_ANNOTATIONS
    ensures Readable(FullCopy(store)) <==> |store| < MAX_ANNOTATIONS
  {
    hide VarI32Bytes, VarI32At, Creates, Replayed, SoundEntry, ReadingFrom;
    var n: i32 := |store| + 1;
    var data := FullCopy(store);
    assert At(data, 0, VarI32Bytes(n) + ([3] + Creates(store)));
    AtConcat(data, 0, VarI32Bytes(n), [3] + Creates(store));
    VarI32Inverse(data, 0, n);
    FullCopySyncs(store, store);
    ReplayReads(store, data, |VarI32Bytes(n)|, n);
  }

  // ----- at capacity -----

  function CreatePacket(a: Annotation): seq<byte> {
    VarI32Bytes(1) + CreateBytes(a)
  }

  /** A create is taken exactly while there is room, also where it would only replace: a
      full store keeps the body it has, and tells no one. */
  lemma CreateNeedsRoom(store: seq<Annotation>, a: Annotation)
    requires SoundEntry(a)
    ensures var answer := Answered(store, CreatePacket(a));
      && answer.status.Ok?
      && (answer.relayed.Some? <==> |store| < MAX_ANNOTATIONS)
      && (|store| >= MAX_ANNOTATIONS ==> answer.store == store)
      && (BodyOf(answer.store, a.uuid) == Some(a.body)
          <==> |store| < MAX_ANNOTATIONS || BodyOf(store, a.uuid) == Some(a.body))
  {
    hide Answered, Relay, Applied, BodyOf, CreatePacket, SoundEntry;
    CreateIsAnswered(store, a);
    ActionMeaning(store, Create(a.uuid, a.body), a.uuid);
  }

  lemma CreateIsAnswered(store: seq<Annotation>, a: Annotation)
    requires SoundEntry(a)
    ensures Answered(store, CreatePacket(a)) ==
      if |store| >= MAX_ANNOTATIONS then Answer(store, None, Ok(()))
      else Answer(Applied(store, Create(a.uuid, a.body)), Some(Relay([CreateBytes(a)])), Ok(()))
  {
    hide VarLenAt, SoundEntry, CreateBytes, ActionAt, Applied, Handled, Relay;
    var packet, at := CreatePacket(a), |VarI32Bytes(1)|;
    CreateHeader(a);
    CreateReads(a, packet, at);
    OneAction(store, packet, at);
  }

  lemma CreateHeader(a: Annotation)
    ensures var packet, at := CreatePacket(a), |VarI32Bytes(1)|;
      VarLenAt(packet, 0, MAX_ANNOTATIONS) == Ok(Parsed(1, at))
      && At(packet, at, CreateBytes(a)) && packet[at..at + |CreateBytes(a)|] == CreateBytes(a)
  {
    hide VarI32Bytes, VarI32At, CreateBytes;
    var packet := CreatePacket(a);
    assert At(packet, 0, VarI32Bytes(1) + CreateBytes(a));
    AtConcat(packet, 0, VarI32Bytes(1), CreateBytes(a));
    VarI32Inverse(packet, 0, 1);
  }

  lemma OneAction(store: seq<Annotation>, data: seq<byte>, pos: nat)
    requires pos <= |data| && ActionAt(data, pos).Ok?
    ensures var action := ActionAt(data, pos).value;
      Handled(store, data, pos, 1) ==
        if Refused(store, action.value) then Batch(store, [], Ok(()))
        else Batch(Applied(store, action.value), [data[pos..action.end]], Ok(()))
  {
    hide ActionAt, Applied, Refused;
    var action := ActionAt(data, pos).value;
    assert Handled(store, data, action.end, 0) == Batch(store, [], Ok(()));
    assert Handled(Applied(store, action.value), data, action.end, 0) == Batch(Applied(store, action.value), [], Ok(()));
  }

  // ----- whole runs -----

  function ServerAfter(store: seq<Annotation>, packets: seq<seq<byte>>): seq<Annotation> {
    if packets == [] then store
    else Answered(ServerAfter(store, packets[..|packets| - 1]), packets[|packets| - 1]).store
  }

  /** A client that got a full copy and then every payload relayed by a run of packets. */
  function ClientAfter(held: seq<Annotation>, store: seq<Annotation>, packets: seq<seq<byte>>): Result<seq<Annotation>> {
    if packets == [] then Synced(held, FullCopy(store))
    else
      var n := |packets| - 1;
      var copy :- ClientAfter(held, store, packets[..n]);
      CopyAfter(copy, ServerAfter(store, packets[..n]), packets[n])
  }

  predicate AllInStep(store: seq<Annotation>, packets: seq<seq<byte>>) {
    forall i :: 0 <= i < |packets| ==> InStep(ServerAfter(store, packets[..i]), packets[i])
  }

  /** Every store the server can reach, failing packets included, is sound. */
  lemma ReachableIsSound(packets: seq<seq<byte>>)
    ensures Sound(ServerAfter([], packets))
  {
    RunKeepsSound([], packets);
  }

  lemma {:induction false} RunKeepsSound(store: seq<Annotation>, packets: seq<seq<byte>>)
    requires Sound(store)
    ensures Sound(ServerAfter(store, packets))
    decreases |packets|
  {
    hide Answered, SoundEntry;
    if packets != [] {
      var n := |packets| - 1;
      RunKeepsSound(store, packets[..n]);
      PacketKeepsSound(ServerAfter(store, packets[..n]), packets[n]);
    }
  }

  /** The client's list is the server's, in the same order, all along a run, exactly if
      copies follow each packet of it. */
  lemma RunConverges(held: seq<Annotation>, store: seq<Annotation>, packets: seq<seq<byte>>)
    requires Sound(store)
    ensures (forall i :: 0 <= i <= |packets| ==>
               ClientAfter(held, store, packets[..i]) == Ok(ServerAfter(store, packets[..i])))
       <==> AllInStep(store, packets)
  {
    hide InStep, ClientAfter, ServerAfter, Sound;
    if AllInStep(store, packets) {
      forall i | 0 <= i <= |packets|
        ensures ClientAfter(held, store, packets[..i]) == Ok(ServerAfter(store, packets[..i]))
      {
        FollowsSoFar(held, store, packets, i);
      }
    }
    if forall i :: 0 <= i <= |packets| ==>
      ClientAfter(held, store, packets[..i]) == Ok(ServerAfter(store, packets[..i])) {
      forall i | 0 <= i < |packets|
        ensures InStep(ServerAfter(store, packets[..i]), packets[i])
      {
        assert ClientAfter(held, store, packets[..i + 1]) == Ok(ServerAfter(store, packets[..i + 1]));
        OnePacketMore(held, store, packets, i);
      }
    }
  }

  lemma OnePacketMore(held: seq<Annotation>, store: seq<Annotation>, packets: seq<seq<byte>>, i: nat)
    requires i < |packets| && ClientAfter(held, store, packets[..i]) == Ok(ServerAfter(store, packets[..i]))
    ensures ClientAfter(held, store, packets[..i + 1]) == Ok(ServerAfter(store, packets[..i + 1]))
       <==> InStep(ServerAfter(store, packets[..i]), packets[i])
  {
    hide Answered, CopyAfter, InStep;
    assert packets[..i + 1][..i] == packets[..i];
    PacketConverges(ServerAfter(store, packets[..i]), packets[i]);
  }

  lemma {:induction false} FollowsSoFar(held: seq<Annotation>, store: seq<Annotation>, packets: seq<seq<byte>>, i: nat)
    requires Sound(store) && AllInStep(store, packets) && i <= |packets|
    ensures ClientAfter(held, store, packets[..i]) == Ok(ServerAfter(store, packets[..i]))
    decreases i
  {
    hide Answered, Synced, Sound, FullCopy, InStep;
    if i == 0 {
      FullCopySyncs(store, held);
    } else {
      FollowsSoFar(held, store, packets, i - 1);
      OnePacketMore(held, store, packets, i - 1);
    }
  }

  /** The smallest packet that copies do not follow: a clear before an unknown action
      empties the server and tells no one. */
  lemma FailedBatchIsNotRelayed(store: seq<Annotation>)
    ensures Answered(store, [2, 3, 9]) == Answer([], None, Err(Unexpected))
  {
    var packet := [2, 3, 9];
    assert At(packet, 0, VarI32Bytes(2));
    VarI32Inverse(packet, 0, 2);
    assert ActionAt(packet, 1) == Ok(Parsed(Clear, 2));
    assert ActionAt(packet, 2) == Err(Unexpected);
    assert Handled([], packet, 2, 1) == Batch([], [], Err(Unexpected));
  }

  // ----- the store as the server keeps it -----

  class Store {
    var annotations: seq<Annotation>

    constructor ()
      ensures annotations == []
    {
      annotations := [];
    }

    /** Overwrites the transform of the first annotation of that uuid, if it has one. */
    method Patch(action: Action)
      requires Applicable(action) && (action.Move? || action.Rotate?)
      modifies this
      ensures annotations == Patched(old(annotations), action)
    {
      hide PositionedOffset, Patched;
      var i := 0;
      while i < |annotations| && annotations[i].uuid != action.uuid
        invariant i <= |annotations| && annotations == old(annotations)
        invariant forall j :: 0 <= j < i ==> annotations[j].uuid != action.uuid
      {
        i := i + 1;
      }
      PatchedAt(annotations, action, i);
      if i < |annotations| {
        var body := annotations[i].body;
        var offset := PositionedOffset(body);
        if offset.Some? {
          var at := if action.Move? then offset.value else offset.value + POSITION_BYTES;
          var value := if action.Move? then action.position else action.rotation;
          annotations := annotations[i := annotations[i].(body := body[..at] + value + body[at + |value|..])];
        } else {
          assert annotations[i := annotations[i]] == annotations;
        }
      }
    }

    method Handle(packet: seq<byte>) returns (status: Result<()>, relayed: Option<seq<byte>>)
      modifies this
      ensures Answer(annotations, relayed, status) == Answered(old(annotations), packet)
    {
      hide VarLenAt, VarI32Bytes, ActionAt, Patched, Without, Joined;
      relayed := None;
      var r := new Reader(packet);
      var length := r.VarLen(MAX_ANNOTATIONS);
      if length.Err? { return Err(length.error), None; }
      var count := length.value;
      ghost var start := r.pos;
      ghost var before := annotations;
      var taken: seq<seq<byte>> := [];
      for i := 0 to count
        invariant r.Valid() && r.data == packet && fresh(r) && |taken| <= i
        invariant Handled(before, packet, start, count)
               == PrependTaken(taken, Handled(annotations, packet, r.pos, count - i))
      {
        var from := r.pos;
        var action := ReadAction(r);
        if action.Err? { return Err(action.error), None; }
        var current := annotations;
        if action.value.Create? && |annotations| >= MAX_ANNOTATIONS {
        } else {
          match action.value {
            case Create(uuid, body) => annotations := Without(annotations, uuid) + [Annotation(uuid, body)];
            case Delete(uuid) => annotations := Without(annotations, uuid);
            case Clear => annotations := [];
            case Move(_, _) => Patch(action.value);
            case Rotate(_, _) => Patch(action.value);
          }
          taken := taken + [packet[from..r.pos]];
        }
        TakenStep(taken, current, packet, from, count - i);
      }
      if taken != [] {
        relayed := Some(VarI32Bytes(|taken|) + Joined(taken));
      }
      status := Ok(());
    }

    method SendAll() returns (payload: seq<byte>)
      ensures payload == FullCopy(annotations)
    {
      hide VarI32Bytes, UuidBytes, CreateBytes, Creates;
      var w := new Writer();
      w.U8(3);
      for i := 0 to |annotations|
        invariant fresh(w) && w.buf + Creates(annotations[i..]) == [3] + Creates(annotations)
      {
        CreatesAt(annotations, i);
        ghost var before := w.buf;
        w.U8(0);
        w.WriteUuid(annotations[i].uuid);
        w.Raw(annotations[i].body);
        assert w.buf == before + CreateBytes(annotations[i]);
      }
      CreatesAt(annotations, |annotations|);
      payload := VarI32Bytes(Signed32((|annotations| + 1) % TWO32)) + w.buf;
    }
  }

  lemma CreatesAt(store: seq<Annotation>, i: nat)
    requires i <= |store|
    ensures i < |store| ==> Creates(store[i..]) == CreateBytes(store[i]) + Creates(store[i + 1..])
    ensures i < |store| ==> CreateBytes(store[i]) == [0] + UuidBytes(store[i].uuid) + store[i].body
    ensures i == |store| ==> Creates(store[i..]) == []
  {
    hide UuidBytes;
    if i < |store| { assert store[i..][1..] == store[i + 1..]; }
  }

  function PrependTaken(taken: seq<seq<byte>>, rest: Batch): (r: Batch)
    ensures taken == [] ==> r == rest
    ensures rest.taken == [] ==> r == rest.(taken := taken)
  {
    assert [] + rest.taken == rest.taken && taken + [] == taken;
    rest.(taken := taken + rest.taken)
  }

  /** One round of the loop moves one action from the batch to what was taken. */
  lemma TakenStep(taken: seq<seq<byte>>, store: seq<Annotation>, data: seq<byte>, pos: nat, n: nat)
    requires pos <= |data| && n > 0 && ActionAt(data, pos).Ok?
    ensures var action := ActionAt(data, pos).value;
      if Refused(store, action.value) then
        Handled(store, data, pos, n) == Handled(store, data, action.end, n - 1)
      else
        taken != [] && taken[|taken| - 1] == data[pos..action.end] ==>
          PrependTaken(taken[..|taken| - 1], Handled(store, data, pos, n))
            == PrependTaken(taken, Handled(Applied(store, action.value), data, action.end, n - 1))
  {
    hide ActionAt, Applied, Refused;
    var action := ActionAt(data, pos).value;
    if !Refused(store, action.value) && taken != [] {
      var rest := Handled(Applied(store, action.value), data, action.end, n - 1);
      var chunk := data[pos..action.end];
      assert taken[..|taken| - 1] + ([chunk] + rest.taken) == (taken[..|taken| - 1] + [chunk]) + rest.taken;
      assert taken == taken[..|taken| - 1] + [taken[|taken| - 1]];
    }
  }

  method ReadAction(r: Reader) returns (res: Result<Action>)
    requires r.Valid()
    modifies r
    ensures r.Yields(res, ActionAt(r.data, old(r.pos)))
  {
    hide UuidAt, BodyEnd;
    var tag :- r.U8();
    if tag == 3 { return Ok(Clear); }
    if tag > 4 { return Err(Unexpected); }
    var uuid :- r.ReadUuid();
    if tag == 0 {
      var body :- TakeBody(r);
      return Ok(Create(uuid, body));
    }
    if tag == 1 { return Ok(Delete(uuid)); }
    var value :- r.Take(if tag == 2 then POSITION_BYTES else ROTATION_BYTES);
    res := Ok(if tag == 2 then Move(uuid, value) else Rotate(uuid, value));
  }
}
