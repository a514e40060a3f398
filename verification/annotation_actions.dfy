/**
  Annotation packets as bytes: the five actions as a client writes them, a batch of them,
  and what the server makes of it and passes on.
 */
module AnnotationActions {
  import opened Bytes
  import opened Buf
  import opened AnnotationBodies
  import opened Annotations

  predicate SoundUuid(u: Uuid) { u.high < TWO64 && u.low < TWO64 }

  /** An action a client may write: two 64-bit halves, a whole body, 12 bytes of position
      or 16 of rotation. */
  predicate Writable(action: Action) {
    match action
    case Create(uuid, body) => SoundUuid(uuid) && Whole(body)
    case Delete(uuid) => SoundUuid(uuid)
    case Move(uuid, position) => SoundUuid(uuid) && |position| == 12
    case Clear => true
    case Rotate(uuid, rotation) => SoundUuid(uuid) && |rotation| == 16
  }

  function ActionBytes(action: Action): seq<byte> {
    match action
    case Create(uuid, body) => [0] + (UuidBytes(uuid) + body)
    case Delete(uuid) => [1] + UuidBytes(uuid)
    case Move(uuid, position) => [2] + (UuidBytes(uuid) + position)
    case Clear => [3]
    case Rotate(uuid, rotation) => [4] + (UuidBytes(uuid) + rotation)
  }

  /** Anywhere in a packet an action reads as itself, and to its last byte. */
  lemma ActionReads(action: Action, data: seq<byte>, pos: nat)
    requires Writable(action) && At(data, pos, ActionBytes(action))
    ensures ActionAt(data, pos) == Ok(Parsed(action, pos + |ActionBytes(action)|))
  {
    hide UuidBytes, UuidAt, BodyEnd, Whole, ActionAt, I64At;
    match action
    case Create(uuid, body) => CreateReads(Annotation(uuid, body), data, pos);
    case Clear => ClearIsRead(data, pos);
    case Delete(uuid) => DeleteIsRead(uuid, data, pos);
    case Move(uuid, position) => MoveIsRead(uuid, position, data, pos);
    case Rotate(uuid, rotation) => RotateIsRead(uuid, rotation, data, pos);
  }

  lemma ClearIsRead(data: seq<byte>, pos: nat)
    requires At(data, pos, [3])
    ensures ActionAt(data, pos) == Ok(Parsed(Clear, pos + 1))
  {
    hide UuidAt, BodyEnd;
    assert data[pos] == data[pos..pos + 1][0];
  }

  lemma DeleteIsRead(uuid: Uuid, data: seq<byte>, pos: nat)
    requires SoundUuid(uuid) && At(data, pos, [1] + UuidBytes(uuid))
    ensures ActionAt(data, pos) == Ok(Parsed(Delete(uuid), pos + |[1] + UuidBytes(uuid)|))
  {
    hide UuidBytes, UuidAt, BodyEnd;
    assert [1] + UuidBytes(uuid) == [1] + (UuidBytes(uuid) + []);
    TransformReads(1, uuid, [], data, pos);
  }

  lemma MoveIsRead(uuid: Uuid, position: seq<byte>, data: seq<byte>, pos: nat)
    requires SoundUuid(uuid) && |position| == 12 && At(data, pos, [2] + (UuidBytes(uuid) + position))
    ensures ActionAt(data, pos) == Ok(Parsed(Move(uuid, position), pos + |[2] + (UuidBytes(uuid) + position)|))
  {
    hide UuidBytes, UuidAt, BodyEnd, TakeAt;
    TransformReads(2, uuid, position, data, pos);
  }

  lemma RotateIsRead(uuid: Uuid, rotation: seq<byte>, data: seq<byte>, pos: nat)
    requires SoundUuid(uuid) && |rotation| == 16 && At(data, pos, [4] + (UuidBytes(uuid) + rotation))
    ensures ActionAt(data, pos) == Ok(Parsed(Rotate(uuid, rotation), pos + |[4] + (UuidBytes(uuid) + rotation)|))
  {
    hide UuidBytes, UuidAt, BodyEnd, TakeAt;
    TransformReads(4, uuid, rotation, data, pos);
  }

  lemma TransformReads(tag: byte, uuid: Uuid, value: seq<byte>, data: seq<byte>, pos: nat)
    requires SoundUuid(uuid) && At(data, pos, [tag] + (UuidBytes(uuid) + value))
    ensures pos + 17 <= |data| && data[pos] == tag && UuidAt(data, pos + 1) == Ok(Parsed(uuid, pos + 17))
    ensures TakeAt(data, pos + 17, |value|) == Ok(Parsed(value, pos + 17 + |value|)) && |UuidBytes(uuid)| == 16
  {
    hide UuidBytes, UuidAt;
    AtConcat(data, pos, [tag], UuidBytes(uuid) + value);
    AtConcat(data, pos + 1, UuidBytes(uuid), value);
    assert data[pos] == data[pos..pos + 1][0];
    UuidInverse(data, pos + 1, uuid);
    UuidLength(uuid);
  }

  /** There is no action above the fifth. */
  lemma OtherTagsAreRefused(data: seq<byte>, pos: nat)
    requires pos < |data| && data[pos] > 4
    ensures ActionAt(data, pos) == Err(Unexpected)
  {
  }

  // ----- a batch -----

  predicate AllWritable(actions: seq<Action>) {
    forall i :: 0 <= i < |actions| ==> Writable(actions[i])
  }

  function ActionsBytes(actions: seq<Action>): seq<byte> {
    if actions == [] then [] else ActionBytes(actions[0]) + ActionsBytes(actions[1..])
  }

  function BatchBytes(actions: seq<Action>): seq<byte>
    requires |actions| < 0x8000_0000
  {
    VarI32Bytes(|actions|) + ActionsBytes(actions)
  }

  lemma {:induction false} ActionsRead(actions: seq<Action>, data: seq<byte>, pos: nat)
    requires AllWritable(actions) && At(data, pos, ActionsBytes(actions))
    ensures ReadingFrom(data, pos, |actions|) == Reading(actions, Ok(()))
    decreases |actions|
  {
    hide ActionBytes, ActionAt, Writable, At;
    if actions != [] {
      AtConcat(data, pos, ActionBytes(actions[0]), ActionsBytes(actions[1..]));
      ActionReads(actions[0], data, pos);
      ActionsRead(actions[1..], data, pos + |ActionBytes(actions[0])|);
      assert actions == [actions[0]] + actions[1..];
    }
  }

  /** A batch reads as its actions, whatever follows it, exactly if it is not too long. */
  lemma BatchReads(actions: seq<Action>, packet: seq<byte>)
    requires |actions| < 0x8000_0000 && AllWritable(actions) && At(packet, 0, BatchBytes(actions))
    ensures Readable(packet) <==> |actions| <= 4096
    ensures |actions| <= 4096 ==> ReadingOf(packet) == Reading(actions, Ok(()))
  {
    hide VarI32Bytes, VarI32At, ActionsBytes, ReadingFrom, Writable;
    AtConcat(packet, 0, VarI32Bytes(|actions|), ActionsBytes(actions));
    VarI32Inverse(packet, 0, |actions|);
    if |actions| <= 4096 {
      ActionsRead(actions, packet, |VarI32Bytes(|actions|)|);
    }
  }

  lemma WritablesApply(actions: seq<Action>)
    requires AllWritable(actions)
    ensures AllApplicable(actions)
  {
    hide Whole;
    forall i | 0 <= i < |actions|
      ensures Applicable(actions[i])
    {
      assert Writable(actions[i]);
    }
  }

  /** The actions a server that is this full takes: all but creates without room. */
  function TakenOf(store: seq<Annotation>, actions: seq<Action>): (r: seq<Action>)
    requires AllApplicable(actions)
    ensures |r| <= |actions|
    decreases |actions|
  {
    if actions == [] then []
    else if actions[0].Create? && |store| >= 4096 then TakenOf(store, actions[1..])
    else [actions[0]] + TakenOf(Applied(store, actions[0]), actions[1..])
  }

  lemma {:induction false} ChunksAreActions(
    store: seq<Annotation>, actions: seq<Action>, data: seq<byte>, pos: nat)
    requires AllWritable(actions) && AllApplicable(actions) && At(data, pos, ActionsBytes(actions))
    ensures var batch := Handled(store, data, pos, |actions|);
      && batch.status.Ok? && |batch.taken| == |TakenOf(store, actions)|
      && Joined(batch.taken) == ActionsBytes(TakenOf(store, actions))
    decreases |actions|
  {
    hide ActionBytes, ActionAt, Writable, Applied, At;
    if actions != [] {
      var chunk, rest := ActionBytes(actions[0]), actions[1..];
      AtConcat(data, pos, chunk, ActionsBytes(rest));
      AtBytes(data, pos, chunk);
      ActionReads(actions[0], data, pos);
      if Refused(store, actions[0]) {
        ChunksAreActions(store, rest, data, pos + |chunk|);
      } else {
        var next := Applied(store, actions[0]);
        ChunksAreActions(next, rest, data, pos + |chunk|);
        var taken := Handled(next, data, pos + |chunk|, |rest|).taken;
        assert ([chunk] + taken)[1..] == taken;
        assert ([actions[0]] + TakenOf(next, rest))[1..] == TakenOf(next, rest);
      }
    }
  }

  /** The list after a batch is what its actions make of it one by one, and what goes out
      to the clients is a batch of those that were taken, byte for byte, if there are any. */
  lemma BatchIsAnswered(store: seq<Annotation>, actions: seq<Action>, packet: seq<byte>)
    requires |actions| <= 4096 && AllWritable(actions) && At(packet, 0, BatchBytes(actions))
    ensures AllApplicable(actions)
    ensures var taken := TakenOf(store, actions);
      Answered(store, packet)
        == Answer(AppliedAll(store, actions), if taken == [] then None else Some(BatchBytes(taken)), Ok(()))
  {
    hide VarI32Bytes, VarI32At, ActionsBytes, Handled, Writable, ReadingOf, AppliedAll, Joined, TakenOf;
    WritablesApply(actions);
    BatchReads(actions, packet);
    AnswersByReading(store, packet);
    AtConcat(packet, 0, VarI32Bytes(|actions|), ActionsBytes(actions));
    VarI32Inverse(packet, 0, |actions|);
    ChunksAreActions(store, actions, packet, |VarI32Bytes(|actions|)|);
  }

  // ----- what an action leaves -----

  /** Deleting, or replacing, takes out the entries of that uuid and keeps all the others
      in their order. */
  lemma {:induction false} OthersKeepOrder(a: seq<Annotation>, b: seq<Annotation>, one: Annotation, uuid: Uuid)
    ensures Without(a + b, uuid) == Without(a, uuid) + Without(b, uuid)
    ensures Without([one], uuid) == if one.uuid == uuid then [] else [one]
    decreases |a|
  {
    if a == [] {
      assert a + b == b;
    } else {
      assert (a + b)[1..] == a[1..] + b;
      OthersKeepOrder(a[1..], b, one, uuid);
    }
  }

  /** A create puts its entry at the end, also where it replaces one further up, and the
      others stay as they were. */
  lemma CreateGoesLast(store: seq<Annotation>, uuid: Uuid, body: seq<byte>)
    ensures var after := Applied(store, Create(uuid, body));
      var n := |after| - 1;
      && n >= 0 && after[n] == Annotation(uuid, body)
      && (forall i :: 0 <= i < n ==> after[i].uuid != uuid)
      && Without(after, uuid) == Without(store, uuid)
  {
    hide Without;
    var rest, one := Without(store, uuid), Annotation(uuid, body);
    WithoutRemoves(store, uuid);
    OthersKeepOrder(rest, [one], one, uuid);
    WithoutAbsent(rest, uuid);
  }
}
