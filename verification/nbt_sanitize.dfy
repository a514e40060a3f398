/**
  Dropping what a client may not set on an entity, and on everything riding it.
  `Sanitized` follows the source over raw payloads; it is proved to be `Clean` on
  trees, about which the guarantees are stated.
 */
module NbtSanitize {
  import opened Bytes
  import opened NbtTree
  import opened NbtFields
  import opened NbtLists
  import opened NbtMerge

  const ALLOWED_ENTITY_KEYS: seq<string> := [
    "id",
    "Pos", "Rotation", "Invulnerable", "CustomName", "CustomNameVisible", "Silent", "NoGravity", "Glowing",
    "Tags", "Passengers",
    "ArmorItems", "HandItems", "Small", "ShowArms", "DisabledSlots", "NoBasePlate", "Marker", "Pose",
    "data",
    "transformation", "interpolation_duration", "start_interpolation", "teleport_duration", "billboard",
    "view_range", "shadow_radius", "shadow_strength", "width", "height", "glow_color_override", "brightness",
    "line_width", "text_opacity", "background", "shadow", "see_through", "default_background", "alignment",
    "text", "block_state", "item", "item_display"
  ]

  function Passengers(): seq<byte> { Ascii("Passengers") }

  predicate Allowed(name: seq<byte>) {
    exists i :: 0 <= i < |ALLOWED_ENTITY_KEYS| && Ascii(ALLOWED_ENTITY_KEYS[i]) == name
  }

  predicate Keeps(name: seq<byte>, tag: byte) {
    Allowed(name) && (name == Passengers() ==> tag == TAG_LIST)
  }

  // ----- over raw payloads -----

  function Retained(fields: seq<Field>): (r: seq<Field>)
    ensures PayloadBytes(r) <= PayloadBytes(fields)
  {
    if fields == [] then []
    else
      var rest := Retained(fields[1..]);
      if Keeps(fields[0].name, fields[0].tag) then KeepHead(fields[0], rest); [fields[0]] + rest else rest
  }

  lemma KeepHead(f: Field, rest: seq<Field>)
    ensures PayloadBytes([f] + rest) == |f.payload| + PayloadBytes(rest)
  {
    assert ([f] + rest)[1..] == rest;
  }

  lemma TailBytes(fields: seq<Field>, i: nat)
    requires i < |fields|
    ensures PayloadBytes(fields[i..]) == |fields[i].payload| + PayloadBytes(fields[i + 1..])
  {
    assert fields[i..][1..] == fields[i + 1..];
  }

  /** The list an entity's fields become and the error that stopped the pass. */
  function Sanitized(fields: seq<Field>): Edit
    decreases PayloadBytes(fields), 2, 0
  {
    var kept := Retained(fields);
    assert kept[0..] == kept;
    PatchedFrom(kept, 0)
  }

  function PatchedFrom(fields: seq<Field>, i: nat): Edit
    requires i <= |fields|
    decreases PayloadBytes(fields[i..]), 1, |fields| - i
  {
    if i == |fields| then Edit(fields, Ok(()))
    else
      TailBytes(fields, i);
      if fields[i].name == Passengers() then
        var payload := PatchedPayload(fields[i].payload);
        if payload.Err? then Edit(fields, Err(payload.error))
        else
          var patched := fields[i := fields[i].(payload := payload.value)];
          assert patched[i + 1..] == fields[i + 1..];
          PatchedFrom(patched, i + 1)
      else PatchedFrom(fields, i + 1)
  }

  function PatchedPayload(payload: seq<byte>): Result<seq<byte>>
    decreases |payload|, 1, 0
  {
    var riders :- CompoundListFields(payload);
    var written :- SanitizedRiders(riders, |payload|);
    Ok(ListBytes(written))
  }

  function SanitizedRiders(riders: seq<seq<Field>>, bound: nat): (r: Result<seq<seq<byte>>>)
    requires forall i :: 0 <= i < |riders| ==> PayloadBytes(riders[i]) < bound
    ensures r.Ok? ==> |r.value| == |riders| && Written(r.value)
    decreases bound, 0, |riders|
  {
    if riders == [] then Ok([])
    else
      var head := Sanitized(riders[0]);
      if head.status.Err? then Err(head.status.error)
      else
        var rest :- SanitizedRiders(riders[1..], bound);
        Ok([CompoundBytes(head.items)] + rest)
  }

  // ----- over trees -----

  function KeptFields(ns: seq<Named>): (r: seq<Named>)
    ensures |r| <= |ns|
  {
    if ns == [] then []
    else if Keeps(ns[0].name, Tag(ns[0].value)) then [ns[0]] + KeptFields(ns[1..])
    else KeptFields(ns[1..])
  }

  /** The cleaned fields, or nothing when some rider list holds what is not an entity. */
  function Clean(ns: seq<Named>): Option<seq<Named>>
    decreases ns, 1
  {
    if ns == [] then Some([])
    else if !Keeps(ns[0].name, Tag(ns[0].value)) then Clean(ns[1..])
    else
      var head, rest := CleanField(ns[0]), Clean(ns[1..]);
      if head.Some? && rest.Some? then Some([head.value] + rest.value) else None
  }

  function CleanField(n: Named): Option<Named>
    decreases n
  {
    if n.name != Passengers() then Some(n)
    else
      match n.value
      case List(element, len, items) =>
        if element == TAG_COMPOUND then
          var riders := CleanItems(items);
          if riders.Some? then Some(Named(n.name, List(TAG_COMPOUND, |items|, riders.value))) else None
        else if items == [] then Some(Named(n.name, List(TAG_COMPOUND, 0, [])))
        else None
      case _ => None
  }

  function CleanItems(items: seq<Tree>): (r: Option<seq<Tree>>)
    ensures r.Some? ==> |r.value| == |items|
    decreases items, 0
  {
    if items == [] then Some([])
    else
      match items[0]
      case Compound(fields) =>
        var head, rest := Clean(fields), CleanItems(items[1..]);
        if head.Some? && rest.Some? then Some([Compound(head.value)] + rest.value) else None
      case _ => None
  }
}
