/**
  Who rides on what.  Seats are added, removed and cleared entity by entity; the guard
  `RidesOn` keeps the vehicle relation free of loops, which is what lets it end.
 */
module Passengers {
  import opened Bytes

  type Id = nat

  /** Each entity's vehicle, if it has one. */
  type Seats = map<Id, Id>

  function Vehicle(seats: Seats, e: Id): Option<Id> {
    if e in seats then Some(seats[e]) else None
  }

  /** `path` leads from `e` down through vehicles. */
  predicate Path(seats: Seats, path: seq<Id>) {
    path != [] && forall i :: 0 <= i < |path| - 1 ==> path[i] in seats && seats[path[i]] == path[i + 1]
  }

  /** `other` is `e` itself or somewhere below it. */
  ghost predicate Below(seats: Seats, e: Id, other: Id) {
    exists path :: Path(seats, path) && path[0] == e && path[|path| - 1] == other
  }

  /** No entity is below its own vehicle. */
  ghost predicate Acyclic(seats: Seats) {
    forall path :: Path(seats, path) && |path| > 1 ==> path[0] != path[|path| - 1]
  }

  // ----- the walk ends -----

  predicate NoRepeats(path: seq<Id>) {
    forall i, j :: 0 <= i < j < |path| ==> path[i] != path[j]
  }

  lemma PathsDoNotRepeat(seats: Seats, path: seq<Id>)
    requires Acyclic(seats) && Path(seats, path)
    ensures NoRepeats(path)
  {
    forall i, j | 0 <= i < j < |path|
      ensures path[i] != path[j]
    {
      var loop := path[i..j + 1];
      assert loop[0] == path[i] && loop[|loop| - 1] == path[j];
    }
  }

  lemma {:induction false} DistinctFit(path: seq<Id>, s: set<Id>)
    requires NoRepeats(path) && forall i :: 0 <= i < |path| ==> path[i] in s
    ensures |path| <= |s|
    decreases |path|
  {
    if path != [] {
      var last := path[|path| - 1];
      assert forall i :: 0 <= i < |path| - 1 ==> path[..|path| - 1][i] == path[i];
      DistinctFit(path[..|path| - 1], s - {last});
    }
  }

  lemma PathIsShort(seats: Seats, path: seq<Id>)
    requires Acyclic(seats) && Path(seats, path)
    ensures |path| <= |seats.Keys| + 1
  {
    PathsDoNotRepeat(seats, path);
    var seated := path[..|path| - 1];
    assert forall i :: 0 <= i < |seated| ==> seated[i] == path[i];
    DistinctFit(seated, seats.Keys);
  }

  lemma {:induction false} PathsAgree(seats: Seats, p: seq<Id>, q: seq<Id>)
    requires Path(seats, p) && Path(seats, q) && p[0] == q[0] && |p| <= |q|
    ensures p == q[..|p|]
    decreases |p|
  {
    if |p| > 1 {
      var n := |p| - 1;
      PathsAgree(seats, p[..n], q);
      assert p[n - 1] == p[..n][n - 1] == q[..n][n - 1] == q[n - 1];
      assert p == p[..n] + [p[n]] && q[..n + 1] == q[..n] + [q[n]];
    }
  }

  /** On an acyclic relation the walk up the vehicles ends, and tells exactly whether the
      other entity is this one or below it. */
  method RidesOn(seats: Seats, entity: Id, other: Id) returns (r: bool)
    requires Acyclic(seats)
    ensures r <==> Below(seats, entity, other)
  {
    ghost var path := [entity];
    if entity == other {
      assert Path(seats, path);
      return true;
    }
    var vehicle := Vehicle(seats, entity);
    while vehicle.Some?
      invariant Path(seats, path) && path[0] == entity
      invariant vehicle == Vehicle(seats, path[|path| - 1])
      invariant forall i :: 0 <= i < |path| ==> path[i] != other
      decreases |seats.Keys| + 1 - |path|
    {
      ghost var longer := path + [vehicle.value];
      assert Path(seats, longer);
      PathIsShort(seats, longer);
      if vehicle.value == other {
        assert longer[0] == entity && longer[|longer| - 1] == other;
        return true;
      }
      path := longer;
      vehicle := Vehicle(seats, vehicle.value);
    }
    if Below(seats, entity, other) {
      ghost var q :| Path(seats, q) && q[0] == entity && q[|q| - 1] == other;
      EndsWithWalk(seats, path, q);
    }
    return false;
  }

  /** A path from the same entity cannot go on where the walk stopped. */
  lemma EndsWithWalk(seats: Seats, walk: seq<Id>, q: seq<Id>)
    requires Path(seats, walk) && Path(seats, q) && walk[0] == q[0]
    requires Vehicle(seats, walk[|walk| - 1]).None?
    ensures |q| <= |walk| && q == walk[..|q|]
  {
    if |q| > |walk| {
      PathsAgree(seats, walk, q);
      StopsThere(seats, q, |walk|);
    } else {
      PathsAgree(seats, q, walk);
    }
  }

  /** A path has a vehicle at every entity but its last. */
  lemma StopsThere(seats: Seats, q: seq<Id>, n: nat)
    requires Path(seats, q) && 0 < n < |q|
    ensures Vehicle(seats, q[..n][n - 1]).Some?
  {
    assert q[..n][n - 1] == q[n - 1];
  }

  // ----- the steps -----

  datatype Step =
    | Add(entity: Id, passengers: seq<Id>)
    | Remove(entity: Id, passengers: seq<Id>)
    | Eject(entity: Id)

  /** Whether an entity may be moved along with its riders is the host's answer, which
      may depend on who is seated at the time. */
  type Movable = (Seats, Id) -> bool

  ghost predicate MaySeat(seats: Seats, entity: Id, passenger: Id, movable: Movable) {
    Vehicle(seats, passenger).None? && movable(seats, passenger) && !Below(seats, entity, passenger)
  }

  ghost function Seated(seats: Seats, entity: Id, passengers: seq<Id>, movable: Movable): Seats {
    if passengers == [] then seats
    else
      var n := |passengers| - 1;
      var before := Seated(seats, entity, passengers[..n], movable);
      if MaySeat(before, entity, passengers[n], movable) then before[passengers[n] := entity] else before
  }

  function Unseated(seats: Seats, entity: Id, passengers: seq<Id>, movable: Movable): (r: Seats)
    ensures forall e :: e in r ==> e in seats && r[e] == seats[e]
    ensures forall e :: e in seats && e !in r ==> seats[e] == entity && e in passengers
  {
    if passengers == [] then seats
    else
      var n := |passengers| - 1;
      var before := Unseated(seats, entity, passengers[..n], movable);
      if movable(before, passengers[n]) then Stood(before, entity, passengers[n]) else before
  }

  /** The seats without a passenger of `entity`. */
  function Stood(seats: Seats, entity: Id, passenger: Id): Seats {
    map e | e in seats && !(seats[e] == entity && e == passenger) :: seats[e]
  }

  function Ejected(seats: Seats, entity: Id): Seats {
    map e | e in seats && seats[e] != entity :: seats[e]
  }

  ghost function Stepped(seats: Seats, s: Step, movable: Movable): Seats {
    match s
    case Add(entity, passengers) => Seated(seats, entity, passengers, movable)
    case Remove(entity, passengers) => Unseated(seats, entity, passengers, movable)
    case Eject(entity) => Ejected(seats, entity)
  }

  lemma FewerSeatsStayAcyclic(seats: Seats, fewer: Seats)
    requires Acyclic(seats) && forall e :: e in fewer ==> e in seats && fewer[e] == seats[e]
    ensures Acyclic(fewer)
  {
    forall path | Path(fewer, path) && |path| > 1
      ensures path[0] != path[|path| - 1]
    {
      assert Path(seats, path);
    }
  }

  /** Seating someone who is not below its vehicle closes no loop. */
  lemma SeatingKeepsAcyclic(seats: Seats, entity: Id, passenger: Id)
    requires Acyclic(seats) && passenger !in seats && !Below(seats, entity, passenger)
    ensures Acyclic(seats[passenger := entity])
  {
    var more := seats[passenger := entity];
    forall path | Path(more, path) && |path| > 1
      ensures path[0] != path[|path| - 1]
    {
      if path[0] == path[|path| - 1] {
        LoopGoesThrough(seats, entity, passenger, path);
      }
    }
  }

  /** The guard is exact: it refuses a passenger only where seating it would close a
      loop. */
  lemma GuardIsExact(seats: Seats, entity: Id, passenger: Id)
    requires Acyclic(seats) && passenger !in seats
    ensures Acyclic(seats[passenger := entity]) <==> !Below(seats, entity, passenger)
  {
    if Below(seats, entity, passenger) {
      var path :| Path(seats, path) && path[0] == entity && path[|path| - 1] == passenger;
      var loop := [passenger] + path;
      assert Path(seats[passenger := entity], loop);
      assert loop[0] == loop[|loop| - 1];
    } else {
      SeatingKeepsAcyclic(seats, entity, passenger);
    }
  }

  lemma LoopGoesThrough(seats: Seats, entity: Id, passenger: Id, path: seq<Id>)
    requires Acyclic(seats) && passenger !in seats
    requires Path(seats[passenger := entity], path) && |path| > 1 && path[0] == path[|path| - 1]
    ensures Below(seats, entity, passenger)
  {
    var more := seats[passenger := entity];
    if forall i :: 0 <= i < |path| - 1 ==> path[i] != passenger {
      OldSeatsOnly(seats, entity, passenger, path);
    } else {
      var i :| 0 <= i < |path| - 1 && path[i] == passenger;
      // Turn the loop so that it starts at the passenger: entity, ..., passenger.
      var turned := path[i + 1..] + path[1..i + 1];
      Turned(more, path, i);
      FirstReturn(seats, entity, passenger, turned);
    }
  }

  lemma OldSeatsOnly(seats: Seats, entity: Id, passenger: Id, path: seq<Id>)
    requires Acyclic(seats) && Path(seats[passenger := entity], path) && |path| > 1
    requires forall i :: 0 <= i < |path| - 1 ==> path[i] != passenger
    ensures path[0] != path[|path| - 1]
  {
    assert Path(seats, path);
  }

  lemma Turned(seats: Seats, path: seq<Id>, i: nat)
    requires Path(seats, path) && i < |path| - 1 && path[0] == path[|path| - 1]
    ensures var turned := path[i + 1..] + path[1..i + 1];
      Path(seats, turned) && turned[0] == seats[path[i]] && turned[|turned| - 1] == path[i]
  {
    var n := |path| - 1;
    var turned := path[i + 1..] + path[1..i + 1];
    assert |turned| == n;
    forall k | 0 <= k < n
      ensures turned[k] == if k < n - i then path[i + 1 + k] else path[k - (n - i) + 1]
    {
    }
    forall k | 0 <= k < n - 1
      ensures turned[k] in seats && seats[turned[k]] == turned[k + 1]
    {
      if k < n - i - 1 {
        assert path[i + 1 + k] in seats;
      } else if k == n - i - 1 {
        assert turned[k] == path[n] == path[0] && turned[k + 1] == path[1];
        assert path[0] in seats;
      } else {
        assert path[k - (n - i) + 1] in seats;
      }
    }
    assert turned[0] == path[i + 1] && path[i] in seats;
    if i == 0 {
      assert turned[n - 1] == path[n];
    } else {
      assert turned[n - 1] == path[i];
    }
  }

  /** The stretch up to the first return to the passenger uses only old seats. */
  lemma {:induction false} FirstReturn(seats: Seats, entity: Id, passenger: Id, walk: seq<Id>)
    requires passenger !in seats && Path(seats[passenger := entity], walk)
    requires walk[0] == entity && walk[|walk| - 1] == passenger
    ensures Below(seats, entity, passenger)
    decreases |walk|
  {
    if i: nat :| i < |walk| - 1 && walk[i] == passenger {
      var shorter := walk[..i + 1];
      assert shorter[|shorter| - 1] == passenger;
      FirstReturn(seats, entity, passenger, shorter);
    } else {
      assert Path(seats, walk);
    }
  }

  /** Every step, whatever the host answers, keeps the relation free of loops; a map
      gives each entity at most one vehicle. */
  lemma StepKeepsAcyclic(seats: Seats, s: Step, movable: Movable)
    requires Acyclic(seats)
    ensures Acyclic(Stepped(seats, s, movable))
  {
    match s
    case Add(entity, passengers) => SeatingAllKeepsAcyclic(seats, entity, passengers, movable);
    case Remove(entity, passengers) => FewerSeatsStayAcyclic(seats, Unseated(seats, entity, passengers, movable));
    case Eject(entity) => FewerSeatsStayAcyclic(seats, Ejected(seats, entity));
  }

  lemma {:induction false} SeatingAllKeepsAcyclic(seats: Seats, entity: Id, passengers: seq<Id>, movable: Movable)
    requires Acyclic(seats)
    ensures Acyclic(Seated(seats, entity, passengers, movable))
    decreases |passengers|
  {
    hide Acyclic, Below;
    if passengers != [] {
      var n := |passengers| - 1;
      SeatingAllKeepsAcyclic(seats, entity, passengers[..n], movable);
      var before := Seated(seats, entity, passengers[..n], movable);
      if MaySeat(before, entity, passengers[n], movable) {
        SeatingKeepsAcyclic(before, entity, passengers[n]);
      }
    }
  }

  ghost function Run(seats: Seats, steps: seq<(Step, Movable)>): Seats {
    if steps == [] then seats
    else
      var n := |steps| - 1;
      Stepped(Run(seats, steps[..n]), steps[n].0, steps[n].1)
  }

  /** From any world without loops, whatever steps are taken, there is none after them, so
      the walk always ends. */
  lemma {:induction false} RunsStayAcyclic(seats: Seats, steps: seq<(Step, Movable)>)
    requires Acyclic(seats)
    ensures Acyclic(Run(seats, steps))
    decreases |steps|
  {
    hide Acyclic, Stepped;
    if steps != [] {
      var n := |steps| - 1;
      RunsStayAcyclic(seats, steps[..n]);
      StepKeepsAcyclic(Run(seats, steps[..n]), steps[n].0, steps[n].1);
    }
  }

  /** From a world where nobody rides, no steps ever lead to a loop. */
  lemma ReachableIsAcyclic(steps: seq<(Step, Movable)>)
    ensures Acyclic(Run(map[], steps))
  {
    RunsStayAcyclic(map[], steps);
  }

  /** What an addition changes: nobody loses a seat or changes it, and an entity gains one,
      on this vehicle, exactly if it was named at a moment when it could be seated. */
  lemma {:induction false} AdditionsOnlySeat(seats: Seats, entity: Id, passengers: seq<Id>, movable: Movable, e: Id)
    ensures var after := Seated(seats, entity, passengers, movable);
      && (e in seats ==> e in after && after[e] == seats[e])
      && (e in after && e !in seats ==> after[e] == entity)
      && (e in after && e !in seats <==> exists i :: SeatedAt(seats, entity, passengers, movable, e, i))
    decreases |passengers|
  {
    hide Below, MaySeat, SeatedAt;
    if passengers == [] {
      assert !exists i :: SeatedAt(seats, entity, passengers, movable, e, i) by { NoMentions(seats, entity, movable, e); }
    } else {
      var n := |passengers| - 1;
      var before := passengers[..n];
      AdditionsOnlySeat(seats, entity, before, movable, e);
      SeatedEarlier(seats, entity, passengers, movable, e);
      NotTwice(Seated(seats, entity, before, movable), entity, e, movable);
    }
  }

  /** Mention `i` of `e` comes when it has no vehicle, may be moved, and does not carry the
      entity. */
  ghost predicate SeatedAt(seats: Seats, entity: Id, passengers: seq<Id>, movable: Movable, e: Id, i: int) {
    && 0 <= i < |passengers| && passengers[i] == e
    && var then' := Seated(seats, entity, passengers[..i], movable);
       e !in then' && movable(then', e) && !Below(then', entity, e)
  }

  lemma SeatedEarlier(seats: Seats, entity: Id, passengers: seq<Id>, movable: Movable, e: Id)
    requires passengers != []
    ensures var n := |passengers| - 1;
      (exists i :: SeatedAt(seats, entity, passengers, movable, e, i))
        <==> (exists i :: SeatedAt(seats, entity, passengers[..n], movable, e, i))
             || (passengers[n] == e && MaySeat(Seated(seats, entity, passengers[..n], movable), entity, e, movable))
  {
    hide Seated, Below;
    var n := |passengers| - 1;
    var before := passengers[..n];
    forall i
      ensures i != n ==> (SeatedAt(seats, entity, passengers, movable, e, i) <==> SeatedAt(seats, entity, before, movable, e, i))
    {
      if 0 <= i < n { assert before[..i] == passengers[..i]; }
    }
    assert SeatedAt(seats, entity, passengers, movable, e, n)
      <==> passengers[n] == e && MaySeat(Seated(seats, entity, before, movable), entity, e, movable);
  }

  lemma NotTwice(seats: Seats, entity: Id, e: Id, movable: Movable)
    ensures MaySeat(seats, entity, e, movable) ==> e !in seats
  {
    hide Below;
  }

  /** What a removal changes: an entity stands up exactly if it rode this one and was named
      at a moment when it might be moved; every other seat is kept. */
  lemma {:induction false} RemovalsOnlyUnseat(seats: Seats, entity: Id, passengers: seq<Id>, movable: Movable, e: Id)
    requires e in seats
    ensures var after := Unseated(seats, entity, passengers, movable);
      && (e in after ==> after[e] == seats[e])
      && (e !in after <==> seats[e] == entity && exists i :: NamedAt(seats, entity, passengers, movable, e, i))
    decreases |passengers|
  {
    hide NamedAt;
    if passengers == [] {
      assert !exists i :: NamedAt(seats, entity, passengers, movable, e, i) by { NoMentions(seats, entity, movable, e); }
    } else {
      var n := |passengers| - 1;
      var before := passengers[..n];
      RemovalsOnlyUnseat(seats, entity, before, movable, e);
      NamedEarlier(seats, entity, passengers, movable, e);
    }
  }

  lemma NoMentions(seats: Seats, entity: Id, movable: Movable, e: Id)
    ensures forall i :: !SeatedAt(seats, entity, [], movable, e, i) && !NamedAt(seats, entity, [], movable, e, i)
  {
  }

  lemma NamedEarlier(seats: Seats, entity: Id, passengers: seq<Id>, movable: Movable, e: Id)
    requires passengers != []
    ensures var n := |passengers| - 1;
      (exists i :: NamedAt(seats, entity, passengers, movable, e, i))
        <==> (exists i :: NamedAt(seats, entity, passengers[..n], movable, e, i))
             || (passengers[n] == e && movable(Unseated(seats, entity, passengers[..n], movable), e))
  {
    hide Unseated;
    var n := |passengers| - 1;
    var before := passengers[..n];
    forall i
      ensures i != n ==> (NamedAt(seats, entity, passengers, movable, e, i) <==> NamedAt(seats, entity, before, movable, e, i))
    {
      if 0 <= i < n { assert before[..i] == passengers[..i]; }
    }
    assert NamedAt(seats, entity, passengers, movable, e, n)
      <==> passengers[n] == e && movable(Unseated(seats, entity, before, movable), e);
  }

  /** Mention `i` of `e` comes when it may be moved. */
  predicate NamedAt(seats: Seats, entity: Id, passengers: seq<Id>, movable: Movable, e: Id, i: int) {
    0 <= i < |passengers| && passengers[i] == e && movable(Unseated(seats, entity, passengers[..i], movable), e)
  }

  /** After an ejection nobody rides the entity, and every other seat is kept. */
  lemma EjectionsOnlyUnseat(seats: Seats, entity: Id, e: Id)
    ensures var after := Ejected(seats, entity);
      && (e in after ==> after[e] != entity)
      && (e in seats && seats[e] != entity ==> e in after && after[e] == seats[e])
      && (e in after ==> e in seats)
  {
  }

  // ----- the vehicles as the host keeps them -----

  class World {
    var seats: Seats

    constructor ()
      ensures seats == map[]
    {
      seats := map[];
    }

    method AddPassengers(entity: Id, passengers: seq<Id>, movable: Movable)
      requires Acyclic(seats)
      modifies this
      ensures seats == Seated(old(seats), entity, passengers, movable)
    {
      hide Acyclic, Below;
      for i := 0 to |passengers|
        invariant Acyclic(seats) && seats == Seated(old(seats), entity, passengers[..i], movable)
      {
        var passenger := passengers[i];
        assert passengers[..i + 1][..i] == passengers[..i];
        if Vehicle(seats, passenger).None? && movable(seats, passenger) {
          var loops := RidesOn(seats, entity, passenger);
          if !loops {
            SeatingKeepsAcyclic(seats, entity, passenger);
            seats := seats[passenger := entity];
          }
        }
      }
      assert passengers[..|passengers|] == passengers;
    }

    /** Removing a passenger unseats it only from this entity. */
    method RemovePassengers(entity: Id, passengers: seq<Id>, movable: Movable)
      modifies this
      ensures seats == Unseated(old(seats), entity, passengers, movable)
    {
      for i := 0 to |passengers|
        invariant seats == Unseated(old(seats), entity, passengers[..i], movable)
      {
        var passenger := passengers[i];
        assert passengers[..i + 1][..i] == passengers[..i];
        if movable(seats, passenger) {
          seats := map e | e in seats && !(seats[e] == entity && e == passenger) :: seats[e];
        }
      }
      assert passengers[..|passengers|] == passengers;
    }

    method EjectPassengers(entity: Id)
      modifies this
      ensures seats == Ejected(old(seats), entity)
    {
      seats := map e | e in seats && seats[e] != entity :: seats[e];
    }
  }
}
