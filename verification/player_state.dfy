/**
  What the server keeps for one player: the handshake, the tunnel and the budget of
  block-buffer sections.  Every event is a step on the state; the guarantees are about
  all runs of events.
 */
module PlayerStates {
  import opened Bytes
  import opened Buf
  import opened Tunnels
  import opened ZstdRaw

  const API_VERSION: i32 := 10
  const DISPATCH_SENDS_PER_SECOND: i32 := 1024
  const FULL_BUDGET: i32 := 20480
  const I32_MIN: int := -0x8000_0000
  const I32_MAX: int := 0x7FFF_FFFF

  /** A number of chunk sections: a count, cut off at what 32 bits can say. */
  type SectionCount = x: int | 0 <= x < 0x8000_0000

  /** What is sent to the player, as far as the protocol goes. */
  datatype Output =
    | SendHello(token: i64)
    | SendEnable(on: bool)
    | SendGoodbye
    | SendRestrictions(restrictions: seq<byte>)
    | SendDispatch(add: int, max: int)
    | SendAnnotations
    | SendWorldProperties
    | Kick

  datatype Player = Player(
    tunnel: State,
    active: bool,
    pending: Option<i64>,
    toldDisabled: bool,
    restrictions: Option<seq<byte>>,
    budget: Option<i32>,
    noPhysicalTrigger: bool)

  function Fresh(): Player {
    Player(State([], false), false, None, false, None, None, false)
  }

  datatype Outcome = Outcome(player: Player, outputs: seq<Output>)

  // ----- the budget -----

  /** Division as the machine does it, towards zero. */
  function TruncDiv(a: int, b: nat): int
    requires b > 0
  {
    if a >= 0 then a / b else -((-a) / b)
  }

  function Clamp(v: int): i32 {
    if v < I32_MIN then I32_MIN else if v > I32_MAX then I32_MAX else v
  }

  function Min(a: i32, b: i32): i32 { if a < b then a else b }

  function ToppedUp(p: Player): Outcome
    requires p.budget.Some? ==> p.budget.value <= FULL_BUDGET
  {
    var max := DISPATCH_SENDS_PER_SECOND;
    match p.budget
    case None => Outcome(p.(budget := Some(FULL_BUDGET)), [SendDispatch(max, max)])
    case Some(previous) =>
      var updated := Min(previous + max, FULL_BUDGET);
      var add := TruncDiv(updated, 20) - TruncDiv(previous, 20);
      Outcome(p.(budget := Some(updated)),
              if TruncDiv(previous, 20) != TruncDiv(updated, 20) then [SendDispatch(add, max)] else [])
  }

  /** What a buffer leaves of the budget, each operation saturating. */
  function Charged(budget: Option<i32>, sections: SectionCount, clientAvailable: i32): i32 {
    var current := if budget.Some? then budget.value else FULL_BUDGET;
    Min(Clamp(current - Clamp(sections * 20)), Clamp(clientAvailable * 20))
  }

  predicate WithinBudget(current: i32) { current >= -FULL_BUDGET }

  // ----- the handshake -----

  function Updated(p: Player, restrictions: seq<byte>): Outcome {
    if p.restrictions == Some(restrictions) then Outcome(p, [])
    else Outcome(p.(restrictions := Some(restrictions)), [SendRestrictions(restrictions)])
  }

  function Activated(p: Player, restrictions: seq<byte>): Outcome {
    var on := p.(active := true, pending := None, restrictions := None, tunnel := State([], false));
    var updated := Updated(on, restrictions);
    Outcome(updated.player, [SendEnable(true), SendAnnotations] + updated.outputs + [SendWorldProperties])
  }

  /** What the host answers while one message is handled: whether the player may use the
      plugin, whether its block ids can be translated, its restrictions, and what a
      handler other than the handshake does to the state: nothing, or nothing before it
      gives up on the packet, or what the buffer and trigger handlers do. */
  datatype Host = Host(canUse: bool, supported: bool, restrictions: seq<byte>, effect: Effect)

  datatype Effect = NoEffect | Fails | ChargeBuffer(sections: SectionCount, clientAvailable: i32) | SetTrigger(enabled: bool)

  datatype Hello = Hello(version: i32, token: i64)

  /** The fields of a handshake; what follows them is ignored. */
  function HelloOf(body: seq<byte>): Result<Hello> {
    var version :- VarI32At(body, 0);
    var dataVersion :- VarI32At(body, version.end);
    var protocol :- VarI32At(body, dataVersion.end);
    var token :- I64At(body, protocol.end);
    Ok(Hello(version.value, token.value))
  }

  function Greeted(p: Player, body: seq<byte>, host: Host): Outcome {
    match HelloOf(body)
    case Err(_) => Outcome(p, [Kick])
    case Ok(hello) =>
      if hello.version != API_VERSION then Outcome(p, [SendGoodbye, Kick])
      else if p.pending != Some(hello.token) then Outcome(p, [SendGoodbye])
      else if !host.canUse || !host.supported then Outcome(p.(pending := None), [SendGoodbye])
      else Activated(p.(pending := None), host.restrictions)
  }

  function HelloId(): seq<byte> { Ascii("axiom:hello") }

  function TunnelId(): seq<byte> { Ascii("axiom:tunnel") }

  /** Routes a packet; all but the handshake need an active player. */
  function Dispatched(p: Player, id: seq<byte>, body: seq<byte>, host: Host): Outcome {
    if id == HelloId() then Greeted(p, body, host)
    else if !p.active then Outcome(p, [])
    else
      match host.effect
      case NoEffect => Outcome(p, [])
      case Fails => Outcome(p, [Kick])
      case SetTrigger(enabled) => Outcome(p.(noPhysicalTrigger := enabled), [])
      case ChargeBuffer(sections, available) =>
        var current := Charged(p.budget, sections, available);
        Outcome(p.(budget := Some(current)), if WithinBudget(current) then [] else [Kick])
  }

  function Received(p: Player, channel: seq<byte>, data: seq<byte>, host: Host, inflate: Inflate): Outcome {
    if channel == TunnelId() then
      if !p.active then Outcome(p, [])
      else
        var step := Pushed(p.tunnel, data, inflate);
        var next := p.(tunnel := step.state);
        match step.outcome
        case NoPacket => Outcome(next, [])
        case Failed(_) => Outcome(next, [Kick])
        case Complete(packet) => Dispatched(next, packet.id, packet.body, host)
    else Dispatched(p, channel, data, host)
  }

  function Ticked(p: Player, slow: bool, canUse: bool, token: i64, restrictions: seq<byte>): Outcome
    requires p.budget.Some? ==> p.budget.value <= FULL_BUDGET
  {
    if !slow then
      if p.active then ToppedUp(p) else Outcome(p, [])
    else if p.active then
      if canUse then
        var topped := ToppedUp(p);
        var updated := Updated(topped.player, restrictions);
        Outcome(updated.player, topped.outputs + updated.outputs)
      else Outcome(Fresh(), [SendEnable(false)])
    else if canUse then
      if p.pending.None? then Outcome(p.(pending := Some(token), toldDisabled := false), [SendHello(token)])
      else Outcome(p, [])
    else if !p.toldDisabled then Outcome(p.(toldDisabled := true, pending := None), [SendGoodbye])
    else Outcome(p, [])
  }

  // ----- runs -----

  datatype Event =
    | Tick(slow: bool, canUse: bool, token: i64, restrictions: seq<byte>)
    | Payload(channel: seq<byte>, data: seq<byte>, host: Host)
    /** The slow tick that finds the player gone drops what is kept for it. */
    | Left

  function Step(p: Player, e: Event, inflate: Inflate): Outcome
    requires Sound(p)
  {
    match e
    case Tick(slow, canUse, token, restrictions) => Ticked(p, slow, canUse, token, restrictions)
    case Payload(channel, data, host) => Received(p, channel, data, host, inflate)
    case Left => Outcome(Fresh(), [])
  }

  /** What holds after every run: an active player has no offer pending, an inactive one
      has an untouched tunnel and no budget, and the budget stays below its cap. */
  predicate Sound(p: Player) {
    && (p.active ==> p.pending.None?)
    && (!p.active ==> p.tunnel == State([], false) && p.budget.None?)
    && Bounded(p.tunnel)
    && (p.budget.Some? ==> p.budget.value <= FULL_BUDGET)
  }

  lemma StepKeepsSound(p: Player, e: Event, inflate: Inflate)
    requires Sound(p)
    ensures Sound(Step(p, e, inflate).player)
  {
    hide HelloId, TunnelId, Pushed, Dispatched, Bounded, ToppedUp;
    match e
    case Tick(slow, canUse, _, restrictions) =>
      NewTunnelIsBounded();
      TopUpKeepsSound(p);
    case Payload(channel, data, host) =>
      DispatchKeepsSound(p, channel, data, host);
      if channel == TunnelId() && p.active {
        PushKeepsBounded(p.tunnel, data, inflate);
        var step := Pushed(p.tunnel, data, inflate);
        if step.outcome.Complete? {
          DispatchKeepsSound(p.(tunnel := step.state), step.outcome.packet.id, step.outcome.packet.body, host);
        }
      }
    case Left => NewTunnelIsBounded();
  }

  lemma NewTunnelIsBounded()
    ensures Bounded(State([], false))
  {
  }

  lemma TopUpKeepsSound(p: Player)
    requires Sound(p)
    ensures ToppedUp(p).player == p.(budget := ToppedUp(p).player.budget)
    ensures ToppedUp(p).player.budget.Some? && ToppedUp(p).player.budget.value <= FULL_BUDGET
  {
    hide TruncDiv;
  }

  lemma DispatchKeepsSound(p: Player, id: seq<byte>, body: seq<byte>, host: Host)
    requires Sound(p)
    ensures Sound(Dispatched(p, id, body, host).player)
  {
    hide HelloId, HelloOf, Bounded;
    NewTunnelIsBounded();
  }

  lemma PushKeepsBounded(s: State, frame: seq<byte>, inflate: Inflate)
    requires Bounded(s)
    ensures Bounded(Pushed(s, frame, inflate).state)
  {
    hide Decoded;
  }

  /** The packet a message carries, once the tunnel is done with it. */
  function PacketOf(p: Player, e: Event, inflate: Inflate): Option<Packet> {
    if !e.Payload? then None
    else if e.channel != TunnelId() then Some(Packet(e.channel, e.data))
    else if !p.active then None
    else
      match Pushed(p.tunnel, e.data, inflate).outcome
      case Complete(packet) => Some(packet)
      case _ => None
  }

  /** The message echoes the offer that is pending, in the right version. */
  predicate Echoes(p: Player, e: Event, token: i64, inflate: Inflate) {
    var packet := PacketOf(p, e, inflate);
    packet.Some? && packet.value.id == HelloId() && HelloOf(packet.value.body) == Ok(Hello(API_VERSION, token))
    && p.pending == Some(token)
  }

  predicate Offers(p: Player, e: Event, token: i64) {
    e.Tick? && e.slow && !p.active && e.canUse && p.pending.None? && e.token == token
  }

  /** A player becomes active exactly when it echoes the pending offer, may use the
      plugin and speaks a supported version; it is then clean: no offer, an empty tunnel. */
  lemma ActivationNeedsEcho(p: Player, e: Event, inflate: Inflate)
    requires Sound(p) && !p.active
    ensures Step(p, e, inflate).player.active
       <==> p.pending.Some? && Echoes(p, e, p.pending.value, inflate) && e.host.canUse && e.host.supported
  {
    hide HelloOf, HelloId, TunnelId, Pushed;
  }

  /** Nothing an inactive player sends moves its tunnel, its budget or its flag, unless
      it activates the player. */
  lemma InactiveIsUntouched(p: Player, e: Event, inflate: Inflate)
    requires Sound(p) && !p.active && !Step(p, e, inflate).player.active && e.Payload?
    ensures var q := Step(p, e, inflate).player;
      q.tunnel == p.tunnel && q.budget == p.budget && q.noPhysicalTrigger == p.noPhysicalTrigger
      && (q.pending == p.pending || q.pending.None?)
  {
    hide HelloOf, HelloId, TunnelId, Pushed;
  }

  function After(events: seq<Event>, inflate: Inflate): (p: Player)
    ensures Sound(p)
  {
    if events == [] then Fresh()
    else
      var n := |events| - 1;
      var p := After(events[..n], inflate);
      StepKeepsSound(p, events[n], inflate);
      Step(p, events[n], inflate).player
  }

  function OffersOf(events: seq<Event>, token: i64, inflate: Inflate): nat {
    if events == [] then 0
    else
      var n := |events| - 1;
      OffersOf(events[..n], token, inflate) + if Offers(After(events[..n], inflate), events[n], token) then 1 else 0
  }

  function AcceptsOf(events: seq<Event>, token: i64, inflate: Inflate): nat {
    if events == [] then 0
    else
      var n := |events| - 1;
      AcceptsOf(events[..n], token, inflate) + if Echoes(After(events[..n], inflate), events[n], token, inflate) then 1 else 0
  }

  /** In any run a token is accepted at most as often as it was offered, and an offer that
      is still pending has not been used up: each offer works once. */
  lemma {:induction false} EachOfferWorksOnce(events: seq<Event>, token: i64, inflate: Inflate)
    ensures AcceptsOf(events, token, inflate) + (if After(events, inflate).pending == Some(token) then 1 else 0)
         <= OffersOf(events, token, inflate)
    decreases |events|
  {
    hide Sound, Step, Echoes;
    if events != [] {
      var n := |events| - 1;
      EachOfferWorksOnce(events[..n], token, inflate);
      PendingStep(After(events[..n], inflate), events[n], token, inflate);
    }
  }

  lemma PendingStep(p: Player, e: Event, token: i64, inflate: Inflate)
    requires Sound(p)
    ensures var q := Step(p, e, inflate).player;
      (Echoes(p, e, token, inflate) ==> p.pending == Some(token) && q.pending != Some(token))
      && (q.pending == Some(token) ==> p.pending == Some(token) || Offers(p, e, token))
      && (Offers(p, e, token) ==> !Echoes(p, e, token, inflate) && p.pending != Some(token))
  {
    hide HelloOf, HelloId, TunnelId, Pushed;
  }

  // ----- the budget over runs -----

  datatype Spend = TopUp | Buffer(sections: SectionCount, clientAvailable: i32)

  function SpendStep(budget: Option<i32>, s: Spend): (r: Option<i32>)
    requires budget.Some? ==> budget.value <= FULL_BUDGET
    ensures r.Some? && r.value <= FULL_BUDGET
  {
    match s
    case TopUp => ToppedUp(Fresh().(budget := budget)).player.budget
    case Buffer(sections, available) => Some(Charged(budget, sections, available))
  }

  function SpendAll(budget: Option<i32>, run: seq<Spend>): (r: Option<i32>)
    requires budget.Some? ==> budget.value <= FULL_BUDGET
    ensures r.Some? ==> r.value <= FULL_BUDGET
  {
    if run == [] then budget else SpendStep(SpendAll(budget, run[..|run| - 1]), run[|run| - 1])
  }

  predicate Accepted(budget: Option<i32>, s: Spend) {
    s.Buffer? && WithinBudget(Charged(budget, s.sections, s.clientAvailable))
  }

  function Effective(budget: Option<i32>): i32 {
    if budget.Some? then budget.value else FULL_BUDGET
  }

  /** What a buffer does to a budget, in plain numbers.  It is within the limit exactly if
      neither what the server counts as left nor what the client says it has left is below
      minus a full budget; the smaller of the two is kept, the charge cut off at the largest
      and either figure at the ends of 32 bits. */
  lemma ChargeMeaning(budget: Option<i32>, sections: SectionCount, available: i32)
    requires Effective(budget) <= 20480
    ensures WithinBudget(Charged(budget, sections, available))
       <==> Effective(budget) - 20 * sections >= -20480 && 20 * available >= -20480
    ensures var charge := if 20 * sections > 0x7FFF_FFFF then 0x7FFF_FFFF else 20 * sections;
      var left := if Effective(budget) - charge < -0x8000_0000 then -0x8000_0000 else Effective(budget) - charge;
      var client := if 20 * available < -0x8000_0000 then -0x8000_0000
        else if 20 * available > 0x7FFF_FFFF then 0x7FFF_FFFF else 20 * available;
      Charged(budget, sections, available) == if left < client then left else client
  {
  }

  /** Nothing that is accepted saturates: what remains is the exact difference, or what
      the client says it has left if that is less. */
  lemma AcceptedIsExact(budget: Option<i32>, sections: SectionCount, available: i32)
    requires Effective(budget) <= FULL_BUDGET
    requires WithinBudget(Charged(budget, sections, available))
    ensures var left := Effective(budget) - 20 * sections;
      Charged(budget, sections, available) == (if left < 20 * available then left else 20 * available)
  {
  }

  function TopUps(run: seq<Spend>): nat {
    if run == [] then 0 else TopUps(run[..|run| - 1]) + if run[|run| - 1].TopUp? then 1 else 0
  }

  /** The sections of the buffers that were accepted. */
  function AcceptedSections(budget: Option<i32>, run: seq<Spend>): int
    requires budget.Some? ==> budget.value <= FULL_BUDGET
  {
    if run == [] then 0
    else
      var n := |run| - 1;
      AcceptedSections(budget, run[..n]) + if Accepted(SpendAll(budget, run[..n]), run[n]) then run[n].sections else 0
  }

  /** The rate limit: within one activation, a player has at most two full budgets of
      sections accepted, and one tick's worth for every top-up. */
  lemma {:induction false} RateLimit(budget: Option<i32>, run: seq<Spend>)
    requires budget.Some? ==> budget.value <= FULL_BUDGET
    ensures 20 * AcceptedSections(budget, run) + Effective(SpendAll(budget, run)) <= FULL_BUDGET + 1024 * TopUps(run)
    ensures 20 * AcceptedSections(budget, run) <= 2 * FULL_BUDGET + 1024 * TopUps(run)
    decreases |run|
  {
    if run != [] {
      var n := |run| - 1;
      RateLimit(budget, run[..n]);
      var before := SpendAll(budget, run[..n]);
      if Accepted(before, run[n]) {
        AcceptedIsExact(before, run[n].sections, run[n].clientAvailable);
      }
    }
  }

  function RunFrom(p: Player, events: seq<Event>, inflate: Inflate): (q: Player)
    requires Sound(p)
    ensures Sound(q)
  {
    if events == [] then p
    else
      var n := |events| - 1;
      var before := RunFrom(p, events[..n], inflate);
      StepKeepsSound(before, events[n], inflate);
      Step(before, events[n], inflate).player
  }

  predicate StaysActive(p: Player, events: seq<Event>, inflate: Inflate)
    requires Sound(p)
  {
    forall i :: 0 <= i <= |events| ==> RunFrom(p, events[..i], inflate).active
  }

  /** What one event of an active player does to its budget. */
  function SpendOf(p: Player, e: Event, inflate: Inflate): seq<Spend> {
    if e.Tick? then [TopUp]
    else
      match PacketOf(p, e, inflate)
      case None => []
      case Some(packet) =>
        if packet.id != HelloId() && e.host.effect.ChargeBuffer?
        then [Buffer(e.host.effect.sections, e.host.effect.clientAvailable)] else []
  }

  function SpendsOf(p: Player, events: seq<Event>, inflate: Inflate): seq<Spend>
    requires Sound(p)
  {
    if events == [] then []
    else
      var n := |events| - 1;
      SpendsOf(p, events[..n], inflate) + SpendOf(RunFrom(p, events[..n], inflate), events[n], inflate)
  }

  lemma StepSpends(p: Player, e: Event, inflate: Inflate)
    requires Sound(p) && p.active && Step(p, e, inflate).player.active
    ensures SpendOf(p, e, inflate) == [] ==> Step(p, e, inflate).player.budget == p.budget
    ensures |SpendOf(p, e, inflate)| <= 1
    ensures SpendOf(p, e, inflate) != [] ==>
      Step(p, e, inflate).player.budget == SpendStep(p.budget, SpendOf(p, e, inflate)[0])
  {
    hide HelloOf, HelloId, TunnelId, Pushed, TruncDiv, Charged;
  }

  /** For as long as a player stays active, top-ups and buffers are all that moves its
      budget; so the rate limit holds of every stretch of events within one activation. */
  lemma {:induction false} BudgetFollowsSpends(p: Player, events: seq<Event>, inflate: Inflate)
    requires Sound(p) && StaysActive(p, events, inflate)
    ensures RunFrom(p, events, inflate).budget == SpendAll(p.budget, SpendsOf(p, events, inflate))
    ensures var run := SpendsOf(p, events, inflate);
      20 * AcceptedSections(p.budget, run) <= 2 * FULL_BUDGET + 1024 * TopUps(run)
    decreases |events|
  {
    hide Step, SpendOf, SpendStep;
    RateLimit(p.budget, SpendsOf(p, events, inflate));
    if events != [] {
      var n := |events| - 1;
      assert forall i :: 0 <= i <= n ==> events[..n][..i] == events[..i];
      BudgetFollowsSpends(p, events[..n], inflate);
      var before, spends := RunFrom(p, events[..n], inflate), SpendsOf(p, events[..n], inflate);
      assert events[..|events|] == events;
      assert RunFrom(p, events[..n], inflate).active && RunFrom(p, events[..|events|], inflate).active;
      StepSpends(before, events[n], inflate);
      var last := SpendOf(before, events[n], inflate);
      if last == [] {
        assert spends + last == spends;
      } else {
        assert (spends + last)[..|spends|] == spends;
      }
    }
  }

  /** The sum of what a run of top-ups announces. */
  function Announced(outputs: seq<Output>): int {
    if outputs == [] then 0
    else
      var last := outputs[|outputs| - 1];
      Announced(outputs[..|outputs| - 1]) + if last.SendDispatch? then last.add else 0
  }

  function TopUpTimes(p: Player, n: nat): (r: Outcome)
    requires p.budget.Some? ==> p.budget.value <= FULL_BUDGET
    ensures r.player.budget.Some? ==> r.player.budget.value <= FULL_BUDGET
  {
    if n == 0 then Outcome(p, [])
    else
      var before := TopUpTimes(p, n - 1);
      var last := ToppedUp(before.player);
      Outcome(last.player, before.outputs + last.outputs)
  }

  /** Consecutive top-ups announce exactly the change in whole sections, whatever the
      budget was, also while it is below zero. */
  lemma {:induction false} AnnouncementsAddUp(p: Player, n: nat)
    requires p.budget.Some? && p.budget.value <= FULL_BUDGET
    ensures TopUpTimes(p, n).player.budget.Some?
    ensures Announced(TopUpTimes(p, n).outputs)
         == TruncDiv(TopUpTimes(p, n).player.budget.value, 20) - TruncDiv(p.budget.value, 20)
    decreases n
  {
    hide TruncDiv;
    if n > 0 {
      AnnouncementsAddUp(p, n - 1);
      var before := TopUpTimes(p, n - 1);
      var last := ToppedUp(before.player);
      if last.outputs != [] {
        assert (before.outputs + last.outputs)[..|before.outputs|] == before.outputs;
      } else {
        assert before.outputs + last.outputs == before.outputs;
      }
    } else {
      assert Announced([]) == 0;
    }
  }

  /** Topping up long enough always restores the full budget. */
  lemma {:induction false} BudgetRecovers(p: Player, n: nat)
    requires p.budget.Some? && -FULL_BUDGET <= p.budget.value <= FULL_BUDGET && n >= 40
    ensures TopUpTimes(p, n).player.budget == Some(FULL_BUDGET)
  {
    TopUpValue(p, n);
  }

  lemma {:induction false} TopUpValue(p: Player, n: nat)
    requires p.budget.Some? && p.budget.value <= FULL_BUDGET
    ensures TopUpTimes(p, n).player.budget.Some?
    ensures TopUpTimes(p, n).player.budget.value
         == if p.budget.value + 1024 * n < FULL_BUDGET then p.budget.value + 1024 * n else FULL_BUDGET
    decreases n
  {
    hide TruncDiv;
    if n > 0 { TopUpValue(p, n - 1); }
  }

  // ----- the state as the server keeps it -----

  class PlayerState {
    const tunnel: Tunnel
    var active: bool
    var pendingHandshake: Option<i64>
    var toldDisabled: bool
    var restrictions: Option<seq<byte>>
    var dispatchSends20: Option<i32>
    var noPhysicalTrigger: bool
    var outputs: seq<Output>

    ghost function View(): Player
      reads this, tunnel
    {
      Player(tunnel.View(), active, pendingHandshake, toldDisabled, restrictions, dispatchSends20, noPhysicalTrigger)
    }

    /** The state and what was sent are those of a step. */
    twostate predicate Took(outcome: Outcome)
      reads this, tunnel
    {
      View() == outcome.player && outputs == old(outputs) + outcome.outputs
    }

    constructor ()
      ensures View() == Fresh() && outputs == [] && fresh(tunnel)
    {
      tunnel := new Tunnel();
      active := false;
      pendingHandshake := None;
      toldDisabled := false;
      restrictions := None;
      dispatchSends20 := None;
      noPhysicalTrigger := false;
      outputs := [];
    }

    method Send(o: Output)
      modifies this`outputs
      ensures outputs == old(outputs) + [o]
    {
      outputs := outputs + [o];
    }

    method TopUpDispatchSends()
      requires dispatchSends20.Some? ==> dispatchSends20.value <= FULL_BUDGET
      modifies this`dispatchSends20, this`outputs
      ensures Took(ToppedUp(old(View())))
    {
      var allowed := DISPATCH_SENDS_PER_SECOND;
      match dispatchSends20 {
        case None =>
          dispatchSends20 := Some(allowed * 20);
          Send(SendDispatch(allowed, allowed));
        case Some(previous) =>
          var updated := Min(previous + allowed, allowed * 20);
          dispatchSends20 := Some(updated);
          var add := TruncDiv(updated, 20) - TruncDiv(previous, 20);
          if TruncDiv(previous, 20) != TruncDiv(updated, 20) {
            Send(SendDispatch(add, allowed));
          }
      }
    }

    method ConsumeDispatchSends(sections: SectionCount, clientAvailable: i32) returns (within: bool)
      modifies this`dispatchSends20
      ensures View() == old(View()).(budget := Some(Charged(old(dispatchSends20), sections, clientAvailable)))
      ensures within == WithinBudget(Charged(old(dispatchSends20), sections, clientAvailable))
    {
      var allowed := DISPATCH_SENDS_PER_SECOND;
      var current: i32 := if dispatchSends20.Some? then dispatchSends20.value else allowed * 20;
      current := Clamp(current - Clamp(sections * 20));
      current := Min(current, Clamp(clientAvailable * 20));
      dispatchSends20 := Some(current);
      within := current >= -(allowed * 20);
    }

    method UpdateRestrictions(computed: seq<byte>)
      modifies this`restrictions, this`outputs
      ensures Took(Updated(old(View()), computed))
    {
      if restrictions == Some(computed) { return; }
      Send(SendRestrictions(computed));
      restrictions := Some(computed);
    }

    method Clear()
      modifies this, tunnel
      ensures View() == Fresh() && outputs == old(outputs)
    {
      tunnel.Reset();
      active, pendingHandshake, toldDisabled := false, None, false;
      restrictions, dispatchSends20, noPhysicalTrigger := None, None, false;
    }

    method Tick(slow: bool, canUse: bool, token: i64, computed: seq<byte>)
      requires dispatchSends20.Some? ==> dispatchSends20.value <= FULL_BUDGET
      modifies this, tunnel
      ensures Took(Ticked(old(View()), slow, canUse, token, computed))
    {
      if !slow {
        if active { TopUpDispatchSends(); }
        return;
      }
      if active {
        if canUse {
          TopUpDispatchSends();
          UpdateRestrictions(computed);
        } else {
          Send(SendEnable(false));
          Clear();
        }
        return;
      }
      if canUse {
        if pendingHandshake.None? {
          pendingHandshake := Some(token);
          toldDisabled := false;
          Send(SendHello(token));
        }
      } else if !toldDisabled {
        toldDisabled := true;
        pendingHandshake := None;
        Send(SendGoodbye);
      }
    }

    method Activate(computed: seq<byte>)
      modifies this, tunnel
      ensures Took(Activated(old(View()), computed))
    {
      Send(SendEnable(true));
      active := true;
      pendingHandshake := None;
      restrictions := None;
      tunnel.Reset();
      Send(SendAnnotations);
      UpdateRestrictions(computed);
      Send(SendWorldProperties);
    }

    method HandleHello(body: seq<byte>, host: Host)
      modifies this, tunnel
      ensures Took(Greeted(old(View()), body, host))
    {
      hide HelloOf;
      var hello := ReadHello(body);
      if hello.Err? {
        Send(Kick);
        return;
      }
      if hello.value.version != API_VERSION {
        Send(SendGoodbye);
        Send(Kick);
        return;
      }
      if pendingHandshake != Some(hello.value.token) {
        Send(SendGoodbye);
        return;
      }
      pendingHandshake := None;
      if !host.canUse || !host.supported {
        Send(SendGoodbye);
        return;
      }
      Activate(host.restrictions);
    }

    method Dispatch(id: seq<byte>, body: seq<byte>, host: Host)
      modifies this, tunnel
      ensures Took(Dispatched(old(View()), id, body, host))
    {
      hide Greeted;
      if id == HelloId() {
        HandleHello(body, host);
        return;
      }
      if !active { return; }
      match host.effect {
        case NoEffect =>
        case Fails =>
          Send(Kick);
        case SetTrigger(enabled) =>
          noPhysicalTrigger := enabled;
        case ChargeBuffer(sections, available) =>
          var within := ConsumeDispatchSends(sections, available);
          if !within { Send(Kick); }
      }
    }

    method OnPayload(channel: seq<byte>, data: seq<byte>, host: Host, inflate: Inflate)
      modifies this, tunnel
      ensures Took(Received(old(View()), channel, data, host, inflate))
    {
      hide Dispatched, Pushed;
      if channel == TunnelId() {
        if !active { return; }
        var outcome := tunnel.Push(data, inflate);
        match outcome {
          case NoPacket =>
          case Failed(_) => Send(Kick);
          case Complete(packet) => Dispatch(packet.id, packet.body, host);
        }
        return;
      }
      Dispatch(channel, data, host);
    }
  }

  method ReadHello(body: seq<byte>) returns (r: Result<Hello>)
    ensures r == HelloOf(body)
  {
    hide VarI32At, I64At;
    var reader := new Reader(body);
    var version :- reader.VarI32();
    var dataVersion :- reader.VarI32();
    var protocol :- reader.VarI32();
    var token :- reader.I64();
    r := Ok(Hello(version, token));
  }
}
