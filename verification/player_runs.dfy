/**
  What the client of a player knows, over whole runs: whether the plugin is on, what it may
  do, and what is offered to it.  Also the greeting as a client writes it, and that the
  tunnel is only a way of sending packets.
 */
module PlayerRuns {
  import opened Bytes
  import opened Buf
  import opened ZstdRaw
  import Tunnels
  import opened PlayerStates

  // ----- the greeting -----

  /** Three numbers and the token; the first is the version of the protocol. */
  function HelloBytes(version: i32, dataVersion: i32, protocol: i32, token: i64): seq<byte> {
    VarI32Bytes(version) + (VarI32Bytes(dataVersion) + (VarI32Bytes(protocol) + I64Bytes(token)))
  }

  lemma HelloReads(version: i32, dataVersion: i32, protocol: i32, token: i64, body: seq<byte>)
    requires At(body, 0, HelloBytes(version, dataVersion, protocol, token))
    ensures HelloOf(body) == Ok(Hello(version, token))
  {
    hide VarI32Bytes, VarI32At, I64Bytes, I64At;
    var a, b, c := VarI32Bytes(version), VarI32Bytes(dataVersion), VarI32Bytes(protocol);
    AtConcat(body, 0, a, b + (c + I64Bytes(token)));
    AtConcat(body, |a|, b, c + I64Bytes(token));
    AtConcat(body, |a| + |b|, c, I64Bytes(token));
    VarI32Inverse(body, 0, version);
    VarI32Inverse(body, |a|, dataVersion);
    VarI32Inverse(body, |a| + |b|, protocol);
    I64Inverse(body, |a| + |b| + |c|, token);
  }

  /** A player that was made an offer, may use the plugin and can be supported is let in by
      a greeting of version 10 with the token, and by no other greeting. */
  lemma GreetingLetsIn(p: Player, version: i32, dataVersion: i32, protocol: i32, token: i64, host: Host, inflate: Inflate)
    requires Sound(p) && !p.active && host.canUse && host.supported
    ensures var hello := HelloBytes(version, dataVersion, protocol, token);
      Step(p, Payload(HelloId(), hello, host), inflate).player.active <==> version == 10 && p.pending == Some(token)
  {
    hide HelloOf, HelloBytes, HelloId, TunnelId, Tunnels.Pushed;
    var hello := HelloBytes(version, dataVersion, protocol, token);
    assert At(hello, 0, hello) by { assert hello[0..0 + |hello|] == hello; }
    HelloReads(version, dataVersion, protocol, token, hello);
    ChannelsDiffer();
  }

  /** What else a greeting can come to.  The wrong version is shown the door with its offer
      still good; the wrong token is told so, and nothing changes; the right token is used
      up, also by a player who may not use the plugin or cannot be supported. */
  lemma GreetingRefusals(p: Player, version: i32, dataVersion: i32, protocol: i32, token: i64, host: Host)
    ensures var after := Greeted(p, HelloBytes(version, dataVersion, protocol, token), host);
      && (version != 10 ==> after == Outcome(p, [SendGoodbye, Kick]))
      && (version == 10 && p.pending != Some(token) ==> after == Outcome(p, [SendGoodbye]))
      && (version == 10 && p.pending == Some(token) && !(host.canUse && host.supported) ==>
            after == Outcome(p.(pending := None), [SendGoodbye]))
  {
    hide HelloOf, HelloBytes;
    var hello := HelloBytes(version, dataVersion, protocol, token);
    assert At(hello, 0, hello) by { assert hello[0..0 + |hello|] == hello; }
    HelloReads(version, dataVersion, protocol, token, hello);
  }

  lemma ChannelsDiffer()
    ensures HelloId() != TunnelId()
  {
    assert HelloId()[6] != TunnelId()[6];
  }

  // ----- the tunnel -----

  /** For an active player, a packet in a frame of the tunnel does what the packet itself
      does. */
  lemma TunnelIsTransparent(p: Player, id: seq<byte>, declared: i32, body: seq<byte>, host: Host, inflate: Inflate)
    requires p.active && id != TunnelId()
    requires |id| <= 32767 * 3 && ValidUtf8(id) && 0 <= declared <= 0x20_0000
    requires |Tunnels.PacketBytes(id, declared, 0, body)| < 31000
    ensures Received(p, TunnelId(), [3] + Tunnels.PacketBytes(id, declared, 0, body), host, inflate)
         == Received(p, id, body, host, inflate)
  {
    hide Tunnels.Pushed, Tunnels.PacketBytes, Tunnels.Decoded, Dispatched, TunnelId, ValidUtf8;
    Tunnels.PacketDecodes(id, declared, 0, body, inflate);
    Tunnels.PushFirst(p.tunnel, Tunnels.PacketBytes(id, declared, 0, body), inflate);
  }

  /** A frame that fails in the tunnel gets its player kicked, and only the tunnel notices. */
  lemma TunnelFailureKicks(p: Player, frame: seq<byte>, host: Host, inflate: Inflate)
    requires p.active && Tunnels.Pushed(p.tunnel, frame, inflate).outcome.Failed?
    ensures Received(p, TunnelId(), frame, host, inflate)
         == Outcome(p.(tunnel := Tunnels.Pushed(p.tunnel, frame, inflate).state), [Kick])
  {
    hide Tunnels.Pushed, TunnelId;
  }

  // ----- what the client has been told -----

  /** Whether the plugin is on, and what the client may do with it. */
  datatype Known = Known(on: bool, restrictions: Option<seq<byte>>)

  function Told(known: Known, outputs: seq<Output>): Known {
    if outputs == [] then known
    else
      var n := |outputs| - 1;
      var before := Told(known, outputs[..n]);
      match outputs[n]
      case SendEnable(on) => Known(on, None)
      case SendRestrictions(restrictions) => before.(restrictions := Some(restrictions))
      case _ => before
  }

  /** The client believes what the server keeps. */
  predicate Agrees(p: Player, known: Known) {
    known.on == p.active && (p.active ==> p.restrictions.Some? && known.restrictions == p.restrictions)
  }

  lemma {:induction false} ToldConcat(known: Known, a: seq<Output>, b: seq<Output>)
    ensures Told(known, a + b) == Told(Told(known, a), b)
    decreases |b|
  {
    if b == [] {
      assert a + b == a;
    } else {
      var n := |b| - 1;
      assert (a + b)[..|a| + n] == a + b[..n];
      ToldConcat(known, a, b[..n]);
    }
  }

  lemma ToldOne(known: Known, o: Output)
    ensures Told(known, [o]) == match o
      case SendEnable(on) => Known(on, None)
      case SendRestrictions(restrictions) => known.(restrictions := Some(restrictions))
      case _ => known
  {
    assert Told(known, [o][..0]) == known;
  }

  lemma UpdateKeepsAgreement(p: Player, known: Known, restrictions: seq<byte>)
    requires p.active && known.on && known.restrictions == p.restrictions
    ensures var updated := Updated(p, restrictions);
      Agrees(updated.player, Told(known, updated.outputs)) && updated.player.restrictions == Some(restrictions)
  {
    ToldOne(known, SendRestrictions(restrictions));
  }

  lemma TopUpTellsNothing(p: Player, known: Known)
    requires Sound(p)
    ensures Told(known, ToppedUp(p).outputs) == known && ToppedUp(p).player == p.(budget := ToppedUp(p).player.budget)
  {
    hide TruncDiv;
    var outputs := ToppedUp(p).outputs;
    if outputs != [] {
      assert outputs == [outputs[0]];
      ToldOne(known, outputs[0]);
    }
  }

  lemma ActivationAgrees(p: Player, known: Known, restrictions: seq<byte>)
    ensures var activated := Activated(p, restrictions);
      Agrees(activated.player, Told(known, activated.outputs)) && activated.player.restrictions == Some(restrictions)
  {
    var enabled := p.(active := true, pending := None, restrictions := None, tunnel := Tunnels.State([], false));
    var updated := Updated(enabled, restrictions);
    var first := [SendEnable(true), SendAnnotations];
    ToldOne(known, SendEnable(true));
    ToldOne(Known(true, None), SendAnnotations);
    assert first == [SendEnable(true)] + [SendAnnotations];
    ToldConcat(known, [SendEnable(true)], [SendAnnotations]);
    UpdateKeepsAgreement(enabled, Known(true, None), restrictions);
    ToldConcat(known, first, updated.outputs);
    ToldConcat(known, first + updated.outputs, [SendWorldProperties]);
    ToldOne(Told(known, first + updated.outputs), SendWorldProperties);
  }

  lemma DispatchKeepsAgreement(p: Player, known: Known, id: seq<byte>, body: seq<byte>, host: Host)
    requires Agrees(p, known)
    ensures var after := Dispatched(p, id, body, host); Agrees(after.player, Told(known, after.outputs))
  {
    hide HelloOf, HelloId, Activated, Charged;
    var after := Dispatched(p, id, body, host);
    ActivationAgrees(p.(pending := None), known, host.restrictions);
    ToldOne(known, Kick);
    ToldOne(known, SendGoodbye);
    ToldConcat(known, [SendGoodbye], [Kick]);
    assert [SendGoodbye] + [Kick] == [SendGoodbye, Kick];
  }

  lemma TickKeepsAgreement(p: Player, known: Known, slow: bool, canUse: bool, token: i64, restrictions: seq<byte>)
    requires Sound(p) && Agrees(p, known)
    ensures var after := Ticked(p, slow, canUse, token, restrictions); Agrees(after.player, Told(known, after.outputs))
  {
    hide ToppedUp, Updated;
    TopUpTellsNothing(p, known);
    var topped := ToppedUp(p);
    if p.active && slow && canUse {
      var updated := Updated(topped.player, restrictions);
      UpdateKeepsAgreement(topped.player, known, restrictions);
      ToldConcat(known, topped.outputs, updated.outputs);
    }
    ToldOne(known, SendEnable(false));
    ToldOne(known, SendHello(token));
    ToldOne(known, SendGoodbye);
  }

  lemma StepKeepsAgreement(p: Player, known: Known, e: Event, inflate: Inflate)
    requires Sound(p) && Agrees(p, known) && !e.Left?
    ensures var after := Step(p, e, inflate); Agrees(after.player, Told(known, after.outputs))
  {
    hide Dispatched, Ticked, Tunnels.Pushed, TunnelId, Sound;
    match e
    case Tick(slow, canUse, token, restrictions) =>
      TickKeepsAgreement(p, known, slow, canUse, token, restrictions);
    case Payload(channel, data, host) =>
      ToldOne(known, Kick);
      if channel != TunnelId() {
        DispatchKeepsAgreement(p, known, channel, data, host);
      } else if p.active {
        var step := Tunnels.Pushed(p.tunnel, data, inflate);
        if step.outcome.Complete? {
          DispatchKeepsAgreement(p.(tunnel := step.state), known, step.outcome.packet.id, step.outcome.packet.body, host);
        }
      }
  }

  /** What a client knows after a run; one that comes back starts knowing nothing. */
  function KnownAfter(events: seq<Event>, inflate: Inflate): Known {
    if events == [] then Known(false, None)
    else
      var n := |events| - 1;
      if events[n].Left? then Known(false, None)
      else Told(KnownAfter(events[..n], inflate), Step(After(events[..n], inflate), events[n], inflate).outputs)
  }

  /** Over every run the client has the plugin on exactly while the player is active, and
      then knows exactly the restrictions the server holds it to. */
  lemma {:induction false} ClientAgrees(events: seq<Event>, inflate: Inflate)
    ensures Agrees(After(events, inflate), KnownAfter(events, inflate))
    decreases |events|
  {
    hide Step, Told, Agrees;
    if events != [] {
      var n := |events| - 1;
      ClientAgrees(events[..n], inflate);
      if events[n].Left? {
        StartsAgreed(After(events[..n], inflate), inflate);
      } else {
        StepKeepsAgreement(After(events[..n], inflate), KnownAfter(events[..n], inflate), events[n], inflate);
      }
    } else {
      StartsAgreed(Fresh(), inflate);
    }
  }

  lemma StartsAgreed(p: Player, inflate: Inflate)
    requires Sound(p)
    ensures Agrees(Step(p, Left, inflate).player, Known(false, None)) && Agrees(Fresh(), Known(false, None))
  {
  }

  // ----- once a second -----

  /** Someone who was told that the plugin is not for them has no offer open. */
  predicate ToldHasNoOffer(p: Player) { p.toldDisabled ==> p.pending.None? }

  lemma {:induction false} RunsKeepToldWithoutOffer(events: seq<Event>, inflate: Inflate)
    ensures ToldHasNoOffer(After(events, inflate))
    decreases |events|
  {
    hide Sound, Step;
    if events != [] {
      var n := |events| - 1;
      RunsKeepToldWithoutOffer(events[..n], inflate);
      StepKeepsToldWithoutOffer(After(events[..n], inflate), events[n], inflate);
    }
  }

  lemma StepKeepsToldWithoutOffer(p: Player, e: Event, inflate: Inflate)
    requires Sound(p) && ToldHasNoOffer(p)
    ensures ToldHasNoOffer(Step(p, e, inflate).player)
  {
    hide HelloOf, HelloId, TunnelId, Tunnels.Pushed, Charged, TruncDiv;
  }

  /** The slow tick, after any run.  Without the permission a player is left inactive, with
      no offer and no budget.  With it, an active player goes on, held to the restrictions
      of this moment, and any other has an offer. */
  lemma SlowTickMeaning(events: seq<Event>, canUse: bool, token: i64, restrictions: seq<byte>, inflate: Inflate)
    ensures var p := After(events, inflate);
      var q := Step(p, Tick(true, canUse, token, restrictions), inflate).player;
      && (!canUse ==> !q.active && q.pending.None? && q.budget.None?)
      && (canUse ==> q.active == p.active && if q.active then q.restrictions == Some(restrictions) else q.pending.Some?)
  {
    hide After, TruncDiv;
    RunsKeepToldWithoutOffer(events, inflate);
  }

  /** Refusals are not repeated: a second tick without the permission says nothing. */
  lemma RefusedOnce(events: seq<Event>, token: i64, later: i64, restrictions: seq<byte>, inflate: Inflate)
    ensures var p := After(events, inflate);
      var once := Step(p, Tick(true, false, token, restrictions), inflate).player;
      && Sound(once)
      && (!p.active ==> Step(once, Tick(true, false, later, restrictions), inflate) == Outcome(once, []))
  {
    hide After, TruncDiv;
    StepKeepsSound(After(events, inflate), Tick(true, false, token, restrictions), inflate);
  }

  /** Between slow ticks only the budget of an active player moves. */
  lemma FastTickMeaning(p: Player, canUse: bool, token: i64, restrictions: seq<byte>, inflate: Inflate)
    requires Sound(p)
    ensures var after := Step(p, Tick(false, canUse, token, restrictions), inflate);
      after.player == p.(budget := after.player.budget) && (!p.active ==> after == Outcome(p, []))
  {
    hide TruncDiv;
  }

  /** Restrictions are sent exactly when they changed, and the budget is announced exactly
      when whole sections were gained, by their number. */
  lemma NewsOnly(p: Player, restrictions: seq<byte>)
    requires p.budget.Some? && p.budget.value <= FULL_BUDGET
    ensures Updated(p, restrictions).outputs == [] <==> p.restrictions == Some(restrictions)
    ensures var after := ToppedUp(p);
      var gained := TruncDiv(after.player.budget.value, 20) - TruncDiv(p.budget.value, 20);
      gained >= 0 && after.outputs == if gained > 0 then [SendDispatch(gained, 1024)] else []
  {
  }

  /** What a handler does to the state of an active player it does at once. */
  lemma HandlersTakeEffect(p: Player, id: seq<byte>, body: seq<byte>, host: Host, inflate: Inflate)
    requires Sound(p) && p.active && id != TunnelId() && id != HelloId()
    ensures var after := Step(p, Payload(id, body, host), inflate);
      match host.effect
      case NoEffect => after == Outcome(p, [])
      case Fails => after == Outcome(p, [Kick])
      case SetTrigger(enabled) => after.player.noPhysicalTrigger == enabled && after.outputs == []
      case ChargeBuffer(sections, available) =>
        var over := Effective(p.budget) - 20 * sections < -20480 || 20 * available < -20480;
        after.outputs == if over then [Kick] else []
  {
    hide HelloId, TunnelId, Charged;
    if host.effect.ChargeBuffer? { ChargeMeaning(p.budget, host.effect.sections, host.effect.clientAvailable); }
  }

  /** The first top-up of an activation grants the whole budget and says so. */
  lemma FirstTopUp(p: Player)
    requires p.budget.None?
    ensures ToppedUp(p) == Outcome(p.(budget := Some(20480)), [SendDispatch(1024, 1024)])
  {
  }

  /** Truncating division: the multiple of the divisor nearest to zero. */
  lemma TruncDivMeaning(a: int, b: nat)
    requires b > 0
    ensures var q := TruncDiv(a, b);
      var rest := a - q * b;
      (a >= 0 ==> q >= 0 && 0 <= rest < b) && (a <= 0 ==> q <= 0 && 0 < rest + b && rest <= 0)
  {
    var n: nat := if a < 0 then -a else a;
    var q := n / b;
    DivideAndRest(n, b);
    Negated(q, b);
    assert TruncDiv(a, b) == if a < 0 then -q else q;
  }

  lemma DivideAndRest(n: nat, b: nat)
    requires b > 0
    ensures n / b >= 0 && 0 <= n - n / b * b < b
  {
    assert n == n / b * b + n % b;
  }

  lemma Negated(q: int, b: nat)
    ensures (-q) * b == -(q * b)
  {
  }
}
