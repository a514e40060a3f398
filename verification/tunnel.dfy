/**
  The tunnel transport: packets split into flagged frames, and the per-player state that
  puts them together again and resynchronises after frames that make no packet.
 */
module Tunnels {
  import opened Bytes
  import opened Buf
  import opened ZstdRaw

  const MAX_FRAME_LEN: nat := 31000
  const MAX_PACKET_LEN: nat := 2 * 1024 * 1024
  const MAX_PENDING_LEN: nat := MAX_PACKET_LEN

  datatype TunnelError =
    | FrameTooLarge(n: nat)
    | EmptyFrame
    | PendingTooLarge
    | PacketTooLarge(n: nat)
    | Malformed(error: Error)
    | Zstd

  datatype Packet = Packet(id: seq<byte>, body: seq<byte>)

  datatype Outcome = NoPacket | Complete(packet: Packet) | Failed(error: TunnelError)

  /** What a reassembled payload decodes to. */
  function Decoded(payload: seq<byte>, inflate: Inflate): Outcome {
    match StringAt(payload, 0)
    case Err(e) => Failed(Malformed(e))
    case Ok(id) =>
      match I32At(payload, id.end)
      case Err(e) => Failed(Malformed(e))
      case Ok(declared) =>
        match U8At(payload, declared.end)
        case Err(e) => Failed(Malformed(e))
        case Ok(flags) =>
          if declared.value < 0 then Failed(PacketTooLarge(0))
          else if declared.value > MAX_PACKET_LEN then Failed(PacketTooLarge(declared.value))
          else if flags.value % 2 == 0 then Complete(Packet(id.value, payload[flags.end..]))
          else
            match inflate(payload[flags.end..], declared.value)
            case None => Failed(Zstd)
            case Some(body) => Complete(Packet(id.value, body))
  }

  method Decode(payload: seq<byte>, inflate: Inflate) returns (outcome: Outcome)
    ensures outcome == Decoded(payload, inflate)
  {
    hide StringAt, I32At;
    var r := new Reader(payload);
    var id := r.String();
    if id.Err? { return Failed(Malformed(id.error)); }
    var declared := r.I32();
    if declared.Err? { return Failed(Malformed(declared.error)); }
    var flags := r.U8();
    if flags.Err? { return Failed(Malformed(flags.error)); }
    if declared.value < 0 { return Failed(PacketTooLarge(0)); }
    if declared.value > MAX_PACKET_LEN { return Failed(PacketTooLarge(declared.value)); }
    var body := r.Rest();
    if flags.value % 2 == 1 {
      var inflated := inflate(body, declared.value);
      if inflated.None? { return Failed(Zstd); }
      body := inflated.value;
    }
    outcome := Complete(Packet(id.value, body));
  }

  /** A packet as it travels: its id, the size its body is declared to have, flags, and the
      body or what it compresses to. */
  function PacketBytes(id: seq<byte>, declared: i32, flags: byte, rest: seq<byte>): seq<byte> {
    ByteArrayBytes(id) + (I32Bytes(declared) + ([flags] + rest))
  }

  /** A packet with a proper id and a declared size of at most 2 MiB comes out with that id;
      the lowest flag, and no other, says that the body must be unpacked, to the declared
      size, which is otherwise not looked at. */
  lemma PacketDecodes(id: seq<byte>, declared: i32, flags: byte, rest: seq<byte>, inflate: Inflate)
    requires |id| < 0x8000_0000
    ensures var outcome := Decoded(PacketBytes(id, declared, flags, rest), inflate);
      if |id| > 32767 * 3 || !ValidUtf8(id) then outcome.Failed? && outcome.error.Malformed?
      else if declared < 0 then outcome == Failed(PacketTooLarge(0))
      else if declared > 0x20_0000 then outcome == Failed(PacketTooLarge(declared))
      else if flags % 2 == 0 then outcome == Complete(Packet(id, rest))
      else outcome == match inflate(rest, declared)
        case None => Failed(Zstd)
        case Some(body) => Complete(Packet(id, body))
  {
    hide ByteArrayBytes, StringAt, I32Bytes, I32At, ValidUtf8;
    var payload := PacketBytes(id, declared, flags, rest);
    var caption, size := ByteArrayBytes(id), I32Bytes(declared);
    assert At(payload, 0, caption + (size + ([flags] + rest)));
    AtConcat(payload, 0, caption, size + ([flags] + rest));
    AtConcat(payload, |caption|, size, [flags] + rest);
    AtConcat(payload, |caption| + 4, [flags], rest);
    StringInverse(payload, 0, id);
    I32Inverse(payload, |caption|, declared);
    var at := |caption| + 4;
    assert payload[at] == payload[at..at + 1][0];
    assert payload[at + 1..] == rest;
  }

  // ----- one frame -----

  datatype State = State(pending: seq<byte>, skipping: bool)

  datatype Step = Step(state: State, outcome: Outcome)

  predicate IsFirst(flags: byte) { flags % 2 == 1 }

  predicate IsLast(flags: byte) { flags / 2 % 2 == 1 }

  function Pushed(s: State, frame: seq<byte>, inflate: Inflate): Step {
    if |frame| > MAX_FRAME_LEN then Step(s, Failed(FrameTooLarge(|frame|)))
    else if frame == [] then Step(s, Failed(EmptyFrame))
    else
      var flags, rest := frame[0], frame[1..];
      if IsFirst(flags) && IsLast(flags) then Step(s, Decoded(rest, inflate))
      else if !IsFirst(flags) && s.skipping then Step(s, NoPacket)
      else if !IsFirst(flags) && s.pending == [] then Step(State([], true), NoPacket)
      else
        var pending := if IsFirst(flags) then [] else s.pending;
        if |pending| + |rest| > MAX_PENDING_LEN then Step(State([], false), Failed(PendingTooLarge))
        else if IsLast(flags) then Step(State([], false), Decoded(pending + rest, inflate))
        else Step(State(pending + rest, false), NoPacket)
  }

  class Tunnel {
    var pending: seq<byte>
    var skipping: bool

    ghost function View(): State
      reads this
    {
      State(pending, skipping)
    }

    constructor ()
      ensures View() == State([], false)
    {
      pending := [];
      skipping := false;
    }

    method Reset()
      modifies this
      ensures View() == State([], false)
    {
      pending := [];
      skipping := false;
    }

    method Push(frame: seq<byte>, inflate: Inflate) returns (outcome: Outcome)
      modifies this
      ensures Step(View(), outcome) == Pushed(old(View()), frame, inflate)
    {
      if |frame| > MAX_FRAME_LEN { return Failed(FrameTooLarge(|frame|)); }
      if |frame| == 0 { return Failed(EmptyFrame); }
      var flags, rest := frame[0], frame[1..];
      var first, last := flags % 2 == 1, flags / 2 % 2 == 1;
      if first && last {
        outcome := Decode(rest, inflate);
        return;
      }
      if first {
        skipping := false;
        pending := [];
      } else if skipping {
        return NoPacket;
      } else if pending == [] {
        skipping := true;
        return NoPacket;
      }
      if |pending| + |rest| > MAX_PENDING_LEN {
        Reset();
        return Failed(PendingTooLarge);
      }
      pending := pending + rest;
      if !last { return NoPacket; }
      var combined := pending;
      pending := [];
      outcome := Decode(combined, inflate);
    }
  }

  // ----- splitting -----

  const CHUNK: nat := MAX_FRAME_LEN - 1

  function ChunkEnd(payload: seq<byte>, offset: nat): nat {
    if offset + CHUNK < |payload| then offset + CHUNK else |payload|
  }

  function FrameAt(payload: seq<byte>, offset: nat): seq<byte>
    requires offset <= |payload|
  {
    var end := ChunkEnd(payload, offset);
    [(if offset == 0 then 1 else 0) + (if end == |payload| then 2 else 0)] + payload[offset..end]
  }

  function FramesFrom(payload: seq<byte>, offset: nat): seq<seq<byte>>
    requires offset <= |payload|
    decreases |payload| - offset
  {
    if ChunkEnd(payload, offset) == |payload| then [FrameAt(payload, offset)]
    else [FrameAt(payload, offset)] + FramesFrom(payload, ChunkEnd(payload, offset))
  }

  method SplitFrames(payload: seq<byte>) returns (frames: seq<seq<byte>>)
    ensures frames == FramesFrom(payload, 0)
  {
    frames := [];
    var offset := 0;
    while true
      invariant offset <= |payload|
      invariant frames + FramesFrom(payload, offset) == FramesFrom(payload, 0)
      decreases |payload| - offset
    {
      var end := if offset + CHUNK < |payload| then offset + CHUNK else |payload|;
      var flags := 0;
      if offset == 0 { flags := flags + 1; }
      if end == |payload| { flags := flags + 2; }
      var frame := [flags] + payload[offset..end];
      assert frame == FrameAt(payload, offset);
      frames := frames + [frame];
      if end == |payload| { return; }
      offset := end;
    }
  }

  /** Every frame but the last is as long as a frame may be; the last has at least flags,
      and one that opens a longer packet has bytes. */
  lemma {:induction false} FramesAreSound(payload: seq<byte>, offset: nat)
    requires offset <= |payload|
    ensures var frames := FramesFrom(payload, offset);
      && (forall i :: 0 <= i < |frames| - 1 ==> |frames[i]| == 31000)
      && 1 <= |frames[|frames| - 1]| <= 31000
      && forall i :: 0 <= i < |frames| && IsFirst(frames[i][0]) && !IsLast(frames[i][0]) ==> |frames[i]| > 1
    decreases |payload| - offset
  {
    if ChunkEnd(payload, offset) < |payload| {
      FramesAreSound(payload, ChunkEnd(payload, offset));
    }
  }

  // ----- runs of frames -----

  datatype Run = Run(state: State, outcomes: seq<Outcome>)

  function RunFrames(s: State, frames: seq<seq<byte>>, inflate: Inflate): Run
    decreases |frames|
  {
    if frames == [] then Run(s, [])
    else
      var step := Pushed(s, frames[0], inflate);
      var rest := RunFrames(step.state, frames[1..], inflate);
      Run(rest.state, [step.outcome] + rest.outcomes)
  }

  /** What every run keeps: the buffer is bounded, and is empty while frames are being
      skipped. */
  predicate Bounded(s: State) {
    |s.pending| <= MAX_PENDING_LEN && (s.skipping ==> s.pending == [])
  }

  lemma {:induction false} RunsStayBounded(s: State, frames: seq<seq<byte>>, inflate: Inflate)
    requires Bounded(s)
    ensures Bounded(RunFrames(s, frames, inflate).state)
    ensures |RunFrames(s, frames, inflate).outcomes| == |frames|
    decreases |frames|
  {
    hide Decoded;
    if frames != [] {
      RunsStayBounded(Pushed(s, frames[0], inflate).state, frames[1..], inflate);
    }
  }

  function Silence(n: nat): seq<Outcome> {
    seq(n, _ => NoPacket)
  }

  lemma RunOne(s: State, frame: seq<byte>, inflate: Inflate)
    ensures RunFrames(s, [frame], inflate)
         == Run(Pushed(s, frame, inflate).state, [Pushed(s, frame, inflate).outcome])
  {
    hide Pushed;
    assert [frame][1..] == [];
    assert RunFrames(Pushed(s, frame, inflate).state, [], inflate) == Run(Pushed(s, frame, inflate).state, []);
  }

  lemma RunStep(s: State, frame: seq<byte>, rest: seq<seq<byte>>, inflate: Inflate)
    ensures var step := Pushed(s, frame, inflate);
      var run := RunFrames(step.state, rest, inflate);
      RunFrames(s, [frame] + rest, inflate) == Run(run.state, [step.outcome] + run.outcomes)
  {
    hide Pushed;
    assert ([frame] + rest)[1..] == rest;
  }

  /** A frame that is too long, or has not even flags, is reported and changes nothing. */
  lemma BadFramesAreRefused(s: State, frame: seq<byte>, inflate: Inflate)
    ensures |frame| > 31000 ==> Pushed(s, frame, inflate) == Step(s, Failed(FrameTooLarge(|frame|)))
    ensures frame == [] ==> Pushed(s, frame, inflate) == Step(s, Failed(EmptyFrame))
  {
    hide Decoded;
  }

  /** Of the flags only the lower two matter. */
  lemma OtherFlagsAreIgnored(s: State, flags: byte, chunk: seq<byte>, inflate: Inflate)
    requires |chunk| < MAX_FRAME_LEN
    ensures Pushed(s, [flags] + chunk, inflate) == Pushed(s, [flags % 4] + chunk, inflate)
  {
    hide Decoded;
    assert ([flags] + chunk)[1..] == chunk && ([flags % 4] + chunk)[1..] == chunk;
    assert flags % 4 % 2 == flags % 2 && flags % 4 / 2 % 2 == flags / 2 % 2;
  }

  /** A frame that starts a packet and leaves it open. */
  lemma PushFirst(s: State, chunk: seq<byte>, inflate: Inflate)
    requires |chunk| < MAX_FRAME_LEN
    ensures Pushed(s, [1] + chunk, inflate) == Step(State(chunk, false), NoPacket)
    ensures Pushed(s, [3] + chunk, inflate) == Step(s, Decoded(chunk, inflate))
  {
    hide Decoded;
    var none: seq<byte> := [];
    assert ([1] + chunk)[1..] == chunk && ([3] + chunk)[1..] == chunk && none + chunk == chunk;
  }

  /** A frame that goes on with a packet, or ends it. */
  function More(chunk: seq<byte>, last: bool): seq<byte> {
    [if last then 2 else 0] + chunk
  }

  lemma PushMore(s: State, chunk: seq<byte>, last: bool, inflate: Inflate)
    requires |chunk| < MAX_FRAME_LEN
    ensures Pushed(s, More(chunk, last), inflate) ==
      if s.skipping then Step(s, NoPacket)
      else if s.pending == [] then Step(State([], true), NoPacket)
      else if |s.pending| + |chunk| > MAX_PENDING_LEN then Step(State([], false), Failed(PendingTooLarge))
      else if last then Step(State([], false), Decoded(s.pending + chunk, inflate))
      else Step(State(s.pending + chunk, false), NoPacket)
  {
    hide Decoded;
    assert More(chunk, last)[1..] == chunk;
  }

  // ----- packets cut by the other side -----

  function Join(cs: seq<seq<byte>>): seq<byte> {
    if cs == [] then [] else cs[0] + Join(cs[1..])
  }

  predicate FitFrames(cs: seq<seq<byte>>) {
    forall i :: 0 <= i < |cs| ==> |cs[i]| < MAX_FRAME_LEN
  }

  /** The frames that go on with a packet, from the chunks of its bytes. */
  function Continued(cs: seq<seq<byte>>): seq<seq<byte>>
    requires cs != []
  {
    if |cs| == 1 then [More(cs[0], true)] else [More(cs[0], false)] + Continued(cs[1..])
  }

  /** The frames of a packet that was cut anywhere at all. */
  function Framed(cs: seq<seq<byte>>): seq<seq<byte>>
    requires cs != []
  {
    if |cs| == 1 then [[3] + cs[0]] else [[1] + cs[0]] + Continued(cs[1..])
  }

  /** How many chunks fit the buffer once `n` bytes are in it. */
  function Fitting(n: nat, cs: seq<seq<byte>>): (k: nat)
    ensures k <= |cs|
    ensures k == |cs| <==> n + |Join(cs)| <= MAX_PENDING_LEN || cs == []
    decreases |cs|
  {
    if cs == [] || n + |cs[0]| > MAX_PENDING_LEN then 0 else 1 + Fitting(n + |cs[0]|, cs[1..])
  }

  lemma {:induction false} SkipsTheRest(s: State, cs: seq<seq<byte>>, inflate: Inflate)
    requires cs != [] && FitFrames(cs) && (s.skipping || s.pending == [])
    ensures var run := RunFrames(s, Continued(cs), inflate);
      run.outcomes == Silence(|cs|) && run.state == if s.skipping then s else State([], true)
    decreases |cs|
  {
    hide Decoded, Pushed, More;
    var next := if s.skipping then s else State([], true);
    PushMore(s, cs[0], |cs| == 1, inflate);
    if |cs| == 1 {
      RunOne(s, More(cs[0], true), inflate);
    } else {
      RunStep(s, More(cs[0], false), Continued(cs[1..]), inflate);
      SkipsTheRest(next, cs[1..], inflate);
    }
  }

  lemma {:induction false} TakesTheRest(pending: seq<byte>, cs: seq<seq<byte>>, inflate: Inflate)
    requires cs != [] && FitFrames(cs) && pending != []
    ensures var run, k := RunFrames(State(pending, false), Continued(cs), inflate), Fitting(|pending|, cs);
      if k == |cs| then
        run == Run(State([], false), Silence(k - 1) + [Decoded(pending + Join(cs), inflate)])
      else
        run.outcomes == Silence(k) + [Failed(PendingTooLarge)] + Silence(|cs| - k - 1)
        && run.state == State([], k + 1 < |cs|)
    decreases |cs|
  {
    hide Decoded, Fitting, Join, FitFrames, Pushed, More, RunFrames, Silence;
    var s, n := State(pending, false), |cs| - 1;
    FirstFits(pending, cs);
    PushMore(s, cs[0], n == 0, inflate);
    var step := Pushed(s, More(cs[0], n == 0), inflate);
    NoSilence();
    if n == 0 {
      RunOne(s, More(cs[0], true), inflate);
      assert [] + [Decoded(pending + Join(cs), inflate)] == [Decoded(pending + Join(cs), inflate)];
    } else {
      RunStep(s, More(cs[0], false), Continued(cs[1..]), inflate);
      if |pending| + |cs[0]| > MAX_PENDING_LEN {
        SkipsTheRest(step.state, cs[1..], inflate);
      } else {
        TakesTheRest(pending + cs[0], cs[1..], inflate);
        OneMoreSilence(Fitting(|pending| + |cs[0]|, cs[1..]), n, inflate, pending + Join(cs));
      }
    }
  }

  lemma NoSilence()
    ensures Silence(0) == [] && [] + [Failed(PendingTooLarge)] + [] == [Failed(PendingTooLarge)]
  {
  }

  /** Whether the first chunk fits, and what then becomes of the rest. */
  lemma FirstFits(head: seq<byte>, cs: seq<seq<byte>>)
    requires cs != [] && FitFrames(cs)
    ensures |cs[0]| < MAX_FRAME_LEN && FitFrames(cs[1..])
    ensures var n := |head|;
      Fitting(n, cs) == if n + |cs[0]| > MAX_PENDING_LEN then 0 else 1 + Fitting(n + |cs[0]|, cs[1..])
    ensures |cs| == 1 ==> Join(cs) == cs[0] && Fitting(|head| + |cs[0]|, cs[1..]) == 0
    ensures Join(cs) == cs[0] + Join(cs[1..]) && (head + cs[0]) + Join(cs[1..]) == head + Join(cs)
  {
  }

  lemma OneMoreSilence(k: nat, n: nat, inflate: Inflate, payload: seq<byte>)
    requires k <= n
    ensures [NoPacket] + Silence(n) == Silence(n + 1)
    ensures n > 0 ==>
      [NoPacket] + (Silence(n - 1) + [Decoded(payload, inflate)]) == Silence(n) + [Decoded(payload, inflate)]
    ensures k < n ==>
      [NoPacket] + (Silence(k) + [Failed(PendingTooLarge)] + Silence(n - k - 1))
        == Silence(k + 1) + [Failed(PendingTooLarge)] + Silence(n - k - 1)
  {
    hide Decoded;
  }

  /** When a packet arrives: in one frame, or if its first frame has bytes and the whole
      fits the buffer. */
  predicate Arrives(cs: seq<seq<byte>>) {
    |cs| == 1 || (cs != [] && cs[0] != [] && |Join(cs)| <= MAX_PACKET_LEN)
  }

  /** What the frames of a packet yield one by one.  A first frame without bytes makes
      all the rest of its packet go unheard; one that outgrows the buffer is reported by
      the frame that did, once, and the frames after that are skipped. */
  function Heard(cs: seq<seq<byte>>, inflate: Inflate): seq<Outcome>
    requires cs != []
  {
    if Arrives(cs) then Silence(|cs| - 1) + [Decoded(Join(cs), inflate)]
    else if cs[0] == [] then Silence(|cs|)
    else
      var k := Fitting(0, cs);
      Silence(k) + [Failed(PendingTooLarge)] + Silence(|cs| - k - 1)
  }

  function StateAfter(s: State, cs: seq<seq<byte>>): State
    requires cs != []
  {
    if |cs| == 1 then s
    else if Arrives(cs) then State([], false)
    else State([], cs[0] == [] || Fitting(0, cs) + 1 < |cs|)
  }

  /** From any state at all, the frames of a packet cut anywhere. */
  lemma FramedRun(s: State, cs: seq<seq<byte>>, inflate: Inflate)
    requires cs != [] && FitFrames(cs)
    ensures RunFrames(s, Framed(cs), inflate) == Run(StateAfter(s, cs), Heard(cs, inflate))
  {
    hide Decoded, Join, FitFrames, Heard, StateAfter, Pushed, Fitting;
    FirstFits([], cs);
    PushFirst(s, cs[0], inflate);
    var frame := [if |cs| == 1 then 3 else 1] + cs[0];
    HeardFirst(s, cs, inflate);
    if |cs| == 1 {
      RunOne(s, frame, inflate);
    } else {
      var state := State(cs[0], false);
      RunStep(s, frame, Continued(cs[1..]), inflate);
      if cs[0] == [] {
        SkipsTheRest(state, cs[1..], inflate);
      } else {
        TakesTheRest(cs[0], cs[1..], inflate);
      }
    }
  }

  /** What is heard of a packet, by its first chunk and what is heard of the rest. */
  lemma HeardFirst(s: State, cs: seq<seq<byte>>, inflate: Inflate)
    requires cs != [] && FitFrames(cs)
    ensures |cs| == 1 ==> Heard(cs, inflate) == [Decoded(cs[0], inflate)] && StateAfter(s, cs) == s
    ensures |cs| > 1 && cs[0] == [] ==>
      Heard(cs, inflate) == [NoPacket] + Silence(|cs| - 1) && StateAfter(s, cs) == State([], true)
    ensures |cs| > 1 && cs[0] != [] ==> var k, n := Fitting(|cs[0]|, cs[1..]), |cs| - 1;
      if k == n then
        Heard(cs, inflate) == [NoPacket] + (Silence(k - 1) + [Decoded(cs[0] + Join(cs[1..]), inflate)])
        && StateAfter(s, cs) == State([], false)
      else
        Heard(cs, inflate) == [NoPacket] + (Silence(k) + [Failed(PendingTooLarge)] + Silence(n - k - 1))
        && StateAfter(s, cs) == State([], k + 1 < n)
  {
    hide Decoded, Fitting, Join, FitFrames;
    FirstFits([], cs);
    OneMoreSilence(Fitting(|cs[0]|, cs[1..]), |cs| - 1, inflate, Join(cs));
  }

  /** A packet is heard, silently until its last frame and then decoded, exactly if it
      arrives; if it does not, none of its frames yields a packet. */
  lemma FramedReassembles(s: State, cs: seq<seq<byte>>, inflate: Inflate)
    requires cs != [] && FitFrames(cs)
    ensures var outcomes := RunFrames(s, Framed(cs), inflate).outcomes;
      (outcomes == Silence(|cs| - 1) + [Decoded(Join(cs), inflate)] <==> Arrives(cs))
      && (!Arrives(cs) ==> forall i :: 0 <= i < |outcomes| ==> !outcomes[i].Complete?)
  {
    hide Join, RunFrames, Framed, Arrives, Heard, Decoded, FitFrames;
    FramedRun(s, cs, inflate);
    WhatIsHeard(cs, inflate);
    DecodingSpeaks(Join(cs), inflate);
    var whole := Silence(|cs| - 1) + [Decoded(Join(cs), inflate)];
    assert whole[|cs| - 1] == Decoded(Join(cs), inflate);
  }

  lemma WhatIsHeard(cs: seq<seq<byte>>, inflate: Inflate)
    requires cs != []
    ensures |Heard(cs, inflate)| == |cs|
    ensures Arrives(cs) ==> Heard(cs, inflate) == Silence(|cs| - 1) + [Decoded(Join(cs), inflate)]
    ensures !Arrives(cs) ==> forall i :: 0 <= i < |cs| ==>
      Heard(cs, inflate)[i] == NoPacket || Heard(cs, inflate)[i] == Failed(PendingTooLarge)
  {
    hide Join, Fitting, Decoded;
  }

  /** Decoding always says something, and never what overlong packets get. */
  lemma DecodingSpeaks(payload: seq<byte>, inflate: Inflate)
    ensures Decoded(payload, inflate) != NoPacket && Decoded(payload, inflate) != Failed(PendingTooLarge)
  {
    hide StringAt, I32At;
  }

  // ----- packets cut by the server -----

  /** The chunks of the server's own cut, from an offset on. */
  function Cut(payload: seq<byte>, offset: nat): (cs: seq<seq<byte>>)
    requires offset <= |payload|
    ensures cs != [] && |cs[0]| == ChunkEnd(payload, offset) - offset
    decreases |payload| - offset
  {
    var end := ChunkEnd(payload, offset);
    [payload[offset..end]] + if end == |payload| then [] else Cut(payload, end)
  }

  lemma {:induction false} CutIsWhole(payload: seq<byte>, offset: nat)
    requires offset <= |payload|
    ensures Join(Cut(payload, offset)) == payload[offset..] && FitFrames(Cut(payload, offset))
    ensures offset > 0 ==> FramesFrom(payload, offset) == Continued(Cut(payload, offset))
    ensures |FramesFrom(payload, offset)| == |Cut(payload, offset)|
    decreases |payload| - offset
  {
    var end := ChunkEnd(payload, offset);
    var chunk := payload[offset..end];
    if end == |payload| {
      var none: seq<seq<byte>> := [];
      assert [chunk][1..] == none && Join(none) == [];
    } else {
      var rest := Cut(payload, end);
      CutIsWhole(payload, end);
      assert ([chunk] + rest)[1..] == rest;
    }
  }

  /** The server frames its packets as any cut is framed. */
  lemma SplitsAsFramed(payload: seq<byte>)
    ensures FramesFrom(payload, 0) == Framed(Cut(payload, 0))
    ensures Join(Cut(payload, 0)) == payload && FitFrames(Cut(payload, 0))
  {
    hide Join, FitFrames;
    CutIsWhole(payload, 0);
    var end := ChunkEnd(payload, 0);
    if end < |payload| {
      CutIsWhole(payload, end);
      assert Cut(payload, 0)[1..] == Cut(payload, end);
    }
    assert payload[0..] == payload;
  }

  /** From any state at all, the server's frames of a packet within the limit yield
      nothing until the last one, which yields the packet. */
  lemma SplitThenPush(s: State, payload: seq<byte>, inflate: Inflate)
    requires |payload| <= MAX_PACKET_LEN
    ensures var frames := FramesFrom(payload, 0);
      var run := RunFrames(s, frames, inflate);
      run.outcomes == Silence(|frames| - 1) + [Decoded(payload, inflate)]
      && run.state == if |frames| == 1 then s else State([], false)
  {
    hide Decoded, Join, Framed, RunFrames, FitFrames;
    SplitsAsFramed(payload);
    CutIsWhole(payload, 0);
    FramedRun(s, Cut(payload, 0), inflate);
  }

  /** The limit is exact: the server's frames of a longer packet never yield one. */
  lemma TooLongNeverCompletes(s: State, payload: seq<byte>, inflate: Inflate)
    requires |payload| > MAX_PACKET_LEN
    ensures forall i :: 0 <= i < |RunFrames(s, FramesFrom(payload, 0), inflate).outcomes| ==>
      !RunFrames(s, FramesFrom(payload, 0), inflate).outcomes[i].Complete?
  {
    hide Decoded, Join, Framed, RunFrames, FitFrames;
    SplitsAsFramed(payload);
    FramedReassembles(s, Cut(payload, 0), inflate);
  }

  // ----- interleaving -----

  predicate IsSingle(frame: seq<byte>) {
    1 <= |frame| <= MAX_FRAME_LEN && IsFirst(frame[0]) && IsLast(frame[0])
  }

  function WithoutSingles(frames: seq<seq<byte>>): seq<seq<byte>> {
    if frames == [] then []
    else if IsSingle(frames[0]) then WithoutSingles(frames[1..])
    else [frames[0]] + WithoutSingles(frames[1..])
  }

  /** The outcomes of the frames that are not single-frame packets. */
  function OtherOutcomes(frames: seq<seq<byte>>, outcomes: seq<Outcome>): seq<Outcome>
    requires |frames| == |outcomes|
  {
    if frames == [] then []
    else if IsSingle(frames[0]) then OtherOutcomes(frames[1..], outcomes[1..])
    else [outcomes[0]] + OtherOutcomes(frames[1..], outcomes[1..])
  }

  /** Single-frame packets may arrive anywhere between the frames of longer ones: each
      decodes on its own, and all the rest goes as if they had not been there. */
  lemma {:induction false} SinglesDoNotDisturb(s: State, frames: seq<seq<byte>>, inflate: Inflate)
    ensures var run := RunFrames(s, frames, inflate);
      |run.outcomes| == |frames|
      && RunFrames(s, WithoutSingles(frames), inflate) == Run(run.state, OtherOutcomes(frames, run.outcomes))
      && forall i :: 0 <= i < |frames| && IsSingle(frames[i]) ==> run.outcomes[i] == Decoded(frames[i][1..], inflate)
    decreases |frames|
  {
    hide Decoded, IsSingle;
    if frames != [] {
      var step := Pushed(s, frames[0], inflate);
      var run, rest := RunFrames(s, frames, inflate), RunFrames(step.state, frames[1..], inflate);
      SinglesDoNotDisturb(step.state, frames[1..], inflate);
      assert run.outcomes[1..] == rest.outcomes;
      if IsSingle(frames[0]) {
        SingleKeepsState(s, frames[0], inflate);
      } else {
        var others := WithoutSingles(frames[1..]);
        assert ([frames[0]] + others)[1..] == others;
      }
    }
  }

  lemma SingleKeepsState(s: State, frame: seq<byte>, inflate: Inflate)
    requires IsSingle(frame)
    ensures Pushed(s, frame, inflate) == Step(s, Decoded(frame[1..], inflate))
  {
  }

  /** A first frame without bytes is forgotten: however long the packet, what follows is
      skipped as the middle of one whose start was missed. */
  lemma EmptyFirstIsForgotten(s: State, cs: seq<seq<byte>>, inflate: Inflate)
    requires |cs| > 1 && FitFrames(cs) && cs[0] == []
    ensures RunFrames(s, Framed(cs), inflate) == Run(State([], true), Silence(|cs|))
  {
    hide RunFrames, Framed, FitFrames;
    FramedRun(s, cs, inflate);
  }
}
