/**
  Block state ids between two registries.  The server-to-client table is many-to-one;
  its inverse is compressed into runs of constant offset and searched by halving.
 */
module BlockRemap {
  import opened Bytes

  datatype Run = Run(start: u16, len: nat, offset: int)

  // ----- what the inverse is -----

  /** The lowest server id that maps to a client id. */
  function LowestServer(forward: seq<u16>, client: u16): (r: Option<nat>)
    ensures r.Some? ==> r.value < |forward| && forward[r.value] == client
    ensures r.Some? ==> forall i :: 0 <= i < r.value ==> forward[i] != client
    ensures r.None? ==> forall i :: 0 <= i < |forward| ==> forward[i] != client
  {
    if forward == [] then None
    else
      var before := LowestServer(forward[..|forward| - 1], client);
      if before.Some? then before
      else if forward[|forward| - 1] == client then Some(|forward| - 1)
      else None
  }

  predicate Covers(run: Run, client: int) {
    run.start <= client < run.start + run.len
  }

  /** In order, without overlap, none empty and none within 16 bits' reach exceeded. */
  predicate Ordered(runs: seq<Run>) {
    && (forall i :: 0 <= i < |runs| ==> 1 <= runs[i].len && runs[i].start + runs[i].len <= TWO16)
    && (forall i, j :: 0 <= i < j < |runs| ==> runs[i].start + runs[i].len <= runs[j].start)
  }

  /** No two neighbouring runs could have been one. */
  predicate Maximal(runs: seq<Run>) {
    forall i :: 0 < i < |runs| && runs[i - 1].start + runs[i - 1].len == runs[i].start ==>
      runs[i - 1].offset != runs[i].offset
  }

  predicate Covered(runs: seq<Run>, client: int) {
    exists i :: 0 <= i < |runs| && Covers(runs[i], client)
  }

  /** The runs hold exactly the pairs of a map. */
  predicate Holds(runs: seq<Run>, inverse: map<u16, nat>) {
    && (forall i, c: u16 :: 0 <= i < |runs| && Covers(runs[i], c) ==> c in inverse && inverse[c] == c + runs[i].offset)
    && (forall c :: c in inverse ==> Covered(runs, c))
  }

  predicate IsInverse(inverse: map<u16, nat>, forward: seq<u16>) {
    forall c: u16 :: LowestServer(forward, c) == if c in inverse then Some(inverse[c]) else None
  }

  /** The runs give every client id its lowest server id, and hold no other id. */
  predicate RunsInvert(runs: seq<Run>, forward: seq<u16>) {
    && (forall i, c: u16 :: 0 <= i < |runs| && Covers(runs[i], c) ==>
          LowestServer(forward, c) == Some(c + runs[i].offset))
    && (forall c: u16 :: LowestServer(forward, c).Some? ==> Covered(runs, c))
  }

  // ----- building the runs -----

  /** `setdefault` over the table: the first server id to claim a client id keeps it. */
  method Invert(forward: seq<u16>) returns (inverse: map<u16, nat>)
    ensures IsInverse(inverse, forward)
  {
    inverse := map[];
    for server := 0 to |forward|
      invariant IsInverse(inverse, forward[..server])
    {
      var client := forward[server];
      assert forward[..server + 1][..server] == forward[..server];
      if client !in inverse {
        inverse := inverse[client := server];
      }
    }
    assert forward[..|forward|] == forward;
  }

  predicate Ascending(ks: seq<u16>) {
    forall i, j :: 0 <= i < j < |ks| ==> ks[i] < ks[j]
  }

  predicate IsLeast(k: u16, s: set<u16>) {
    k in s && forall j :: j in s ==> k <= j
  }

  lemma {:induction false} LeastOf(s: set<u16>) returns (k: u16)
    requires s != {}
    ensures IsLeast(k, s)
    decreases |s|
  {
    k :| k in s;
    var rest := s - {k};
    if rest != {} {
      var m := LeastOf(rest);
      assert s == rest + {k};
      if m < k { k := m; }
    } else {
      assert s == {k};
    }
  }

  method Sorted(keys: set<u16>) returns (ks: seq<u16>)
    ensures Ascending(ks) && forall k :: k in ks <==> k in keys
  {
    hide IsLeast;
    ks := [];
    var rest := keys;
    while rest != {}
      invariant Ascending(ks)
      invariant forall k :: k in keys <==> k in ks || k in rest
      invariant Below(ks, rest)
      decreases |rest|
    {
      ghost var k := LeastOf(rest);
      var least :| IsLeast(least, rest);
      LeastGoesLast(ks, least, rest);
      ks := ks + [least];
      rest := rest - {least};
    }
  }

  predicate Below(ks: seq<u16>, rest: set<u16>) {
    forall i, b :: 0 <= i < |ks| && b in rest ==> ks[i] < b
  }

  lemma LeastGoesLast(ks: seq<u16>, k: u16, rest: set<u16>)
    requires Ascending(ks) && Below(ks, rest) && IsLeast(k, rest)
    ensures Ascending(ks + [k]) && Below(ks + [k], rest - {k}) && k in rest
    ensures forall j :: j in rest <==> j == k || j in rest - {k}
  {
  }

  method ToServerRuns(forward: seq<u16>) returns (runs: seq<Run>)
    ensures RunsInvert(runs, forward) && Ordered(runs) && Maximal(runs)
  {
    var inverse := Invert(forward);
    var clients := Sorted(inverse.Keys);
    runs := [];
    hide Holds, Restricted, Maximal, LowestServer, IsInverse;
    NoRuns(inverse, clients);
    for i := 0 to |clients|
      invariant Ordered(runs) && Maximal(runs)
      invariant runs == [] <==> i == 0
      invariant i > 0 ==> Last(runs).start + Last(runs).len == clients[i - 1] as int + 1
      invariant Holds(runs, Restricted(inverse, clients[..i]))
    {
      var client := clients[i];
      assert client in clients;
      var offset := inverse[client] - client;
      ghost var before := runs;
      if runs != [] && Last(runs).offset == offset && client == Last(runs).start + Last(runs).len {
        runs := runs[|runs| - 1 := Run(Last(runs).start, Last(runs).len + 1, offset)];
        Extends(before, runs, inverse, clients, i);
      } else {
        runs := runs + [Run(client, 1, offset)];
        Appends(before, runs, inverse, clients, i);
      }
    }
    assert clients[..|clients|] == clients;
    RestrictedWhole(inverse, clients);
    HoldsInverse(runs, inverse, forward);
  }

  lemma NoRuns(inverse: map<u16, nat>, ks: seq<u16>)
    ensures Holds([], Restricted(inverse, ks[..0])) && Maximal([]) && Ordered([])
  {
  }

  lemma RestrictedWhole(inverse: map<u16, nat>, ks: seq<u16>)
    requires forall k :: k in ks <==> k in inverse
    ensures Restricted(inverse, ks) == inverse
  {
  }

  lemma HoldsInverse(runs: seq<Run>, inverse: map<u16, nat>, forward: seq<u16>)
    requires IsInverse(inverse, forward) && Holds(runs, inverse)
    ensures RunsInvert(runs, forward)
  {
    hide LowestServer, Covered, Covers;
  }

  function Last(runs: seq<Run>): Run
    requires runs != []
  {
    runs[|runs| - 1]
  }

  function Restricted(inverse: map<u16, nat>, ks: seq<u16>): map<u16, nat> {
    map c | c in inverse && c in ks :: inverse[c]
  }

  lemma RestrictedStep(inverse: map<u16, nat>, ks: seq<u16>, i: nat)
    requires i < |ks| && ks[i] in inverse
    ensures Restricted(inverse, ks[..i + 1]) == Restricted(inverse, ks[..i])[ks[i] := inverse[ks[i]]]
  {
    assert ks[..i + 1] == ks[..i] + [ks[i]];
  }

  lemma Extends(before: seq<Run>, runs: seq<Run>, inverse: map<u16, nat>, ks: seq<u16>, i: nat)
    requires Ordered(before) && Maximal(before) && before != [] && i < |ks| && ks[i] in inverse
    requires Last(before).start + Last(before).len == ks[i] && Last(before).offset == inverse[ks[i]] - ks[i]
    requires runs == before[|before| - 1 := Last(before).(len := Last(before).len + 1)]
    requires Holds(before, Restricted(inverse, ks[..i]))
    ensures Ordered(runs) && Maximal(runs) && Holds(runs, Restricted(inverse, ks[..i + 1]))
  {
    hide Restricted;
    RestrictedStep(inverse, ks, i);
    var n := |runs| - 1;
    assert forall r :: 0 <= r < n ==> runs[r] == before[r];
    assert forall c: int :: Covers(runs[n], c) <==> Covers(before[n], c) || c == ks[i];
    HoldsStep(before, runs, Restricted(inverse, ks[..i]), ks[i], inverse[ks[i]], n);
  }

  lemma Appends(before: seq<Run>, runs: seq<Run>, inverse: map<u16, nat>, ks: seq<u16>, i: nat)
    requires Ordered(before) && Maximal(before) && i < |ks| && ks[i] in inverse
    requires before != [] ==> Last(before).start + Last(before).len <= ks[i]
    requires before != [] && Last(before).start + Last(before).len == ks[i] ==> Last(before).offset != inverse[ks[i]] - ks[i]
    requires runs == before + [Run(ks[i], 1, inverse[ks[i]] - ks[i])]
    requires Holds(before, Restricted(inverse, ks[..i]))
    ensures Ordered(runs) && Maximal(runs) && Holds(runs, Restricted(inverse, ks[..i + 1]))
  {
    hide Restricted;
    RestrictedStep(inverse, ks, i);
    var n := |before|;
    assert forall r :: 0 <= r < n ==> runs[r] == before[r];
    assert forall c: int :: Covers(runs[n], c) <==> c == ks[i];
    HoldsStep(before, runs, Restricted(inverse, ks[..i]), ks[i], inverse[ks[i]], n);
  }

  /** Run `n` gained the pair `k, v`, whether it was there before or not. */
  lemma HoldsStep(before: seq<Run>, runs: seq<Run>, pairs: map<u16, nat>, k: u16, v: nat, n: nat)
    requires Holds(before, pairs) && n < |runs| && (|before| == |runs| || |before| == n) && |runs| == n + 1
    requires forall r :: 0 <= r < n ==> runs[r] == before[r]
    requires forall c: int :: Covers(runs[n], c) <==> (n < |before| && Covers(before[n], c)) || c == k
    requires runs[n].offset == v - k && (n < |before| ==> before[n].offset == runs[n].offset)
    requires forall r :: 0 <= r < n ==> !Covers(runs[r], k)
    ensures Holds(runs, pairs[k := v])
  {
    hide Covers;
    forall r, c: u16 | 0 <= r < |runs| && Covers(runs[r], c)
      ensures c in pairs[k := v] && pairs[k := v][c] == c + runs[r].offset
    {
      if c != k { assert Covers(before[r], c); }
    }
    forall c | c in pairs[k := v]
      ensures Covered(runs, c)
    {
      if c == k {
        assert Covers(runs[n], c);
      } else {
        assert Covered(before, c);
        var r :| 0 <= r < |before| && Covers(before[r], c);
        assert Covers(runs[r], c);
      }
    }
  }

  // ----- looking ids up -----

  /** `partition_point` of "starts at or before the id", by halving. */
  method PartitionPoint(table: seq<Run>, client: u16) returns (at: nat)
    requires Ordered(table)
    ensures at <= |table|
    ensures forall i :: 0 <= i < at ==> table[i].start <= client
    ensures forall i :: at <= i < |table| ==> table[i].start > client
  {
    var low, high := 0, |table|;
    while low < high
      invariant 0 <= low <= high <= |table|
      invariant forall i :: 0 <= i < low ==> table[i].start <= client
      invariant forall i :: high <= i < |table| ==> table[i].start > client
    {
      var mid := (low + high) / 2;
      if table[mid].start <= client { low := mid + 1; } else { high := mid; }
    }
    at := low;
  }

  /** For any table, the id found is the lowest server id for the client id, and none is
      found exactly when there is none. */
  method ToServer(table: seq<Run>, client: u16, ghost forward: seq<u16>) returns (r: Option<u16>)
    requires Ordered(table) && |forward| < TWO16
    requires RunsInvert(table, forward)
    ensures r == LowestServer(forward, client)
  {
    hide LowestServer;
    var at := PartitionPoint(table, client);
    if at == 0 {
      assert !Covered(table, client);
      return None;
    }
    var run := table[at - 1];
    if client >= run.start + run.len {
      assert !Covered(table, client);
      return None;
    }
    assert Covers(table[at - 1], client);
    var id := client + run.offset;
    r := if 0 <= id < TWO16 then Some(id) else None;
  }

  /** The flat table shipped beside the runs: one little-endian id per server id. */
  function TableBytes(forward: seq<u16>): (bs: seq<byte>)
    ensures |bs| == 2 * |forward|
  {
    if forward == [] then []
    else TableBytes(forward[..|forward| - 1]) + LittleEndian(2, forward[|forward| - 1])
  }

  function ToClient(table: seq<byte>, server: u16): Option<nat> {
    var at := server * 2;
    if at + 2 <= |table| then Some(FromLittleEndian(table[at..at + 2])) else None
  }

  lemma {:induction false} ToClientReads(forward: seq<u16>, server: u16)
    ensures ToClient(TableBytes(forward), server) == if server < |forward| then Some(forward[server]) else None
    decreases |forward|
  {
    hide LittleEndian, FromLittleEndian;
    if forward != [] {
      var n := |forward| - 1;
      var head, last := TableBytes(forward[..n]), LittleEndian(2, forward[n]);
      if server == n {
        assert (head + last)[n * 2..n * 2 + 2] == last;
        Pow256Words();
        LittleEndianInverse(2, forward[n]);
      } else if server < n {
        ToClientReads(forward[..n], server);
        assert (head + last)[server * 2..server * 2 + 2] == head[server * 2..server * 2 + 2];
      }
    }
  }

  /** Any client id translated to the server and back is itself. */
  lemma ThereAndBack(forward: seq<u16>, client: u16)
    requires |forward| < TWO16 && LowestServer(forward, client).Some?
    ensures ToClient(TableBytes(forward), LowestServer(forward, client).value) == Some(client)
  {
    ToClientReads(forward, LowestServer(forward, client).value);
  }

  /** Every run's length and offset fit the fields of the emitted table. */
  lemma RunsFitTheTable(runs: seq<Run>, forward: seq<u16>)
    requires RunsInvert(runs, forward) && Ordered(runs) && |forward| < TWO16
    ensures forall i :: 0 <= i < |runs| ==> runs[i].len < 0x1_0000 && -0x1_0000 < runs[i].offset < 0x1_0000
  {
    hide LowestServer;
    forall i | 0 <= i < |runs|
      ensures runs[i].len < 0x1_0000 && -0x1_0000 < runs[i].offset < 0x1_0000
    {
      var run := runs[i];
      assert Covers(run, run.start);
      assert LowestServer(forward, run.start) == Some(run.start + run.offset);
      if run.len == TWO16 {
        assert Covers(run, 0) && Covers(run, 0xFFFF);
        ServerInTable(runs, i, 0, forward);
        ServerInTable(runs, i, 0xFFFF, forward);
      }
    }
  }

  lemma ServerInTable(runs: seq<Run>, i: nat, client: u16, forward: seq<u16>)
    requires RunsInvert(runs, forward) && i < |runs| && Covers(runs[i], client)
    ensures 0 <= client + runs[i].offset < |forward|
  {
    hide LowestServer;
    assert LowestServer(forward, client) == Some(client + runs[i].offset);
  }
}
