/** The broker's writer loop (core/terminal_queue.go, RunWriter): rounds that give
    every ready stream one turn of bounded length. */
module QueueWriter {
  import opened Bytes
  import opened QueueStream
  import opened QueueBounds

  /** The stream after its first `n` entries are popped. */
  function PopMany(s: Stream, n: nat): Stream
    requires n <= |s.buffer|
    ensures PopMany(s, n).buffer == s.buffer[n..]
  {
    if n == 0 then s else PopSection(PopMany(s, n - 1))
  }

  /** The last binary entry of a turn, as its cursor and sequence; (0, 0) if none. */
  function LastBinary(entries: seq<Outbound>): (nat, nat)
  {
    if entries == [] then (0, 0)
    else
      var e := entries[|entries| - 1];
      if e.messageType == Binary then (e.endCursor, e.binarySequence) else LastBinary(entries[..|entries| - 1])
  }

  /** A turn's bytes: at most the round budget, or a single larger entry (and
      entries that cost nothing). */
  ghost predicate WithinBudget(entries: seq<Outbound>)
  {
    SumCost(entries) <= ROUND_BYTES || exists i :: 0 <= i < |entries| && entries[i].byteCost == SumCost(entries)
  }

  predicate Ready(s: Stream)
  {
    TargetSection(s) != 0
  }

  /** What one turn on a ready stream did: it wrote a non-empty run of entries from
      the front of the buffer, within its budget, stopped only at the budget, at the
      time limit, or where nothing more could be sent, and then closed the turn
      with the last binary entry it wrote. */
  ghost predicate TurnOk(s: Stream, z: Stream, entries: seq<Outbound>, boundary: Option<(nat, nat)>, timeUp: bool)
  {
    var n := |entries|;
    && 0 < n <= |s.buffer| && entries == s.buffer[..n]
    && WithinBudget(entries)
    && (timeUp || SumCost(entries) >= ROUND_BYTES || !CanPop(PopMany(s, n), TargetSection(s), SumCost(entries)))
    && (z, boundary) == FinishSection(PopMany(s, n), LastBinary(entries).0, LastBinary(entries).1)
  }

  /** `written` records what goes to the client, entries and turn boundaries. */
  method RunTurn(stream: PaneStream) returns (entries: seq<Outbound>, boundary: Option<(nat, nat)>, timeUp: bool)
    requires BufferOk(stream.View())
    modifies stream
    ensures !Ready(old(stream.View())) ==> stream.View() == old(stream.View()) && entries == [] && boundary.None?
    ensures Ready(old(stream.View())) ==> TurnOk(old(stream.View()), stream.View(), entries, boundary, timeUp)
  {
    hide PopSection, FinishSection, WindowAllows, CanPop;
    entries, boundary, timeUp := [], None, false;
    var target := stream.TargetSequence();
    if target == 0 {
      return;
    }
    ghost var s := stream.View();
    FirstPop(s);
    var writtenBytes, turnCursor, turnSequence := 0, 0, 0;
    while true
      invariant |entries| <= |s.buffer| && entries == s.buffer[..|entries|]
      invariant stream.View() == PopMany(s, |entries|)
      invariant writtenBytes == SumCost(entries)
      invariant WithinBudget(entries)
      invariant (turnCursor, turnSequence) == LastBinary(entries)
      invariant entries == [] ==> CanPop(s, target, 0)
      decreases |s.buffer| - |entries|
    {
      var popped := stream.PopThrough(target, writtenBytes);
      if popped.None? {
        break;
      }
      var entry := popped.value;
      TurnStep(s, entries, entry, target);
      if entry.messageType == Binary {
        turnCursor := entry.endCursor;
        turnSequence := entry.binarySequence;
      }
      entries := entries + [entry];
      writtenBytes := writtenBytes + entry.byteCost;
      timeUp := *;
      if writtenBytes >= ROUND_BYTES || timeUp {
        break;
      }
    }
    boundary := stream.FinishTurn(turnCursor, turnSequence);
  }

  /** A stream that is ready can be popped at once. */
  lemma FirstPop(s: Stream)
    requires BufferOk(s) && Ready(s)
    ensures CanPop(s, TargetSection(s), 0)
  {}

  lemma TurnStep(s: Stream, entries: seq<Outbound>, entry: Outbound, target: nat)
    requires |entries| <= |s.buffer| && entries == s.buffer[..|entries|]
    requires WithinBudget(entries) && CanPop(PopMany(s, |entries|), target, SumCost(entries))
    requires entry == PopMany(s, |entries|).buffer[0]
    ensures |entries| < |s.buffer| && entries + [entry] == s.buffer[..|entries| + 1]
    ensures PopMany(s, |entries| + 1) == PopSection(PopMany(s, |entries|))
    ensures SumCost(entries + [entry]) == SumCost(entries) + entry.byteCost
    ensures WithinBudget(entries + [entry])
    ensures LastBinary(entries + [entry]) == if entry.messageType == Binary then (entry.endCursor, entry.binarySequence) else LastBinary(entries)
  {
    hide PopSection, CanPop, SumCost, PopMany, WithinBudget, LastBinary;
    var n := |entries|;
    PopGuard(PopMany(s, n), target, SumCost(entries));
    PopOne(s, n);
    BudgetStep(entries, entry);
    LastBinarySnoc(entries, entry);
    NextEntry(s.buffer, n);
  }

  /** What a pop that succeeds tells. */
  lemma PopGuard(s: Stream, target: nat, written: nat)
    requires CanPop(s, target, written)
    ensures s.buffer != []
    ensures !(written > 0 && s.buffer[0].byteCost > 0 && written + s.buffer[0].byteCost > ROUND_BYTES)
  {}

  lemma NextEntry(buffer: seq<Outbound>, n: nat)
    requires n < |buffer|
    ensures buffer[n..][0] == buffer[n] && buffer[..n + 1] == buffer[..n] + [buffer[n]]
  {}

  lemma PopOne(s: Stream, n: nat)
    requires n < |s.buffer|
    ensures PopMany(s, n + 1) == PopSection(PopMany(s, n)) && PopMany(s, n).buffer == s.buffer[n..]
  {
    hide PopSection;
  }

  lemma LastBinarySnoc(entries: seq<Outbound>, entry: Outbound)
    ensures LastBinary(entries + [entry]) == if entry.messageType == Binary then (entry.endCursor, entry.binarySequence) else LastBinary(entries)
  {
    Snoc(entries, entry);
  }

  /** What the guard of a pop makes of a turn's bytes. */
  lemma BudgetStep(entries: seq<Outbound>, entry: Outbound)
    requires WithinBudget(entries)
    requires !(SumCost(entries) > 0 && entry.byteCost > 0 && SumCost(entries) + entry.byteCost > ROUND_BYTES)
    ensures SumCost(entries + [entry]) == SumCost(entries) + entry.byteCost
    ensures WithinBudget(entries + [entry])
  {
    var n, all := |entries|, entries + [entry];
    SumCostAppend(entries, [entry]);
    assert SumCost([entry]) == entry.byteCost + SumCost([]);
    hide SumCost;
    assert all[n] == entry;
    if SumCost(all) > ROUND_BYTES {
      if SumCost(entries) == 0 {
        assert all[n].byteCost == SumCost(all);
      } else {
        assert entry.byteCost == 0;
        var i :| 0 <= i < n && entries[i].byteCost == SumCost(entries);
        assert all[i].byteCost == SumCost(all);
      }
    }
  }

  /** Whether a burst is open after these entries: the last mark among them decides. */
  predicate OpenAfter(open: bool, entries: seq<Outbound>)
  {
    if entries == [] then open
    else
      var e := entries[|entries| - 1];
      if e.burstFinish then false else if e.burstStart then true else OpenAfter(open, entries[..|entries| - 1])
  }

  function OutputCost(entries: seq<Outbound>): nat
  {
    if entries == [] then 0
    else
      var e := entries[|entries| - 1];
      OutputCost(entries[..|entries| - 1]) + (if e.messageType == Binary then e.byteCost else 0)
  }

  lemma {:induction false} AfterPops(s: Stream, n: nat)
    requires n <= |s.buffer|
    ensures var z := PopMany(s, n);
            && z.burstActive == OpenAfter(s.burstActive, s.buffer[..n])
            && z.window.inFlight == s.window.inFlight + (if s.sub.flow == WindowAck then OutputCost(s.buffer[..n]) else 0)
            && z.window.boundaries == s.window.boundaries && z.sub == s.sub && z.active == s.active
  {
    if n > 0 {
      AfterPops(s, n - 1);
      NextEntry(s.buffer, n - 1);
      Snoc(s.buffer[..n - 1], s.buffer[n - 1]);
      PopOne(s, n - 1);
      hide PopMany, OpenAfter, OutputCost;
      OneMore(s.burstActive, s.buffer[..n - 1], s.buffer[n - 1]);
    }
  }

  lemma OneMore(open: bool, entries: seq<Outbound>, e: Outbound)
    ensures OpenAfter(open, entries + [e]) == if e.burstFinish then false else if e.burstStart then true else OpenAfter(open, entries)
    ensures OutputCost(entries + [e]) == OutputCost(entries) + (if e.messageType == Binary then e.byteCost else 0)
  {
    Snoc(entries, e);
  }

  /** Where a turn ends: at the time limit, at 512 KiB, when everything buffered is sent, or
      before an entry that would exceed 512 KiB or that the window keeps back. */
  lemma TurnStops(s: Stream, z: Stream, entries: seq<Outbound>, boundary: Option<(nat, nat)>, timeUp: bool)
    requires BufferOk(s) && Ready(s) && TurnOk(s, z, entries, boundary, timeUp)
    ensures var n := |entries|;
            && 0 < n <= |s.buffer|
            && (|| timeUp || SumCost(entries) >= 512 * 1024 || n == |s.buffer|
                || SumCost(entries) + s.buffer[n].byteCost > 512 * 1024
                || (&& s.sub.flow == WindowAck && s.buffer[n].messageType == Binary && !OpenAfter(s.burstActive, entries)
                    && (|| |s.window.boundaries| >= 256
                        || s.window.inFlight + OutputCost(entries) + s.buffer[n].byteCost > 1024 * 1024)))
  {
    hide FinishSection, PopMany, WithinBudget, SumCost, OpenAfter, OutputCost, LastBinary;
    var n := |entries|;
    if n < |s.buffer| {
      AfterPops(s, n);
      PopOne(s, n);
      CutTwice(s.buffer, n, 0, 1);
      assert s.buffer[n..][0] == s.buffer[n];
      assert s.buffer[n].sequence <= s.buffer[|s.buffer| - 1].sequence;
    }
  }

  /** The streams of a round, which are distinct objects. */
  predicate Distinct(streams: seq<PaneStream>)
  {
    forall i, j :: 0 <= i < j < |streams| ==> streams[i] != streams[j]
  }

  /** One round: every stream that is ready gets exactly one turn, in order, and the
      others are left alone; nothing is written only if no stream was ready. */
  method RunRound(streams: seq<PaneStream>) returns (turns: seq<seq<Outbound>>, wrote: bool)
    requires Distinct(streams)
    requires forall i :: 0 <= i < |streams| ==> BufferOk(streams[i].View())
    modifies set i | 0 <= i < |streams| :: streams[i]
    ensures |turns| == |streams|
    ensures forall i :: 0 <= i < |streams| ==> RoundOk(old(streams[i].View()), streams[i].View(), turns[i])
    ensures wrote <==> exists i :: 0 <= i < |streams| && Ready(old(streams[i].View()))
  {
    hide BufferOk, TurnOk, Ready;
    turns, wrote := [], false;
    for k := 0 to |streams|
      invariant |turns| == k
      invariant forall i :: 0 <= i < k ==> RoundOk(old(streams[i].View()), streams[i].View(), turns[i])
      invariant forall i :: k <= i < |streams| ==> streams[i].View() == old(streams[i].View())
      invariant wrote <==> exists i :: 0 <= i < k && Ready(old(streams[i].View()))
    {
      ghost var s := streams[k].View();
      var entries, boundary, timeUp := RunTurn(streams[k]);
      TurnIsRound(s, streams[k].View(), entries, boundary, timeUp);
      turns := turns + [entries];
      wrote := wrote || entries != [];
    }
  }

  ghost predicate RoundOk(s: Stream, z: Stream, entries: seq<Outbound>)
  {
    if Ready(s) then exists boundary, timeUp :: TurnOk(s, z, entries, boundary, timeUp)
    else z == s && entries == []
  }

  lemma TurnIsRound(s: Stream, z: Stream, entries: seq<Outbound>, boundary: Option<(nat, nat)>, timeUp: bool)
    requires if Ready(s) then TurnOk(s, z, entries, boundary, timeUp) else z == s && entries == []
    ensures RoundOk(s, z, entries) && (entries != [] <==> Ready(s))
  {
    hide PopMany, FinishSection, WithinBudget;
  }
}
