/** The bounded output history of one pane (core/history.go): a list of chunks
    with absolute cursors that refines the pane's unbounded output log. */
module PaneHistory {
  import opened Bytes

  const HISTORY_CHUNK_MAX: nat := 32 * 1024

  /** The fields of a history as a value. */
  datatype History = History(chunks: seq<seq<byte>>, bytes: int, base: nat, end: nat)

  datatype Snapshot = Snapshot(
    chunks: seq<seq<byte>>, serverBase: nat, serverEnd: nat, deltaFrom: nat, deltaTo: nat)

  /** `h` is what is left of the complete output `log`: its bytes from `base` on. */
  ghost predicate Retains(h: History, log: seq<byte>)
  {
    && h.base <= h.end == |log|
    && h.bytes == h.end - h.base
    && Flatten(h.chunks) == log[h.base..]
    && (forall i :: 0 <= i < |h.chunks| ==> h.chunks[i] != [])
  }

  /** The chunks left when `n` bytes are dropped from the front. */
  function DropBytes(chunks: seq<seq<byte>>, n: nat): seq<seq<byte>>
  {
    if chunks == [] then []
    else if n >= |chunks[0]| then DropBytes(chunks[1..], n - |chunks[0]|)
    else [chunks[0][n..]] + chunks[1..]
  }

  function AppendOf(h: History, chunk: seq<byte>): History
  {
    if chunk == [] then h
    else History(h.chunks + [chunk], h.bytes + |chunk|, h.base, h.end + |chunk|)
  }

  function AppendAll(h: History, chunks: seq<seq<byte>>): History
    decreases |chunks|
  {
    if chunks == [] then h else AppendAll(AppendOf(h, chunks[0]), chunks[1..])
  }

  function TrimOf(h: History, limit: int): History
  {
    if limit <= 0 || h.bytes <= limit then h
    else
      var drop := h.bytes - limit;
      History(DropBytes(h.chunks, drop), limit, h.base + drop, h.end)
  }

  function SnapshotOf(h: History): Snapshot
  {
    Snapshot(h.chunks, h.base, h.end, h.base, h.end)
  }

  function SnapshotFromOf(h: History, cursor: nat): Snapshot
    requires h.base <= h.end
  {
    var from := if cursor < h.base then h.base else if cursor > h.end then h.end else cursor;
    if from >= h.end then Snapshot([], h.base, h.end, from, h.end)
    else Snapshot(DropBytes(h.chunks, from - h.base), h.base, h.end, from, h.end)
  }

  class PaneHistory {
    var chunks: seq<seq<byte>>
    var bytes: int
    var base: nat
    var end: nat
    /** Everything ever appended. */
    ghost var log: seq<byte>

    ghost function View(): History
      reads this
    {
      History(chunks, bytes, base, end)
    }

    ghost predicate Valid()
      reads this
    {
      Retains(View(), log)
    }

    constructor ()
      ensures Valid() && log == [] && View() == History([], 0, 0, 0)
    {
      chunks, bytes, base, end, log := [], 0, 0, 0, [];
    }

    method Append(chunk: seq<byte>)
      requires Valid()
      modifies this
      ensures Valid() && log == old(log) + chunk
      ensures View() == AppendOf(old(View()), chunk)
      ensures base == old(base) && bytes == old(bytes) + |chunk|
    {
      if chunk == [] {
        assert log + chunk == log;
        return;
      }
      AppendRetains(View(), log, chunk);
      chunks := chunks + [chunk];
      bytes := bytes + |chunk|;
      end := end + |chunk|;
      log := log + chunk;
    }

    /** Keeps exactly the last `limit` bytes of a history that holds more. */
    method Trim(limit: int)
      requires Valid()
      modifies this`chunks, this`bytes, this`base
      ensures Valid()
      ensures View() == TrimOf(old(View()), limit)
      ensures limit > 0 ==> bytes == Min(old(bytes), limit)
    {
      if limit <= 0 || bytes <= limit {
        return;
      }
      TrimRetains(View(), log, limit);
      var dropBytes := bytes - limit;
      ghost var want := DropBytes(chunks, dropBytes);
      while dropBytes > 0 && |chunks| > 0
        invariant 0 <= dropBytes
        invariant bytes - dropBytes == limit
        invariant base + dropBytes == old(base + bytes) - limit
        invariant DropBytes(chunks, dropBytes) == want
        invariant |Flatten(chunks)| == bytes
        invariant forall i :: 0 <= i < |chunks| ==> chunks[i] != []
        decreases dropBytes, |chunks|
      {
        var chunk := chunks[0];
        if dropBytes >= |chunk| {
          dropBytes := dropBytes - |chunk|;
          bytes := bytes - |chunk|;
          base := base + |chunk|;
          chunks := chunks[1..];
        } else {
          chunks := [chunk[dropBytes..]] + chunks[1..];
          bytes := bytes - dropBytes;
          base := base + dropBytes;
          dropBytes := 0;
          assert chunks[0][0..] == chunks[0];
          assert DropBytes(chunks, 0) == [chunks[0]] + chunks[1..] == chunks;
        }
      }
      if dropBytes == 0 && chunks != [] {
        assert chunks[0][0..] == chunks[0];
        assert DropBytes(chunks, 0) == [chunks[0]] + chunks[1..] == chunks;
      }
      assert bytes >= 0;  // so the source's clamp to zero never fires
    }

    method TakeSnapshot() returns (s: Snapshot)
      requires Valid()
      ensures s == SnapshotOf(View())
      ensures s.serverBase == s.deltaFrom == base && s.serverEnd == s.deltaTo == end && Flatten(s.chunks) == log[base..]
    {
      s := Snapshot(chunks, base, end, base, end);
    }

    /** The retained bytes from `from` (clamped to the retained range) to the end. */
    method SnapshotFrom(from: nat) returns (s: Snapshot)
      requires Valid()
      ensures s == SnapshotFromOf(View(), from)
    {
      hide DropBytes, Flatten;
      var cursor := from;
      if cursor < base {
        cursor := base;
      }
      if cursor > end {
        cursor := end;
      }
      if cursor >= end {
        return Snapshot([], base, end, cursor, end);
      }
      var skip := cursor - base;
      var parts := chunks;
      ghost var want := DropBytes(parts, skip);
      var taken: seq<seq<byte>> := [];
      var i := 0;
      Empty(parts);
      Empty(want);
      while i < |parts|
        invariant 0 <= i <= |parts|
        invariant 0 <= skip
        invariant want == taken + DropBytes(parts[i..], skip)
      {
        var chunk := parts[i];
        DropStep(parts, i, skip);
        if skip >= |chunk| {
          skip := skip - |chunk|;
        } else {
          if skip > 0 {
            chunk := chunk[skip..];
            skip := 0;
          }
          Assoc(taken, [chunk], DropBytes(parts[i + 1..], 0));
          taken := taken + [chunk];
        }
        i := i + 1;
      }
      DropAll(skip);
      Empty(taken);
      return Snapshot(taken, base, end, cursor, end);
    }
  }

  method MakeHistoryChunks(data: seq<byte>) returns (chunks: seq<seq<byte>>)
    ensures chunks == Pieces(data, HISTORY_CHUNK_MAX)
  {
    chunks := [];
    var rest := data;
    while |rest| > 0
      invariant Pieces(data, HISTORY_CHUNK_MAX) == chunks + Pieces(rest, HISTORY_CHUNK_MAX)
      decreases |rest|
    {
      var size := Min(|rest|, HISTORY_CHUNK_MAX);
      var chunk := rest[..size];
      assert |rest| <= HISTORY_CHUNK_MAX ==> chunk == rest && rest[size..] == [];
      chunks := chunks + [chunk];
      rest := rest[size..];
    }
  }

  /** One iteration of the loop that skips chunks. */
  lemma DropStep(chunks: seq<seq<byte>>, i: nat, skip: nat)
    requires i < |chunks|
    requires forall k :: 0 <= k < |chunks| ==> chunks[k] != []
    ensures skip >= |chunks[i]| ==>
              DropBytes(chunks[i..], skip) == DropBytes(chunks[i + 1..], skip - |chunks[i]|)
    ensures skip < |chunks[i]| ==>
              DropBytes(chunks[i..], skip) == [chunks[i][skip..]] + DropBytes(chunks[i + 1..], 0)
    ensures chunks[i][0..] == chunks[i]
  {
    assert chunks[i..][1..] == chunks[i + 1..];
    DropNothing(chunks, i + 1);
  }

  lemma DropAll(skip: nat)
    ensures DropBytes([], skip) == []
  {}

  lemma DropNothing(chunks: seq<seq<byte>>, i: nat)
    requires i <= |chunks|
    requires forall k :: 0 <= k < |chunks| ==> chunks[k] != []
    ensures DropBytes(chunks[i..], 0) == chunks[i..]
  {
    if i < |chunks| {
      assert chunks[i][0..] == chunks[i];
    }
  }

  /** Dropping `n` bytes of chunks drops the first `n` bytes of what they hold. */
  lemma {:induction false} DropBytesSpec(chunks: seq<seq<byte>>, n: nat)
    requires n <= |Flatten(chunks)|
    requires forall i :: 0 <= i < |chunks| ==> chunks[i] != []
    ensures Flatten(DropBytes(chunks, n)) == Flatten(chunks)[n..]
    ensures forall i :: 0 <= i < |DropBytes(chunks, n)| ==> DropBytes(chunks, n)[i] != []
  {
    if chunks != [] {
      if n >= |chunks[0]| {
        DropBytesSpec(chunks[1..], n - |chunks[0]|);
      } else {
        assert DropBytes(chunks, n)[1..] == chunks[1..];
      }
    }
  }

  lemma AppendRetains(h: History, log: seq<byte>, chunk: seq<byte>)
    requires Retains(h, log)
    ensures Retains(AppendOf(h, chunk), log + chunk)
  {
    if chunk == [] {
      assert log + chunk == log;
    } else {
      FlattenSnoc(h.chunks, chunk);
      assert (log + chunk)[h.base..] == log[h.base..] + chunk;
    }
  }

  lemma {:induction false} AppendAllRetains(h: History, log: seq<byte>, chunks: seq<seq<byte>>)
    requires Retains(h, log)
    ensures Retains(AppendAll(h, chunks), log + Flatten(chunks))
    decreases |chunks|
  {
    if chunks == [] {
      assert log + Flatten(chunks) == log;
    } else {
      AppendRetains(h, log, chunks[0]);
      AppendAllRetains(AppendOf(h, chunks[0]), log + chunks[0], chunks[1..]);
      assert log + Flatten(chunks) == log + chunks[0] + Flatten(chunks[1..]);
    }
  }

  /** A trim is exact: it keeps the last min(limit, bytes) bytes of the log. */
  lemma TrimRetains(h: History, log: seq<byte>, limit: int)
    requires Retains(h, log)
    ensures Retains(TrimOf(h, limit), log)
    ensures limit > 0 ==> TrimOf(h, limit).bytes == Min(h.bytes, limit)
    ensures limit > 0 ==> Flatten(TrimOf(h, limit).chunks) == log[|log| - Min(h.bytes, limit)..]
  {
    if limit > 0 && h.bytes > limit {
      DropBytesSpec(h.chunks, h.bytes - limit);
      assert log[h.base..][h.bytes - limit..] == log[h.base + (h.bytes - limit)..];
    }
  }

  /** A snapshot from any cursor is the log from that cursor clamped to the
      retained range, and its length is the distance it announces. */
  lemma SnapshotFromSpec(h: History, log: seq<byte>, cursor: nat)
    requires Retains(h, log)
    ensures var s := SnapshotFromOf(h, cursor);
            && s.deltaFrom == Max(h.base, Min(cursor, h.end))
            && s.serverBase == h.base && s.serverEnd == s.deltaTo == |log|
            && Flatten(s.chunks) == log[s.deltaFrom..]
  {
    var from := Max(h.base, Min(cursor, h.end));
    if from < h.end {
      DropBytesSpec(h.chunks, from - h.base);
      hide DropBytes, Flatten;
      CutTwice(log, h.base, from - h.base, from - h.base);
    } else {
      assert log[from..] == [];
    }
  }

  /** A whole snapshot starts where the history does and holds all that is retained. */
  lemma SnapshotSpec(h: History, log: seq<byte>)
    requires Retains(h, log)
    ensures var s := SnapshotOf(h);
            && s.deltaFrom == s.serverBase == |log| - h.bytes
            && s.serverEnd == s.deltaTo == |log|
            && Flatten(s.chunks) == log[|log| - h.bytes..]
  {}

  /** Over any run of appended chunks and trims the history keeps refining the log. */
  datatype HistoryOp = DoAppend(chunk: seq<byte>) | DoTrim(limit: int)

  function RunHistory(h: History, ops: seq<HistoryOp>): History
    decreases |ops|
  {
    if ops == [] then h
    else
      match ops[0]
      case DoAppend(c) => RunHistory(AppendOf(h, c), ops[1..])
      case DoTrim(l) => RunHistory(TrimOf(h, l), ops[1..])
  }

  function Written(ops: seq<HistoryOp>): seq<byte>
  {
    if ops == [] then []
    else (if ops[0].DoAppend? then ops[0].chunk else []) + Written(ops[1..])
  }

  lemma {:induction false} RunsRefineTheLog(h: History, log: seq<byte>, ops: seq<HistoryOp>)
    requires Retains(h, log)
    ensures Retains(RunHistory(h, ops), log + Written(ops))
    decreases |ops|
  {
    hide Retains, AppendOf, TrimOf;
    if ops == [] {
      Empty(log);
    } else {
      match ops[0]
      case DoAppend(c) =>
        AppendRetains(h, log, c);
        RunsRefineTheLog(AppendOf(h, c), log + c, ops[1..]);
        Assoc(log, c, Written(ops[1..]));
      case DoTrim(l) =>
        TrimRetains(h, log, l);
        RunsRefineTheLog(TrimOf(h, l), log, ops[1..]);
        Empty(Written(ops[1..]));
    }
  }
}
