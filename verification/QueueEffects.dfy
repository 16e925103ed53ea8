/** What the reader's calls do to a stream that serves, said on its fields: what a frame
    queues, when a replay is granted a burst, when a stream is cut off and with which
    error (core/queue_stream.go:201-325, core/terminal_queue_replay.go:8-23). */
module QueueEffects {
  import opened Bytes
  import opened QueueStream
  import opened QueueRuns
  import opened QueueOrder
  import opened QueueBounds

  /** The replay that a start control announces is granted a burst. */
  predicate BurstGranted(sub: Subscription, message: Message)
  {
    && message.ReplayStart? && message.isSnapshot
    && sub.flow in {TurnAck, WindowAck} && sub.replayBurstLimit > 0
    && message.deltaFrom.Some? && message.deltaTo.Some?
    && 0 < message.deltaTo.value - message.deltaFrom.value <= sub.replayBurstLimit
    && message.deltaTo.value - message.deltaFrom.value <= 3_500_000
  }

  /** The text with which a text frame is passed on: its own, unless a burst is granted. */
  function TextFor(sub: Subscription, payload: seq<byte>, message: Message): seq<byte>
  {
    if BurstGranted(sub, message) then message.encoded else payload
  }

  /** The agent ends its replay at another cursor than the one its output has reached. */
  predicate Discontinuous(s: Stream, message: Message)
  {
    message.ReplayComplete? && !(s.hasCursor && message.historyCursor == Some(s.cursor))
  }

  /** `t` is `s` after it was cut off: all that was buffered is dropped for this error. */
  predicate CutOff(s: Stream, t: Stream, error: seq<byte>)
  {
    && t.overloaded && t.active
    && |t.buffer| == 1 && t.buffer[0].messageType == Text && t.buffer[0].payload == error
    && t.buffer[0].sequence == s.nextSequence + 1 == t.nextSequence
    && !t.buffer[0].burstStart && !t.buffer[0].burstFinish
    && t.bufferBytes == t.buffer[0].byteCost == |error|
    && t.window == Window(0, 0, [], 0, 0) && !t.burstActive && !t.awaitingTurnAck && t.pendingTurnSequence == 0
  }

  /** `t` is `s` with these entries behind its buffer, numbered on. */
  predicate Extended(s: Stream, t: Stream, entries: seq<Outbound>)
  {
    && Serving(t)
    && t.buffer == s.buffer + entries
    && t.bufferBytes == s.bufferBytes + SumCost(entries)
    && t.nextSequence == s.nextSequence + |entries|
    && (forall i :: 0 <= i < |entries| ==> entries[i].sequence == s.nextSequence + 1 + i)
    && SameFlowFields(s, t)
  }

  predicate SameFlowFields(s: Stream, t: Stream)
  {
    && t.sub == s.sub && t.errors == s.errors && t.window == s.window && t.burstActive == s.burstActive
    && t.awaitingTurnAck == s.awaitingTurnAck && t.turnAckCursor == s.turnAckCursor && t.turnAckSequence == s.turnAckSequence
    && t.pendingTurnCursor == s.pendingTurnCursor && t.pendingTurnSequence == s.pendingTurnSequence
  }

  /** The entry of a text frame. */
  predicate EntryFor(e: Outbound, sub: Subscription, payload: seq<byte>, message: Message)
  {
    && e.messageType == Text && e.payload == TextFor(sub, payload, message) && e.byteCost == |e.payload|
    && (e.burstStart <==> BurstGranted(sub, message))
    && (e.burstFinish <==> message.ReplayComplete? || message.TerminalControl? || message.ConnectionError?)
  }

  lemma OverloadEffect(s: Stream, reason: OverloadReason)
    requires Serving(s)
    ensures CutOff(s, OverloadSection(s, reason), s.errors.For(reason))
    ensures var t := OverloadSection(s, reason);
            t.hasCursor == s.hasCursor && t.cursor == s.cursor && t.terminalControl == s.terminalControl
            && t.binarySequence == s.binarySequence
  {}

  lemma EnqueueEffect(s: Stream, entry: Outbound)
    requires Serving(s)
    ensures var t := EnqueueOf(s, entry);
            && (if s.bufferBytes + entry.byteCost > 4 * 1024 * 1024 then CutOff(s, t, s.errors.bufferFull)
                else Extended(s, t, [entry.(sequence := s.nextSequence + 1)]))
            && t.hasCursor == s.hasCursor && t.cursor == s.cursor && t.terminalControl == s.terminalControl
            && t.binarySequence == s.binarySequence
  {
    var e := entry.(sequence := s.nextSequence + 1);
    assert SumCost([e]) == e.byteCost + SumCost([]);
    hide CutOff, SumCost;
    if s.bufferBytes + entry.byteCost > BUFFER_LIMIT {
      OverloadEffect(s, BufferFull);
      hide OverloadSection;
    }
  }

  lemma SectionEffect(s: Stream, payload: seq<byte>, message: Message)
    ensures var (t, outcome) := TextSection(s, payload, message);
            && (outcome.Rejected? <==> Discontinuous(s, message))
            && (outcome.Accepted? ==> EntryFor(outcome.entry, s.sub, payload, message))
            && t == s.(hasCursor := s.hasCursor || (message.ReplayStart? && message.deltaFrom.Some?),
                       cursor := if message.ReplayStart? && message.deltaFrom.Some? then message.deltaFrom.value else s.cursor,
                       terminalControl := s.terminalControl || message.TerminalControl?)
  {}

  /** A text frame cuts the stream off exactly if it ends a replay elsewhere than where the
      output stands, or no longer fits; otherwise it queues its entry behind the others. */
  lemma TextEffect(s: Stream, payload: seq<byte>, message: Message)
    requires Serving(s)
    ensures var t := EnqueueTextOf(s, payload, message);
            && (if Discontinuous(s, message) then CutOff(s, t, s.errors.notContinuous)
                else if s.bufferBytes + |TextFor(s.sub, payload, message)| > 4 * 1024 * 1024 then CutOff(s, t, s.errors.bufferFull)
                else exists e :: EntryFor(e, s.sub, payload, message) && Extended(s, t, [e]))
            && t.hasCursor == (s.hasCursor || (message.ReplayStart? && message.deltaFrom.Some?))
            && t.cursor == (if message.ReplayStart? && message.deltaFrom.Some? then message.deltaFrom.value else s.cursor)
            && t.terminalControl == (s.terminalControl || message.TerminalControl?)
            && t.binarySequence == s.binarySequence
  {
    SectionEffect(s, payload, message);
    hide TextSection, EnqueueOf, OverloadSection, Discontinuous, TextFor, BurstGranted;
    var (u, outcome) := TextSection(s, payload, message);
    if outcome.Rejected? {
      OverloadEffect(u, NotContinuous);
    } else {
      EnqueueEffect(u, outcome.entry);
      var e := outcome.entry.(sequence := s.nextSequence + 1);
      assert EntryFor(e, s.sub, payload, message);
    }
  }

  /** The entries of one frame of output: its bytes from `cursor` on, in order, in pieces of
      512 KiB and a shorter rest. */
  ghost predicate Carry(entries: seq<Outbound>, payload: seq<byte>, cursor: nat, number: nat)
  {
    if payload == [] then entries == []
    else
      && entries != []
      && var k := Min(|payload|, 512 * 1024);
      var e := entries[0];
      && e == Outbound(e.sequence, number + 1, Binary, payload[..k], cursor, cursor + k, k, false, false)
      && Carry(entries[1..], payload[k..], cursor + k, number + 1)
  }

  /** `t` is `s` with this output behind its buffer. */
  ghost predicate OutputQueued(s: Stream, t: Stream, entries: seq<Outbound>, payload: seq<byte>, cursor: nat)
  {
    && Extended(s, t, entries) && Carry(entries, payload, cursor, s.binarySequence) && SumCost(entries) == |payload|
    && t.hasCursor == s.hasCursor && t.terminalControl == s.terminalControl
    && t.binarySequence == s.binarySequence + |entries|
  }

  lemma NothingQueued(s: Stream, cursor: nat)
    requires Serving(s)
    ensures OutputQueued(s, s, [], [], cursor)
  {
    Empty(s.buffer);
  }

  lemma QueuedFirst(s: Stream, u: Stream, t: Stream, e: Outbound, more: seq<Outbound>, payload: seq<byte>, cursor: nat)
    requires payload != [] && Serving(s) && u.binarySequence == s.binarySequence + 1
    requires var k := Min(|payload|, 512 * 1024);
             && e == Outbound(s.nextSequence + 1, s.binarySequence + 1, Binary, payload[..k], cursor, cursor + k, k, false, false)
             && OutputQueued(u, t, more, payload[k..], cursor + k)
    requires Extended(s, u, [e]) && u.hasCursor == s.hasCursor && u.terminalControl == s.terminalControl
    ensures OutputQueued(s, t, [e] + more, payload, cursor)
  {
    hide Serving, SameFlowFields;
    var all := [e] + more;
    Assoc(s.buffer, [e], more);
    Cons(e, more);
    assert SumCost([e]) == e.byteCost + SumCost([]);
    forall i | 0 <= i < |all| ensures all[i].sequence == s.nextSequence + 1 + i {
      if i > 0 {
        assert all[i] == more[i - 1];
      }
    }
    SameFlowTwice(s, u, t);
    assert Carry(all, payload, cursor, s.binarySequence);
  }

  lemma SameFlowTwice(s: Stream, u: Stream, t: Stream)
    ensures SameFlowFields(s, u) && SameFlowFields(u, t) ==> SameFlowFields(s, t)
  {}

  lemma {:induction false} PiecesEffect(s: Stream, payload: seq<byte>, start: nat) returns (entries: seq<Outbound>)
    requires Serving(s) && s.bufferBytes + |payload| <= BUFFER_LIMIT
    ensures var t := EnqueuePiecesOf(s, Pieces(payload, BINARY_MAX), start);
            OutputQueued(s, t, entries, payload, start) && t.cursor == s.cursor
    decreases |payload|
  {
    if payload == [] {
      NothingQueued(s, start);
      entries := [];
    } else {
      var k := Min(|payload|, BINARY_MAX);
      PiecesCallStep(s, payload, start, k);
      var n := s.(binarySequence := s.binarySequence + 1);
      var e := BinaryEntry(payload[..k], start, s.binarySequence + 1);
      EnqueueEffect(n, e);
      var u := EnqueueOf(n, e);
      hide Pieces, EnqueuePiecesOf, EnqueueOf, OutputQueued, CutOff;
      ExtendsBytes(n, u, e.(sequence := s.nextSequence + 1));
      ExtendsNumbered(s, n, u, [e.(sequence := s.nextSequence + 1)]);
      hide Extended;
      var more := PiecesEffect(u, payload[k..], start + k);
      var t := EnqueuePiecesOf(u, Pieces(payload[k..], BINARY_MAX), start + k);
      QueuedFirst(s, u, t, e.(sequence := s.nextSequence + 1), more, payload, start);
      entries := [e.(sequence := s.nextSequence + 1)] + more;
    }
  }

  lemma ExtendsBytes(s: Stream, t: Stream, e: Outbound)
    requires Extended(s, t, [e])
    ensures Serving(t) && t.bufferBytes == s.bufferBytes + e.byteCost
  {
    assert SumCost([e]) == e.byteCost + SumCost([]);
  }

  lemma ExtendsNumbered(s: Stream, n: Stream, t: Stream, entries: seq<Outbound>)
    requires n == s.(binarySequence := n.binarySequence) && Extended(n, t, entries)
    ensures Extended(s, t, entries)
  {}

  /** A frame of output cuts the stream off exactly if it comes before any cursor is known,
      or does not fit whole; otherwise all of it is queued, at the cursor that it moves. */
  lemma BinaryEffect(s: Stream, payload: seq<byte>)
    requires Serving(s) && payload != []
    ensures var t := EnqueueBinaryOf(s, payload);
            if !s.hasCursor then CutOff(s, t, s.errors.beforeCursor)
            else if s.bufferBytes + |payload| > 4 * 1024 * 1024 then CutOff(s, t, s.errors.bufferFull)
            else t.cursor == s.cursor + |payload| && exists entries :: OutputQueued(s, t, entries, payload, s.cursor)
  {
    hide EnqueuePiecesOf, Pieces, CutOff, OverloadSection, OutputQueued;
    if !s.hasCursor {
      OverloadEffect(s, BeforeCursor);
    } else if s.bufferBytes + |payload| > BUFFER_LIMIT {
      OverloadEffect(s, BufferFull);
    } else {
      var u := s.(cursor := s.cursor + |payload|);
      var entries := PiecesEffect(u, payload, s.cursor);
      QueuedMoved(s, u, EnqueueBinaryOf(s, payload), entries, payload, s.cursor);
    }
  }

  lemma QueuedMoved(s: Stream, u: Stream, t: Stream, entries: seq<Outbound>, payload: seq<byte>, cursor: nat)
    requires u == s.(cursor := u.cursor) && OutputQueued(u, t, entries, payload, cursor)
    ensures OutputQueued(s, t, entries, payload, cursor)
  {
    hide Carry, SumCost;
  }

  // ---- a call is the reader's sections one after the other ---------------------------

  /** The reader alone, for `n` steps. */
  function Reads(y: System, n: nat): System
    decreases n
  {
    if n == 0 then y else Reads(Step(y, ReaderStep), n - 1)
  }

  /** `z` is `y` after the reader's call has come back, with this stream. */
  predicate CallDone(y: System, z: System, s: Stream)
  {
    z == y.(stream := s, reader := Gate)
  }

  lemma OverloadCall(y: System)
    requires y.reader.Overloading? && y.reader.next == Gate
    ensures CallDone(y, Reads(y, 1), OverloadSection(y.stream, y.reader.reason))
  {
    hide OverloadSection;
    assert Reads(y, 1) == Reads(Step(y, ReaderStep), 0);
  }

  lemma EnqueueCall(y: System) returns (n: nat)
    requires y.reader.Enqueuing?
    ensures CallDone(y, Reads(y, n), EnqueueOf(y.stream, y.reader.entry))
  {
    hide EnqueueSection, OverloadSection;
    var z := Step(y, ReaderStep);
    if z.reader == Gate {
      n := 1;
      assert Reads(y, 1) == Reads(z, 0);
    } else {
      OverloadCall(z);
      n := 2;
    }
  }

  /** Numbering and enqueueing one piece, and dropping everything if it does not fit. */
  lemma PieceCall(y: System) returns (n: nat)
    requires y.reader.Cutting? && y.reader.offset < |y.reader.payload|
    ensures var Cutting(payload, start, offset) := y.reader;
            var end := ChunkEnd(payload, offset);
            var next: ReaderState := Cutting(payload, start, end);
            Reads(y, n) == y.(stream := EnqueueOf(NumberSection(y.stream).0,
                                                  BinaryEntry(payload[offset..end], start + offset, y.stream.binarySequence + 1)),
                              reader := next)
  {
    hide EnqueueSection, OverloadSection, BinaryEntry;
    var z := Step(y, ReaderStep);
    assert z.reader.Numbered?;
    var z' := Step(z, ReaderStep);
    if z'.reader.Overloading? {
      var z'' := Step(z', ReaderStep);
      n := 3;
      assert Reads(y, 3) == Reads(z, 2) == Reads(z', 1) == Reads(z'', 0);
    } else {
      n := 2;
      assert Reads(y, 2) == Reads(z, 1) == Reads(z', 0);
    }
  }

  lemma {:induction false} ReadsMore(y: System, m: nat, n: nat)
    ensures Reads(y, m + n) == Reads(Reads(y, m), n)
    decreases m
  {
    if m > 0 {
      hide Step;
      ReadsMore(Step(y, ReaderStep), m - 1, n);
    }
  }

  lemma {:induction false} CuttingCall(y: System) returns (n: nat)
    requires y.reader.Cutting?
    ensures var Cutting(payload, start, offset) := y.reader;
            CallDone(y, Reads(y, n), EnqueuePiecesOf(y.stream, Pieces(payload[offset..], BINARY_MAX), start + offset))
    decreases |y.reader.payload| - y.reader.offset
  {
    hide Pieces, EnqueuePiecesOf, EnqueueOf, BinaryEntry, Reads, Step, ChunkEnd;
    var Cutting(payload, start, offset) := y.reader;
    if offset == |payload| {
      n := LastPiece(y);
    } else {
      ChunkEnds(payload, offset);
      var end := ChunkEnd(payload, offset);
      var m := PieceCall(y);
      var z := Reads(y, m);
      var k := CuttingCall(z);
      n := m + k;
      ReadsMore(y, m, k);
      CutTwice(payload, offset, end - offset, end - offset);
      PiecesCallStep(y.stream, payload[offset..], start + offset, end - offset);
    }
  }

  lemma ChunkEnds(payload: seq<byte>, offset: nat)
    requires offset < |payload|
    ensures offset < ChunkEnd(payload, offset) <= |payload|
    ensures ChunkEnd(payload, offset) - offset == Min(|payload[offset..]|, BINARY_MAX)
  {}

  lemma LastPiece(y: System) returns (n: nat)
    requires y.reader.Cutting? && y.reader.offset == |y.reader.payload|
    ensures CallDone(y, Reads(y, n),
                     EnqueuePiecesOf(y.stream, Pieces(y.reader.payload[y.reader.offset..], BINARY_MAX), y.reader.start + y.reader.offset))
  {
    Empty(y.reader.payload);
    n := 1;
    assert Reads(y, 1) == Reads(Step(y, ReaderStep), 0);
  }

  /** A frame that is read without interruption does to the stream what one call does. */
  lemma ReaderCall(y: System, frame: Frame) returns (n: nat)
    requires y.reader == Ready
    ensures CallDone(y.(frames := y.frames + [frame]), Reads(Step(y, Read(frame)), n),
                     if frame.TextFrame? then EnqueueTextOf(y.stream, frame.payload, frame.message)
                     else EnqueueBinaryOf(y.stream, frame.payload))
  {
    hide TextSection, EnqueueSection, OverloadSection, EnqueuePiecesOf, Pieces;
    var z := Step(y, Read(frame));
    match z.reader
    case Gate => n := 0;
    case Enqueuing(_) => n := EnqueueCall(z);
    case Cutting(payload, start, offset) => n := CuttingCall(z); Empty(payload);
    case Overloading(_, _) => OverloadCall(z); n := 1;
  }
}
