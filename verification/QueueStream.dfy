/** One pane's outgoing stream in the unified queue (core/queue_stream.go,
    core/terminal_queue_flow.go, core/terminal_queue_replay.go).

    Every section of the source that runs under the stream mutex appears twice:
    as a function on the stream's fields (`...Section`), which is what the run
    model interleaves, and as a method of the class `PaneStream` that performs
    it in place. */
module QueueStream {
  import opened Bytes

  const BUFFER_LIMIT: nat := 4 * 1024 * 1024
  const HIGH_WATER: nat := 3 * 1024 * 1024
  const ROUND_BYTES: nat := 512 * 1024
  const BINARY_MAX: nat := 512 * 1024
  const WINDOW_BYTES: nat := 1024 * 1024
  const WINDOW_TURNS: nat := 256
  const REPLAY_BURST_MAX: nat := 3_500_000

  datatype FlowControl = NoFlow | TurnAck | WindowAck

  datatype Subscription = Subscription(flow: FlowControl, replayBurstLimit: int)

  datatype MessageType = Text | Binary

  datatype Outbound = Outbound(
    sequence: nat, binarySequence: nat, messageType: MessageType, payload: seq<byte>,
    startCursor: nat, endCursor: nat, byteCost: nat, burstStart: bool, burstFinish: bool)

  datatype Boundary = Boundary(cursor: nat, sequence: nat, bytes: int)

  datatype Window = Window(
    inFlight: int, currentTurnBytes: int, boundaries: seq<Boundary>, ackCursor: nat, ackSequence: nat)

  const EMPTY_WINDOW := Window(0, 0, [], 0, 0)

  /** What a text frame of the agent says, once decoded. `encoded` is the
      payload of a replay start re-encoded with the granted burst size. */
  datatype Message =
    | NotJson
    | ReplayStart(deltaFrom: Option<nat>, deltaTo: Option<nat>, isSnapshot: bool, encoded: seq<byte>)
    | ReplayComplete(historyCursor: Option<nat>)
    | TerminalControl   // process-exit, workspace-refresh-required, terminal-checkpoint-error
    | ConnectionError
    | OtherControl

  datatype OverloadReason = NotContinuous | BeforeCursor | BufferFull

  /** The encoded error control of each overload reason. */
  datatype ErrorControls = ErrorControls(notContinuous: seq<byte>, beforeCursor: seq<byte>, bufferFull: seq<byte>) {
    function For(reason: OverloadReason): seq<byte> {
      match reason
      case NotContinuous => notContinuous
      case BeforeCursor => beforeCursor
      case BufferFull => bufferFull
    }
  }

  datatype Stream = Stream(
    sub: Subscription,
    errors: ErrorControls,
    active: bool,
    overloaded: bool,
    terminalControl: bool,
    nextSequence: nat,
    binarySequence: nat,
    awaitingTurnAck: bool,
    turnAckCursor: nat,
    turnAckSequence: nat,
    window: Window,
    burstActive: bool,
    pendingTurnCursor: nat,
    pendingTurnSequence: nat,
    buffer: seq<Outbound>,
    bufferBytes: int,
    hasCursor: bool,
    cursor: nat)

  function NewStream(sub: Subscription, errors: ErrorControls): Stream
  {
    Stream(sub, errors, true, false, false, 0, 0, false, 0, 0, EMPTY_WINDOW, false, 0, 0, [], 0, false, 0)
  }

  function SumCost(entries: seq<Outbound>): nat
  {
    if entries == [] then 0 else entries[0].byteCost + SumCost(entries[1..])
  }

  function SumBytes(bs: seq<Boundary>): int
  {
    if bs == [] then 0 else bs[0].bytes + SumBytes(bs[1..])
  }

  // ---- reader and control sections ------------------------------------------

  /** The burst granted to a replay start, 0 when none is. */
  function ReplayBurstBytes(sub: Subscription, deltaFrom: Option<nat>, deltaTo: Option<nat>, isSnapshot: bool): nat
  {
    if sub.flow == NoFlow || sub.replayBurstLimit <= 0 || !isSnapshot then 0
    else if deltaFrom.None? || deltaTo.None? || deltaTo.value <= deltaFrom.value then 0
    else if deltaTo.value - deltaFrom.value > Min(sub.replayBurstLimit, REPLAY_BURST_MAX) then 0
    else deltaTo.value - deltaFrom.value
  }

  datatype TextOutcome = Rejected | Accepted(entry: Outbound)

  function TextEntry(payload: seq<byte>, burstStart: bool, burstFinish: bool): Outbound
  {
    Outbound(0, 0, Text, payload, 0, 0, |payload|, burstStart, burstFinish)
  }

  function TextSection(s: Stream, payload: seq<byte>, message: Message): (Stream, TextOutcome)
  {
    match message
    case ReplayStart(deltaFrom, deltaTo, isSnapshot, encoded) =>
      var moved := if deltaFrom.Some? then s.(cursor := deltaFrom.value, hasCursor := true) else s;
      if ReplayBurstBytes(s.sub, deltaFrom, deltaTo, isSnapshot) > 0
      then (moved, Accepted(TextEntry(encoded, true, false)))
      else (moved, Accepted(TextEntry(payload, false, false)))
    case ReplayComplete(historyCursor) =>
      if historyCursor.None? || !s.hasCursor || historyCursor.value != s.cursor then (s, Rejected)
      else (s, Accepted(TextEntry(payload, false, true)))
    case TerminalControl => (s.(terminalControl := true), Accepted(TextEntry(payload, false, true)))
    case ConnectionError => (s, Accepted(TextEntry(payload, false, true)))
    case NotJson => (s, Accepted(TextEntry(payload, false, false)))
    case OtherControl => (s, Accepted(TextEntry(payload, false, false)))
  }

  datatype BinaryOutcome = Ignored | NoCursor | TooLarge | Reserved(startCursor: nat)

  function BinarySection(s: Stream, payload: seq<byte>): (Stream, BinaryOutcome)
  {
    if payload == [] then (s, Ignored)
    else if !s.hasCursor then (s, NoCursor)
    else if s.bufferBytes + |payload| > BUFFER_LIMIT then (s, TooLarge)
    else (s.(cursor := s.cursor + |payload|), Reserved(s.cursor))
  }

  function NumberSection(s: Stream): (Stream, nat)
  {
    (s.(binarySequence := s.binarySequence + 1), s.binarySequence + 1)
  }

  function BinaryEntry(chunk: seq<byte>, start: nat, sequence: nat): Outbound
  {
    Outbound(0, sequence, Binary, chunk, start, start + |chunk|, |chunk|, false, false)
  }

  datatype EnqueueOutcome = Dropped | Full | Queued

  function EnqueueSection(s: Stream, entry: Outbound): (Stream, EnqueueOutcome)
  {
    if !s.active || s.overloaded then (s, Dropped)
    else if s.bufferBytes + entry.byteCost > BUFFER_LIMIT then (s, Full)
    else
      (s.(nextSequence := s.nextSequence + 1,
          buffer := s.buffer + [entry.(sequence := s.nextSequence + 1)],
          bufferBytes := s.bufferBytes + entry.byteCost),
       Queued)
  }

  function OverloadSection(s: Stream, reason: OverloadReason): Stream
  {
    if !s.active || s.overloaded then s
    else
      var payload := s.errors.For(reason);
      s.(overloaded := true, burstActive := false, pendingTurnCursor := 0, pendingTurnSequence := 0,
         awaitingTurnAck := false, window := EMPTY_WINDOW, nextSequence := s.nextSequence + 1,
         buffer := [TextEntry(payload, false, false).(sequence := s.nextSequence + 1)],
         bufferBytes := |payload|)
  }

  function DeactivateSection(s: Stream): Stream
  {
    s.(active := false, buffer := [], bufferBytes := 0)
  }

  predicate GateOpen(s: Stream)
  {
    s.active && !s.overloaded && s.bufferBytes < HIGH_WATER
  }

  // ---- writer sections ------------------------------------------------------

  predicate UsesWindow(s: Stream)
  {
    s.sub.flow == WindowAck
  }

  predicate WindowAllows(s: Stream, entry: Outbound)
  {
    !UsesWindow(s) || s.burstActive || entry.messageType != Binary ||
    (|s.window.boundaries| < WINDOW_TURNS && s.window.inFlight + entry.byteCost <= WINDOW_BYTES)
  }

  function TargetSection(s: Stream): nat
  {
    if !s.active || s.awaitingTurnAck || |s.buffer| == 0 then 0
    else if !WindowAllows(s, s.buffer[0]) then 0
    else s.buffer[|s.buffer| - 1].sequence
  }

  predicate CanPop(s: Stream, target: nat, alreadyWritten: nat)
  {
    && s.active && |s.buffer| > 0 && s.buffer[0].sequence <= target
    && WindowAllows(s, s.buffer[0])
    && !(alreadyWritten > 0 && s.buffer[0].byteCost > 0 && alreadyWritten + s.buffer[0].byteCost > ROUND_BYTES)
  }

  function PopSection(s: Stream): Stream
    requires |s.buffer| > 0
  {
    var entry := s.buffer[0];
    var burst := if entry.burstFinish then false else if entry.burstStart then true else s.burstActive;
    var window :=
      if UsesWindow(s) && entry.messageType == Binary
      then s.window.(inFlight := s.window.inFlight + entry.byteCost,
                     currentTurnBytes := s.window.currentTurnBytes + entry.byteCost)
      else s.window;
    s.(buffer := s.buffer[1..], burstActive := burst, window := window,
       bufferBytes := Max(s.bufferBytes - entry.byteCost, 0))
  }

  /** Ends a writer turn that last wrote binary entry `sequence` (0 for none);
      the result carries the turn boundary to announce, if there is one. */
  function FinishSection(s: Stream, cursor: nat, sequence: nat): (Stream, Option<(nat, nat)>)
  {
    if !s.active || s.overloaded then (s, None)
    else
      var c := if sequence != 0 then cursor else s.pendingTurnCursor;
      var q := if sequence != 0 then sequence else s.pendingTurnSequence;
      if s.burstActive || q == 0 then (s.(pendingTurnCursor := c, pendingTurnSequence := q), None)
      else
        var done := s.(pendingTurnCursor := 0, pendingTurnSequence := 0);
        match s.sub.flow
        case NoFlow => (done, Some((c, q)))
        case TurnAck => (done.(awaitingTurnAck := true, turnAckCursor := c, turnAckSequence := q), Some((c, q)))
        case WindowAck =>
          (done.(window := s.window.(boundaries := s.window.boundaries + [Boundary(c, q, s.window.currentTurnBytes)],
                                     currentTurnBytes := 0)),
           Some((c, q)))
  }

  // ---- acknowledgement section ----------------------------------------------

  /** The first sent boundary that an acknowledgement names. */
  function FindBoundary(bs: seq<Boundary>, cursor: nat, sequence: nat): (r: Option<nat>)
    ensures r.Some? ==> r.value < |bs| && bs[r.value].cursor == cursor && bs[r.value].sequence == sequence
    ensures r.None? ==> forall i :: 0 <= i < |bs| ==> bs[i].cursor != cursor || bs[i].sequence != sequence
  {
    if bs == [] then None
    else if bs[0].sequence == sequence && bs[0].cursor == cursor then Some(0)
    else
      var rest := FindBoundary(bs[1..], cursor, sequence);
      if rest.None? then None else Some(rest.value + 1)
  }

  function AckWindowSection(s: Stream, cursor: nat, sequence: nat): (Stream, bool)
  {
    if sequence == s.window.ackSequence && cursor == s.window.ackCursor then (s, true)
    else
      match FindBoundary(s.window.boundaries, cursor, sequence)
      case None => (s, false)
      case Some(index) =>
        (s.(window := s.window.(
              inFlight := s.window.inFlight - SumBytes(s.window.boundaries[..index + 1]),
              boundaries := s.window.boundaries[index + 1..],
              ackCursor := cursor, ackSequence := sequence)),
         true)
  }

  /** An acknowledgement "cursor:sequence"; None when the text does not parse. */
  function AckSection(s: Stream, ack: Option<(nat, nat)>): (Stream, bool)
  {
    if ack.None? then (s, false)
    else if UsesWindow(s) then AckWindowSection(s, ack.value.0, ack.value.1)
    else if s.sub.flow != TurnAck || !s.awaitingTurnAck || ack.value.0 != s.turnAckCursor || ack.value.1 != s.turnAckSequence
    then (s, false)
    else (s.(awaitingTurnAck := false, turnAckCursor := 0, turnAckSequence := 0), true)
  }

  // ---- whole reader calls, uninterrupted ------------------------------------

  function EnqueueOf(s: Stream, entry: Outbound): Stream
  {
    var (s', outcome) := EnqueueSection(s, entry);
    if outcome == Full then OverloadSection(s', BufferFull) else s'
  }

  function EnqueueTextOf(s: Stream, payload: seq<byte>, message: Message): Stream
  {
    var (s', outcome) := TextSection(s, payload, message);
    match outcome
    case Rejected => OverloadSection(s', NotContinuous)
    case Accepted(entry) => EnqueueOf(s', entry)
  }

  function EnqueuePiecesOf(s: Stream, pieces: seq<seq<byte>>, start: nat): Stream
    decreases |pieces|
  {
    if pieces == [] then s
    else
      var (numbered, sequence) := NumberSection(s);
      EnqueuePiecesOf(EnqueueOf(numbered, BinaryEntry(pieces[0], start, sequence)), pieces[1..], start + |pieces[0]|)
  }

  function EnqueueBinaryOf(s: Stream, payload: seq<byte>): Stream
  {
    var (s', outcome) := BinarySection(s, payload);
    match outcome
    case Ignored => s'
    case NoCursor => OverloadSection(s', BeforeCursor)
    case TooLarge => OverloadSection(s', BufferFull)
    case Reserved(start) => EnqueuePiecesOf(s', Pieces(payload, BINARY_MAX), start)
  }

  class PaneStream {
    const sub: Subscription
    const errors: ErrorControls
    var active: bool
    var overloaded: bool
    var terminalControl: bool
    var nextSequence: nat
    var binarySequence: nat
    var awaitingTurnAck: bool
    var turnAckCursor: nat
    var turnAckSequence: nat
    var window: Window
    var burstActive: bool
    var pendingTurnCursor: nat
    var pendingTurnSequence: nat
    var buffer: seq<Outbound>
    var bufferBytes: int
    var hasCursor: bool
    var cursor: nat

    ghost function View(): Stream
      reads this
    {
      Stream(sub, errors, active, overloaded, terminalControl, nextSequence, binarySequence, awaitingTurnAck,
             turnAckCursor, turnAckSequence, window, burstActive, pendingTurnCursor, pendingTurnSequence,
             buffer, bufferBytes, hasCursor, cursor)
    }

    constructor (sub: Subscription, errors: ErrorControls)
      ensures View() == NewStream(sub, errors)
    {
      this.sub, this.errors := sub, errors;
      active, overloaded, terminalControl := true, false, false;
      nextSequence, binarySequence := 0, 0;
      awaitingTurnAck, turnAckCursor, turnAckSequence := false, 0, 0;
      window, burstActive, pendingTurnCursor, pendingTurnSequence := EMPTY_WINDOW, false, 0, 0;
      buffer, bufferBytes, hasCursor, cursor := [], 0, false, 0;
    }

    method Deactivate()
      modifies this`active, this`buffer, this`bufferBytes
      ensures View() == DeactivateSection(old(View()))
      ensures !active && buffer == [] && bufferBytes == 0
    {
      active := false;
      buffer := [];
      bufferBytes := 0;
    }

    method Overload(reason: OverloadReason)
      modifies this
      ensures View() == OverloadSection(old(View()), reason)
    {
      var payload := errors.For(reason);
      if !active || overloaded {
        return;
      }
      overloaded := true;
      burstActive := false;
      pendingTurnCursor := 0;
      pendingTurnSequence := 0;
      awaitingTurnAck := false;
      window := EMPTY_WINDOW;
      nextSequence := nextSequence + 1;
      buffer := [Outbound(nextSequence, 0, Text, payload, 0, 0, |payload|, false, false)];
      bufferBytes := |payload|;
    }

    method Enqueue(entry: Outbound)
      modifies this
      ensures View() == EnqueueOf(old(View()), entry)
    {
      if !active || overloaded {
        return;
      }
      if bufferBytes + entry.byteCost > BUFFER_LIMIT {
        Overload(BufferFull);
        return;
      }
      nextSequence := nextSequence + 1;
      buffer := buffer + [entry.(sequence := nextSequence)];
      bufferBytes := bufferBytes + entry.byteCost;
    }

    method EnqueueText(payload: seq<byte>, message: Message)
      modifies this
      ensures View() == EnqueueTextOf(old(View()), payload, message)
    {
      var entry := TextEntry(payload, false, false);
      match message {
        case ReplayStart(deltaFrom, deltaTo, isSnapshot, encoded) =>
          if deltaFrom.Some? {
            cursor := deltaFrom.value;
            hasCursor := true;
          }
          var size := ReplayBurstBytes(sub, deltaFrom, deltaTo, isSnapshot);
          if size > 0 {
            entry := TextEntry(encoded, true, false);
          }
        case ReplayComplete(historyCursor) =>
          if historyCursor.None? || !hasCursor || historyCursor.value != cursor {
            Overload(NotContinuous);
            return;
          }
          entry := entry.(burstFinish := true);
        case TerminalControl =>
          terminalControl := true;
          entry := entry.(burstFinish := true);
        case ConnectionError =>
          entry := entry.(burstFinish := true);
        case _ =>
      }
      Enqueue(entry);
    }

    method EnqueueBinary(payload: seq<byte>)
      modifies this
      ensures View() == EnqueueBinaryOf(old(View()), payload)
    {
      if payload == [] {
        return;
      }
      if !hasCursor {
        Overload(BeforeCursor);
        return;
      }
      if bufferBytes + |payload| > BUFFER_LIMIT {
        Overload(BufferFull);
        return;
      }
      var startCursor := cursor;
      cursor := cursor + |payload|;
      EnqueuePieces(payload, startCursor);
    }

    /** The loop of EnqueueBinary, after it has reserved the frame's cursors. */
    method EnqueuePieces(payload: seq<byte>, startCursor: nat)
      modifies this
      ensures View() == EnqueuePiecesOf(old(View()), Pieces(payload, BINARY_MAX), startCursor)
    {
      var offset := 0;
      hide EnqueueOf, TextSection;
      ghost var goal := EnqueuePiecesOf(View(), Pieces(payload, BINARY_MAX), startCursor);
      assert payload[0..] == payload;
      while offset < |payload|
        invariant 0 <= offset <= |payload|
        invariant goal == EnqueuePiecesOf(View(), Pieces(payload[offset..], BINARY_MAX), startCursor + offset)
      {
        var end := Min(offset + BINARY_MAX, |payload|);
        var chunk := payload[offset..end];
        assert payload[offset..][..end - offset] == chunk && payload[offset..][end - offset..] == payload[end..];
        PiecesCallStep(View(), payload[offset..], startCursor + offset, end - offset);
        binarySequence := binarySequence + 1;
        Enqueue(BinaryEntry(chunk, startCursor + offset, binarySequence));
        offset := end;
      }
    }

    method AcknowledgeTurn(ack: Option<(nat, nat)>) returns (ok: bool)
      modifies this
      ensures (View(), ok) == AckSection(old(View()), ack)
    {
      if ack.None? {
        return false;
      }
      var (c, q) := ack.value;
      if sub.flow == WindowAck {
        ok := AcknowledgeWindow(c, q);
        return;
      }
      if sub.flow != TurnAck || !awaitingTurnAck || c != turnAckCursor || q != turnAckSequence {
        return false;
      }
      awaitingTurnAck := false;
      turnAckCursor := 0;
      turnAckSequence := 0;
      return true;
    }

    method AcknowledgeWindow(c: nat, q: nat) returns (ok: bool)
      modifies this`window
      ensures (View(), ok) == AckWindowSection(old(View()), c, q)
    {
      if q == window.ackSequence && c == window.ackCursor {
        return true;
      }
      var index := 0;
      while index < |window.boundaries|
        invariant 0 <= index <= |window.boundaries|
        invariant window == old(window)
        invariant forall i :: 0 <= i < index ==>
                    window.boundaries[i].sequence != q || window.boundaries[i].cursor != c
      {
        var boundary := window.boundaries[index];
        if boundary.sequence == q && boundary.cursor == c {
          FindBoundaryIsFirst(window.boundaries, c, q, index);
          var inFlight := window.inFlight;
          for k := 0 to index + 1
            invariant index < |window.boundaries| && window == old(window)
            invariant inFlight == window.inFlight - SumBytes(window.boundaries[..k])
          {
            SumBytesSnoc(window.boundaries[..k], window.boundaries[k]);
            assert window.boundaries[..k] + [window.boundaries[k]] == window.boundaries[..k + 1];
            inFlight := inFlight - window.boundaries[k].bytes;
          }
          window := window.(inFlight := inFlight, boundaries := window.boundaries[index + 1..],
                            ackCursor := c, ackSequence := q);
          return true;
        }
        index := index + 1;
      }
      return false;
    }

    method TargetSequence() returns (target: nat)
      ensures target == TargetSection(View())
    {
      if !active || awaitingTurnAck || |buffer| == 0 {
        return 0;
      }
      var allowed := Allows(buffer[0]);
      if !allowed {
        return 0;
      }
      return buffer[|buffer| - 1].sequence;
    }

    method Allows(entry: Outbound) returns (allowed: bool)
      ensures allowed == WindowAllows(View(), entry)
    {
      if sub.flow != WindowAck || burstActive || entry.messageType != Binary {
        return true;
      }
      return |window.boundaries| < WINDOW_TURNS && window.inFlight + entry.byteCost <= WINDOW_BYTES;
    }

    method PopThrough(target: nat, alreadyWritten: nat) returns (popped: Option<Outbound>)
      modifies this`buffer, this`bufferBytes, this`burstActive, this`window
      ensures popped.Some? <==> CanPop(old(View()), target, alreadyWritten)
      ensures popped.Some? ==> popped.value == old(buffer)[0] && View() == PopSection(old(View()))
      ensures popped.None? ==> View() == old(View())
    {
      if !active || |buffer| == 0 || buffer[0].sequence > target {
        return None;
      }
      var entry := buffer[0];
      var allowed := Allows(entry);
      if !allowed {
        return None;
      }
      if alreadyWritten > 0 && entry.byteCost > 0 && alreadyWritten + entry.byteCost > ROUND_BYTES {
        return None;
      }
      buffer := buffer[1..];
      if entry.burstStart {
        burstActive := true;
      }
      if entry.burstFinish {
        burstActive := false;
      }
      if sub.flow == WindowAck && entry.messageType == Binary {
        window := window.(inFlight := window.inFlight + entry.byteCost);
        window := window.(currentTurnBytes := window.currentTurnBytes + entry.byteCost);
      }
      bufferBytes := Max(bufferBytes - entry.byteCost, 0);
      return Some(entry);
    }

    method FinishTurn(turnCursor: nat, turnSequence: nat) returns (boundary: Option<(nat, nat)>)
      modifies this
      ensures (View(), boundary) == FinishSection(old(View()), turnCursor, turnSequence)
    {
      if !active || overloaded {
        return None;
      }
      if turnSequence != 0 {
        pendingTurnCursor := turnCursor;
        pendingTurnSequence := turnSequence;
      }
      if burstActive || pendingTurnSequence == 0 {
        return None;
      }
      var c, q := pendingTurnCursor, pendingTurnSequence;
      pendingTurnCursor, pendingTurnSequence := 0, 0;
      if sub.flow == TurnAck {
        awaitingTurnAck := true;
        turnAckCursor := c;
        turnAckSequence := q;
      }
      if sub.flow == WindowAck {
        window := window.(boundaries := window.boundaries + [Boundary(c, q, window.currentTurnBytes)]);
        window := window.(currentTurnBytes := 0);
      }
      return Some((c, q));
    }
  }

  // ---- supporting facts ------------------------------------------------------

  /** One iteration of the loop that cuts a binary frame into entries. */
  lemma PiecesCallStep(s: Stream, data: seq<byte>, start: nat, k: nat)
    requires data != [] && k == Min(|data|, BINARY_MAX)
    ensures EnqueuePiecesOf(s, Pieces(data, BINARY_MAX), start)
         == EnqueuePiecesOf(EnqueueOf(s.(binarySequence := s.binarySequence + 1),
                                      BinaryEntry(data[..k], start, s.binarySequence + 1)),
                            Pieces(data[k..], BINARY_MAX), start + k)
  {
    if |data| <= BINARY_MAX {
      assert data[..k] == data && data[k..] == [];
    }
    assert Pieces(data, BINARY_MAX) == [data[..k]] + Pieces(data[k..], BINARY_MAX);
  }

  lemma {:induction false} SumBytesSnoc(bs: seq<Boundary>, b: Boundary)
    ensures SumBytes(bs + [b]) == SumBytes(bs) + b.bytes
  {
    if bs != [] {
      SumBytesSnoc(bs[1..], b);
      assert (bs + [b])[1..] == bs[1..] + [b];
    }
  }

  lemma {:induction false} FindBoundaryIsFirst(bs: seq<Boundary>, cursor: nat, sequence: nat, index: nat)
    requires index < |bs| && bs[index].sequence == sequence && bs[index].cursor == cursor
    requires forall i :: 0 <= i < index ==> bs[i].sequence != sequence || bs[i].cursor != cursor
    ensures FindBoundary(bs, cursor, sequence) == Some(index)
  {
    if index > 0 {
      FindBoundaryIsFirst(bs[1..], cursor, sequence, index - 1);
    }
  }
}
