/** Every interleaving of the threads that touch one queue stream: the agent
    reader, the control thread, the round writer, acknowledgements and
    deactivation. A step is one section under the stream mutex. */
module QueueRuns {
  import opened Bytes
  import opened QueueStream

  /** A frame read from the agent. */
  datatype Frame = TextFrame(payload: seq<byte>, message: Message) | BinaryFrame(payload: seq<byte>)

  /** Where the reader goroutine stands between two sections. */
  datatype Reader =
    | Gate
    | Ready
    | Enqueuing(entry: Outbound)
    | Cutting(payload: seq<byte>, start: nat, offset: nat)
    | Numbered(payload: seq<byte>, start: nat, offset: nat, sequence: nat)
    | Overloading(reason: OverloadReason, next: Reader)

  predicate ReaderOk(r: Reader)
  {
    match r
    case Gate => true
    case Ready => true
    case Enqueuing(entry) => entry.messageType == Text && entry.byteCost == |entry.payload|
    case Cutting(payload, start, offset) => offset <= |payload|
    case Numbered(payload, start, offset, sequence) => offset < |payload|
    case Overloading(_, next) => (next.Gate? || next.Cutting?) && ReaderOk(next)
  }

  type ReaderState = r: Reader | ReaderOk(r) witness Gate

  /** Where the writer goroutine stands: its turn's target, bytes and entries
      written so far, and the last binary entry it wrote. */
  datatype Writer =
    | Idle
    | InTurn(target: nat, written: nat, count: nat, cursor: nat, sequence: nat)
    | Finishing(cursor: nat, sequence: nat)

  /** `frames`, `popped` and `announced` record the run: frames read, entries
      written to the client, and turn boundaries announced to it. */
  datatype System = System(
    stream: Stream, reader: ReaderState, writer: Writer, controlFull: bool,
    frames: seq<Frame>, popped: seq<Outbound>, announced: seq<(nat, nat)>)

  datatype Event =
    | OpenGate
    | Read(frame: Frame)
    | ReaderStep
    | Control(payload: seq<byte>)
    | ControlOverload
    | StartTurn
    | Pop
    | TimeUp
    | Finish
    | Ack(ack: Option<(nat, nat)>)
    | Deactivate

  function Start(sub: Subscription, errors: ErrorControls): System
  {
    System(NewStream(sub, errors), Gate, Idle, false, [], [], [])
  }

  predicate Enabled(y: System, e: Event)
  {
    match e
    case OpenGate => y.reader == Gate && GateOpen(y.stream)
    case Read(_) => y.reader == Ready
    case ReaderStep => y.reader != Gate && y.reader != Ready
    case Control(_) => true
    case ControlOverload => y.controlFull
    case StartTurn => y.writer == Idle && TargetSection(y.stream) != 0
    case Pop => y.writer.InTurn?
    case TimeUp => y.writer.InTurn? && y.writer.count > 0
    case Finish => y.writer.Finishing?
    case Ack(_) => true
    case Deactivate => true
  }

  function ChunkEnd(payload: seq<byte>, offset: nat): nat
    requires offset <= |payload|
  {
    if offset + BINARY_MAX > |payload| then |payload| else offset + BINARY_MAX
  }

  function ReadStep(y: System, frame: Frame): System
  {
    match frame
    case TextFrame(payload, message) =>
      var (s, outcome) := TextSection(y.stream, payload, message);
      y.(stream := s, frames := y.frames + [frame],
         reader := if outcome.Rejected? then Overloading(NotContinuous, Gate) else Enqueuing(outcome.entry))
    case BinaryFrame(payload) =>
      var (s, outcome) := BinarySection(y.stream, payload);
      y.(stream := s, frames := y.frames + [frame],
         reader := match outcome
                   case Ignored => Gate
                   case NoCursor => Overloading(BeforeCursor, Gate)
                   case TooLarge => Overloading(BufferFull, Gate)
                   case Reserved(start) => Cutting(payload, start, 0))
  }

  function ReaderNext(y: System): System
  {
    match y.reader
    case Gate => y
    case Ready => y
    case Enqueuing(entry) =>
      var (s, outcome) := EnqueueSection(y.stream, entry);
      y.(stream := s, reader := if outcome == Full then Overloading(BufferFull, Gate) else Gate)
    case Cutting(payload, start, offset) =>
      if offset < |payload| then
        var (s, sequence) := NumberSection(y.stream);
        y.(stream := s, reader := Numbered(payload, start, offset, sequence))
      else y.(reader := Gate)
    case Numbered(payload, start, offset, sequence) =>
      var end := ChunkEnd(payload, offset);
      var (s, outcome) := EnqueueSection(y.stream, BinaryEntry(payload[offset..end], start + offset, sequence));
      var next: ReaderState := Cutting(payload, start, end);
      y.(stream := s, reader := if outcome == Full then Overloading(BufferFull, next) else next)
    case Overloading(reason, next) => y.(stream := OverloadSection(y.stream, reason), reader := next)
  }

  function PopStep(y: System): System
    requires y.writer.InTurn?
  {
    var w := y.writer;
    if !CanPop(y.stream, w.target, w.written) then y.(writer := Finishing(w.cursor, w.sequence))
    else
      var entry := y.stream.buffer[0];
      var cursor := if entry.messageType == Binary then entry.endCursor else w.cursor;
      var sequence := if entry.messageType == Binary then entry.binarySequence else w.sequence;
      var written := w.written + entry.byteCost;
      y.(stream := PopSection(y.stream), popped := y.popped + [entry],
         writer := if written >= ROUND_BYTES then Finishing(cursor, sequence)
                   else InTurn(w.target, written, w.count + 1, cursor, sequence))
  }

  function Next(y: System, e: Event): System
    requires Enabled(y, e)
  {
    match e
    case OpenGate => y.(reader := Ready)
    case Read(frame) => ReadStep(y, frame)
    case ReaderStep => ReaderNext(y)
    case Control(payload) =>
      var (s, outcome) := EnqueueSection(y.stream, TextEntry(payload, false, false));
      y.(stream := s, controlFull := y.controlFull || outcome == Full)
    case ControlOverload => y.(stream := OverloadSection(y.stream, BufferFull), controlFull := false)
    case StartTurn => y.(writer := InTurn(TargetSection(y.stream), 0, 0, 0, 0))
    case Pop => PopStep(y)
    case TimeUp => y.(writer := Finishing(y.writer.cursor, y.writer.sequence))
    case Finish =>
      var (s, boundary) := FinishSection(y.stream, y.writer.cursor, y.writer.sequence);
      y.(stream := s, writer := Idle,
         announced := if boundary.Some? then y.announced + [boundary.value] else y.announced)
    case Ack(ack) => y.(stream := AckSection(y.stream, ack).0)
    case Deactivate => y.(stream := DeactivateSection(y.stream))
  }

  /** One step; an event that is not enabled changes nothing. */
  function Step(y: System, e: Event): System
  {
    if Enabled(y, e) then Next(y, e) else y
  }

  /** The system after any sequence of events. */
  function Exec(y: System, events: seq<Event>): System
  {
    if events == [] then y
    else Step(Exec(y, events[..|events| - 1]), events[|events| - 1])
  }

  /** The encoded error controls are far smaller than a pane's buffer. */
  predicate ErrorsFit(errors: ErrorControls)
  {
    && |errors.notContinuous| <= BUFFER_LIMIT
    && |errors.beforeCursor| <= BUFFER_LIMIT
    && |errors.bufferFull| <= BUFFER_LIMIT
  }
}
