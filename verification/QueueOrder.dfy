/** Order and conservation of one queue stream over every run: what the client
    is sent is a prefix of what the agent's frames say should be sent, and the
    buffer's byte counter is exact and bounded. */
module QueueOrder {
  import opened Bytes
  import opened QueueStream
  import opened QueueRuns

  // ---- the reference: what the agent's frames should become -----------------

  datatype Labeler = Labeler(hasCursor: bool, cursor: nat, binarySequence: nat)

  /** The entries of one cut frame, numbered after `sequence`. */
  function BinaryEntries(pieces: seq<seq<byte>>, start: nat, sequence: nat): seq<Outbound>
    decreases |pieces|
  {
    if pieces == [] then []
    else [BinaryEntry(pieces[0], start, sequence + 1)] + BinaryEntries(pieces[1..], start + |pieces[0]|, sequence + 1)
  }

  function LabelFrame(sub: Subscription, l: Labeler, frame: Frame): (Labeler, seq<Outbound>)
  {
    match frame
    case BinaryFrame(payload) =>
      if payload == [] || !l.hasCursor then (l, [])
      else
        var pieces := Pieces(payload, BINARY_MAX);
        (Labeler(true, l.cursor + |payload|, l.binarySequence + |pieces|),
         BinaryEntries(pieces, l.cursor, l.binarySequence))
    case TextFrame(payload, message) =>
      match message
      case ReplayStart(deltaFrom, deltaTo, isSnapshot, encoded) =>
        (if deltaFrom.Some? then l.(hasCursor := true, cursor := deltaFrom.value) else l,
         if ReplayBurstBytes(sub, deltaFrom, deltaTo, isSnapshot) > 0 then [TextEntry(encoded, true, false)] else [])
      case ReplayComplete(historyCursor) =>
        (l, if l.hasCursor && historyCursor == Some(l.cursor) then [TextEntry(payload, false, true)] else [])
      case TerminalControl => (l, [TextEntry(payload, false, true)])
      case ConnectionError => (l, [TextEntry(payload, false, true)])
      case NotJson => (l, [])
      case OtherControl => (l, [])
  }

  /** The binary entries and burst markers the frames call for, in order. */
  function Labels(sub: Subscription, frames: seq<Frame>): (Labeler, seq<Outbound>)
  {
    if frames == [] then (Labeler(false, 0, 0), [])
    else
      var (l, entries) := Labels(sub, frames[..|frames| - 1]);
      var (l', more) := LabelFrame(sub, l, frames[|frames| - 1]);
      (l', entries + more)
  }

  // ---- projecting what was queued and sent ----------------------------------

  predicate Marked(e: Outbound)
  {
    e.messageType == Binary || e.burstStart || e.burstFinish
  }

  /** The marked entries, without their queue-wide sequence numbers. */
  function Proj(entries: seq<Outbound>): seq<Outbound>
  {
    if entries == [] then []
    else if Marked(entries[0]) then [entries[0].(sequence := 0)] + Proj(entries[1..])
    else Proj(entries[1..])
  }

  lemma {:induction false} ProjAppend(a: seq<Outbound>, b: seq<Outbound>)
    ensures Proj(a + b) == Proj(a) + Proj(b)
  {
    if a == [] {
      assert a + b == b;
    } else {
      ProjAppend(a[1..], b);
      assert (a + b)[1..] == a[1..] + b;
      Assoc([a[0].(sequence := 0)], Proj(a[1..]), Proj(b));
    }
  }

  lemma ProjOne(e: Outbound)
    ensures Proj([e]) == if Marked(e) then [e.(sequence := 0)] else []
  {
    assert [e][1..] == [];
  }

  // ---- the order invariant ---------------------------------------------------

  predicate Serving(s: Stream)
  {
    s.active && !s.overloaded
  }

  /** Entries the reader still owes for the frame it is in. */
  function Owed(y: System): seq<Outbound>
  {
    match y.reader
    case Gate => []
    case Ready => []
    case Enqueuing(entry) => Proj([entry])
    case Cutting(payload, start, offset) =>
      BinaryEntries(Pieces(payload[offset..], BINARY_MAX), start + offset, y.stream.binarySequence)
    case Numbered(payload, start, offset, sequence) =>
      var end := ChunkEnd(payload, offset);
      [BinaryEntry(payload[offset..end], start + offset, sequence)]
      + BinaryEntries(Pieces(payload[end..], BINARY_MAX), start + end, y.stream.binarySequence)
    case Overloading(_, _) => []
  }

  /** How many pieces of the current frame are still to be numbered. */
  function Unnumbered(r: ReaderState): nat
  {
    match r
    case Cutting(payload, start, offset) => |Pieces(payload[offset..], BINARY_MAX)|
    case Numbered(payload, start, offset, sequence) => |Pieces(payload[ChunkEnd(payload, offset)..], BINARY_MAX)|
    case _ => 0
  }

  ghost predicate InStep(y: System)
  {
    var (l, entries) := Labels(y.stream.sub, y.frames);
    && Proj(y.popped) + Proj(y.stream.buffer) + Owed(y) == entries
    && l == Labeler(y.stream.hasCursor, y.stream.cursor, y.stream.binarySequence + Unnumbered(y.reader))
    && (y.reader.Numbered? ==> y.reader.sequence == y.stream.binarySequence)
  }

  ghost predicate OrderInv(y: System)
  {
    && IsPrefix(Proj(y.popped) + Proj(y.stream.buffer), Labels(y.stream.sub, y.frames).1)
    && (!Serving(y.stream) ==> Proj(y.stream.buffer) == [])
    && (Serving(y.stream) && !y.reader.Overloading? ==> InStep(y))
  }

  lemma OrderStart(sub: Subscription, errors: ErrorControls)
    ensures OrderInv(Start(sub, errors))
  {}

  lemma LabelsSnoc(sub: Subscription, frames: seq<Frame>, frame: Frame)
    ensures Labels(sub, frames + [frame]).1
         == Labels(sub, frames).1 + LabelFrame(sub, Labels(sub, frames).0, frame).1
    ensures Labels(sub, frames + [frame]).0 == LabelFrame(sub, Labels(sub, frames).0, frame).0
  {
    assert (frames + [frame])[..|frames + [frame]| - 1] == frames;
  }

  lemma PrefixOfSum(p: seq<Outbound>, q: seq<Outbound>)
    ensures IsPrefix(p, p + q)
  {}

  lemma OrderReadBinary(y: System, payload: seq<byte>)
    requires OrderInv(y) && y.reader == Ready
    ensures OrderInv(ReadStep(y, BinaryFrame(payload)))
  {
    hide Proj, Pieces;
    var frame := BinaryFrame(payload);
    LabelsSnoc(y.stream.sub, y.frames, frame);
    var (l, entries) := Labels(y.stream.sub, y.frames);
    hide Labels;
    PrefixAppend(Proj(y.popped) + Proj(y.stream.buffer), entries, LabelFrame(y.stream.sub, l, frame).1);
    assert payload[0..] == payload;
  }

  /** The text section and the reference agree on what a text frame queues. */
  lemma TextAgrees(s: Stream, sequence: nat, payload: seq<byte>, message: Message)
    ensures var (s', outcome) := TextSection(s, payload, message);
            var (l, more) := LabelFrame(s.sub, Labeler(s.hasCursor, s.cursor, sequence), TextFrame(payload, message));
            && l == Labeler(s'.hasCursor, s'.cursor, sequence)
            && more == (if outcome.Accepted? then Proj([outcome.entry]) else [])
            && s' == s.(hasCursor := s'.hasCursor, cursor := s'.cursor, terminalControl := s'.terminalControl)
  {
    var outcome := TextSection(s, payload, message).1;
    if outcome.Accepted? {
      ProjOne(outcome.entry);
    }
  }

  lemma OrderReadText(y: System, payload: seq<byte>, message: Message)
    requires OrderInv(y) && y.reader == Ready
    ensures OrderInv(ReadStep(y, TextFrame(payload, message)))
  {
    var frame := TextFrame(payload, message);
    var (l, entries) := Labels(y.stream.sub, y.frames);
    LabelsSnoc(y.stream.sub, y.frames, frame);
    TextAgrees(y.stream, y.stream.binarySequence, payload, message);
    hide Proj, Labels, LabelFrame, TextSection;
    var sent := Proj(y.popped) + Proj(y.stream.buffer);
    PrefixAppend(sent, entries, LabelFrame(y.stream.sub, l, frame).1);
    assert sent + [] == sent;
    var z := ReadStep(y, frame);
    assert z.stream.buffer == y.stream.buffer && z.popped == y.popped;
    if Serving(z.stream) && !z.reader.Overloading? {
      var outcome := TextSection(y.stream, payload, message).1;
      assert outcome.Accepted? && z.reader == Enqueuing(outcome.entry);
      assert Labels(z.stream.sub, z.frames).1 == entries + Proj([outcome.entry]);
      assert InStep(y) && InStep(z);
    }
  }

  /** Queueing an entry moves it from what is owed to what is queued. */
  lemma QueuedMoves(popped: seq<Outbound>, buffer: seq<Outbound>, entry: Outbound, sequence: nat, owed: seq<Outbound>)
    ensures Proj(popped) + Proj(buffer + [entry.(sequence := sequence)]) + owed
         == Proj(popped) + Proj(buffer) + (Proj([entry]) + owed)
  {
    var e := entry.(sequence := sequence);
    ProjAppend(buffer, [e]);
    ProjOne(e);
    ProjOne(entry);
    hide Proj;
    Assoc(Proj(buffer), Proj([e]), owed);
    Assoc(Proj(popped), Proj(buffer + [e]), owed);
    Assoc(Proj(popped), Proj(buffer), Proj([entry]) + owed);
  }

  /** The enqueue section keeps order when `z` owes what `y` owed but `entry`. */
  lemma OrderEnqueue(y: System, z: System, entry: Outbound)
    requires OrderInv(y) && !y.reader.Overloading?
    requires var (s, outcome) := EnqueueSection(y.stream, entry);
             && z.stream == s && z.popped == y.popped && z.frames == y.frames
             && (outcome == Full ==> z.reader.Overloading? || (z.reader == y.reader && !Marked(entry)))
             && (outcome == Queued ==>
                   && Owed(y) == Proj([entry]) + Owed(z) && Unnumbered(z.reader) == Unnumbered(y.reader)
                   && !z.reader.Overloading? && (z.reader == y.reader || !z.reader.Numbered?))
    ensures OrderInv(z)
  {
    hide Proj, Labels, Pieces, BinaryEntries;
    QueuedMoves(y.popped, y.stream.buffer, entry, y.stream.nextSequence + 1, Owed(z));
    PrefixOfSum(Proj(z.popped) + Proj(z.stream.buffer), Owed(z));
  }

  lemma PiecesStep(payload: seq<byte>, offset: nat)
    requires offset < |payload|
    ensures Pieces(payload[offset..], BINARY_MAX)
         == [payload[offset..ChunkEnd(payload, offset)]] + Pieces(payload[ChunkEnd(payload, offset)..], BINARY_MAX)
  {
    var end := ChunkEnd(payload, offset);
    assert payload[offset..][end - offset..] == payload[end..];
    assert payload[offset..][..end - offset] == payload[offset..end];
    if end == |payload| {
      assert payload[end..] == [];
      assert payload[offset..end] == payload[offset..];
    }
  }

  lemma OrderCutting(y: System)
    requires OrderInv(y) && y.reader.Cutting?
    ensures OrderInv(ReaderNext(y))
  {
    hide Proj, Labels, Owed, Unnumbered;
    CuttingOwes(y);
  }

  /** Numbering the next piece, or ending the frame, changes nothing that is owed. */
  lemma CuttingOwes(y: System)
    requires y.reader.Cutting?
    ensures var z := ReaderNext(y);
            Owed(z) == Owed(y) && z.stream.binarySequence + Unnumbered(z.reader) == y.stream.binarySequence + Unnumbered(y.reader)
  {
    hide Proj, Pieces, BinaryEntry, BinaryEntries;
    var Cutting(payload, start, offset) := y.reader;
    if offset == |payload| {
      Empty(payload);
      NoEntries(start + offset, y.stream.binarySequence);
    } else {
      var end := ChunkEnd(payload, offset);
      PiecesStep(payload, offset);
      EntriesCons(payload[offset..end], Pieces(payload[end..], BINARY_MAX), start + offset, y.stream.binarySequence);
    }
  }

  lemma NoEntries(start: nat, sequence: nat)
    ensures Pieces<byte>([], BINARY_MAX) == [] && BinaryEntries([], start, sequence) == []
  {}

  lemma EntriesCons(piece: seq<byte>, rest: seq<seq<byte>>, start: nat, sequence: nat)
    ensures BinaryEntries([piece] + rest, start, sequence)
         == [BinaryEntry(piece, start, sequence + 1)] + BinaryEntries(rest, start + |piece|, sequence + 1)
  {
    Cons(piece, rest);
  }

  lemma OrderNumbered(y: System)
    requires OrderInv(y) && y.reader.Numbered?
    ensures OrderInv(ReaderNext(y))
  {
    hide Proj, Labels, Pieces, BinaryEntries;
    var Numbered(payload, start, offset, sequence) := y.reader;
    var end := ChunkEnd(payload, offset);
    var entry := BinaryEntry(payload[offset..end], start + offset, sequence);
    ProjOne(entry);
    OrderEnqueue(y, ReaderNext(y), entry);
  }

  lemma OrderReader(y: System)
    requires OrderInv(y) && Enabled(y, ReaderStep)
    ensures OrderInv(ReaderNext(y))
  {
    match y.reader
    case Enqueuing(entry) =>
      ProjOne(entry);
      hide Proj, Labels;
      OrderEnqueue(y, ReaderNext(y), entry);
    case Cutting(_, _, _) => OrderCutting(y);
    case Numbered(_, _, _, _) => OrderNumbered(y);
    case Overloading(reason, next) =>
      OrderOverload(y, ReaderNext(y), reason);
  }

  /** An overload drops every marked entry that was still queued. */
  lemma OrderOverload(y: System, z: System, reason: OverloadReason)
    requires OrderInv(y)
    requires z.stream == OverloadSection(y.stream, reason) && z.popped == y.popped && z.frames == y.frames
    requires z.reader == y.reader || y.reader.Overloading?
    ensures OrderInv(z)
  {
    if Serving(y.stream) {
      ProjOne(z.stream.buffer[0]);
      assert z.stream.buffer == [z.stream.buffer[0]];
      hide Proj, Labels;
      DropQueued(Proj(y.popped), Proj(y.stream.buffer), Labels(y.stream.sub, y.frames).1);
    }
  }

  lemma DropQueued(sent: seq<Outbound>, queued: seq<Outbound>, all: seq<Outbound>)
    requires IsPrefix(sent + queued, all)
    ensures IsPrefix(sent + [], all)
  {
    assert sent + [] == sent;
    assert (sent + queued)[..|sent|] == sent;
    assert all[..|sent + queued|][..|sent|] == all[..|sent|];
  }

  lemma PopMoves(popped: seq<Outbound>, buffer: seq<Outbound>)
    requires buffer != []
    ensures Proj(popped + [buffer[0]]) + Proj(buffer[1..]) == Proj(popped) + Proj(buffer)
    ensures Proj(buffer) == [] ==> Proj(buffer[1..]) == []
  {
    assert buffer == [buffer[0]] + buffer[1..];
    ProjAppend([buffer[0]], buffer[1..]);
    ProjAppend(popped, [buffer[0]]);
    hide Proj;
    Assoc(Proj(popped), Proj([buffer[0]]), Proj(buffer[1..]));
  }

  lemma PopKeepsRest(s: Stream)
    requires s.buffer != []
    ensures SameQueue(s, PopSection(s).(buffer := s.buffer, bufferBytes := s.bufferBytes))
    ensures PopSection(s).buffer == s.buffer[1..]
  {}

  lemma OrderPop(y: System)
    requires OrderInv(y) && Enabled(y, Pop)
    ensures OrderInv(PopStep(y))
  {
    if CanPop(y.stream, y.writer.target, y.writer.written) {
      PopMoves(y.popped, y.stream.buffer);
      PopKeepsRest(y.stream);
      hide Proj, Labels, Pieces, BinaryEntries, ChunkEnd, PopSection;
      assert Owed(PopStep(y)) == Owed(y);
    } else {
      assert PopStep(y) == y.(writer := Finishing(y.writer.cursor, y.writer.sequence));
      hide Proj, Labels, Pieces, BinaryEntries, ChunkEnd;
    }
  }

  lemma OrderDeactivate(y: System)
    requires OrderInv(y)
    ensures OrderInv(Next(y, Deactivate))
  {
    DropQueued(Proj(y.popped), Proj(y.stream.buffer), Labels(y.stream.sub, y.frames).1);
  }

  lemma OrderStep(y: System, e: Event)
    requires OrderInv(y)
    ensures OrderInv(Step(y, e))
  {
    if Enabled(y, e) {
      match e
      case Read(TextFrame(payload, message)) => OrderReadText(y, payload, message);
      case Read(BinaryFrame(payload)) => OrderReadBinary(y, payload);
      case ReaderStep => OrderReader(y);
      case Control(payload) => OrderControl(y, payload);
      case ControlOverload => OrderOverload(y, Next(y, e), BufferFull);
      case Pop => OrderPop(y);
      case Deactivate => OrderDeactivate(y);
      case _ => OrderUntouched(y, e);
    }
  }

  lemma OrderControl(y: System, payload: seq<byte>)
    requires OrderInv(y)
    ensures OrderInv(Next(y, Control(payload)))
  {
    var entry := TextEntry(payload, false, false);
    ProjOne(entry);
    hide Labels;
    if !y.reader.Overloading? {
      hide Proj;
      assert [] + Owed(y) == Owed(y);
      OrderEnqueue(y, Next(y, Control(payload)), entry);
    } else {
      var e := entry.(sequence := y.stream.nextSequence + 1);
      ProjAppend(y.stream.buffer, [e]);
      ProjOne(e);
      hide Proj;
      assert Proj(y.stream.buffer) + [] == Proj(y.stream.buffer);
    }
  }

  /** The sections of the writer's turn end and of acknowledgements leave the
      queue itself alone. */
  predicate SameQueue(s: Stream, t: Stream)
  {
    && s.sub == t.sub && s.errors == t.errors && s.active == t.active && s.overloaded == t.overloaded
    && s.buffer == t.buffer && s.bufferBytes == t.bufferBytes && s.nextSequence == t.nextSequence
    && s.hasCursor == t.hasCursor && s.cursor == t.cursor && s.binarySequence == t.binarySequence
  }

  lemma FinishKeepsQueue(s: Stream, cursor: nat, sequence: nat)
    ensures SameQueue(s, FinishSection(s, cursor, sequence).0)
  {}

  lemma AckKeepsQueue(s: Stream, ack: Option<(nat, nat)>)
    ensures SameQueue(s, AckSection(s, ack).0)
  {
    hide AckWindowSection;
    if ack.Some? {
      AckWindowKeepsQueue(s, ack.value.0, ack.value.1);
    }
  }

  lemma AckWindowKeepsQueue(s: Stream, cursor: nat, sequence: nat)
    ensures SameQueue(s, AckWindowSection(s, cursor, sequence).0)
  {
    hide FindBoundary, SumBytes;
  }

  lemma OrderUntouched(y: System, e: Event)
    requires OrderInv(y) && Enabled(y, e)
    requires e.OpenGate? || e.StartTurn? || e.TimeUp? || e.Finish? || e.Ack?
    ensures OrderInv(Next(y, e))
  {
    hide Proj, Labels, Pieces, BinaryEntries, ChunkEnd;
    if e.Finish? {
      FinishKeepsQueue(y.stream, y.writer.cursor, y.writer.sequence);
    } else if e.Ack? {
      AckKeepsQueue(y.stream, e.ack);
    }
    hide FinishSection, AckSection, TargetSection, GateOpen;
    var z := Next(y, e);
    assert SameQueue(y.stream, z.stream) && z.frames == y.frames && z.popped == y.popped;
  }

  lemma {:induction false} OrderRun(sub: Subscription, errors: ErrorControls, events: seq<Event>)
    ensures OrderInv(Exec(Start(sub, errors), events))
  {
    if events == [] {
      OrderStart(sub, errors);
    } else {
      OrderRun(sub, errors, events[..|events| - 1]);
      OrderStep(Exec(Start(sub, errors), events[..|events| - 1]), events[|events| - 1]);
    }
  }

  // ---- the life of a stream -------------------------------------------------------------

  /** What becomes of a stream: it is never reactivated, never recovers from an
      overload, and is overloaded only while it serves; an overloaded stream's
      queue only shrinks. */
  predicate Succeeds(s: Stream, t: Stream)
  {
    && t.sub == s.sub && (t.active ==> s.active) && (s.overloaded ==> t.overloaded)
    && (t.overloaded ==> s.overloaded || s.active)
    && (s.overloaded ==> t.buffer == s.buffer || t.buffer == [])
  }

  lemma EnqueueSucceeds(s: Stream, entry: Outbound, reason: OverloadReason)
    ensures Succeeds(s, EnqueueSection(s, entry).0) && Succeeds(s, OverloadSection(s, reason)) && Succeeds(s, DeactivateSection(s))
    ensures Succeeds(s, NumberSection(s).0) && Succeeds(s, s)
  {}

  lemma ReadSucceeds(s: Stream, payload: seq<byte>, message: Message)
    ensures Succeeds(s, TextSection(s, payload, message).0) && Succeeds(s, BinarySection(s, payload).0)
  {
    hide LabelFrame;
    TextAgrees(s, 0, payload, message);
    hide TextSection;
  }

  lemma WriterSucceeds(s: Stream, cursor: nat, sequence: nat, ack: Option<(nat, nat)>)
    ensures Succeeds(s, FinishSection(s, cursor, sequence).0) && Succeeds(s, AckSection(s, ack).0)
  {
    hide FinishSection, AckSection;
    FinishKeepsQueue(s, cursor, sequence);
    AckKeepsQueue(s, ack);
  }

  /** Every step but a pop. */
  lemma StepSucceeds(y: System, e: Event)
    requires !e.Pop?
    ensures Succeeds(y.stream, Step(y, e).stream) && Step(y, e).popped == y.popped
  {
    hide EnqueueSection, OverloadSection, DeactivateSection, NumberSection, TextSection, BinarySection, FinishSection, AckSection,
         Succeeds, TargetSection, GateOpen, BinaryEntry;
    var nothing := TextEntry([], false, false);
    EnqueueSucceeds(y.stream, nothing, BufferFull);
    if Enabled(y, e) {
      match e
      case Read(frame) => ReadSucceeds(y.stream, frame.payload, if frame.TextFrame? then frame.message else OtherControl);
      case ReaderStep => ReaderSucceeds(y);
      case Control(payload) => EnqueueSucceeds(y.stream, TextEntry(payload, false, false), BufferFull);
      case Finish => WriterSucceeds(y.stream, y.writer.cursor, y.writer.sequence, None);
      case Ack(ack) => WriterSucceeds(y.stream, 0, 0, ack);
      case _ =>
    }
  }

  lemma ReaderSucceeds(y: System)
    ensures Succeeds(y.stream, ReaderNext(y).stream)
  {
    hide EnqueueSection, OverloadSection, NumberSection, Succeeds, BinaryEntry;
    EnqueueSucceeds(y.stream, TextEntry([], false, false), BufferFull);
    match y.reader
    case Enqueuing(entry) => EnqueueSucceeds(y.stream, entry, BufferFull);
    case Numbered(payload, start, offset, sequence) =>
      EnqueueSucceeds(y.stream, BinaryEntry(payload[offset..ChunkEnd(payload, offset)], start + offset, sequence), BufferFull);
    case Overloading(reason, _) => EnqueueSucceeds(y.stream, TextEntry([], false, false), reason);
    case _ =>
  }

  /** Also for a pop. */
  lemma LifeStep(y: System, e: Event)
    ensures var s, t := y.stream, Step(y, e).stream;
            t.sub == s.sub && (t.active ==> s.active) && (s.overloaded ==> t.overloaded) && (t.overloaded ==> s.overloaded || s.active)
  {
    if e.Pop? {
      hide CanPop;
    } else {
      hide Step;
      StepSucceeds(y, e);
    }
  }
}
