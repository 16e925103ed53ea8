/** Buffer accounting, turn sizes and the high-water gate over every run. */
module QueueBounds {
  import opened Bytes
  import opened QueueStream
  import opened QueueRuns
  import opened QueueOrder

  lemma {:induction false} SumCostAppend(a: seq<Outbound>, b: seq<Outbound>)
    ensures SumCost(a + b) == SumCost(a) + SumCost(b)
  {
    if a == [] {
      assert a + b == b;
    } else {
      SumCostAppend(a[1..], b);
      assert (a + b)[1..] == a[1..] + b;
    }
  }

  predicate EntryOk(e: Outbound)
  {
    && e.byteCost == |e.payload|
    && e.endCursor - e.startCursor == (if e.messageType == Binary then |e.payload| else 0)
    && (e.messageType == Binary ==> 0 < e.byteCost <= BINARY_MAX && !e.burstStart && !e.burstFinish && e.binarySequence > 0)
  }

  ghost predicate Increasing(entries: seq<Outbound>, last: nat)
  {
    && (forall i, j :: 0 <= i < j < |entries| ==> entries[i].sequence < entries[j].sequence)
    && (forall i :: 0 <= i < |entries| ==> 0 < entries[i].sequence <= last)
  }

  /** The counters of the buffer are exact, and it is bounded and ordered. */
  ghost predicate BufferOk(s: Stream)
  {
    && s.bufferBytes == SumCost(s.buffer) <= BUFFER_LIMIT
    && Increasing(s.buffer, s.nextSequence)
    && (forall i :: 0 <= i < |s.buffer| ==> EntryOk(s.buffer[i]))
    && (!s.active ==> s.buffer == [])
    && (s.overloaded ==> |s.buffer| <= 1 && forall i :: 0 <= i < |s.buffer| ==> !Marked(s.buffer[i]))
    && ErrorsFit(s.errors)
  }

  predicate ReaderEntryOk(y: System)
  {
    && (y.reader.Enqueuing? ==> EntryOk(y.reader.entry))
    && (y.reader.Numbered? ==> y.reader.sequence > 0)
  }

  /** Entries are sent in queue order and never twice. */
  ghost predicate BoundInv(y: System)
  {
    && BufferOk(y.stream)
    && ReaderEntryOk(y)
    && Increasing(y.popped + y.stream.buffer, y.stream.nextSequence)
    && (forall i :: 0 <= i < |y.popped| ==> EntryOk(y.popped[i]))
  }

  lemma EnqueueKeepsBuffer(s: Stream, entry: Outbound)
    requires BufferOk(s) && EntryOk(entry)
    ensures BufferOk(EnqueueSection(s, entry).0)
  {
    if EnqueueSection(s, entry).1 == Queued {
      var e := entry.(sequence := s.nextSequence + 1);
      SumCostAppend(s.buffer, [e]);
      assert SumCost([e]) == e.byteCost + SumCost([]);
    }
  }

  lemma EnqueueKeepsOrder(s: Stream, popped: seq<Outbound>, entry: Outbound)
    requires Increasing(popped + s.buffer, s.nextSequence)
    ensures Increasing(popped + EnqueueSection(s, entry).0.buffer, EnqueueSection(s, entry).0.nextSequence)
  {
    if EnqueueSection(s, entry).1 == Queued {
      var e := entry.(sequence := s.nextSequence + 1);
      assert popped + (s.buffer + [e]) == (popped + s.buffer) + [e];
    }
  }

  lemma OverloadKeepsBuffer(s: Stream, popped: seq<Outbound>, reason: OverloadReason)
    requires BufferOk(s) && Increasing(popped + s.buffer, s.nextSequence)
    ensures BufferOk(OverloadSection(s, reason))
    ensures Increasing(popped + OverloadSection(s, reason).buffer, OverloadSection(s, reason).nextSequence)
  {
    if Serving(s) {
      var t := OverloadSection(s, reason);
      var e := t.buffer[0];
      assert t.buffer == [e];
      assert SumCost([e]) == e.byteCost + SumCost([]);
      forall i | 0 <= i < |popped|
        ensures 0 < (popped + [e])[i].sequence <= s.nextSequence
      {
        assert (popped + s.buffer)[i] == popped[i];
      }
      forall i, j | 0 <= i < j < |popped + [e]|
        ensures (popped + [e])[i].sequence < (popped + [e])[j].sequence
      {
        if j < |popped| {
          assert (popped + s.buffer)[i] == popped[i] && (popped + s.buffer)[j] == popped[j];
        }
      }
    }
  }

  lemma PopKeepsBuffer(s: Stream, popped: seq<Outbound>)
    requires BufferOk(s) && Increasing(popped + s.buffer, s.nextSequence) && s.buffer != []
    ensures BufferOk(PopSection(s))
    ensures PopSection(s).bufferBytes == s.bufferBytes - s.buffer[0].byteCost
    ensures Increasing(popped + [s.buffer[0]] + PopSection(s).buffer, s.nextSequence)
  {
    assert popped + [s.buffer[0]] + s.buffer[1..] == popped + s.buffer;
  }

  lemma DeactivateKeepsOrder(s: Stream, popped: seq<Outbound>)
    requires Increasing(popped + s.buffer, s.nextSequence)
    ensures Increasing(popped + [], s.nextSequence)
  {
    forall i | 0 <= i < |popped| ensures (popped + [])[i] == (popped + s.buffer)[i] {}
  }

  lemma BoundReader(y: System)
    requires BoundInv(y) && Enabled(y, ReaderStep)
    ensures BoundInv(ReaderNext(y))
  {
    match y.reader
    case Enqueuing(entry) =>
      EnqueueKeepsBuffer(y.stream, entry);
      EnqueueKeepsOrder(y.stream, y.popped, entry);
      hide Increasing, BufferOk;
    case Cutting(payload, start, offset) =>
      hide Increasing;
    case Numbered(payload, start, offset, sequence) =>
      var end := ChunkEnd(payload, offset);
      var entry := BinaryEntry(payload[offset..end], start + offset, sequence);
      EnqueueKeepsBuffer(y.stream, entry);
      EnqueueKeepsOrder(y.stream, y.popped, entry);
      hide Increasing, BufferOk;
    case Overloading(reason, next) =>
      OverloadKeepsBuffer(y.stream, y.popped, reason);
      hide Increasing, BufferOk;
  }

  lemma TextEntryOk(s: Stream, payload: seq<byte>, message: Message)
    ensures var outcome := TextSection(s, payload, message).1;
            outcome.Accepted? ==> EntryOk(outcome.entry) && outcome.entry.messageType == Text
  {}

  lemma BoundRead(y: System, frame: Frame)
    requires BoundInv(y)
    ensures BoundInv(ReadStep(y, frame))
  {
    if frame.TextFrame? {
      TextEntryOk(y.stream, frame.payload, frame.message);
      TextAgrees(y.stream, 0, frame.payload, frame.message);
      hide TextSection, LabelFrame, EntryOk, SumCost, Proj;
    }
    hide Increasing, Pieces;
  }

  lemma BoundPop(y: System)
    requires BoundInv(y) && Enabled(y, Pop)
    ensures BoundInv(PopStep(y))
  {
    if CanPop(y.stream, y.writer.target, y.writer.written) {
      PopKeepsBuffer(y.stream, y.popped);
      assert EntryOk(y.stream.buffer[0]);
      hide Increasing, BufferOk, PopSection, EntryOk;
      assert PopStep(y).popped == y.popped + [y.stream.buffer[0]];
    }
  }

  lemma BoundStep(y: System, e: Event)
    requires BoundInv(y)
    ensures BoundInv(Step(y, e))
  {
    if Enabled(y, e) {
      match e
      case Read(frame) => BoundRead(y, frame);
      case ReaderStep => BoundReader(y);
      case Control(payload) =>
        EnqueueKeepsBuffer(y.stream, TextEntry(payload, false, false));
        EnqueueKeepsOrder(y.stream, y.popped, TextEntry(payload, false, false));
        hide Increasing, BufferOk;
      case ControlOverload =>
        OverloadKeepsBuffer(y.stream, y.popped, BufferFull);
        hide Increasing, BufferOk;
      case Pop => BoundPop(y);
      case Deactivate =>
        DeactivateKeepsOrder(y.stream, y.popped);
      case _ => BoundUntouched(y, e);
    }
  }

  lemma BoundUntouched(y: System, e: Event)
    requires BoundInv(y) && Enabled(y, e)
    requires e.OpenGate? || e.StartTurn? || e.TimeUp? || e.Finish? || e.Ack?
    ensures BoundInv(Next(y, e))
  {
    if e.Finish? {
      FinishKeepsQueue(y.stream, y.writer.cursor, y.writer.sequence);
    } else if e.Ack? {
      AckKeepsQueue(y.stream, e.ack);
    }
    hide FinishSection, AckSection, TargetSection, GateOpen, Increasing, SumCost;
  }

  lemma {:induction false} BoundRun(sub: Subscription, errors: ErrorControls, events: seq<Event>)
    requires ErrorsFit(errors)
    ensures BoundInv(Exec(Start(sub, errors), events))
  {
    if events != [] {
      BoundRun(sub, errors, events[..|events| - 1]);
      BoundStep(Exec(Start(sub, errors), events[..|events| - 1]), events[|events| - 1]);
    }
  }

  // ---- after an overload ------------------------------------------------------

  /** Nothing but the one error control is ever sent after an overload. */
  ghost predicate Drained(y: System, z: System)
  {
    && z.stream.overloaded
    && (|| (z.popped == y.popped && (z.stream.buffer == y.stream.buffer || z.stream.buffer == []))
        || (z.popped == y.popped + y.stream.buffer && z.stream.buffer == []))
  }

  lemma DrainedStep(y: System, z: System, e: Event)
    requires BoundInv(y) && y.stream.overloaded && Drained(y, z)
    ensures Drained(y, Step(z, e))
  {
    hide Increasing, SumCost;
    if !e.Pop? {
      StepSucceeds(z, e);
      hide Step;
    } else if z.writer.InTurn? && CanPop(z.stream, z.writer.target, z.writer.written) {
      assert z.stream.buffer == [y.stream.buffer[0]];
      assert y.popped + [y.stream.buffer[0]] == y.popped + y.stream.buffer;
    }
  }

  lemma {:induction false} AfterOverload(y: System, events: seq<Event>)
    requires BoundInv(y) && y.stream.overloaded
    ensures Drained(y, Exec(y, events))
    ensures |y.stream.buffer| <= 1
    ensures forall i :: 0 <= i < |y.stream.buffer| ==> y.stream.buffer[i].messageType == Text
  {
    if events != [] {
      AfterOverload(y, events[..|events| - 1]);
      DrainedStep(y, Exec(y, events[..|events| - 1]), events[|events| - 1]);
    }
  }

  /** And nothing at all once a stream is deactivated. */
  lemma {:induction false} AfterDeactivation(y: System, events: seq<Event>)
    requires !y.stream.active
    ensures !Exec(y, events).stream.active && Exec(y, events).popped == y.popped
  {
    if events != [] {
      var z, e := Exec(y, events[..|events| - 1]), events[|events| - 1];
      AfterDeactivation(y, events[..|events| - 1]);
      if !e.Pop? {
        StepSucceeds(z, e);
        hide Step;
      }
    }
  }

  // ---- the high-water gate ----------------------------------------------------

  const FRAME_MAX: nat := 1024 * 1024

  /** A frame that leaves `reserve` bytes of what the gate keeps free. */
  predicate SmallFrame(f: Frame, reserve: nat)
  {
    && |f.payload| + reserve <= FRAME_MAX
    && (f.TextFrame? && f.message.ReplayStart? ==> |f.message.encoded| + reserve <= FRAME_MAX)
  }

  /** The queue-wide numbers of the controls that the connection itself has enqueued. */
  function OwnAfter(y: System, e: Event, own: set<nat>): set<nat>
  {
    if e.Control? && EnqueueSection(y.stream, TextEntry(e.payload, false, false)).1 == Queued
    then own + {y.stream.nextSequence + 1} else own
  }

  function Own(sub: Subscription, errors: ErrorControls, events: seq<Event>): set<nat>
  {
    if events == [] then {}
    else
      OwnAfter(Exec(Start(sub, errors), events[..|events| - 1]), events[|events| - 1], Own(sub, errors, events[..|events| - 1]))
  }

  /** The bytes of those among the given entries. */
  function OwnCost(entries: seq<Outbound>, own: set<nat>): nat
  {
    if entries == [] then 0
    else (if entries[0].sequence in own then entries[0].byteCost else 0) + OwnCost(entries[1..], own)
  }

  predicate ModerateEvent(y: System, e: Event, reserve: nat, own: set<nat>)
  {
    && (e.Control? ==> OwnCost(y.stream.buffer, own) + |e.payload| <= reserve)
    && (e.Read? ==> SmallFrame(e.frame, reserve))
  }

  /** A run in which at most `reserve` bytes of the connection's own controls are ever
      buffered, and frames leave that much of 1 MiB. */
  predicate Moderate(sub: Subscription, errors: ErrorControls, reserve: nat, events: seq<Event>)
  {
    && reserve <= FRAME_MAX
    && (events == [] ||
        (&& Moderate(sub, errors, reserve, events[..|events| - 1])
         && ModerateEvent(Exec(Start(sub, errors), events[..|events| - 1]), events[|events| - 1], reserve,
                          Own(sub, errors, events[..|events| - 1]))))
  }

  /** Everything else that is buffered. */
  function Others(s: Stream, own: set<nat>): int
  {
    s.bufferBytes - OwnCost(s.buffer, own)
  }

  /** What the gate guarantees about the frame being read: with all of the reserve in
      use it still fits. */
  predicate Fits(y: System, reserve: nat, own: set<nat>)
  {
    && !y.controlFull && OwnCost(y.stream.buffer, own) <= reserve
    && (forall q :: q in own ==> q <= y.stream.nextSequence)
    && var others := Others(y.stream, own);
    match y.reader
    case Gate => others + reserve <= BUFFER_LIMIT
    case Ready => others < HIGH_WATER
    case Enqueuing(entry) => others + entry.byteCost + reserve <= BUFFER_LIMIT
    case Cutting(payload, _, offset) => others + |payload| - offset + reserve <= BUFFER_LIMIT
    case Numbered(payload, _, offset, _) => others + |payload| - offset + reserve <= BUFFER_LIMIT
    case Overloading(reason, _) => reason != BufferFull && others + reserve <= BUFFER_LIMIT
  }

  lemma {:induction false} OwnCostSnoc(entries: seq<Outbound>, e: Outbound, own: set<nat>)
    ensures OwnCost(entries + [e], own) == OwnCost(entries, own) + (if e.sequence in own then e.byteCost else 0)
  {
    if entries == [] {
      assert entries + [e] == [e] && [e][1..] == [];
    } else {
      OwnCostSnoc(entries[1..], e, own);
      assert (entries + [e])[1..] == entries[1..] + [e];
    }
  }

  lemma {:induction false} OwnCostNew(entries: seq<Outbound>, own: set<nat>, q: nat)
    requires forall i :: 0 <= i < |entries| ==> entries[i].sequence != q
    ensures OwnCost(entries, own + {q}) == OwnCost(entries, own)
  {
    if entries != [] {
      OwnCostNew(entries[1..], own, q);
    }
  }

  /** What enqueueing an entry that fits does; `mine` says that it is the connection's. */
  lemma OwnEnqueue(s: Stream, entry: Outbound, own: set<nat>, mine: bool)
    requires BufferOk(s) && Serving(s) && s.bufferBytes + entry.byteCost <= BUFFER_LIMIT
    requires forall q :: q in own ==> q <= s.nextSequence
    ensures var t := EnqueueSection(s, entry).0;
            var more := if mine then own + {s.nextSequence + 1} else own;
            && EnqueueSection(s, entry).1 == Queued
            && OwnCost(t.buffer, more) == OwnCost(s.buffer, own) + (if mine then entry.byteCost else 0)
            && Others(t, more) == Others(s, own) + (if mine then 0 else entry.byteCost)
            && t.nextSequence == s.nextSequence + 1
  {
    hide SumCost, EntryOk;
    var more := if mine then own + {s.nextSequence + 1} else own;
    OwnCostSnoc(s.buffer, entry.(sequence := s.nextSequence + 1), more);
    if mine {
      OwnCostNew(s.buffer, own, s.nextSequence + 1);
    }
  }

  lemma OwnPop(s: Stream, own: set<nat>)
    requires BufferOk(s) && s.buffer != []
    ensures var t := PopSection(s);
            OwnCost(t.buffer, own) <= OwnCost(s.buffer, own) && Others(t, own) <= Others(s, own) && t.nextSequence == s.nextSequence
  {
    hide Increasing, EntryOk;
  }

  lemma FitsRead(y: System, frame: Frame, reserve: nat, own: set<nat>)
    requires Serving(y.stream) && Fits(y, reserve, own) && y.reader == Ready && SmallFrame(frame, reserve) && reserve <= FRAME_MAX
    ensures Fits(ReadStep(y, frame), reserve, own) && Serving(ReadStep(y, frame).stream)
  {
    hide OwnCost;
    if frame.TextFrame? {
      TextAgrees(y.stream, 0, frame.payload, frame.message);
    }
  }

  lemma FitsReader(y: System, reserve: nat, own: set<nat>)
    requires BoundInv(y) && Serving(y.stream) && Fits(y, reserve, own) && Enabled(y, ReaderStep) && !y.reader.Overloading?
    ensures Fits(ReaderNext(y), reserve, own) && Serving(ReaderNext(y).stream)
  {
    hide OwnCost, BufferOk;
    match y.reader
    case Enqueuing(entry) => OwnEnqueue(y.stream, entry, own, false);
    case Numbered(payload, start, offset, sequence) =>
      OwnEnqueue(y.stream, BinaryEntry(payload[offset..ChunkEnd(payload, offset)], start + offset, sequence), own, false);
    case Cutting(payload, start, offset) =>
  }

  lemma FitsControl(y: System, payload: seq<byte>, reserve: nat, own: set<nat>)
    requires BoundInv(y) && Serving(y.stream) && Fits(y, reserve, own) && reserve <= FRAME_MAX
    requires ModerateEvent(y, Control(payload), reserve, own)
    ensures var z := Step(y, Control(payload));
            Fits(z, reserve, OwnAfter(y, Control(payload), own)) && Serving(z.stream)
  {
    hide OwnCost, BufferOk;
    OwnEnqueue(y.stream, TextEntry(payload, false, false), own, true);
  }

  lemma FitsPop(y: System, reserve: nat, own: set<nat>)
    requires BoundInv(y) && Serving(y.stream) && Fits(y, reserve, own) && y.writer.InTurn?
    ensures Fits(PopStep(y), reserve, own) && Serving(PopStep(y).stream)
  {
    hide OwnCost, BufferOk, WindowAllows, Increasing;
    if CanPop(y.stream, y.writer.target, y.writer.written) {
      OwnPop(y.stream, own);
    }
  }

  lemma FitsOther(y: System, e: Event, reserve: nat, own: set<nat>)
    requires Serving(y.stream) && Fits(y, reserve, own) && Enabled(y, e)
    requires e.OpenGate? || e.StartTurn? || e.TimeUp? || e.Finish? || e.Ack? || e.ControlOverload?
    ensures Fits(Next(y, e), reserve, own) && Serving(Next(y, e).stream)
  {
    if e.Finish? {
      FinishKeepsQueue(y.stream, y.writer.cursor, y.writer.sequence);
    } else if e.Ack? {
      AckKeepsQueue(y.stream, e.ack);
    }
    hide OwnCost, FinishSection, AckSection, TargetSection;
  }

  lemma FitsStep(y: System, e: Event, reserve: nat, own: set<nat>)
    requires BoundInv(y) && Serving(y.stream) && Fits(y, reserve, own) && reserve <= FRAME_MAX
    requires ModerateEvent(y, e, reserve, own)
    ensures var z := Step(y, e);
            if Serving(z.stream) then Fits(z, reserve, OwnAfter(y, e, own))
            else e.Deactivate? || (e.ReaderStep? && y.reader.Overloading? && y.reader.reason != BufferFull)
  {
    if Enabled(y, e) {
      match e
      case Read(frame) => FitsRead(y, frame, reserve, own);
      case ReaderStep =>
        if y.reader.Overloading? {
          OverloadEnds(y, reserve, own);
        } else {
          FitsReader(y, reserve, own);
        }
      case Control(payload) => FitsControl(y, payload, reserve, own);
      case Pop => FitsPop(y, reserve, own);
      case Deactivate =>
      case _ => FitsOther(y, e, reserve, own);
      hide Fits, BoundInv, ReadStep, ReaderNext, PopStep, ModerateEvent;
    }
  }

  lemma OverloadEnds(y: System, reserve: nat, own: set<nat>)
    requires Fits(y, reserve, own) && y.reader.Overloading?
    ensures !Serving(Step(y, ReaderStep).stream) && y.reader.reason != BufferFull
  {
    hide OwnCost;
  }

  /** As long as no more than `reserve` bytes of the connection's own controls are
      buffered, and frames leave that much of 1 MiB, all that comes fits: the buffer limit
      is never the reason for an overload. */
  lemma {:induction false} GateRun(sub: Subscription, errors: ErrorControls, reserve: nat, events: seq<Event>)
    requires ErrorsFit(errors) && Moderate(sub, errors, reserve, events)
    ensures var y := Exec(Start(sub, errors), events);
            Serving(y.stream) ==> Fits(y, reserve, Own(sub, errors, events))
  {
    if events != [] {
      var before := events[..|events| - 1];
      var y := Exec(Start(sub, errors), before);
      GateRun(sub, errors, reserve, before);
      BoundRun(sub, errors, before);
      hide Fits, BoundInv, Step, ModerateEvent, OwnAfter;
      if Serving(y.stream) {
        FitsStep(y, events[|events| - 1], reserve, Own(sub, errors, before));
      } else {
        LifeStep(y, events[|events| - 1]);
      }
    }
  }
}
