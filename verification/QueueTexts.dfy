/** What a client is sent, text and output together and in order, on every run: the
    agent's frames, each text as it came or with the granted burst written into it, and
    between them only the connection's own controls (core/queue_stream.go:201-312). */
module QueueTexts {
  import opened Bytes
  import opened QueueStream
  import opened QueueRuns
  import opened QueueOrder
  import opened QueueBounds
  import opened QueueEffects

  /** What one entry says to the client. */
  datatype Content = Content(messageType: MessageType, payload: seq<byte>)

  function ContentOf(e: Outbound): Content
  {
    Content(e.messageType, e.payload)
  }

  /** The contents of the entries but those the connection itself has enqueued. */
  function Mine(entries: seq<Outbound>, own: set<nat>): seq<Content>
  {
    if entries == [] then []
    else
      var front, e := entries[..|entries| - 1], entries[|entries| - 1];
      if e.sequence in own then Mine(front, own) else Mine(front, own) + [ContentOf(e)]
  }

  function OutputsOf(pieces: seq<seq<byte>>): seq<Content>
  {
    if pieces == [] then [] else [Content(Binary, pieces[0])] + OutputsOf(pieces[1..])
  }

  /** What a frame becomes: a text stays one, output is cut at 512 KiB. */
  function ContentsFor(sub: Subscription, f: Frame): seq<Content>
  {
    match f
    case TextFrame(payload, message) => [Content(Text, TextFor(sub, payload, message))]
    case BinaryFrame(payload) => OutputsOf(Pieces(payload, 512 * 1024))
  }

  function Expected(sub: Subscription, frames: seq<Frame>): seq<Content>
  {
    if frames == [] then []
    else Expected(sub, frames[..|frames| - 1]) + ContentsFor(sub, frames[|frames| - 1])
  }

  /** What the reader has yet to enqueue of the frame it is in. */
  function Due(r: ReaderState): seq<Content>
  {
    match r
    case Enqueuing(entry) => [ContentOf(entry)]
    case Cutting(payload, _, offset) => OutputsOf(Pieces(payload[offset..], BINARY_MAX))
    case Numbered(payload, _, offset, _) =>
      [Content(Binary, payload[offset..ChunkEnd(payload, offset)])]
      + OutputsOf(Pieces(payload[ChunkEnd(payload, offset)..], BINARY_MAX))
    case _ => []
  }

  /** An error control, which is all that is sent once a stream was cut off. */
  predicate ErrorText(e: Outbound, errors: ErrorControls)
  {
    e.messageType == Text && e.payload in {errors.notContinuous, errors.beforeCursor, errors.bufferFull}
  }

  /** The first `n` entries sent are the agent's, as far as they go; behind them there is
      only the error of a stream that was cut off. */
  ghost predicate SentAre(y: System, own: set<nat>, n: nat)
  {
    && n <= |y.popped| <= n + 1
    && IsPrefix(Mine(y.popped[..n], own), Expected(y.stream.sub, y.frames))
    && (!y.stream.overloaded ==> n == |y.popped|)
    && (n < |y.popped| ==> ErrorText(y.popped[n], y.stream.errors) && y.stream.buffer == [])
    && (y.stream.overloaded ==>
          |y.stream.buffer| <= 1 && forall i :: 0 <= i < |y.stream.buffer| ==> ErrorText(y.stream.buffer[i], y.stream.errors))
  }

  /** While the stream serves, what was sent, what is buffered and what the reader has yet
      to enqueue are together what the frames call for. */
  ghost predicate AllThere(y: System, own: set<nat>)
  {
    && (Serving(y.stream) ==>
          IsPrefix(Mine(y.popped, own) + Mine(y.stream.buffer, own), Expected(y.stream.sub, y.frames)))
    && (Serving(y.stream) && !y.reader.Overloading? ==>
          Mine(y.popped, own) + Mine(y.stream.buffer, own) + Due(y.reader) == Expected(y.stream.sub, y.frames))
  }

  ghost predicate ContentInv(y: System, own: set<nat>)
  {
    && (forall q :: q in own ==> q <= y.stream.nextSequence)
    && (exists n :: SentAre(y, own, n))
    && AllThere(y, own)
  }

  // ---- lists of contents ---------------------------------------------------------------

  lemma MineSnoc(entries: seq<Outbound>, e: Outbound, own: set<nat>)
    ensures Mine(entries + [e], own) == if e.sequence in own then Mine(entries, own) else Mine(entries, own) + [ContentOf(e)]
  {
    Snoc(entries, e);
  }

  lemma {:induction false} MineHead(entries: seq<Outbound>, own: set<nat>)
    requires entries != []
    ensures Mine(entries, own) == Mine([entries[0]], own) + Mine(entries[1..], own)
    decreases |entries|
  {
    if |entries| == 1 {
      assert entries == [entries[0]];
      Empty(Mine(entries, own));
    } else {
      var front, e := entries[..|entries| - 1], entries[|entries| - 1];
      MineHead(front, own);
      assert front[1..] + [e] == entries[1..];
      MineSnoc(front[1..], e, own);
      Assoc(Mine([entries[0]], own), Mine(front[1..], own), [ContentOf(e)]);
    }
  }

  lemma {:induction false} MineNew(entries: seq<Outbound>, own: set<nat>, q: nat)
    requires forall i :: 0 <= i < |entries| ==> entries[i].sequence != q
    ensures Mine(entries, own + {q}) == Mine(entries, own)
    decreases |entries|
  {
    if entries != [] {
      MineNew(entries[..|entries| - 1], own, q);
    }
  }

  lemma ExpectedSnoc(sub: Subscription, frames: seq<Frame>, f: Frame)
    ensures Expected(sub, frames + [f]) == Expected(sub, frames) + ContentsFor(sub, f)
  {
    Snoc(frames, f);
  }

  lemma OutputsCons(piece: seq<byte>, rest: seq<seq<byte>>)
    ensures OutputsOf([piece] + rest) == [Content(Binary, piece)] + OutputsOf(rest)
  {
    Cons(piece, rest);
  }

  lemma PrefixFirst(a: seq<Content>, b: seq<Content>, all: seq<Content>)
    requires IsPrefix(a + b, all)
    ensures IsPrefix(a, all)
  {
    TakeTwice(all, |a + b|, |a|);
    CutFirst(a, b, |a|);
    Empty(a);
  }

  // ---- one step ------------------------------------------------------------------------

  /** Steps that leave queue and frames alone. */
  lemma ContentStays(y: System, z: System, own: set<nat>)
    requires ContentInv(y, own)
    requires z.popped == y.popped && z.frames == y.frames
    requires z.stream.sub == y.stream.sub && z.stream.errors == y.stream.errors && z.stream.active == y.stream.active
    requires z.stream.overloaded == y.stream.overloaded && z.stream.buffer == y.stream.buffer
    requires z.stream.nextSequence == y.stream.nextSequence
    requires z.reader == y.reader || (Due(z.reader) == Due(y.reader) && (y.reader.Overloading? ==> z.reader.Overloading?))
    ensures ContentInv(z, own)
  {
    hide Mine, Expected, Due;
    var n: nat :| SentAre(y, own, n);
    assert SentAre(z, own, n);
  }

  /** A frame is read: it is due, or the stream is about to be cut off. */
  lemma ContentRead(y: System, frame: Frame, own: set<nat>)
    requires ContentInv(y, own) && y.reader == Ready
    ensures ContentInv(ReadStep(y, frame), own)
  {
    var z := ReadStep(y, frame);
    ExpectedSnoc(y.stream.sub, y.frames, frame);
    ReadDue(y, frame);
    hide Mine, Expected, Due, ReadStep, ContentsFor;
    var all, more := Expected(y.stream.sub, y.frames), ContentsFor(y.stream.sub, frame);
    var n: nat :| SentAre(y, own, n);
    PrefixAppend(Mine(y.popped[..n], own), all, more);
    assert SentAre(z, own, n);
    if Serving(y.stream) {
      PrefixAppend(Mine(y.popped, own) + Mine(y.stream.buffer, own), all, more);
      DueNone();
      Empty(Mine(y.popped, own) + Mine(y.stream.buffer, own));
    }
  }

  lemma DueNone()
    ensures Due(Ready) == [] && Due(Gate) == []
  {}

  lemma ReadDue(y: System, frame: Frame)
    ensures var z := ReadStep(y, frame);
            && z.popped == y.popped && z.frames == y.frames + [frame]
            && z.stream == y.stream.(hasCursor := z.stream.hasCursor, cursor := z.stream.cursor, terminalControl := z.stream.terminalControl)
            && (!z.reader.Overloading? ==> Due(z.reader) == ContentsFor(y.stream.sub, frame))
  {
    match frame
    case TextFrame(payload, message) => ReadTextDue(y, payload, message);
    case BinaryFrame(payload) =>
      hide Pieces, OutputsOf;
      Empty(payload);
      NoPieces();
      OutputsNone();
  }

  lemma ReadTextDue(y: System, payload: seq<byte>, message: Message)
    ensures var z := ReadStep(y, TextFrame(payload, message));
            && z.popped == y.popped && z.frames == y.frames + [TextFrame(payload, message)]
            && z.stream == y.stream.(hasCursor := z.stream.hasCursor, cursor := z.stream.cursor, terminalControl := z.stream.terminalControl)
            && (!z.reader.Overloading? ==> Due(z.reader) == ContentsFor(y.stream.sub, TextFrame(payload, message)))
  {
    hide TextSection, TextFor, BurstGranted, Discontinuous;
    SectionEffect(y.stream, payload, message);
    var outcome := TextSection(y.stream, payload, message).1;
    if outcome.Accepted? {
      assert ContentOf(outcome.entry) == Content(Text, TextFor(y.stream.sub, payload, message));
    }
  }

  lemma NoPieces()
    ensures Pieces<byte>([], BINARY_MAX) == []
  {}

  /** An entry is queued, the agent's or the connection's own. */
  lemma ContentQueued(y: System, z: System, own: set<nat>, entry: Outbound, mine: bool)
    requires ContentInv(y, own) && BoundInv(y) && Serving(y.stream)
    requires EnqueueSection(y.stream, entry).1 == Queued && z.stream == EnqueueSection(y.stream, entry).0
    requires z.popped == y.popped && z.frames == y.frames
    requires mine ==> z.reader == y.reader
    requires !mine ==> Due(y.reader) == [ContentOf(entry)] + Due(z.reader) && !y.reader.Overloading? && !z.reader.Overloading?
    ensures ContentInv(z, if mine then own + {y.stream.nextSequence + 1} else own)
  {
    var q := y.stream.nextSequence + 1;
    var more := if mine then own + {q} else own;
    var e := entry.(sequence := q);
    MineSnoc(y.stream.buffer, e, more);
    if mine {
      Fresh(y, q);
      MineNew(y.popped, own, q);
      MineNew(y.stream.buffer, own, q);
    }
    hide Mine, Expected, Due, BoundInv;
    var sent, queued := Mine(y.popped, own), Mine(y.stream.buffer, own);
    Assoc(sent, queued, [ContentOf(e)]);
    Assoc(sent + queued, [ContentOf(e)], Due(z.reader));
    PrefixOf(sent + queued + [ContentOf(e)], Due(z.reader));
    var n: nat :| SentAre(y, own, n);
    Empty(y.popped);
    PrefixFirst(Mine(z.popped, more), Mine(z.stream.buffer, more), Expected(z.stream.sub, z.frames));
    assert SentAre(z, more, n);
  }

  lemma PrefixOf(p: seq<Content>, q: seq<Content>)
    ensures IsPrefix(p, p + q)
  {
    CutFirst(p, q, |p|);
    Empty(p);
  }

  lemma Fresh(y: System, q: nat)
    requires BoundInv(y) && q == y.stream.nextSequence + 1
    ensures forall i :: 0 <= i < |y.popped| ==> y.popped[i].sequence != q
    ensures forall i :: 0 <= i < |y.stream.buffer| ==> y.stream.buffer[i].sequence != q
  {
    hide SumCost, EntryOk;
    forall i | 0 <= i < |y.popped| ensures y.popped[i].sequence != q {
      assert (y.popped + y.stream.buffer)[i] == y.popped[i];
    }
  }

  /** An entry that does not fit, or comes too late, changes at most the reader. */
  lemma ContentLost(y: System, z: System, own: set<nat>)
    requires ContentInv(y, own)
    requires z.stream == y.stream && z.popped == y.popped && z.frames == y.frames
    requires Serving(y.stream) ==> z.reader.Overloading? || z.reader == y.reader
    ensures ContentInv(z, own)
  {
    hide Mine, Expected, Due;
    var n: nat :| SentAre(y, own, n);
    assert SentAre(z, own, n);
  }

  lemma ContentReader(y: System, own: set<nat>)
    requires ContentInv(y, own) && BoundInv(y) && Enabled(y, ReaderStep)
    ensures ContentInv(ReaderNext(y), own)
  {
    hide ContentInv, BoundInv, Mine, Expected;
    var z := ReaderNext(y);
    match y.reader
    case Enqueuing(entry) =>
      if EnqueueSection(y.stream, entry).1 == Queued {
        Empty([ContentOf(entry)]);
        ContentQueued(y, z, own, entry, false);
      } else {
        ContentLost(y, z, own);
      }
    case Cutting(payload, start, offset) => ContentCutting(y, own);
    case Numbered(payload, start, offset, sequence) =>
      hide Pieces, OutputsOf;
      var entry := BinaryEntry(payload[offset..ChunkEnd(payload, offset)], start + offset, sequence);
      if EnqueueSection(y.stream, entry).1 == Queued {
        ContentQueued(y, z, own, entry, false);
      } else {
        ContentLost(y, z, own);
      }
    case Overloading(reason, _) => ContentOverload(y, z, own, reason);
  }

  lemma ContentCutting(y: System, own: set<nat>)
    requires ContentInv(y, own) && y.reader.Cutting?
    ensures ContentInv(ReaderNext(y), own)
  {
    hide ContentInv, Pieces, OutputsOf;
    var z := ReaderNext(y);
    var Cutting(payload, _, offset) := y.reader;
    if offset == |payload| {
      Empty(payload);
      NoPieces();
      OutputsNone();
    } else {
      PiecesStep(payload, offset);
      OutputsCons(payload[offset..ChunkEnd(payload, offset)], Pieces(payload[ChunkEnd(payload, offset)..], BINARY_MAX));
    }
    ContentStays(y, z, own);
  }

  lemma OutputsNone()
    ensures OutputsOf([]) == []
  {}

  lemma ContentOverload(y: System, z: System, own: set<nat>, reason: OverloadReason)
    requires ContentInv(y, own)
    requires z.stream == OverloadSection(y.stream, reason) && z.popped == y.popped && z.frames == y.frames
    requires z.reader == y.reader || y.reader.Overloading?
    ensures ContentInv(z, own)
  {
    hide Mine, Expected, Due;
    var n: nat :| SentAre(y, own, n);
    assert SentAre(z, own, n);
  }

  lemma ContentControl(y: System, payload: seq<byte>, own: set<nat>)
    requires ContentInv(y, own) && BoundInv(y)
    ensures ContentInv(Next(y, Control(payload)), OwnAfter(y, Control(payload), own))
  {
    hide ContentInv, BoundInv;
    var entry, z := TextEntry(payload, false, false), Next(y, Control(payload));
    if EnqueueSection(y.stream, entry).1 == Queued {
      ContentQueued(y, z, own, entry, true);
    } else {
      ContentLost(y, z, own);
    }
  }

  /** A pop moves an entry from what is buffered to what was sent. */
  lemma MineMoves(popped: seq<Outbound>, buffer: seq<Outbound>, own: set<nat>)
    requires buffer != []
    ensures Mine(popped + [buffer[0]], own) + Mine(buffer[1..], own) == Mine(popped, own) + Mine(buffer, own)
  {
    var e := buffer[0];
    MineSnoc(popped, e, own);
    MineHead(buffer, own);
    MineSnoc([], e, own);
    Empty([e]);
    MineNone(own);
    Empty([ContentOf(e)]);
    hide Mine;
    Empty(Mine(popped, own));
    Assoc(Mine(popped, own), Mine([e], own), Mine(buffer[1..], own));
  }

  lemma MineNone(own: set<nat>)
    ensures Mine([], own) == []
  {}

  lemma ContentPop(y: System, own: set<nat>)
    requires ContentInv(y, own) && y.writer.InTurn? && CanPop(y.stream, y.writer.target, y.writer.written)
    ensures ContentInv(PopStep(y), own)
  {
    PopKeepsRest(y.stream);
    PopsHead(y);
    hide PopSection, CanPop, Due, Expected, Mine, PopStep;
    var z := PopStep(y);
    MineMoves(y.popped, y.stream.buffer, own);
    PopSentAre(y, z, own);
    hide SentAre;
  }

  /** What an entry's pop changes. */
  lemma PopsHead(y: System)
    requires y.writer.InTurn? && CanPop(y.stream, y.writer.target, y.writer.written)
    ensures var s, z := y.stream, PopStep(y);
            && s.buffer != [] && s.active && z.popped == y.popped + [s.buffer[0]] && z.frames == y.frames && z.reader == y.reader
            && z.stream.buffer == s.buffer[1..] && SameQueue(s, z.stream.(buffer := s.buffer, bufferBytes := s.bufferBytes))
  {}

  lemma PopSentAre(y: System, z: System, own: set<nat>)
    requires ContentInv(y, own) && y.stream.buffer != [] && y.stream.active
    requires z.popped == y.popped + [y.stream.buffer[0]] && z.frames == y.frames && z.stream.buffer == y.stream.buffer[1..]
    requires SameQueue(y.stream, z.stream.(buffer := y.stream.buffer, bufferBytes := y.stream.bufferBytes))
    requires Mine(z.popped, own) + Mine(z.stream.buffer, own) == Mine(y.popped, own) + Mine(y.stream.buffer, own)
    ensures exists n: nat :: SentAre(z, own, n)
  {
    hide Mine, Expected, Due;
    var n: nat :| SentAre(y, own, n);
    if y.stream.overloaded {
      Snoc(y.popped, y.stream.buffer[0]);
      Empty(y.popped);
      assert SentAre(z, own, |y.popped|);
    } else {
      Empty(z.popped);
      PrefixFirst(Mine(z.popped, own), Mine(z.stream.buffer, own), Expected(z.stream.sub, z.frames));
      assert SentAre(z, own, n + 1);
    }
  }

  lemma ContentDeactivate(y: System, own: set<nat>)
    requires ContentInv(y, own)
    ensures ContentInv(Next(y, Deactivate), own)
  {
    hide Mine, Expected, Due;
    var n: nat :| SentAre(y, own, n);
    assert SentAre(Next(y, Deactivate), own, n);
  }

  lemma ContentUntouched(y: System, e: Event, own: set<nat>)
    requires ContentInv(y, own) && Enabled(y, e)
    requires e.OpenGate? || e.StartTurn? || e.TimeUp? || e.Finish? || e.Ack? || (e.Pop? && !CanPop(y.stream, y.writer.target, y.writer.written))
    ensures ContentInv(Next(y, e), own)
  {
    hide ContentInv;
    if e.Finish? {
      FinishKeepsQueue(y.stream, y.writer.cursor, y.writer.sequence);
    } else if e.Ack? {
      AckKeepsQueue(y.stream, e.ack);
    }
    hide FinishSection, AckSection, TargetSection, GateOpen, CanPop;
    ContentStays(y, Next(y, e), own);
  }

  lemma ContentStep(y: System, e: Event, own: set<nat>)
    requires ContentInv(y, own) && BoundInv(y)
    ensures ContentInv(Step(y, e), OwnAfter(y, e, own))
  {
    hide ContentInv, BoundInv, CanPop, ReadStep, ReaderNext, PopStep;
    if Enabled(y, e) {
      match e
      case Read(frame) => ContentRead(y, frame, own);
      case ReaderStep => ContentReader(y, own);
      case Control(payload) => ContentControl(y, payload, own);
      case ControlOverload => ContentOverload(y, Next(y, e), own, BufferFull);
      case Pop =>
        if CanPop(y.stream, y.writer.target, y.writer.written) {
          ContentPop(y, own);
        } else {
          ContentUntouched(y, e, own);
        }
      case Deactivate => ContentDeactivate(y, own);
      case _ => ContentUntouched(y, e, own);
    }
  }

  lemma {:induction false} ContentRun(sub: Subscription, errors: ErrorControls, events: seq<Event>)
    requires ErrorsFit(errors)
    ensures ContentInv(Exec(Start(sub, errors), events), Own(sub, errors, events))
  {
    if events == [] {
      assert SentAre(Start(sub, errors), {}, 0);
    } else {
      var before := events[..|events| - 1];
      ContentRun(sub, errors, before);
      BoundRun(sub, errors, before);
      hide ContentInv, BoundInv, Step, OwnAfter;
      ContentStep(Exec(Start(sub, errors), before), events[|events| - 1], Own(sub, errors, before));
    }
  }

  /** On every run what was sent is, in order, what the agent's frames call for, as far as
      they got, with only the connection's own controls in between; a stream that is cut
      off sends at most one error control after that. With nothing left to read or send it
      is all of it. */
  lemma SentInOrder(sub: Subscription, errors: ErrorControls, events: seq<Event>)
    requires ErrorsFit(errors)
    ensures var y, own := Exec(Start(sub, errors), events), Own(sub, errors, events);
            && (exists n :: SentAre(y, own, n))
            && (Serving(y.stream) && (y.reader.Gate? || y.reader.Ready?) && y.stream.buffer == [] ==>
                  Mine(y.popped, own) == Expected(y.stream.sub, y.frames))
  {
    ContentRun(sub, errors, events);
    var y, own := Exec(Start(sub, errors), events), Own(sub, errors, events);
    MineNone(own);
    hide SentAre, Mine, Expected;
    Empty(Mine(y.popped, own));
    DueNone();
  }

  /** A stream knows whether its pane's process has ended, or the like. */
  lemma {:induction false} TerminalControlKnown(sub: Subscription, errors: ErrorControls, events: seq<Event>)
    ensures var y := Exec(Start(sub, errors), events);
            y.stream.terminalControl <==>
              exists i :: 0 <= i < |y.frames| && y.frames[i].TextFrame? && y.frames[i].message.TerminalControl?
  {
    if events != [] {
      var before, e := events[..|events| - 1], events[|events| - 1];
      var y := Exec(Start(sub, errors), before);
      TerminalControlKnown(sub, errors, before);
      TerminalStep(y, e);
      var z := Step(y, e);
      hide Step;
      if z.frames != y.frames {
        var f := z.frames[|y.frames|];
        if f.TextFrame? && f.message.TerminalControl? {
          assert z.stream.terminalControl;
        }
        forall i | 0 <= i < |y.frames| ensures z.frames[i] == y.frames[i] {}
      }
    }
  }

  lemma TerminalStep(y: System, e: Event)
    ensures var z := Step(y, e);
            || (z.frames == y.frames && z.stream.terminalControl == y.stream.terminalControl)
            || (exists f: Frame :: z.frames == y.frames + [f]
                  && z.stream.terminalControl == (y.stream.terminalControl || (f.TextFrame? && f.message.TerminalControl?)))
  {
    if e.Read? && y.reader == Ready {
      var z := Step(y, e);
      if e.frame.TextFrame? {
        SectionEffect(y.stream, e.frame.payload, e.frame.message);
      }
      hide TextSection;
      assert z.frames == y.frames + [e.frame];
    } else if e.Finish? || e.Ack? {
      TerminalWriter(y, e);
    }
  }

  lemma TerminalWriter(y: System, e: Event)
    requires e.Finish? || e.Ack?
    ensures Step(y, e).frames == y.frames && Step(y, e).stream.terminalControl == y.stream.terminalControl
  {
    hide FindBoundary, SumBytes;
  }
}
