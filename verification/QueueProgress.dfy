/** A stream never stalls: whatever it waits for was announced to the client,
    and acknowledging it lets the writer send again. */
module QueueProgress {
  import opened Bytes
  import opened QueueStream
  import opened QueueRuns
  import opened QueueOrder
  import opened QueueBounds
  import opened QueueDelivery
  import opened QueueLedger

  ghost predicate Reachable(y: System)
  {
    exists sub, errors, events :: ErrorsFit(errors) && y == Exec(Start(sub, errors), events)
  }

  lemma ReachableInv(y: System)
    requires Reachable(y)
    ensures OrderInv(y) && BoundInv(y) && FlowInv(y)
  {
    var sub, errors, events :| ErrorsFit(errors) && y == Exec(Start(sub, errors), events);
    OrderRun(sub, errors, events);
    BoundRun(sub, errors, events);
    FlowRun(sub, errors, events);
  }

  /** The last boundary announced to the client. */
  function LastAnnounced(y: System): Option<(nat, nat)>
  {
    if y.announced == [] then None else Some(y.announced[|y.announced| - 1])
  }

  /** With every announced turn acknowledged, a stream that has something to send
      is ready to send it. */
  lemma NoStall(y: System)
    requires Reachable(y) && Serving(y.stream) && y.writer == Idle && y.stream.buffer != []
    requires !y.stream.awaitingTurnAck && y.stream.window.boundaries == []
    ensures Enabled(y, StartTurn)
  {
    ReachableInv(y);
    LedgerTotals(y);
    assert EntryOk(y.stream.buffer[0]);
    hide OrderInv, FlowInv, Bins;
    assert SumBytes([]) == 0;
    var last := |y.stream.buffer| - 1;
    assert y.stream.buffer[last].sequence > 0;
  }

  /** A serving stream that is idle but not ready waits for exactly one thing,
      and an acknowledgement of the last boundary announced provides it. */
  lemma AckUnblocks(y: System)
    requires Reachable(y) && Serving(y.stream) && y.writer == Idle && y.stream.buffer != []
    requires !Enabled(y, StartTurn)
    ensures LastAnnounced(y).Some?
    ensures AckSection(y.stream, LastAnnounced(y)).1
    ensures Enabled(Step(y, Ack(LastAnnounced(y))), StartTurn)
  {
    hide OrderInv, BoundInv, FlowInv, SumBytes, FindBoundary, AckSection, Reachable, TargetSection;
    ReachableInv(y);
    if y.stream.window.boundaries == [] && !y.stream.awaitingTurnAck {
      NoStall(y);
    }
    LastBoundary(y);
    var ack := LastAnnounced(y);
    AckKeepsQueue(y.stream, ack);
    ReachableStep(y, Ack(ack));
    NoStall(Step(y, Ack(ack)));
  }

  lemma ReachableStep(y: System, e: Event)
    requires Reachable(y)
    ensures Reachable(Step(y, e))
  {
    var sub, errors, events :| ErrorsFit(errors) && y == Exec(Start(sub, errors), events);
    assert (events + [e])[..|events + [e]| - 1] == events;
    assert Exec(Start(sub, errors), events + [e]) == Step(y, e);
  }

  /** What the stream waits for is what it announced last. */
  lemma LastBoundary(y: System)
    requires FlowInv(y) && Serving(y.stream)
    requires y.stream.window.boundaries != [] || y.stream.awaitingTurnAck
    ensures LastAnnounced(y).Some?
    ensures AckSection(y.stream, LastAnnounced(y)).1
    ensures AckSection(y.stream, LastAnnounced(y)).0.window.boundaries == []
    ensures !AckSection(y.stream, LastAnnounced(y)).0.awaitingTurnAck
  {
    var sent := Bins(y.popped);
    hide Bins;
    var w := y.stream.window;
    if w.boundaries != [] {
      var last := |w.boundaries| - 1;
      PartitionCovered(w.boundaries, w.ackSequence, sent);
      var (c, q) := y.announced[|y.announced| - 1];
      assert w.boundaries[last].sequence == q && w.boundaries[last].cursor == c;
      OnlyLast(w.boundaries, w.ackSequence, sent, last);
      FindBoundaryIsFirst(w.boundaries, c, q, last);
    }
  }

  /** Boundaries increase strictly, so a sequence names at most one of them. */
  lemma {:induction false} OnlyLast(bs: seq<Boundary>, from: nat, sent: seq<Outbound>, last: nat)
    requires Partition(bs, from, sent) && last == |bs| - 1
    ensures forall i :: 0 <= i < last ==> from < bs[i].sequence < bs[last].sequence
    ensures from < bs[last].sequence
    decreases |bs|
  {
    if last > 0 {
      OnlyLast(bs[1..], bs[0].sequence, sent, last - 1);
      assert bs[1..][last - 1] == bs[last];
      forall i | 0 <= i < last ensures from < bs[i].sequence < bs[last].sequence {
        if i > 0 {
          assert bs[1..][i - 1] == bs[i];
        }
      }
    }
  }

  /** Under the turn protocol nothing at all is sent while a turn is
      unacknowledged, and only acknowledging its exact end clears it. */
  lemma TurnAckBlocks(y: System, e: Event)
    requires Reachable(y) && Serving(y.stream) && y.stream.awaitingTurnAck
    ensures |Bins(y.popped)| > 0
    ensures Step(y, e).popped == y.popped && Step(y, e).announced == y.announced
    ensures e.Ack? ==>
              (AckSection(y.stream, e.ack).1 <==>
               e.ack == Some((Bins(y.popped)[|Bins(y.popped)| - 1].endCursor, |Bins(y.popped)|)))
  {
    ReachableInv(y);
    hide Bins, OrderInv, BoundInv;
  }

  /** Exactly when a stream that serves, between turns, with something buffered, is ready:
      under the turn protocol unless a turn is unacknowledged; under the window protocol
      if a burst is open, a text comes next, or fewer than 256 turns and, with the next
      entry, at most 1 MiB are sent and not acknowledged; otherwise always. */
  lemma ReadyExactly(y: System)
    requires Reachable(y) && Serving(y.stream) && y.writer == Idle && y.stream.buffer != []
    ensures var s, sent, next := y.stream, Bins(y.popped), y.stream.buffer[0];
            && (s.sub.flow == WindowAck ==> s.window.ackSequence <= |sent|)
            && (Enabled(y, StartTurn) <==>
                  && (s.sub.flow == TurnAck ==> !s.awaitingTurnAck)
                  && (s.sub.flow == WindowAck && !s.burstActive && next.messageType == Binary ==>
                        && |s.window.boundaries| < 256
                        && SumCost(sent[s.window.ackSequence..]) + |next.payload| <= 1024 * 1024))
  {
    ReachableInv(y);
    assert EntryOk(y.stream.buffer[0]);
    hide OrderInv, Bins, SumCost, Partition, AnnouncedOk;
    var last := |y.stream.buffer| - 1;
    assert y.stream.buffer[last].sequence > 0;
  }

  /** The gate holds the reader back exactly while 3 MiB or more are buffered. */
  lemma GateExactly(y: System)
    requires Reachable(y) && Serving(y.stream) && y.reader == Gate
    ensures Enabled(y, OpenGate) <==> SumCost(y.stream.buffer) < 3 * 1024 * 1024
  {
    ReachableInv(y);
    hide OrderInv, FlowInv, SumCost;
  }

  /** Under the turn protocol a stream waits exactly from announcing a turn to the
      acknowledgement that names its end. */
  lemma TurnAckAwaits(y: System, e: Event)
    requires Reachable(y) && y.stream.sub.flow == TurnAck && Serving(y.stream) && Serving(Step(y, e).stream)
    ensures var z := Step(y, e);
            z.stream.awaitingTurnAck <==>
              (z.announced != y.announced || (y.stream.awaitingTurnAck && !(e.Ack? && e.ack == LastAnnounced(y))))
  {
    hide OrderInv, BoundInv, FlowInv, Reachable;
    ReachableInv(y);
    if y.stream.awaitingTurnAck {
      AwaitedIsLast(y);
    }
    if QueueSide(y, e) {
      QueueSideStep(y, e);
      hide Step;
    } else if e.Ack? {
      hide AckWindowSection, LastAnnounced;
    } else if e.Finish? && y.writer.Finishing? {
      FinishAwaits(y);
    } else {
      hide EnqueueSection, OverloadSection, TextSection, BinarySection, FinishSection, AckSection, CanPop, TargetSection;
    }
  }

  lemma FinishAwaits(y: System)
    requires y.stream.sub.flow == TurnAck && Serving(y.stream) && y.writer.Finishing? && !y.stream.awaitingTurnAck
    ensures var z := Next(y, Finish);
            z.stream.awaitingTurnAck <==> z.announced != y.announced
  {}

  lemma AwaitedIsLast(y: System)
    requires FlowInv(y) && Serving(y.stream) && y.stream.awaitingTurnAck
    ensures y.writer == Idle && LastAnnounced(y) == Some((y.stream.turnAckCursor, y.stream.turnAckSequence))
  {
    hide Bins, Ledger;
  }

  // ---- a turn that starts sends something ------------------------------------

  /** The writer is about to pop the first entry of its turn, and it can. */
  predicate FreshTurn(y: System)
  {
    y.writer.InTurn? && y.writer.count == 0 && y.writer.written == 0 && CanPop(y.stream, y.writer.target, 0)
  }

  lemma FreshStart(y: System)
    requires Reachable(y) && Enabled(y, StartTurn)
    ensures FreshTurn(Step(y, StartTurn))
  {
    ReachableInv(y);
    hide OrderInv, FlowInv;
    var last := |y.stream.buffer| - 1;
    assert y.stream.buffer[0].sequence <= y.stream.buffer[last].sequence;
  }

  lemma FreshStays(y: System, e: Event)
    requires Reachable(y) && FreshTurn(y) && !e.Pop?
    requires Step(y, e).stream.active && Step(y, e).stream.overloaded == y.stream.overloaded
    ensures FreshTurn(Step(y, e))
  {
    ReachableInv(y);
    if QueueSide(y, e) {
      QueueSideStep(y, e);
      FreshQueueSide(y, e);
    } else if e.Ack? {
      AckKeepsQueue(y.stream, e.ack);
      AckFrees(y, e.ack);
      hide AckSection;
    } else {
      hide OrderInv, BoundInv, FlowInv;
    }
  }

  lemma FreshQueueSide(y: System, e: Event)
    requires FreshTurn(y) && QueueSide(y, e) && Step(y, e).stream.active
    requires SameFlow(y.stream, Step(y, e).stream)
    ensures FreshTurn(Step(y, e))
  {
    hide SameFlow, CanPop, Step;
    HasHead(y.stream, y.writer.target);
    QueueSideStep(y, e);
    HeadStays(y, e);
    HeadPops(y.stream, Step(y, e).stream, y.writer.target);
  }

  lemma HasHead(s: Stream, target: nat)
    requires CanPop(s, target, 0)
    ensures s.active && s.buffer != []
  {}

  /** What the reader and the control thread do leaves the head in its place. */
  lemma HeadStays(y: System, e: Event)
    requires y.stream.active && y.stream.buffer != [] && QueueSide(y, e) && Step(y, e).stream.active
    ensures Step(y, e).stream.buffer != [] && Step(y, e).stream.buffer[0] == y.stream.buffer[0]
  {
    hide EnqueueSection, TextSection, BinarySection, NumberSection, LabelFrame, Pieces;
    match e
    case Read(frame) => ReadHead(y, frame);
    case ReaderStep => ReaderHead(y);
    case Control(payload) => EnqueueHead(y.stream, TextEntry(payload, false, false));
    case _ =>
  }

  lemma ReadHead(y: System, frame: Frame)
    ensures ReadStep(y, frame).stream.buffer == y.stream.buffer
  {
    if frame.TextFrame? {
      TextAgrees(y.stream, 0, frame.payload, frame.message);
      hide TextSection, LabelFrame;
    }
  }

  lemma ReaderHead(y: System)
    requires y.stream.buffer != [] && !y.reader.Overloading?
    ensures ReaderNext(y).stream.buffer != [] && ReaderNext(y).stream.buffer[0] == y.stream.buffer[0]
  {
    hide EnqueueSection, BinaryEntry;
    match y.reader
    case Enqueuing(entry) => EnqueueHead(y.stream, entry);
    case Numbered(payload, start, offset, sequence) =>
      EnqueueHead(y.stream, BinaryEntry(payload[offset..ChunkEnd(payload, offset)], start + offset, sequence));
    case _ =>
  }

  lemma EnqueueHead(s: Stream, entry: Outbound)
    requires s.buffer != []
    ensures EnqueueSection(s, entry).0.buffer != [] && EnqueueSection(s, entry).0.buffer[0] == s.buffer[0]
  {}

  lemma HeadPops(s: Stream, t: Stream, target: nat)
    requires CanPop(s, target, 0) && SameFlow(s, t) && t.active && t.buffer != [] && t.buffer[0] == s.buffer[0]
    ensures CanPop(t, target, 0)
  {}

  /** Acknowledgements only widen the window. */
  lemma AckFrees(y: System, ack: Option<(nat, nat)>)
    requires FlowInv(y)
    ensures var t := AckSection(y.stream, ack).0;
            && t.window.inFlight <= y.stream.window.inFlight && |t.window.boundaries| <= |y.stream.window.boundaries|
            && t.burstActive == y.stream.burstActive
  {
    if ack.Some? && UsesWindow(y.stream) {
      AckWindowOnly(y.stream, ack.value.0, ack.value.1);
      if !y.stream.overloaded {
        LedgerAck(y.stream, Bins(y.popped), ack.value.0, ack.value.1);
      }
      hide AckWindowSection, Ledger, Bins;
    }
  }

  /** Whatever the other threads do between a turn's start and its first pop, the
      pop succeeds, unless the stream was overloaded or deactivated meanwhile. */
  lemma {:induction false} TurnSends(y: System, events: seq<Event>)
    requires Reachable(y) && Enabled(y, StartTurn)
    requires forall i :: 0 <= i < |events| ==> !events[i].Pop?
    ensures var z := Exec(Step(y, StartTurn), events);
            && Reachable(z)
            && (z.stream.active && z.stream.overloaded == y.stream.overloaded ==>
                  FreshTurn(z) && |Step(z, Pop).popped| == |z.popped| + 1)
  {
    ReachableStep(y, StartTurn);
    if events == [] {
      FreshStart(y);
    } else {
      var before, e := events[..|events| - 1], events[|events| - 1];
      TurnSends(y, before);
      var z := Exec(Step(y, StartTurn), before);
      ReachableStep(z, e);
      LifecycleMonotone(Step(y, StartTurn), before);
      LifeStep(z, e);
      var z' := Step(z, e);
      if z'.stream.active && z'.stream.overloaded == y.stream.overloaded {
        FreshStays(z, e);
      }
    }
  }

  /** Streams are never reactivated and never recover from an overload. */
  lemma {:induction false} LifecycleMonotone(y: System, events: seq<Event>)
    ensures Exec(y, events).stream.active ==> y.stream.active
    ensures y.stream.overloaded ==> Exec(y, events).stream.overloaded
  {
    if events != [] {
      LifecycleMonotone(y, events[..|events| - 1]);
      LifeStep(Exec(y, events[..|events| - 1]), events[|events| - 1]);
    }
  }
}
