/** Flow control over every run: the window ledger is exactly the cumulative
    acknowledgement of what was sent, turns are announced once and cover every
    sent byte, and a stream waits only for an acknowledgement it announced. */
module QueueLedger {
  import opened Bytes
  import opened QueueStream
  import opened QueueRuns
  import opened QueueOrder
  import opened QueueBounds
  import opened QueueDelivery

  // ---- the ledger as a partition of the sent entries --------------------------

  /** The boundaries cut the sent entries after the first `from` into turns. */
  ghost predicate Partition(bs: seq<Boundary>, from: nat, sent: seq<Outbound>)
  {
    bs == [] ||
    (&& from < bs[0].sequence <= |sent|
     && bs[0].bytes == SumCost(sent[from..bs[0].sequence])
     && bs[0].cursor == sent[bs[0].sequence - 1].endCursor
     && Partition(bs[1..], bs[0].sequence, sent))
  }

  /** The number of entries covered by the boundaries. */
  function Covered(bs: seq<Boundary>, from: nat): nat
  {
    if bs == [] then from else bs[|bs| - 1].sequence
  }

  ghost predicate Ledger(w: Window, sent: seq<Outbound>)
  {
    && w.ackSequence <= |sent|
    && w.ackCursor == (if w.ackSequence == 0 then 0 else sent[w.ackSequence - 1].endCursor)
    && Partition(w.boundaries, w.ackSequence, sent)
    && Covered(w.boundaries, w.ackSequence) <= |sent|
    && w.inFlight == SumCost(sent[w.ackSequence..])
    && w.currentTurnBytes == SumCost(sent[Covered(w.boundaries, w.ackSequence)..])
  }

  lemma {:induction false} PartitionGrows(bs: seq<Boundary>, from: nat, sent: seq<Outbound>, e: Outbound)
    requires Partition(bs, from, sent)
    ensures Partition(bs, from, sent + [e])
    decreases |bs|
  {
    if bs != [] {
      PartitionGrows(bs[1..], bs[0].sequence, sent, e);
      assert (sent + [e])[from..bs[0].sequence] == sent[from..bs[0].sequence];
    }
  }

  lemma {:induction false} PartitionCovered(bs: seq<Boundary>, from: nat, sent: seq<Outbound>)
    requires Partition(bs, from, sent) && from <= |sent|
    ensures from <= Covered(bs, from) <= |sent|
    ensures bs != [] ==> from < Covered(bs, from) && bs[|bs| - 1].cursor == sent[Covered(bs, from) - 1].endCursor
    decreases |bs|
  {
    if bs != [] {
      PartitionCovered(bs[1..], bs[0].sequence, sent);
      assert Covered(bs, from) == Covered(bs[1..], bs[0].sequence);
    }
  }

  lemma {:induction false} PartitionSnoc(bs: seq<Boundary>, from: nat, sent: seq<Outbound>, b: Boundary)
    requires Partition(bs, from, sent) && from <= |sent|
    requires Covered(bs, from) < b.sequence == |sent|
    requires b.bytes == SumCost(sent[Covered(bs, from)..]) && b.cursor == sent[|sent| - 1].endCursor
    ensures Partition(bs + [b], from, sent)
    decreases |bs|
  {
    if bs == [] {
      assert bs + [b] == [b];
      assert sent[from..|sent|] == sent[from..];
    } else {
      assert Covered(bs, from) == Covered(bs[1..], bs[0].sequence);
      PartitionSnoc(bs[1..], bs[0].sequence, sent, b);
      assert (bs + [b])[1..] == bs[1..] + [b];
    }
  }

  /** Crediting the first boundaries credits exactly the entries they cover. */
  lemma {:induction false} PartitionSplit(bs: seq<Boundary>, from: nat, sent: seq<Outbound>, index: nat)
    requires Partition(bs, from, sent) && from <= |sent| && index < |bs|
    ensures from < bs[index].sequence <= |sent|
    ensures bs[index].cursor == sent[bs[index].sequence - 1].endCursor
    ensures SumBytes(bs[..index + 1]) == SumCost(sent[from..bs[index].sequence])
    ensures Partition(bs[index + 1..], bs[index].sequence, sent)
    ensures Covered(bs[index + 1..], bs[index].sequence) == Covered(bs, from)
    decreases |bs|
  {
    if index == 0 {
      assert bs[..1] == [bs[0]];
      assert SumBytes([bs[0]]) == bs[0].bytes + SumBytes([]);
    } else {
      var mid := bs[0].sequence;
      PartitionSplit(bs[1..], mid, sent, index - 1);
      assert bs[1..][..index] == bs[..index + 1][1..];
      assert bs[1..][index..] == bs[index + 1..];
      assert Covered(bs[1..], mid) == Covered(bs, from);
      SumCostSplit(sent, from, mid, bs[index].sequence);
    }
  }

  lemma SumCostSplit(sent: seq<Outbound>, i: nat, j: nat, k: nat)
    requires i <= j <= k <= |sent|
    ensures SumCost(sent[i..k]) == SumCost(sent[i..j]) + SumCost(sent[j..k])
  {
    assert sent[i..k] == sent[i..j] + sent[j..k];
    SumCostAppend(sent[i..j], sent[j..k]);
  }

  lemma SumCostGrows(sent: seq<Outbound>, i: nat, e: Outbound)
    requires i <= |sent|
    ensures SumCost((sent + [e])[i..]) == SumCost(sent[i..]) + e.byteCost
  {
    assert (sent + [e])[i..] == sent[i..] + [e];
    SumCostAppend(sent[i..], [e]);
    assert SumCost([e]) == e.byteCost + SumCost([]);
  }

  // ---- the three ways a window changes ----------------------------------------

  lemma LedgerPop(w: Window, sent: seq<Outbound>, e: Outbound)
    requires Ledger(w, sent)
    ensures Ledger(w.(inFlight := w.inFlight + e.byteCost, currentTurnBytes := w.currentTurnBytes + e.byteCost),
                   sent + [e])
  {
    PartitionGrows(w.boundaries, w.ackSequence, sent, e);
    SumCostGrows(sent, w.ackSequence, e);
    SumCostGrows(sent, Covered(w.boundaries, w.ackSequence), e);
    hide Partition, SumCost;
    assert w.ackSequence > 0 ==> (sent + [e])[w.ackSequence - 1] == sent[w.ackSequence - 1];
  }

  lemma LedgerFinish(w: Window, sent: seq<Outbound>, cursor: nat)
    requires Ledger(w, sent) && Covered(w.boundaries, w.ackSequence) < |sent|
    requires cursor == sent[|sent| - 1].endCursor
    ensures Ledger(w.(boundaries := w.boundaries + [Boundary(cursor, |sent|, w.currentTurnBytes)], currentTurnBytes := 0), sent)
  {
    PartitionSnoc(w.boundaries, w.ackSequence, sent, Boundary(cursor, |sent|, w.currentTurnBytes));
    assert sent[|sent|..] == [];
  }

  /** The acknowledgement repeats the last one or names a pending boundary. */
  predicate Names(w: Window, cursor: nat, sequence: nat)
  {
    || (sequence == w.ackSequence && cursor == w.ackCursor)
    || exists i :: 0 <= i < |w.boundaries| && w.boundaries[i].cursor == cursor && w.boundaries[i].sequence == sequence
  }

  /** `v` is `w` after crediting the entries sent up to `sequence`. */
  ghost predicate Credited(w: Window, v: Window, sent: seq<Outbound>, cursor: nat, sequence: nat)
  {
    && v.ackSequence == sequence && v.ackCursor == cursor
    && w.ackSequence <= sequence <= |sent|
    && v.inFlight == w.inFlight - SumCost(sent[w.ackSequence..sequence])
    && v.currentTurnBytes == w.currentTurnBytes
    && |v.boundaries| <= |w.boundaries|
    && Covered(v.boundaries, v.ackSequence) == Covered(w.boundaries, w.ackSequence)
  }

  /** An acknowledgement succeeds exactly when it repeats the last one or names a
      pending boundary. */
  lemma AckNames(s: Stream, cursor: nat, sequence: nat)
    ensures AckWindowSection(s, cursor, sequence).1 <==> Names(s.window, cursor, sequence)
  {
    hide SumBytes;
  }

  /** Under each protocol, exactly when an acknowledgement is accepted, and that one which
      is not changes nothing. */
  lemma AckExactly(s: Stream, ack: Option<(nat, nat)>)
    ensures var (t, ok) := AckSection(s, ack);
            && (ok <==> ack.Some? && (|| (s.sub.flow == TurnAck && s.awaitingTurnAck && ack.value == (s.turnAckCursor, s.turnAckSequence))
                                      || (s.sub.flow == WindowAck && Names(s.window, ack.value.0, ack.value.1))))
            && (!ok ==> t == s)
            && (ok && s.sub.flow == TurnAck ==> t == s.(awaitingTurnAck := false, turnAckCursor := 0, turnAckSequence := 0))
            && (s.sub.flow == WindowAck ==> t == s.(window := t.window))
  {
    hide SumBytes, Names;
    if ack.Some? && s.sub.flow == WindowAck {
      AckNames(s, ack.value.0, ack.value.1);
    }
  }

  /** A successful acknowledgement credits precisely the entries up to the one it
      names; a rejected one changes nothing. */
  lemma LedgerAck(s: Stream, sent: seq<Outbound>, cursor: nat, sequence: nat)
    requires Ledger(s.window, sent)
    ensures Ledger(AckWindowSection(s, cursor, sequence).0.window, sent)
    ensures AckWindowSection(s, cursor, sequence).1 ==> Credited(s.window, AckWindowSection(s, cursor, sequence).0.window, sent, cursor, sequence)
    ensures !AckWindowSection(s, cursor, sequence).1 ==> AckWindowSection(s, cursor, sequence).0 == s
  {
    var w := s.window;
    if sequence == w.ackSequence && cursor == w.ackCursor {
      assert sent[w.ackSequence..sequence] == [];
    } else {
      match FindBoundary(w.boundaries, cursor, sequence)
      case None =>
      case Some(index) =>
        PartitionSplit(w.boundaries, w.ackSequence, sent, index);
        SumCostSplit(sent, w.ackSequence, sequence, |sent|);
        assert sent[w.ackSequence..|sent|] == sent[w.ackSequence..];
        assert sent[sequence..|sent|] == sent[sequence..];
    }
  }

  // ---- the invariant of every run ----------------------------------------------

  /** The number of sent entries covered by announced turn boundaries. */
  function MarkedUpTo(announced: seq<(nat, nat)>): nat
  {
    if announced == [] then 0 else announced[|announced| - 1].1
  }

  /** (cursor, sequence) is the end of what was sent, or nothing is unmarked. */
  predicate Pending(cursor: nat, sequence: nat, marked: nat, sent: seq<Outbound>)
  {
    || (sequence == 0 && marked == |sent|)
    || (marked < sequence == |sent| && cursor == sent[|sent| - 1].endCursor)
  }

  predicate AnnouncedOk(announced: seq<(nat, nat)>, sent: seq<Outbound>)
  {
    && (forall i :: 0 <= i < |announced| ==>
                      0 < announced[i].1 <= |sent| && announced[i].0 == sent[announced[i].1 - 1].endCursor)
    && (forall i, j :: 0 <= i < j < |announced| ==> announced[i].1 < announced[j].1)
  }

  predicate WriterPending(w: Writer, s: Stream, marked: nat, sent: seq<Outbound>)
  {
    match w
    case Idle =>
      Pending(s.pendingTurnCursor, s.pendingTurnSequence, marked, sent) && (marked < |sent| ==> s.burstActive)
    case InTurn(_, _, _, cursor, sequence) =>
      if sequence != 0 then Pending(cursor, sequence, marked, sent)
      else Pending(s.pendingTurnCursor, s.pendingTurnSequence, marked, sent)
    case Finishing(cursor, sequence) =>
      if sequence != 0 then Pending(cursor, sequence, marked, sent)
      else Pending(s.pendingTurnCursor, s.pendingTurnSequence, marked, sent)
  }

  /** Between turns every sent entry is announced, except inside a burst; an
      unacknowledged turn of the turn protocol is the last one, and stops the writer. */
  ghost predicate TurnOk(y: System, sent: seq<Outbound>)
  {
    var s := y.stream;
    var marked := MarkedUpTo(y.announced);
    && marked <= |sent|
    && AnnouncedOk(y.announced, sent)
    && WriterPending(y.writer, s, marked, sent)
    && (s.awaitingTurnAck ==>
          && y.writer == Idle && s.sub.flow == TurnAck && 0 < marked == |sent| && s.turnAckSequence == marked
          && s.turnAckCursor == sent[marked - 1].endCursor)
  }

  ghost predicate FlowInv(y: System)
  {
    var sent := Bins(y.popped);
    && (y.stream.sub.flow == WindowAck && !y.stream.overloaded ==> Ledger(y.stream.window, sent))
    && (y.stream.sub.flow != WindowAck || y.stream.overloaded ==> y.stream.window == EMPTY_WINDOW)
    && (Serving(y.stream) ==>
          && TurnOk(y, sent)
          && (y.stream.sub.flow == WindowAck ==>
                Covered(y.stream.window.boundaries, y.stream.window.ackSequence) == MarkedUpTo(y.announced)))
  }

  /** The flow-control fields, which only the writer, acknowledgements and an
      overload touch. */
  predicate SameFlow(s: Stream, t: Stream)
  {
    && s.sub == t.sub && s.window == t.window && s.burstActive == t.burstActive
    && s.pendingTurnCursor == t.pendingTurnCursor && s.pendingTurnSequence == t.pendingTurnSequence
    && s.awaitingTurnAck == t.awaitingTurnAck && s.turnAckCursor == t.turnAckCursor
    && s.turnAckSequence == t.turnAckSequence
  }

  predicate QueueSide(y: System, e: Event)
  {
    e.OpenGate? || e.Read? || (e.ReaderStep? && !y.reader.Overloading?) || e.Control? || e.Deactivate?
  }

  lemma QueueSideStep(y: System, e: Event)
    requires QueueSide(y, e)
    ensures var z := Step(y, e);
            && SameFlow(y.stream, z.stream) && z.popped == y.popped && z.announced == y.announced && z.writer == y.writer
            && z.stream.overloaded == y.stream.overloaded && (z.stream.active ==> y.stream.active)
  {
    if e.Read? && e.frame.TextFrame? {
      TextAgrees(y.stream, 0, e.frame.payload, e.frame.message);
      hide TextSection, LabelFrame;
    }
  }

  lemma FlowQueueSide(y: System, e: Event)
    requires FlowInv(y) && QueueSide(y, e)
    ensures FlowInv(Step(y, e))
  {
    QueueSideStep(y, e);
    hide Step, Bins, Ledger, Covered, AnnouncedOk, Pending, MarkedUpTo;
  }

  lemma FlowOverload(y: System, z: System, reason: OverloadReason)
    requires FlowInv(y)
    requires z.stream == OverloadSection(y.stream, reason)
    requires z.popped == y.popped && z.announced == y.announced && z.writer == y.writer
    ensures FlowInv(z)
  {
    hide Bins, Ledger, Covered, AnnouncedOk, Pending, MarkedUpTo;
  }

  lemma BinsSnoc(entries: seq<Outbound>, e: Outbound)
    ensures Bins(entries + [e]) == if e.messageType == Binary then Bins(entries) + [e] else Bins(entries)
  {
    BinsAppend(entries, [e]);
    assert [e][1..] == [];
    assert Bins(entries) + [] == Bins(entries);
  }

  lemma AnnouncedGrows(announced: seq<(nat, nat)>, sent: seq<Outbound>, e: Outbound)
    requires AnnouncedOk(announced, sent)
    ensures AnnouncedOk(announced, sent + [e])
  {
    forall i | 0 <= i < |announced|
      ensures announced[i].0 == (sent + [e])[announced[i].1 - 1].endCursor
    {
      assert (sent + [e])[announced[i].1 - 1] == sent[announced[i].1 - 1];
    }
  }

  lemma TurnPop(y: System, e: Outbound)
    requires Serving(y.stream) && TurnOk(y, Bins(y.popped)) && y.writer.InTurn?
    requires CanPop(y.stream, y.writer.target, y.writer.written) && e == y.stream.buffer[0]
    requires e.messageType == Binary ==> e.binarySequence == |Bins(y.popped)| + 1
    ensures TurnOk(PopStep(y), Bins(PopStep(y).popped))
  {
    BinsSnoc(y.popped, e);
    if e.messageType == Binary {
      AnnouncedGrows(y.announced, Bins(y.popped), e);
    }
    hide Bins, AnnouncedOk, CanPop;
  }

  lemma WindowPop(s: Stream, sent: seq<Outbound>)
    requires s.buffer != []
    requires s.sub.flow == WindowAck && !s.overloaded ==> Ledger(s.window, sent)
    ensures var t, e := PopSection(s), s.buffer[0];
            && (s.sub.flow == WindowAck && !s.overloaded ==>
                  Ledger(t.window, if e.messageType == Binary then sent + [e] else sent))
            && (s.sub.flow != WindowAck || e.messageType == Text ==> t.window == s.window)
            && t.window.boundaries == s.window.boundaries && t.window.ackSequence == s.window.ackSequence
  {
    if s.sub.flow == WindowAck && !s.overloaded && s.buffer[0].messageType == Binary {
      LedgerPop(s.window, sent, s.buffer[0]);
    }
    hide Ledger;
  }

  lemma FlowPop(y: System)
    requires FlowInv(y) && y.writer.InTurn? && BoundInv(y) && NumberedFrom(Bins(PopStep(y).popped), 0)
    ensures FlowInv(PopStep(y))
  {
    hide Ledger, Bins, Increasing, SumCost;
    if CanPop(y.stream, y.writer.target, y.writer.written) {
      var e := y.stream.buffer[0];
      var sent := Bins(y.popped);
      BinsSnoc(y.popped, e);
      assert e.messageType == Binary ==> (sent + [e])[|sent|] == e;
      WindowPop(y.stream, sent);
      if Serving(y.stream) {
        TurnPop(y, e);
      }
      hide TurnOk, NumberedFrom, CanPop, MarkedUpTo, EntryOk;
      assert !Marked(e) ==> e.messageType == Text;
    } else {
      hide MarkedUpTo, AnnouncedOk, Pending;
    }
  }

  lemma AnnounceOne(announced: seq<(nat, nat)>, sent: seq<Outbound>, cursor: nat)
    requires AnnouncedOk(announced, sent) && MarkedUpTo(announced) < |sent| && cursor == sent[|sent| - 1].endCursor
    ensures AnnouncedOk(announced + [(cursor, |sent|)], sent)
    ensures MarkedUpTo(announced + [(cursor, |sent|)]) == |sent|
  {
    var more := announced + [(cursor, |sent|)];
    forall i, j | 0 <= i < j < |more| ensures more[i].1 < more[j].1 {
      if j == |announced| {
        assert announced[|announced| - 1].1 < |sent|;
      }
    }
  }

  /** The boundary that ends the writer's turn, (_, 0) when there is none. */
  function TurnEnd(s: Stream, w: Writer): (nat, nat)
    requires w.Finishing?
  {
    if w.sequence != 0 then (w.cursor, w.sequence) else (s.pendingTurnCursor, s.pendingTurnSequence)
  }

  lemma FlowFinish(y: System)
    requires FlowInv(y) && y.writer.Finishing?
    ensures FlowInv(Next(y, Finish))
  {
    hide Bins, Ledger, AnnouncedOk, MarkedUpTo, Covered;
    var sent := Bins(y.popped);
    if Serving(y.stream) {
      var (c, q) := TurnEnd(y.stream, y.writer);
      if !y.stream.burstActive && q != 0 {
        AnnounceOne(y.announced, sent, c);
        if y.stream.sub.flow == WindowAck {
          LedgerFinish(y.stream.window, sent, c);
          CoveredSnoc(y.stream.window.boundaries, y.stream.window.ackSequence, Boundary(c, q, y.stream.window.currentTurnBytes));
        }
      }
    }
  }

  lemma CoveredSnoc(bs: seq<Boundary>, from: nat, b: Boundary)
    ensures Covered(bs + [b], from) == b.sequence
  {}

  lemma FlowAck(y: System, ack: Option<(nat, nat)>)
    requires FlowInv(y)
    ensures FlowInv(Next(y, Ack(ack)))
  {
    var sent := Bins(y.popped);
    AckKeepsQueue(y.stream, ack);
    hide Bins, Ledger, Covered, AnnouncedOk, MarkedUpTo, AckWindowSection;
    if ack.Some? && UsesWindow(y.stream) {
      AckWindowOnly(y.stream, ack.value.0, ack.value.1);
      if !y.stream.overloaded {
        LedgerAck(y.stream, sent, ack.value.0, ack.value.1);
      }
    }
  }

  /** The window protocol's acknowledgements touch the window alone. */
  lemma AckWindowOnly(s: Stream, cursor: nat, sequence: nat)
    ensures var t := AckWindowSection(s, cursor, sequence).0;
            t == s.(window := t.window) && (s.window == EMPTY_WINDOW ==> t.window == EMPTY_WINDOW)
  {
    hide SumBytes;
  }

  lemma FlowStep(y: System, e: Event)
    requires FlowInv(y) && BoundInv(y) && OrderInv(y)
    ensures FlowInv(Step(y, e))
  {
    if Enabled(y, e) {
      if QueueSide(y, e) {
        FlowQueueSide(y, e);
      } else {
        match e
        case ReaderStep => FlowOverload(y, Next(y, e), y.reader.reason);
        case ControlOverload => FlowOverload(y, Next(y, e), BufferFull);
        case Pop =>
          OrderPop(y);
          SentNumbered(PopStep(y));
          FlowPop(y);
        case Finish => FlowFinish(y);
        case Ack(ack) => FlowAck(y, ack);
        case StartTurn => FlowTurnStart(y);
        case TimeUp => FlowTurnStart(y);
      }
    }
  }

  lemma FlowTurnStart(y: System)
    requires FlowInv(y)
    ensures Enabled(y, StartTurn) ==> FlowInv(Next(y, StartTurn))
    ensures Enabled(y, TimeUp) ==> FlowInv(Next(y, TimeUp))
  {
    hide Bins, Ledger, Covered, AnnouncedOk, MarkedUpTo;
  }

  lemma SentNumbered(y: System)
    requires OrderInv(y)
    ensures NumberedFrom(Bins(y.popped), 0)
  {
    SentIsPrefix(y);
    LabelsMatch(y.stream.sub, y.frames);
    hide Labels, Bins, Proj;
    NumberedPrefix(Bins(Proj(y.popped)), Bins(Labels(y.stream.sub, y.frames).1));
  }

  lemma {:induction false} FlowRun(sub: Subscription, errors: ErrorControls, events: seq<Event>)
    requires ErrorsFit(errors)
    ensures FlowInv(Exec(Start(sub, errors), events))
  {
    if events != [] {
      var before := events[..|events| - 1];
      FlowRun(sub, errors, before);
      BoundRun(sub, errors, before);
      OrderRun(sub, errors, before);
      hide FlowInv, BoundInv, OrderInv;
      FlowStep(Exec(Start(sub, errors), before), events[|events| - 1]);
    }
  }

  // ---- what follows for every reachable state --------------------------------

  lemma {:induction false} PartitionTotal(bs: seq<Boundary>, from: nat, sent: seq<Outbound>)
    requires Partition(bs, from, sent) && from <= |sent|
    ensures from <= Covered(bs, from) <= |sent|
    ensures SumBytes(bs) == SumCost(sent[from..Covered(bs, from)])
    decreases |bs|
  {
    if bs == [] {
      assert sent[from..from] == [];
    } else {
      PartitionTotal(bs[1..], bs[0].sequence, sent);
      assert Covered(bs, from) == Covered(bs[1..], bs[0].sequence);
      SumCostSplit(sent, from, bs[0].sequence, Covered(bs, from));
    }
  }

  /** Window credit is conserved: what is in flight is at once the bytes sent and
      not yet acknowledged, and the current turn plus the pending boundaries. It
      never leaks: between turns and outside a burst nothing is left unannounced. */
  lemma CreditConserved(sub: Subscription, errors: ErrorControls, events: seq<Event>)
    requires ErrorsFit(errors)
    ensures var y := Exec(Start(sub, errors), events);
            var w, sent := y.stream.window, Bins(y.popped);
            && w.inFlight == w.currentTurnBytes + SumBytes(w.boundaries)
            && (y.stream.sub.flow == WindowAck && !y.stream.overloaded ==>
                  w.ackSequence <= |sent| && w.inFlight == SumCost(sent[w.ackSequence..]))
            && (Serving(y.stream) && y.writer == Idle && !y.stream.burstActive ==>
                  w.currentTurnBytes == 0 && y.stream.pendingTurnSequence == 0 && MarkedUpTo(y.announced) == |sent|)
  {
    var y := Exec(Start(sub, errors), events);
    FlowRun(sub, errors, events);
    LedgerTotals(y);
  }

  lemma LedgerTotals(y: System)
    requires FlowInv(y)
    ensures var w, sent := y.stream.window, Bins(y.popped);
            && w.inFlight == w.currentTurnBytes + SumBytes(w.boundaries)
            && (Serving(y.stream) && y.writer == Idle && !y.stream.burstActive ==>
                  w.currentTurnBytes == 0 && y.stream.pendingTurnSequence == 0 && MarkedUpTo(y.announced) == |sent|)
  {
    hide Bins, Partition, AnnouncedOk;
    var w, sent := y.stream.window, Bins(y.popped);
    if y.stream.sub.flow == WindowAck && !y.stream.overloaded {
      PartitionTotal(w.boundaries, w.ackSequence, sent);
      var covered := Covered(w.boundaries, w.ackSequence);
      SumCostSplit(sent, w.ackSequence, covered, |sent|);
      assert sent[w.ackSequence..|sent|] == sent[w.ackSequence..] && sent[covered..|sent|] == sent[covered..];
      assert covered == |sent| ==> sent[covered..] == [];
    }
  }
}
