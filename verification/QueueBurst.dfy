/** The window bounds when the agent opens one replay burst: bytes in flight and
    the number of unacknowledged turns stay bounded on every run. */
module QueueBurst {
  import opened Bytes
  import opened QueueStream
  import opened QueueRuns
  import opened QueueOrder
  import opened QueueBounds
  import opened QueueDelivery
  import opened QueueLedger

  /** The state of the burst after the given entries: open or not, and the bytes
      sent inside bursts so far. */
  datatype Burst = Burst(open: bool, bytes: nat)

  function NextBurst(b: Burst, e: Outbound): Burst
  {
    Burst(if e.burstFinish then false else if e.burstStart then true else b.open,
          if b.open && e.messageType == Binary then b.bytes + e.byteCost else b.bytes)
  }

  function BurstOf(entries: seq<Outbound>): Burst
  {
    if entries == [] then Burst(false, 0)
    else NextBurst(BurstOf(entries[..|entries| - 1]), entries[|entries| - 1])
  }

  /** At most one burst is opened, and before any output. */
  ghost predicate OneBurst(entries: seq<Outbound>)
  {
    forall i, j :: 0 <= j < i < |entries| && entries[i].burstStart ==>
                     entries[j].messageType != Binary && !entries[j].burstStart
  }

  lemma BurstSnoc(entries: seq<Outbound>, e: Outbound)
    ensures BurstOf(entries + [e]) == NextBurst(BurstOf(entries), e)
  {
    assert (entries + [e])[..|entries + [e]| - 1] == entries;
  }

  lemma {:induction false} BurstGrows(p: seq<Outbound>, s: seq<Outbound>)
    requires IsPrefix(p, s)
    ensures BurstOf(p).bytes <= BurstOf(s).bytes
    decreases |s|
  {
    if |p| < |s| {
      assert s[..|s| - 1][..|p|] == p;
      BurstGrows(p, s[..|s| - 1]);
    } else {
      assert p == s;
    }
  }

  /** The window against the entries sent: credit is within the larger of the
      window and the burst, and there is room for the turn in progress. */
  ghost predicate WindowBound(y: System)
  {
    var w, b := y.stream.window, BurstOf(y.popped);
    && y.stream.burstActive == b.open
    && w.inFlight <= Max(WINDOW_BYTES, b.bytes)
    && |w.boundaries| <= WINDOW_TURNS
    && (b.open ==> w.inFlight == b.bytes && w.boundaries == [] && w.ackSequence == 0)
    && (Unannounced(y) ==> |w.boundaries| < WINDOW_TURNS)
  }

  /** Some sent entry is not covered by an announced boundary yet. */
  predicate Unannounced(y: System)
  {
    MarkedUpTo(y.announced) < |Bins(y.popped)|
  }

  ghost predicate BurstInv(y: System)
  {
    y.stream.sub.flow == WindowAck && !y.stream.overloaded ==> WindowBound(y)
  }

  /** No output was sent before a burst opens. */
  lemma OpensFirst(y: System, e: Outbound)
    requires OrderInv(y) && y.stream.buffer != [] && e == y.stream.buffer[0] && e.burstStart
    requires OneBurst(Labels(y.stream.sub, y.frames).1)
    ensures Bins(y.popped) == [] && BurstOf(y.popped) == Burst(false, 0)
  {
    var all := Labels(y.stream.sub, y.frames).1;
    hide Labels;
    var rest := y.stream.buffer[1..];
    assert y.stream.buffer == [e] + rest;
    ProjAppend([e], rest);
    ProjOne(e);
    var sent := Proj(y.popped);
    var k := |sent|;
    assert (sent + Proj(y.stream.buffer))[k] == e.(sequence := 0);
    assert all[..|sent + Proj(y.stream.buffer)|][k] == all[k];
    forall j | 0 <= j < k ensures sent[j] == all[j] {
      assert all[..|sent + Proj(y.stream.buffer)|][j] == all[j];
      assert (sent + Proj(y.stream.buffer))[j] == sent[j];
    }
    QuietProj(y.popped);
  }

  /** Entries without output and burst starts leave the burst closed. */
  lemma {:induction false} QuietProj(entries: seq<Outbound>)
    requires forall j :: 0 <= j < |Proj(entries)| ==> Proj(entries)[j].messageType != Binary && !Proj(entries)[j].burstStart
    ensures Bins(entries) == [] && BurstOf(entries) == Burst(false, 0)
    decreases |entries|
  {
    if entries != [] {
      var front, e := entries[..|entries| - 1], entries[|entries| - 1];
      assert entries == front + [e];
      ProjAppend(front, [e]);
      ProjOne(e);
      forall j | 0 <= j < |Proj(front)| ensures Proj(entries)[j] == Proj(front)[j] {}
      if Marked(e) {
        assert Proj(entries)[|Proj(front)|] == e.(sequence := 0);
      }
      QuietProj(front);
      BinsSnoc(front, e);
    }
  }

  lemma BurstPop(y: System)
    requires BurstInv(y) && FlowInv(y) && BoundInv(y) && OrderInv(y) && y.writer.InTurn?
    requires OneBurst(Labels(y.stream.sub, y.frames).1)
    ensures BurstInv(PopStep(y))
  {
    hide OneBurst, Labels, BurstOf, Bins, AnnouncedOk, Proj, Increasing, SumCost, MarkedUpTo;
    if y.stream.sub.flow == WindowAck && !y.stream.overloaded && CanPop(y.stream, y.writer.target, y.writer.written) {
      var e := y.stream.buffer[0];
      assert EntryOk(e);
      BurstSnoc(y.popped, e);
      BinsSnoc(y.popped, e);
      if e.burstStart {
        OpensFirst(y, e);
        LedgerEmpty(y.stream.window);
      }
      hide OrderInv, BoundInv, FlowInv, Ledger;
      assert PopStep(y).popped == y.popped + [e];
    }
  }

  lemma LedgerEmpty(w: Window)
    ensures Ledger(w, []) ==> w.inFlight == 0 && w.boundaries == [] && w.ackSequence == 0
  {}

  lemma BurstFinish(y: System)
    requires BurstInv(y) && FlowInv(y) && y.writer.Finishing?
    ensures BurstInv(Next(y, Finish))
  {
    hide BurstOf, Bins, Ledger, AnnouncedOk, Covered;
    if Serving(y.stream) {
      var (c, q) := TurnEnd(y.stream, y.writer);
      if !y.stream.burstActive && q != 0 {
        AnnounceOne(y.announced, Bins(y.popped), c);
      }
    }
  }

  lemma BurstAck(y: System, ack: Option<(nat, nat)>)
    requires BurstInv(y) && FlowInv(y)
    ensures BurstInv(Next(y, Ack(ack)))
  {
    hide BurstOf, Bins, AnnouncedOk, MarkedUpTo;
    AckKeepsQueue(y.stream, ack);
    if ack.Some? && UsesWindow(y.stream) && !y.stream.overloaded {
      AckWindowOnly(y.stream, ack.value.0, ack.value.1);
      LedgerAck(y.stream, Bins(y.popped), ack.value.0, ack.value.1);
      var w := y.stream.window;
      if w.boundaries == [] {
        assert AckWindowSection(y.stream, ack.value.0, ack.value.1).0 == y.stream;
      }
      hide AckWindowSection, Ledger, FlowInv;
    }
  }

  lemma BurstStep(y: System, e: Event)
    requires BurstInv(y) && FlowInv(y) && BoundInv(y) && OrderInv(y)
    requires OneBurst(Labels(y.stream.sub, y.frames).1)
    ensures BurstInv(Step(y, e))
  {
    if Enabled(y, e) {
      if QueueSide(y, e) {
        QueueSideStep(y, e);
        hide BurstOf, Bins, Step, MarkedUpTo;
      } else {
        hide BurstOf, Bins, MarkedUpTo, OneBurst, Labels, FlowInv, BoundInv, OrderInv;
        match e
        case Pop => BurstPop(y);
        case Finish => BurstFinish(y);
        case Ack(ack) => BurstAck(y, ack);
        case _ =>
      }
    }
  }

  lemma OneBurstPrefix(a: seq<Outbound>, b: seq<Outbound>)
    requires IsPrefix(a, b) && OneBurst(b)
    ensures OneBurst(a)
  {
    forall i | 0 <= i < |a| ensures a[i] == b[i] {
      assert b[..|a|][i] == b[i];
    }
  }

  lemma {:induction false} LabelsGrow(sub: Subscription, a: seq<Frame>, b: seq<Frame>)
    requires IsPrefix(a, b)
    ensures IsPrefix(Labels(sub, a).1, Labels(sub, b).1)
    decreases |b|
  {
    if |a| < |b| {
      assert b[..|b| - 1][..|a|] == a;
      LabelsGrow(sub, a, b[..|b| - 1]);
      hide LabelFrame;
    } else {
      assert a == b;
    }
  }

  lemma {:induction false} BurstRun(sub: Subscription, errors: ErrorControls, events: seq<Event>)
    requires ErrorsFit(errors)
    requires OneBurst(Labels(sub, Exec(Start(sub, errors), events).frames).1)
    ensures BurstInv(Exec(Start(sub, errors), events))
    ensures Exec(Start(sub, errors), events).stream.sub == sub
  {
    if events != [] {
      var before, e := events[..|events| - 1], events[|events| - 1];
      var y := Exec(Start(sub, errors), before);
      FramesGrow(y, e);
      LabelsGrow(sub, y.frames, Step(y, e).frames);
      OneBurstPrefix(Labels(sub, y.frames).1, Labels(sub, Step(y, e).frames).1);
      BurstRun(sub, errors, before);
      FlowRun(sub, errors, before);
      BoundRun(sub, errors, before);
      OrderRun(sub, errors, before);
      LifeStep(y, e);
      hide BurstInv, FlowInv, BoundInv, OrderInv, OneBurst, Labels, Step;
      BurstStep(y, e);
    }
  }

  /** When the agent opens one burst and before any output, the bytes in flight
      never exceed the window or the burst, and never more than 256 turns are
      unacknowledged; after an overload nothing is in flight. */
  lemma WindowStaysBounded(sub: Subscription, errors: ErrorControls, events: seq<Event>)
    requires ErrorsFit(errors)
    requires OneBurst(Labels(sub, Exec(Start(sub, errors), events).frames).1)
    ensures var y := Exec(Start(sub, errors), events);
            && 0 <= y.stream.window.inFlight <= Max(WINDOW_BYTES, BurstOf(Labels(sub, y.frames).1).bytes)
            && |y.stream.window.boundaries| <= WINDOW_TURNS
            && (y.stream.overloaded ==> y.stream.window == EMPTY_WINDOW)
  {
    hide Exec, Labels, BurstOf, OrderInv, OneBurst, TurnOk, Bins, Ledger;
    var y := Exec(Start(sub, errors), events);
    BurstRun(sub, errors, events);
    OrderRun(sub, errors, events);
    FlowRun(sub, errors, events);
    SentBurst(y);
    if !y.stream.overloaded && y.stream.sub.flow == WindowAck {
      LedgerPositive(y.stream.window, Bins(y.popped));
    }
  }

  /** The bytes in flight are those of some entries sent. */
  lemma LedgerPositive(w: Window, sent: seq<Outbound>)
    requires Ledger(w, sent)
    ensures w.inFlight >= 0
  {
    PartitionTotal(w.boundaries, w.ackSequence, sent);
  }

  /** The burst bytes sent so far are among those the agent's frames call for. */
  lemma SentBurst(y: System)
    requires OrderInv(y)
    ensures BurstOf(y.popped).bytes <= BurstOf(Labels(y.stream.sub, y.frames).1).bytes
  {
    BurstProj(y.popped);
    hide Labels, Proj, BurstOf;
    var sent := Proj(y.popped) + Proj(y.stream.buffer);
    PrefixOfSum(Proj(y.popped), Proj(y.stream.buffer));
    PrefixTransitive(Proj(y.popped), sent, Labels(y.stream.sub, y.frames).1);
    BurstGrows(Proj(y.popped), Labels(y.stream.sub, y.frames).1);
  }

  lemma {:induction false} BurstProj(entries: seq<Outbound>)
    ensures BurstOf(Proj(entries)) == BurstOf(entries)
    decreases |entries|
  {
    if entries != [] {
      var front, e := entries[..|entries| - 1], entries[|entries| - 1];
      assert entries == front + [e];
      ProjAppend(front, [e]);
      ProjOne(e);
      BurstProj(front);
      hide Proj;
      if Marked(e) {
        BurstSnoc(Proj(front), e.(sequence := 0));
      } else {
        assert Proj(front) + [] == Proj(front);
      }
    }
  }
}
