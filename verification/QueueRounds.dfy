/** The broker's writer on every run (core/terminal_queue.go, RunWriter): rounds over
    a snapshot of the streams, woken by a one-place signal, while any other thread
    works on any stream, adds streams or deactivates them. */
module QueueRounds {
  import opened Bytes
  import opened QueueStream
  import Q = QueueRuns
  import opened QueueOrder
  import opened QueueBounds
  import opened QueueLedger
  import opened QueueProgress

  /** Where the writer stands: `order` is the snapshot of this round, `at` the next
      stream to visit or the one whose turn it is, `wrote` whether the round has sent
      anything, and `served` lists the streams that were given a turn. */
  datatype Phase = Resting | Round(order: seq<nat>, at: nat, wrote: bool, served: seq<nat>)

  /** Every stream ever added, in the order they were; the streams in the map; whether
      the writer's channel holds a signal; and how many threads are about to signal it. */
  datatype Broker = Broker(streams: seq<Q.System>, listed: set<nat>, phase: Phase, wake: bool, signals: nat)

  datatype Event =
    | Add(stream: Q.System)
    | Remove(removed: nat)
    | Outside(index: nat, event: Q.Event)
    | Prompt
    | Signal
    | Begin(order: seq<nat>)
    | Visit
    | Write(event: Q.Event)
    | Rest

  const NEW_BROKER := Broker([], {}, Resting, false, 0)

  predicate Ready(y: Q.System)
  {
    TargetSection(y.stream) != 0
  }

  /** The steps of the writer goroutine on a stream. */
  predicate OfWriter(e: Q.Event)
  {
    e.StartTurn? || e.Pop? || e.TimeUp? || e.Finish?
  }

  /** Whether the thread that takes this step signals the writer afterwards. */
  predicate Signals(y: Q.System, e: Q.Event)
  {
    match e
    case ReaderStep =>
      (match y.reader
       case Enqueuing(entry) => EnqueueSection(y.stream, entry).1 == Queued
       case Numbered(payload, start, offset, sequence) =>
         EnqueueSection(y.stream, BinaryEntry(payload[offset..Q.ChunkEnd(payload, offset)], start + offset, sequence)).1 == Queued
       case Overloading(_, _) => Serving(y.stream)
       case _ => false)
    case Control(payload) => EnqueueSection(y.stream, TextEntry(payload, false, false)).1 == Queued
    case ControlOverload => y.controlFull && Serving(y.stream)
    case Ack(ack) => AckSection(y.stream, ack).1
    case _ => false
  }

  /** The streams in the map, each once. */
  ghost predicate Snapshot(order: seq<nat>, listed: set<nat>)
  {
    && (forall i, j :: 0 <= i < j < |order| ==> order[i] != order[j])
    && (forall v :: v in order <==> v in listed)
  }

  predicate AtStream(b: Broker)
  {
    b.phase.Round? && b.phase.at < |b.phase.order| && b.phase.order[b.phase.at] < |b.streams|
  }

  function Current(b: Broker): nat
    requires AtStream(b)
  {
    b.phase.order[b.phase.at]
  }

  ghost predicate Enabled(b: Broker, e: Event)
  {
    match e
    case Add(y) => Reachable(y) && y.writer.Idle?
    case Remove(v) => v in b.listed
    case Outside(v, event) => v < |b.streams| && !OfWriter(event)
    case Prompt => true
    case Signal => b.signals > 0
    case Begin(order) =>
      && Snapshot(order, b.listed)
      && (if b.phase.Resting? then b.wake else b.phase.at == |b.phase.order| && b.phase.wrote)
    case Visit => AtStream(b) && b.streams[Current(b)].writer.Idle?
    case Write(event) => AtStream(b) && OfWriter(event) && !event.StartTurn? && Q.Enabled(b.streams[Current(b)], event)
    case Rest => b.phase.Round? && b.phase.at == |b.phase.order| && !b.phase.wrote
  }

  ghost function Next(b: Broker, e: Event): Broker
    requires Enabled(b, e)
  {
    match e
    case Add(y) => b.(streams := b.streams + [y], listed := b.listed + {|b.streams|}, signals := b.signals + 1)
    case Remove(v) => b.(listed := b.listed - {v})
    case Outside(v, event) =>
      b.(streams := b.streams[v := Q.Step(b.streams[v], event)],
         signals := if Signals(b.streams[v], event) then b.signals + 1 else b.signals)
    case Prompt => b.(signals := b.signals + 1)
    case Signal => b.(wake := true, signals := b.signals - 1)
    case Begin(order) => b.(phase := Round(order, 0, false, []), wake := b.wake && b.phase.Round?)
    case Visit =>
      if Ready(b.streams[Current(b)])
      then b.(streams := b.streams[Current(b) := Q.Step(b.streams[Current(b)], Q.StartTurn)],
              phase := b.phase.(served := b.phase.served + [Current(b)]))
      else b.(phase := b.phase.(at := b.phase.at + 1))
    case Write(event) =>
      var z := Q.Step(b.streams[Current(b)], event);
      b.(streams := b.streams[Current(b) := z],
         phase := b.phase.(at := if z.writer.Idle? then b.phase.at + 1 else b.phase.at,
                           wrote := b.phase.wrote || z.popped != b.streams[Current(b)].popped))
    case Rest => b.(phase := Resting)
  }

  ghost function Step(b: Broker, e: Event): Broker
  {
    if Enabled(b, e) then Next(b, e) else b
  }

  ghost function Exec(b: Broker, events: seq<Event>): Broker
  {
    if events == [] then b else Step(Exec(b, events[..|events| - 1]), events[|events| - 1])
  }

  // ---- what a step on one stream does to its readiness ---------------------------------

  /** Only a step that is followed by a signal makes a stream ready. */
  lemma QuietStep(y: Q.System, e: Q.Event)
    requires !OfWriter(e) && !Signals(y, e)
    ensures Ready(Q.Step(y, e)) ==> Ready(y)
    ensures Q.Step(y, e).stream.overloaded == y.stream.overloaded
  {
    match e
    case Read(frame) => ReadQuiet(y, frame);
    case ReaderStep => ReaderQuiet(y);
    case Ack(ack) => AckQuiet(y, ack);
    case Control(payload) => hide TargetSection;
    case ControlOverload => hide TargetSection;
    case OpenGate =>
    case Deactivate =>
  }

  lemma ReadQuiet(y: Q.System, frame: Q.Frame)
    ensures Ready(Q.Step(y, Q.Read(frame))) ==> Ready(y)
    ensures Q.Step(y, Q.Read(frame)).stream.overloaded == y.stream.overloaded
  {
    hide TextSection, LabelFrame;
    QueueSideStep(y, Q.Read(frame));
    if y.reader == Q.Ready {
      ReadHead(y, frame);
      hide BinarySection;
    }
  }

  lemma ReaderQuiet(y: Q.System)
    requires !Signals(y, Q.ReaderStep)
    ensures Ready(Q.Step(y, Q.ReaderStep)) ==> Ready(y)
    ensures Q.Step(y, Q.ReaderStep).stream.overloaded == y.stream.overloaded
  {}

  lemma AckQuiet(y: Q.System, ack: Option<(nat, nat)>)
    requires !AckSection(y.stream, ack).1
    ensures Q.Step(y, Q.Ack(ack)).stream == y.stream
  {
    hide SumBytes, FindBoundary;
  }

  lemma WriterStays(y: Q.System, e: Q.Event)
    requires !OfWriter(e)
    ensures Q.Step(y, e).writer == y.writer
  {
    hide TextSection, BinarySection, EnqueueSection, OverloadSection, AckSection;
  }

  /** A ready stream stays ready until its turn, unless it is deactivated. */
  lemma ReadyStays(y: Q.System, e: Q.Event)
    requires Reachable(y) && Ready(y) && !OfWriter(e) && Q.Step(y, e).stream.active
    ensures Ready(Q.Step(y, e))
  {
    hide Q.Step, Ready, BoundInv, FlowInv, OrderInv;
    ReachableInv(y);
    if QueueSide(y, e) {
      ReadyQueueSide(y, e);
    } else if e.Ack? {
      ReadyAck(y, e.ack);
    } else {
      ReadyOverload(y, e);
    }
  }

  /** An error control may always be sent. */
  lemma ReadyOverload(y: Q.System, e: Q.Event)
    requires Ready(y) && (e.ControlOverload? || (e.ReaderStep? && y.reader.Overloading?))
    ensures Ready(Q.Step(y, e))
  {}

  lemma ReadyQueueSide(y: Q.System, e: Q.Event)
    requires Reachable(y) && BoundInv(y) && Ready(y) && QueueSide(y, e) && Q.Step(y, e).stream.active
    ensures Ready(Q.Step(y, e))
  {
    hide Q.Step, BoundInv, FlowInv, OrderInv;
    QueueSideStep(y, e);
    HeadStays(y, e);
    ReachableStep(y, e);
    ReachableInv(Q.Step(y, e));
    SameReady(y, Q.Step(y, e));
  }

  lemma SameReady(y: Q.System, z: Q.System)
    requires Ready(y) && SameFlow(y.stream, z.stream) && BoundInv(z)
    requires z.stream.active && z.stream.buffer != [] && z.stream.buffer[0] == y.stream.buffer[0]
    ensures Ready(z)
  {
    hide SumCost;
    var last := |z.stream.buffer| - 1;
    assert z.stream.buffer[last].sequence > 0;
  }

  lemma ReadyAck(y: Q.System, ack: Option<(nat, nat)>)
    requires FlowInv(y) && Ready(y)
    ensures Ready(Q.Step(y, Q.Ack(ack)))
  {
    hide FlowInv;
    AckFrees(y, ack);
    AckKeepsQueue(y.stream, ack);
    AckAwaits(y.stream, ack);
    hide AckSection;
  }

  lemma AckAwaits(s: Stream, ack: Option<(nat, nat)>)
    ensures AckSection(s, ack).0.awaitingTurnAck ==> s.awaitingTurnAck
    ensures AckSection(s, ack).0.sub == s.sub
  {
    hide SumBytes, FindBoundary;
  }

  // ---- the invariant --------------------------------------------------------------------

  /** A round, or a signal for another one, is under way. */
  predicate Awake(b: Broker)
  {
    b.wake || b.signals > 0 || (b.phase.Round? && b.phase.wrote)
  }

  /** The stream's visit is still to come in this round, or its turn is about to send. */
  ghost predicate Coming(b: Broker, v: nat)
    requires v < |b.streams|
  {
    && b.phase.Round? && (b.streams[v].writer.Idle? || FreshTurn(b.streams[v]))
    && exists k :: b.phase.at <= k < |b.phase.order| && b.phase.order[k] == v
  }

  ghost predicate StreamOk(b: Broker, v: nat)
    requires v < |b.streams|
  {
    && Reachable(b.streams[v])
    && (b.streams[v].writer.Idle? || (AtStream(b) && Current(b) == v))
    && (v in b.listed && Ready(b.streams[v]) ==> Awake(b) || Coming(b, v))
  }

  predicate PhaseOk(b: Broker)
  {
    (forall v :: v in b.listed ==> v < |b.streams|) &&
    (b.phase.Round? ==>
      && b.phase.at <= |b.phase.order|
      && (forall i, j :: 0 <= i < j < |b.phase.order| ==> b.phase.order[i] != b.phase.order[j])
      && (forall i :: 0 <= i < |b.phase.order| ==> b.phase.order[i] < |b.streams|))
  }

  ghost predicate BrokerInv(b: Broker)
  {
    PhaseOk(b) && forall v :: 0 <= v < |b.streams| ==> StreamOk(b, v)
  }

  // ---- every step keeps it --------------------------------------------------------------

  /** A stream that a step leaves alone stays as it should be, if the step neither ends
      a wait nor passes the stream by. */
  lemma Untouched(b: Broker, z: Broker, v: nat)
    requires v < |b.streams| && v < |z.streams| && StreamOk(b, v) && z.streams[v] == b.streams[v]
    requires (Awake(b) ==> Awake(z)) && (v in z.listed ==> v in b.listed)
    requires b.phase.Round? ==> z.phase.Round? && z.phase.order == b.phase.order && b.phase.at <= z.phase.at
    requires b.phase.Round? ==> forall k :: b.phase.at <= k < z.phase.at && k < |b.phase.order| ==> b.phase.order[k] != v
    requires AtStream(b) && Current(b) == v ==> z.phase == b.phase && |z.streams| >= |b.streams|
    ensures StreamOk(z, v)
  {
    hide Reachable, Ready, FreshTurn, Awake;
  }

  lemma OutsideKeeps(b: Broker, v: nat, e: Q.Event)
    requires BrokerInv(b) && Enabled(b, Outside(v, e))
    ensures BrokerInv(Step(b, Outside(v, e)))
  {
    hide StreamOk, Signals;
    var z := Step(b, Outside(v, e));
    forall u | 0 <= u < |z.streams| ensures StreamOk(z, u) {
      assert StreamOk(b, u);
      if u == v {
        OutsideStream(b, v, e);
      } else {
        Untouched(b, z, u);
      }
    }
  }

  lemma OutsideStream(b: Broker, v: nat, e: Q.Event)
    requires v < |b.streams| && StreamOk(b, v) && !OfWriter(e)
    ensures StreamOk(Step(b, Outside(v, e)), v)
  {
    hide Reachable, Ready, FreshTurn, Signals, Q.Step;
    var y := b.streams[v];
    var z := Step(b, Outside(v, e));
    assert z.streams[v] == Q.Step(y, e);
    ReachableStep(y, e);
    WriterStays(y, e);
    if !Signals(y, e) && Ready(Q.Step(y, e)) {
      QuietStep(y, e);
      ReadyIsActive(Q.Step(y, e));
      if FreshTurn(y) {
        NotPop(e);
        FreshStays(y, e);
      }
    }
  }

  lemma ReadyIsActive(y: Q.System)
    ensures Ready(y) ==> y.stream.active
  {}

  lemma NotPop(e: Q.Event)
    requires !OfWriter(e)
    ensures !e.Pop?
  {}

  /** What the writer does on the stream whose turn it is: it sends, or the stream was
      not ready in its own right. */
  lemma WriterQuiet(y: Q.System, e: Q.Event)
    requires OfWriter(e) && !e.StartTurn? && Q.Enabled(y, e)
    ensures Q.Step(y, e).popped == y.popped ==> !FreshTurn(y) || !Ready(y)
    ensures Q.Step(y, e).popped == y.popped && Ready(Q.Step(y, e)) ==> Ready(y)
    ensures e.Finish? || !Q.Step(y, e).writer.Idle?
    ensures e.Finish? ==> Q.Step(y, e).writer.Idle?
    ensures Q.Step(y, e).popped != y.popped ==> e.Pop?
  {
    if e.Finish? {
      FinishQuiet(y.stream, y.writer.cursor, y.writer.sequence);
      hide FinishSection, TargetSection;
    } else if e.Pop? {
      hide PopSection, WindowAllows;
    }
  }

  lemma FinishQuiet(s: Stream, cursor: nat, sequence: nat)
    ensures TargetSection(FinishSection(s, cursor, sequence).0) != 0 ==> TargetSection(s) != 0
  {}

  lemma WriteKeeps(b: Broker, e: Q.Event)
    requires BrokerInv(b) && Enabled(b, Write(e))
    ensures BrokerInv(Step(b, Write(e)))
  {
    hide StreamOk, Ready;
    var z := Step(b, Write(e));
    var c := Current(b);
    WriterQuiet(b.streams[c], e);
    forall u | 0 <= u < |z.streams| ensures StreamOk(z, u) {
      assert StreamOk(b, u);
      if u == c {
        WriteStream(b, e);
      } else {
        Untouched(b, z, u);
      }
    }
  }

  lemma WriteStream(b: Broker, e: Q.Event)
    requires PhaseOk(b) && Enabled(b, Write(e)) && StreamOk(b, Current(b))
    ensures StreamOk(Step(b, Write(e)), Current(b))
  {
    hide Reachable, Ready, FreshTurn, Q.Step;
    var c := Current(b);
    var y := b.streams[c];
    var z := Step(b, Write(e));
    assert z.streams[c] == Q.Step(y, e);
    ReachableStep(y, e);
    WriterQuiet(y, e);
    WriterBusy(y, e);
  }

  lemma WriterBusy(y: Q.System, e: Q.Event)
    requires OfWriter(e) && !e.StartTurn? && Q.Enabled(y, e)
    ensures !y.writer.Idle?
  {}

  lemma VisitKeeps(b: Broker)
    requires BrokerInv(b) && Enabled(b, Visit)
    ensures BrokerInv(Step(b, Visit))
  {
    hide StreamOk, Ready, Q.Step;
    var z := Step(b, Visit);
    var c := Current(b);
    forall u | 0 <= u < |z.streams| ensures StreamOk(z, u) {
      assert StreamOk(b, u);
      if u == c {
        VisitStream(b);
      } else {
        Untouched(b, z, u);
      }
    }
  }

  lemma VisitStream(b: Broker)
    requires PhaseOk(b) && Enabled(b, Visit) && StreamOk(b, Current(b))
    ensures StreamOk(Step(b, Visit), Current(b))
  {
    hide Reachable, FreshTurn, Q.Step, TargetSection;
    var c := Current(b);
    var y := b.streams[c];
    var z := Step(b, Visit);
    ReachableStep(y, Q.StartTurn);
    if Ready(y) {
      FreshStart(y);
      assert z.streams[c] == Q.Step(y, Q.StartTurn) && z.phase.order[z.phase.at] == c;
    }
  }

  lemma BeginKeeps(b: Broker, order: seq<nat>)
    requires BrokerInv(b) && Enabled(b, Begin(order))
    ensures BrokerInv(Step(b, Begin(order)))
  {
    hide Reachable, Ready, FreshTurn;
    var z := Step(b, Begin(order));
    assert forall i :: 0 <= i < |order| ==> order[i] in order;
    forall u | 0 <= u < |z.streams| ensures StreamOk(z, u) {
      assert StreamOk(b, u);
      if u in b.listed {
        assert u in order;
        var k :| 0 <= k < |order| && order[k] == u;
        assert Coming(z, u);
      }
    }
  }

  lemma RestKeeps(b: Broker)
    requires BrokerInv(b) && Enabled(b, Rest)
    ensures BrokerInv(Step(b, Rest))
  {
    hide Reachable, Ready, FreshTurn;
    var z := Step(b, Rest);
    forall u | 0 <= u < |z.streams| ensures StreamOk(z, u) {
      assert StreamOk(b, u);
    }
  }

  /** A signal, a stream added or removed, or a change of priorities. */
  lemma OthersKeep(b: Broker, e: Event)
    requires BrokerInv(b) && Enabled(b, e) && (e.Signal? || e.Prompt? || e.Add? || e.Remove?)
    ensures BrokerInv(Step(b, e))
  {
    hide StreamOk;
    var z := Step(b, e);
    forall u | 0 <= u < |z.streams| ensures StreamOk(z, u) {
      if u < |b.streams| {
        assert StreamOk(b, u);
        Untouched(b, z, u);
      } else {
        Added(z, u);
      }
    }
  }

  lemma Added(b: Broker, v: nat)
    requires v < |b.streams| && Reachable(b.streams[v]) && b.streams[v].writer.Idle? && b.signals > 0
    ensures StreamOk(b, v)
  {
    hide Reachable, Ready, FreshTurn;
  }

  lemma BrokerStep(b: Broker, e: Event)
    requires BrokerInv(b)
    ensures BrokerInv(Step(b, e))
  {
    hide BrokerInv, Next;
    if Enabled(b, e) {
      match e
      case Outside(v, event) => OutsideKeeps(b, v, event);
      case Write(event) => WriteKeeps(b, event);
      case Visit => VisitKeeps(b);
      case Begin(order) => BeginKeeps(b, order);
      case Rest => RestKeeps(b);
      case _ => OthersKeep(b, e);
    }
  }

  lemma {:induction false} BrokerRun(events: seq<Event>)
    ensures BrokerInv(Exec(NEW_BROKER, events))
  {
    if events != [] {
      BrokerRun(events[..|events| - 1]);
      hide BrokerInv, Step;
      BrokerStep(Exec(NEW_BROKER, events[..|events| - 1]), events[|events| - 1]);
    }
  }

  /** No wake-up is ever lost: on every run, when the writer waits for a signal, and
      none has come or is about to, no stream in the map has anything it may send. */
  lemma NoLostWakeUp(events: seq<Event>, v: nat)
    requires var b := Exec(NEW_BROKER, events);
             b.phase.Resting? && !b.wake && b.signals == 0 && v in b.listed
    ensures v < |Exec(NEW_BROKER, events).streams| && !Ready(Exec(NEW_BROKER, events).streams[v])
  {
    hide Exec, Ready, Reachable, FreshTurn;
    BrokerRun(events);
    assert StreamOk(Exec(NEW_BROKER, events), v);
  }

  /** So a stream that then has something buffered waits for its client: a turn was
      announced to it, and acknowledging that turn makes the stream ready and wakes the
      writer. */
  lemma SleepsOnlyForAcks(events: seq<Event>, v: nat)
    requires var b := Exec(NEW_BROKER, events);
             && b.phase.Resting? && !b.wake && b.signals == 0 && v in b.listed && v < |b.streams|
             && Serving(b.streams[v].stream) && b.streams[v].stream.buffer != []
    ensures var b := Exec(NEW_BROKER, events);
            var ack := LastAnnounced(b.streams[v]);
            && ack.Some?
            && Ready(Step(b, Outside(v, Q.Ack(ack))).streams[v])
            && Step(b, Outside(v, Q.Ack(ack))).signals > 0
  {
    hide Exec, Reachable, FreshTurn, TargetSection, AckSection, LastAnnounced;
    var b := Exec(NEW_BROKER, events);
    BrokerRun(events);
    NoLostWakeUp(events, v);
    assert StreamOk(b, v);
    AckUnblocks(b.streams[v]);
  }

  // ---- a round gives every ready stream its turn ----------------------------------------

  /** The `k`-th stream of the snapshot has been passed by, or it is its turn. */
  predicate Visited(b: Broker, k: nat)
    requires b.phase.Round?
  {
    k < b.phase.at || (k == b.phase.at && AtStream(b) && !b.streams[Current(b)].writer.Idle?)
  }

  predicate Once(ids: seq<nat>)
  {
    forall i, j :: 0 <= i < j < |ids| ==> ids[i] != ids[j]
  }

  /** What became of a stream that may have been ready when the round began. */
  predicate TurnOf(b: Broker, v: nat, k: nat, wasReady: bool)
    requires b.phase.Round? && v < |b.streams|
  {
    if Visited(b, k) then wasReady && b.streams[v].stream.active ==> v in b.phase.served
    else v !in b.phase.served && (wasReady && b.streams[v].stream.active ==> Ready(b.streams[v]))
  }

  /** Stream `u` comes before `v`: by priority, and then the one added first. */
  predicate Precedes(priority: nat -> int, u: nat, v: nat)
  {
    priority(u) < priority(v) || (priority(u) == priority(v) && u < v)
  }

  predicate Sorted(ids: seq<nat>, priority: nat -> int)
  {
    forall i, j :: 0 <= i < j < |ids| ==> Precedes(priority, ids[i], ids[j])
  }

  /** Turns are given in the order of the snapshot. */
  predicate InOrder(b: Broker, priority: nat -> int)
    requires b.phase.Round?
  {
    && (forall i :: 0 <= i < |b.phase.served| ==> b.phase.served[i] in b.phase.order)
    && (Sorted(b.phase.order, priority) ==> Sorted(b.phase.served, priority))
  }

  ghost predicate RoundInv(start: Broker, b: Broker, priority: nat -> int)
    requires start.phase.Round?
  {
    && b.phase.Round? && InOrder(b, priority)
    && BrokerInv(b) && b.phase.order == start.phase.order && Once(b.phase.served)
    && |start.streams| <= |b.streams|
    && forall k :: 0 <= k < |b.phase.order| ==>
                     var v := b.phase.order[k];
                     v < |start.streams| && TurnOf(b, v, k, Ready(start.streams[v]))
  }

  /** A step within the round. */
  predicate Within(e: Event)
  {
    !e.Begin? && !e.Rest?
  }

  lemma SamePlace(b: Broker, e: Event)
    requires BrokerInv(b) && b.phase.Round? && Within(e)
    ensures var z := Step(b, e);
            && PhaseOk(b) && z.phase.Round? && z.phase.order == b.phase.order && |b.streams| <= |z.streams|
            && (z.phase.served == b.phase.served || (AtStream(b) && Enabled(b, Visit) && e.Visit? && z.phase.served == b.phase.served + [Current(b)]))
  {
    hide Reachable, Ready, FreshTurn, StreamOk, Q.Step, Signals, Snapshot;
  }

  lemma TurnStep(b: Broker, e: Event, k: nat, wasReady: bool)
    requires BrokerInv(b) && b.phase.Round? && Within(e) && k < |b.phase.order|
    requires TurnOf(b, b.phase.order[k], k, wasReady)
    ensures var z := Step(b, e);
            z.phase.Round? && b.phase.order[k] < |z.streams| && TurnOf(z, b.phase.order[k], k, wasReady)
  {
    hide StreamOk, Ready, Next;
    var v := b.phase.order[k];
    SamePlace(b, e);
    assert StreamOk(b, v);
    if Enabled(b, e) {
      match e
      case Outside(u, event) => TurnOutside(b, u, event, k, wasReady);
      case Write(event) => TurnWrite(b, event, k, wasReady);
      case Visit => TurnVisit(b, k, wasReady);
      case _ => TurnOthers(b, e, k, wasReady);
    }
  }

  lemma TurnOthers(b: Broker, e: Event, k: nat, wasReady: bool)
    requires PhaseOk(b) && b.phase.Round? && Enabled(b, e) && (e.Signal? || e.Prompt? || e.Add? || e.Remove?) && k < |b.phase.order|
    requires TurnOf(b, b.phase.order[k], k, wasReady)
    ensures TurnOf(Step(b, e), b.phase.order[k], k, wasReady)
  {
    hide Reachable, Ready;
  }

  lemma TurnOutside(b: Broker, u: nat, e: Q.Event, k: nat, wasReady: bool)
    requires PhaseOk(b) && b.phase.Round? && Enabled(b, Outside(u, e)) && k < |b.phase.order|
    requires TurnOf(b, b.phase.order[k], k, wasReady) && StreamOk(b, b.phase.order[k])
    ensures TurnOf(Step(b, Outside(u, e)), b.phase.order[k], k, wasReady)
  {
    hide Reachable, Ready, FreshTurn, Signals, Q.Step;
    var v := b.phase.order[k];
    WriterStays(b.streams[u], e);
    LifeStep(b.streams[u], e);
    if u == v && Ready(b.streams[v]) && Q.Step(b.streams[v], e).stream.active {
      ReadyStays(b.streams[v], e);
    }
  }

  lemma TurnWrite(b: Broker, e: Q.Event, k: nat, wasReady: bool)
    requires PhaseOk(b) && b.phase.Round? && Enabled(b, Write(e)) && k < |b.phase.order|
    requires TurnOf(b, b.phase.order[k], k, wasReady)
    requires StreamOk(b, b.phase.order[k])
    requires b.phase.at + 1 < |b.phase.order| ==> StreamOk(b, b.phase.order[b.phase.at + 1])
    ensures TurnOf(Step(b, Write(e)), b.phase.order[k], k, wasReady)
  {
    hide Reachable, Ready, FreshTurn, Q.Step;
    var y := b.streams[Current(b)];
    WriterQuiet(y, e);
    WriterBusy(y, e);
    LifeStep(y, e);
  }

  lemma TurnVisit(b: Broker, k: nat, wasReady: bool)
    requires PhaseOk(b) && b.phase.Round? && Enabled(b, Visit) && k < |b.phase.order|
    requires TurnOf(b, b.phase.order[k], k, wasReady)
    requires b.phase.at + 1 < |b.phase.order| ==> StreamOk(b, b.phase.order[b.phase.at + 1])
    ensures TurnOf(Step(b, Visit), b.phase.order[k], k, wasReady)
  {
    hide Reachable, FreshTurn, Q.Step, TargetSection;
    var y := b.streams[Current(b)];
    LifeStep(y, Q.StartTurn);
    TurnStarts(y);
  }

  lemma TurnStarts(y: Q.System)
    ensures Ready(y) && y.writer.Idle? ==> Q.Step(y, Q.StartTurn).writer.InTurn?
  {}

  lemma RoundStep(start: Broker, b: Broker, e: Event, priority: nat -> int)
    requires start.phase.Round? && RoundInv(start, b, priority) && Within(e)
    ensures RoundInv(start, Step(b, e), priority)
  {
    hide BrokerInv, Ready, Enabled, Next, InOrder, Once;
    var z := Step(b, e);
    BrokerStep(b, e);
    SamePlace(b, e);
    forall k | 0 <= k < |b.phase.order|
      ensures b.phase.order[k] < |z.streams| && TurnOf(z, b.phase.order[k], k, Ready(start.streams[b.phase.order[k]]))
    {
      TurnStep(b, e, k, Ready(start.streams[b.phase.order[k]]));
    }
    if z.phase.served == b.phase.served {
      SameServed(b, z, priority);
    } else {
      forall i | 0 <= i < |b.phase.served| ensures StandsBefore(b, i) {
        ServedBefore(start, b, i, priority);
      }
      ServedNext(b, z, priority);
    }
  }

  lemma SameServed(b: Broker, z: Broker, priority: nat -> int)
    requires b.phase.Round? && z.phase.Round? && z.phase.order == b.phase.order && z.phase.served == b.phase.served
    ensures InOrder(b, priority) ==> InOrder(z, priority)
    ensures Once(b.phase.served) ==> Once(z.phase.served)
  {}

  /** A stream that was served stands in the snapshot before the next one to visit. */
  predicate StandsBefore(b: Broker, i: nat)
    requires b.phase.Round? && i < |b.phase.served|
  {
    exists k :: 0 <= k < b.phase.at && k < |b.phase.order| && b.phase.order[k] == b.phase.served[i]
  }

  lemma ServedBefore(start: Broker, b: Broker, i: nat, priority: nat -> int)
    requires start.phase.Round? && RoundInv(start, b, priority) && Enabled(b, Visit) && i < |b.phase.served|
    ensures StandsBefore(b, i)
  {
    hide BrokerInv, Ready, Once, Sorted;
    var s := b.phase.served[i];
    assert s in b.phase.order;
    var k :| 0 <= k < |b.phase.order| && b.phase.order[k] == s;
    assert TurnOf(b, s, k, Ready(start.streams[s]));
    assert Visited(b, k);
  }

  lemma ServedNext(b: Broker, z: Broker, priority: nat -> int)
    requires b.phase.Round? && AtStream(b) && InOrder(b, priority) && Once(b.phase.served)
    requires PhaseOk(b) && forall i :: 0 <= i < |b.phase.served| ==> StandsBefore(b, i)
    requires z.phase.Round? && z.phase.order == b.phase.order && z.phase.served == b.phase.served + [Current(b)]
    ensures InOrder(z, priority) && Once(z.phase.served)
  {
    hide Precedes;
    var served := b.phase.served;
    forall i | 0 <= i < |served|
      ensures served[i] != Current(b) && (Sorted(b.phase.order, priority) ==> Precedes(priority, served[i], Current(b)))
    {
      assert StandsBefore(b, i);
      var k :| 0 <= k < b.phase.at && k < |b.phase.order| && b.phase.order[k] == served[i];
    }
  }

  lemma RoundBegins(b: Broker, priority: nat -> int)
    requires BrokerInv(b) && b.phase.Round? && b.phase.at == 0 && b.phase.served == []
    requires AtStream(b) ==> b.streams[Current(b)].writer.Idle?
    ensures RoundInv(b, b, priority)
  {
    hide StreamOk, Ready;
  }

  lemma {:induction false} RoundRun(start: Broker, events: seq<Event>, priority: nat -> int)
    requires start.phase.Round? && RoundInv(start, start, priority) && forall i :: 0 <= i < |events| ==> Within(events[i])
    ensures RoundInv(start, Exec(start, events), priority)
  {
    if events != [] {
      hide RoundInv, Step;
      var before, e := events[..|events| - 1], events[|events| - 1];
      RoundRun(start, before, priority);
      assert Within(e);
      RoundStep(start, Exec(start, before), e, priority);
    }
  }

  /** On every run: a stream in the map that is ready when a round begins gets exactly
      one turn in it, whatever other threads do meanwhile, unless it is deactivated; no
      stream gets two; and if the snapshot is sorted by priority and age, so are the
      turns. */
  lemma OneTurnEach(before: seq<Event>, order: seq<nat>, events: seq<Event>, priority: nat -> int)
    requires Enabled(Exec(NEW_BROKER, before), Begin(order)) && forall i :: 0 <= i < |events| ==> Within(events[i])
    ensures var b := Exec(NEW_BROKER, before);
            var z := Exec(Step(b, Begin(order)), events);
            && z.phase.Round? && z.phase.order == order && Once(z.phase.served) && |b.streams| <= |z.streams|
            && (Sorted(order, priority) ==> Sorted(z.phase.served, priority))
            && (z.phase.at == |order| ==>
                  forall v :: v in b.listed && v < |b.streams| && Ready(b.streams[v]) && z.streams[v].stream.active ==> v in z.phase.served)
  {
    hide Exec, Ready, Reachable, StreamOk;
    var b := Exec(NEW_BROKER, before);
    var start := Step(b, Begin(order));
    BrokerRun(before);
    BeginKeeps(b, order);
    AllIdle(b, order);
    RoundBegins(start, priority);
    RoundRun(start, events, priority);
    var z := Exec(start, events);
    forall v | z.phase.at == |order| && v in b.listed && v < |b.streams| && Ready(b.streams[v]) && z.streams[v].stream.active
      ensures v in z.phase.served
    {
      assert v in order;
      var k :| 0 <= k < |order| && order[k] == v;
      assert TurnOf(z, v, k, true);
    }
  }

  lemma AllIdle(b: Broker, order: seq<nat>)
    requires BrokerInv(b) && Enabled(b, Begin(order))
    ensures forall v :: 0 <= v < |b.streams| ==> b.streams[v].writer.Idle?
  {
    hide Reachable, Ready, FreshTurn;
    forall v | 0 <= v < |b.streams| ensures b.streams[v].writer.Idle? {
      assert StreamOk(b, v);
    }
  }
}
