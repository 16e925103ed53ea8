/** Resize epochs over every run of a pane (core/pane_resize.go). */
module PaneResize {
  import opened Bytes
  import opened PaneHistory
  import opened Geometry
  import opened Subscriber
  import opened TerminalPane
  import opened PaneOutput

  // ---- epochs never decrease ----------------------------------------------------------

  /** A resize under way carries an epoch the pane has not passed. */
  predicate EpochInv(y: Pane)
  {
    y.resizing.Some? ==> 0 < y.resizing.value.epoch && y.core.epoch <= y.resizing.value.epoch
  }

  lemma EpochStep(y: Pane, e: Event)
    requires EpochInv(y)
    ensures EpochInv(Step(y, e)) && y.core.epoch <= Step(y, e).core.epoch
  {
    hide CoreOk, CanResume, Lists, Fanout;
  }

  lemma {:induction false} EpochNeverDecreases(y: Pane, events: seq<Event>)
    requires EpochInv(y)
    ensures EpochInv(Exec(y, events)) && y.core.epoch <= Exec(y, events).core.epoch
  {
    if events != [] {
      EpochNeverDecreases(y, events[..|events| - 1]);
      hide Step, EpochInv;
      EpochStep(Exec(y, events[..|events| - 1]), events[|events| - 1]);
    }
  }

  // ---- ownership ------------------------------------------------------------------------

  /** The owner, and the client of a resize under way, are attached. */
  predicate OwnerInv(y: Pane)
  {
    SourceOk(y, y.owner) && (y.resizing.Some? ==> SourceOk(y, y.resizing.value.source))
  }

  /** Every step but a detach keeps clients attached. */
  lemma AttachedStay(y: Pane, e: Event, v: nat)
    requires Enabled(y, e) && v < |y.viewers| && y.viewers[v].attached && e != Detach(v)
    ensures v < |Next(y, e).viewers| && Next(y, e).viewers[v].attached
  {
    hide CoreOk, CanResume, Lists, Fanout, EnqueueClient, ClientStep, CaptureOf, LimitOf, GeometryOf;
    if e.Deliver? {
      DeliverReplies(y);
      DeliverAttached(y, v);
    }
  }

  lemma DeliverAttached(y: Pane, v: nat)
    requires y.todo != [] && v < |y.viewers|
    ensures v < |DeliverStep(y).viewers| && DeliverStep(y).viewers[v].attached == y.viewers[v].attached
  {
    hide EnqueueClient;
    DeliverReplies(y);
    var w, m := y.todo[0].0, y.todo[0].1;
    if w < |y.viewers| {
      assert DeliverStep(y).viewers == y.viewers[w := y.viewers[w].(client := EnqueueClient(y.viewers[w].client, m))];
    }
  }

  /** Who owns the size after a step. */
  lemma OwnerChange(y: Pane, e: Event)
    requires Enabled(y, e)
    ensures var z := Next(y, e);
            || z.owner == y.owner
            || (e.Detach? && y.owner == Some(e.viewer) && z.owner == None)
            || (e.FinishResize? && z.owner == y.resizing.value.source)
            || (e.LegacyResize? && z.owner == e.source)
    ensures Next(y, e).owner != None ==> !(e.Detach? && y.owner == Some(e.viewer))
    ensures var z := Next(y, e);
            z.resizing.None? || z.resizing == y.resizing || (e.BeginResize? && z.resizing.value.source == e.source)
    ensures e.Detach? ==> y.resizing.None?
    ensures e.FinishResize? ==> y.resizing.Some?
  {
    hide CoreOk, CanResume, Lists, Fanout, CaptureOf, LimitOf, EnqueueClient, ClientStep, VerdictOf;
  }

  lemma SourceStays(y: Pane, e: Event, source: Option<nat>)
    requires Enabled(y, e) && SourceOk(y, source) && (source.Some? ==> e != Detach(source.value))
    ensures SourceOk(Next(y, e), source)
  {
    hide Enabled, Next;
    if source.Some? {
      AttachedStay(y, e, source.value);
    }
  }

  lemma EventSource(y: Pane, e: Event)
    requires Enabled(y, e) && (e.BeginResize? || e.LegacyResize?)
    ensures SourceOk(y, e.source)
  {}

  lemma OwnerStep(y: Pane, e: Event)
    requires OwnerInv(y)
    ensures OwnerInv(Step(y, e))
  {
    hide Enabled, Next, SourceOk;
    if Enabled(y, e) {
      OwnerChange(y, e);
      NoSource(Next(y, e));
      if e.BeginResize? || e.LegacyResize? {
        EventSource(y, e);
        SourceStays(y, e, e.source);
      }
      if y.resizing.Some? {
        SourceStays(y, e, y.resizing.value.source);
      }
      if !(e.Detach? && y.owner == Some(e.viewer)) {
        SourceStays(y, e, y.owner);
      }
    }
  }

  lemma NoSource(y: Pane)
    ensures SourceOk(y, None)
  {}

  /** An offline client never owns the size. */
  lemma {:induction false} OwnerIsAttached(size: Size, limit: int, generation: string, withCheckpoint: bool, events: seq<Event>)
    ensures OwnerInv(RunOf(size, limit, generation, withCheckpoint, events))
  {
    if events != [] {
      hide OwnerInv, Step;
      OwnerIsAttached(size, limit, generation, withCheckpoint, events[..|events| - 1]);
      OwnerStep(RunOf(size, limit, generation, withCheckpoint, events[..|events| - 1]), events[|events| - 1]);
    }
  }

  /** Neither a resize with an epoch nor one from the owner. */
  predicate Outsider(e: Event, owner: Option<nat>)
  {
    !e.BeginResize? && (e.LegacyResize? ==> owner == None || e.source != owner)
  }

  /** An attached client's resize with an empty epoch repeats the current size of a pane
      that is not closing. */
  predicate Repeats(y: Pane, e: Event)
  {
    && e.LegacyResize? && e.path == EmptyEpoch && e.wanted == y.core.size
    && e.source.Some? && SourceOk(y, e.source) && !y.core.closing
  }

  /** None of the events is such a repeat when it comes. */
  predicate NoRepeat(y: Pane, events: seq<Event>)
  {
    events == [] || (NoRepeat(y, events[..|events| - 1]) && !Repeats(Exec(y, events[..|events| - 1]), events[|events| - 1]))
  }

  /** The owner is still the same, or gone. */
  predicate SameOwner(y: Pane, z: Pane)
  {
    z.owner == y.owner || z.owner == None
  }

  /** At every moment of the run. */
  predicate OwnerStays(y: Pane, events: seq<Event>)
  {
    events == [] || (OwnerStays(y, events[..|events| - 1]) && SameOwner(y, Exec(y, events)))
  }

  /** The size and the epoch in force, with no other resize under way. */
  predicate SizeStays(y: Pane, z: Pane)
  {
    z.core.size == y.core.size && z.core.epoch == y.core.epoch && z.resizing.None?
  }

  lemma OutsiderStep(y: Pane, z: Pane, e: Event)
    requires y.core.epoch > 0 && SizeStays(y, z) && SameOwner(y, z) && Outsider(e, y.owner)
    ensures SizeStays(y, Step(z, e))
    ensures SameOwner(y, Step(z, e)) <==> !Repeats(z, e)
  {
    hide CoreOk, CanResume, Lists, Fanout, EnqueueClient, ClientStep, TrimOf, AppendAll, WriteCheckpoint;
  }

  /** Once an epoch is in force the size is the owner's. On every run of other events the
      owner stays (until it detaches) exactly if no other attached client repeats the
      current size in a resize with an empty epoch; and as long as the owner stays, so
      do size and epoch. */
  lemma {:induction false} SizeIsTheOwners(y: Pane, events: seq<Event>)
    requires y.core.epoch > 0 && y.resizing.None? && forall i :: 0 <= i < |events| ==> Outsider(events[i], y.owner)
    ensures OwnerStays(y, events) <==> NoRepeat(y, events)
    ensures OwnerStays(y, events) ==> SizeStays(y, Exec(y, events)) && SameOwner(y, Exec(y, events))
  {
    hide Step, SizeStays, SameOwner, Outsider, Repeats;
    if events == [] {
      NothingHappens(y);
    } else {
      var before, e := events[..|events| - 1], events[|events| - 1];
      SizeIsTheOwners(y, before);
      assert Outsider(e, y.owner);
      if OwnerStays(y, before) {
        OutsiderStep(y, Exec(y, before), e);
      }
    }
  }

  lemma NothingHappens(y: Pane)
    requires y.resizing.None?
    ensures SizeStays(y, y) && SameOwner(y, y)
  {}

  /** After such a repeat the client is the owner, and its next size is accepted under
      the epoch in force, on either path. */
  lemma RepeatedSizeTakesOver(y: Pane, e: Event, b: Size, path: LegacyPath, ptyOk: bool)
    requires y.resizing.None? && Repeats(y, e)
    ensures var z := Exec(y, [e, LegacyResize(path, b, e.source, true, ptyOk)]);
            z.core.size == b && z.core.epoch == y.core.epoch && z.owner == e.source
  {
    hide Lists, CoreOk, Exec;
    ExecTwo(y, e, LegacyResize(path, b, e.source, true, ptyOk));
  }

  // ---- one size per epoch -------------------------------------------------------------

  datatype Shape = Shape(epoch: nat, size: Size)

  /** The shapes announced to clients, in order. */
  function Announced(log: seq<Token>): seq<Shape>
  {
    if log == [] then []
    else Announced(log[..|log| - 1]) + ShapeOf(log[|log| - 1])
  }

  function ShapeOf(t: Token): seq<Shape>
  {
    if t.Mark? && t.notice.ResizeApplied? then [Shape(t.notice.epoch, t.notice.size)] else []
  }

  function Shapes(initial: Size, log: seq<Token>): seq<Shape>
  {
    [Shape(0, initial)] + Announced(log)
  }

  function LastShape(initial: Size, log: seq<Token>): Shape
  {
    Shapes(initial, log)[|Shapes(initial, log)| - 1]
  }

  /** The epoch identifies the size. */
  ghost predicate OneSizePerEpoch(shapes: seq<Shape>)
  {
    forall i, j :: 0 <= i < |shapes| && 0 <= j < |shapes| && shapes[i].epoch == shapes[j].epoch ==> shapes[i].size == shapes[j].size
  }

  ghost predicate UpTo(shapes: seq<Shape>, epoch: nat)
  {
    forall i :: 0 <= i < |shapes| ==> shapes[i].epoch <= epoch
  }

  ghost predicate Positive(shapes: seq<Shape>)
  {
    forall i :: 0 <= i < |shapes| ==> shapes[i].epoch > 0
  }

  lemma {:induction false} AnnouncedAppend(a: seq<Token>, b: seq<Token>)
    ensures Announced(a + b) == Announced(a) + Announced(b)
    decreases |b|
  {
    if b == [] {
      assert a + b == a && Announced(a) + [] == Announced(a);
    } else {
      var front, t := b[..|b| - 1], b[|b| - 1];
      AnnouncedAppend(a, front);
      assert (a + b)[..|a + b| - 1] == a + front;
      Assoc(Announced(a), Announced(front), ShapeOf(t));
    }
  }

  lemma {:induction false} OutputAnnouncesNothing(p: seq<byte>)
    ensures Announced(ByteTokens(p)) == []
    decreases |p|
  {
    if p != [] {
      OutputAnnouncesNothing(p[..|p| - 1]);
      assert ByteTokens(p)[..|p| - 1] == ByteTokens(p[..|p| - 1]);
    }
  }

  /** What a step announces. */
  function StepShapes(y: Pane, e: Event): seq<Shape>
  {
    if Enabled(y, e) && e.FinishResize? && !PtyFails(y.resizing.value.pty, e.ptyOk)
    then [Shape(y.resizing.value.epoch, y.core.size)] else []
  }

  lemma StepAnnounces(y: Pane, e: Event)
    ensures Announced(Step(y, e).log) == Announced(y.log) + StepShapes(y, e)
  {
    hide CoreOk, CanResume, Lists, Fanout, Announced;
    if Enabled(y, e) && e.Capture? {
      AnnouncedAppend(y.log, ByteTokens(e.data));
      OutputAnnouncesNothing(e.data);
    } else if StepShapes(y, e) != [] {
      var t := Mark(ResizeApplied(y.resizing.value.epoch, y.core.size), false);
      AnnouncedOne(t);
      AnnouncedAppend(y.log, [t]);
    }
    assert Announced(y.log) + [] == Announced(y.log);
  }

  lemma AnnouncedOne(t: Token)
    ensures Announced([t]) == ShapeOf(t)
  {
    assert Announced([]) + ShapeOf(t) == ShapeOf(t);
    assert [t][..0] == [];
  }

  /** Announced epochs are positive and never pass the pane's, and the last one is
      the pane's. */
  ghost predicate ShapesInv(y: Pane, initial: Size)
  {
    && EpochInv(y)
    && Positive(Announced(y.log))
    && UpTo(Shapes(initial, y.log), y.core.epoch)
    && LastShape(initial, y.log).epoch == y.core.epoch
  }

  lemma ShapesStep(y: Pane, e: Event, initial: Size)
    requires ShapesInv(y, initial)
    ensures ShapesInv(Step(y, e), initial)
  {
    hide Step, Announced, Enabled, EpochInv, StepShapes;
    StepAnnounces(y, e);
    EpochOnly(y, e, initial);
    EpochSame(y, e);
    AnnouncedPositive(y, e);
    Assoc([Shape(0, initial)], Announced(y.log), StepShapes(y, e));
    assert Shapes(initial, Step(y, e).log) == Shapes(initial, y.log) + StepShapes(y, e);
    AddShape(Shapes(initial, y.log), StepShapes(y, e), y.core.epoch, Step(y, e).core.epoch);
  }

  lemma EpochOnly(y: Pane, e: Event, initial: Size)
    requires ShapesInv(y, initial)
    ensures EpochInv(Step(y, e)) && y.core.epoch <= Step(y, e).core.epoch
  {
    hide Step;
    EpochStep(y, e);
  }

  lemma AnnouncedPositive(y: Pane, e: Event)
    requires EpochInv(y)
    ensures Positive(StepShapes(y, e))
  {
    hide CoreOk, Lists, PtyFails, SourceOk;
  }

  /** On every run. */
  lemma {:induction false} ShapesRun(initial: Size, limit: int, generation: string, withCheckpoint: bool, events: seq<Event>)
    ensures ShapesInv(RunOf(initial, limit, generation, withCheckpoint, events), initial)
  {
    if events != [] {
      hide ShapesInv, Step;
      ShapesRun(initial, limit, generation, withCheckpoint, events[..|events| - 1]);
      ShapesStep(RunOf(initial, limit, generation, withCheckpoint, events[..|events| - 1]), events[|events| - 1], initial);
    }
  }

  lemma AddShape(shapes: seq<Shape>, more: seq<Shape>, before: nat, after: nat)
    requires shapes != [] && UpTo(shapes, before) && shapes[|shapes| - 1].epoch == before <= after
    requires more == [] ==> after == before
    requires more != [] ==> |more| == 1 && more[0].epoch == after
    ensures UpTo(shapes + more, after) && (shapes + more)[|shapes + more| - 1].epoch == after
  {}

  /** Only a finished resize changes the epoch, to the one it announces. */
  lemma EpochSame(y: Pane, e: Event)
    ensures StepShapes(y, e) == [] ==> Step(y, e).core.epoch == y.core.epoch
    ensures StepShapes(y, e) != [] ==> StepShapes(y, e) == [Shape(Step(y, e).core.epoch, y.core.size)]
    ensures StepShapes(y, e) != [] ==> Step(y, e).core.size == y.core.size && y.resizing.Some? && Step(y, e).resizing.None?
  {
    hide CoreOk, CanResume, Lists, Fanout;
  }

  lemma AgreeSnoc(shapes: seq<Shape>, s: Shape)
    requires shapes != [] && UpTo(shapes, shapes[|shapes| - 1].epoch) && s.epoch >= shapes[|shapes| - 1].epoch
    ensures OneSizePerEpoch(shapes + [s])
       <==> OneSizePerEpoch(shapes) && (s.epoch > shapes[|shapes| - 1].epoch || s.size == shapes[|shapes| - 1].size)
  {
    var n := |shapes|;
    var more := shapes + [s];
    assert more[n] == s && more[n - 1] == shapes[n - 1];
    if OneSizePerEpoch(shapes) && (s.epoch > shapes[n - 1].epoch || s.size == shapes[n - 1].size) {
      forall i, j | 0 <= i < |more| && 0 <= j < |more| && more[i].epoch == more[j].epoch ensures more[i].size == more[j].size {
        assert i < n ==> more[i] == shapes[i];
        assert j < n ==> more[j] == shapes[j];
      }
    }
    if OneSizePerEpoch(more) {
      forall i, j | 0 <= i < n && 0 <= j < n && shapes[i].epoch == shapes[j].epoch ensures shapes[i].size == shapes[j].size {
        assert more[i] == shapes[i] && more[j] == shapes[j];
      }
    }
  }

  /** The initial size has no announced epoch, so it can clash with none. */
  lemma InitialSizeClashesWithNone(y: Pane, initial: Size)
    requires ShapesInv(y, initial)
    ensures OneSizePerEpoch(Shapes(initial, y.log)) <==> OneSizePerEpoch(Announced(y.log))
  {
    var all, shapes := Shapes(initial, y.log), Announced(y.log);
    hide Announced, EpochInv, UpTo;
    forall i | 0 <= i < |shapes| ensures all[i + 1] == shapes[i] && all[i + 1].epoch > 0 {}
    forall i | 0 < i < |all| ensures all[i] == shapes[i - 1] {}
    if OneSizePerEpoch(all) {
      forall i, j | 0 <= i < |shapes| && 0 <= j < |shapes| && shapes[i].epoch == shapes[j].epoch ensures shapes[i].size == shapes[j].size {
        assert all[i + 1] == shapes[i] && all[j + 1] == shapes[j];
      }
    }
  }

  /** The size the pane was last changed to without an announcement since: by a resize
      under way or failed, or by one without an epoch. */
  function ChangedTo(initial: Size, limit: int, generation: string, withCheckpoint: bool, events: seq<Event>): Option<Size>
  {
    if events == [] then None
    else
      var y := RunOf(initial, limit, generation, withCheckpoint, events[..|events| - 1]);
      var z := Step(y, events[|events| - 1]);
      if StepShapes(y, events[|events| - 1]) != [] then None
      else if z.core.size != y.core.size then Some(z.core.size)
      else ChangedTo(initial, limit, generation, withCheckpoint, events[..|events| - 1])
  }

  /** No change, or one back to the size announced. */
  predicate Unchanged(changed: Option<Size>, announced: Size)
  {
    changed == None || changed == Some(announced)
  }

  lemma {:induction false} SizeOfRun(initial: Size, limit: int, generation: string, withCheckpoint: bool, events: seq<Event>)
    ensures var y := RunOf(initial, limit, generation, withCheckpoint, events);
            var changed := ChangedTo(initial, limit, generation, withCheckpoint, events);
            y.core.size == if changed == None then LastShape(initial, y.log).size else changed.value
  {
    hide Step, Announced, StepShapes;
    if events == [] {
      hide Exec;
      FreshSize(initial, limit, generation, withCheckpoint);
    } else {
      var before, e := events[..|events| - 1], events[|events| - 1];
      var y := RunOf(initial, limit, generation, withCheckpoint, before);
      SizeOfRun(initial, limit, generation, withCheckpoint, before);
      EpochSame(y, e);
      StepAnnounces(y, e);
      if StepShapes(y, e) == [] {
        Empty(Announced(y.log));
      }
    }
  }

  lemma FreshSize(initial: Size, limit: int, generation: string, withCheckpoint: bool)
    ensures RunOf(initial, limit, generation, withCheckpoint, []) == NewPane(initial, limit, generation, withCheckpoint)
    ensures LastShape(initial, NewPane(initial, limit, generation, withCheckpoint).log).size == initial
  {}

  /** If the step finishes a resize, its epoch is new, or the size was not changed
      since it was last announced. */
  predicate Agrees(y: Pane, e: Event, changed: Option<Size>, initial: Size)
  {
    StepShapes(y, e) != [] ==> y.resizing.value.epoch > y.core.epoch || Unchanged(changed, LastShape(initial, y.log).size)
  }

  predicate AllAgree(initial: Size, limit: int, generation: string, withCheckpoint: bool, events: seq<Event>)
  {
    events == [] ||
    (&& AllAgree(initial, limit, generation, withCheckpoint, events[..|events| - 1])
     && Agrees(RunOf(initial, limit, generation, withCheckpoint, events[..|events| - 1]), events[|events| - 1],
               ChangedTo(initial, limit, generation, withCheckpoint, events[..|events| - 1]), initial))
  }

  lemma AgreesStep(y: Pane, e: Event, changed: Option<Size>, initial: Size)
    requires ShapesInv(y, initial)
    requires y.core.size == if changed == None then LastShape(initial, y.log).size else changed.value
    ensures OneSizePerEpoch(Shapes(initial, Step(y, e).log)) <==> OneSizePerEpoch(Shapes(initial, y.log)) && Agrees(y, e, changed, initial)
  {
    hide Step, Announced, OneSizePerEpoch, Enabled, PtyFails, Positive;
    StepAnnounces(y, e);
    EpochSame(y, e);
    EpochOnly(y, e, initial);
    var shapes := Shapes(initial, y.log);
    if StepShapes(y, e) == [] {
      assert Announced(y.log) + [] == Announced(y.log);
    } else {
      AgreeSnoc(shapes, StepShapes(y, e)[0]);
      assert Shapes(initial, Step(y, e).log) == shapes + [StepShapes(y, e)[0]];
    }
  }

  /** On every run the announcements keep one size per epoch exactly if every resize
      that finished had a new epoch, or came while no resize that failed or carried no
      epoch had changed the size since it was last announced. */
  lemma {:induction false} AnnouncementAgrees(initial: Size, limit: int, generation: string, withCheckpoint: bool, events: seq<Event>)
    ensures OneSizePerEpoch(Announced(RunOf(initial, limit, generation, withCheckpoint, events).log))
       <==> AllAgree(initial, limit, generation, withCheckpoint, events)
  {
    if events != [] {
      hide Step, ShapesInv, OneSizePerEpoch, Announced, Agrees, ChangedTo;
      var before, e := events[..|events| - 1], events[|events| - 1];
      var y := RunOf(initial, limit, generation, withCheckpoint, before);
      AnnouncementAgrees(initial, limit, generation, withCheckpoint, before);
      ShapesRun(initial, limit, generation, withCheckpoint, before);
      SizeOfRun(initial, limit, generation, withCheckpoint, before);
      ShapesStep(y, e, initial);
      AgreesStep(y, e, ChangedTo(initial, limit, generation, withCheckpoint, before), initial);
      InitialSizeClashesWithNone(y, initial);
      InitialSizeClashesWithNone(Step(y, e), initial);
    }
  }

  // ---- runs of epoch-carrying resizes that the device accepts ----------------------------

  predicate CleanEvent(e: Event)
  {
    !e.LegacyResize? && (e.FinishResize? ==> e.ptyOk)
  }

  predicate Clean(events: seq<Event>)
  {
    forall i :: 0 <= i < |events| ==> CleanEvent(events[i])
  }

  /** Between resizes the pane has the shape it last announced, and a resize under
      way with the same epoch has not changed it. */
  ghost predicate Settled(y: Pane, initial: Size)
  {
    && (y.resizing.None? || y.resizing.value.epoch == y.core.epoch ==> y.core.size == LastShape(initial, y.log).size)
    && (y.resizing.Some? && (y.resizing.value.pty == SameSize || y.resizing.value.pty == PaneIsClosing) ==>
          y.core.size == LastShape(initial, y.log).size)
    && (y.resizing.Some? && (y.resizing.value.pty == Resizing || y.resizing.value.pty == NoProcess) ==>
          y.core.size != LastShape(initial, y.log).size)
  }

  lemma SettledFinish(y: Pane, e: Event, initial: Size)
    requires ShapesInv(y, initial) && Settled(y, initial) && Enabled(y, e) && e.FinishResize? && e.ptyOk
    ensures Settled(Step(y, e), initial)
  {
    StepAnnounces(y, e);
    hide Lists, Fanout, Announced, UpTo;
    if StepShapes(y, e) != [] {
      EpochSame(y, e);
    }
  }

  lemma SettledOther(y: Pane, e: Event, initial: Size)
    requires ShapesInv(y, initial) && Settled(y, initial) && Enabled(y, e) && CleanEvent(e) && !e.FinishResize?
    ensures Settled(Step(y, e), initial)
  {
    StepAnnounces(y, e);
    hide Lists, Fanout, Announced, UpTo, CoreOk, CanResume;
    assert LastShape(initial, Step(y, e).log) == LastShape(initial, y.log);
  }

  /** On such a run equal epochs mean equal sizes, in every announcement. */
  lemma EpochIdentifiesSize(initial: Size, limit: int, generation: string, withCheckpoint: bool, events: seq<Event>)
    requires Clean(events)
    ensures OneSizePerEpoch(Announced(RunOf(initial, limit, generation, withCheckpoint, events).log))
  {
    hide RunOf, AllAgree, OneSizePerEpoch, Announced;
    SettledRun(initial, limit, generation, withCheckpoint, events);
    AnnouncementAgrees(initial, limit, generation, withCheckpoint, events);
  }

  lemma {:induction false} SettledRun(initial: Size, limit: int, generation: string, withCheckpoint: bool, events: seq<Event>)
    requires Clean(events)
    ensures Settled(RunOf(initial, limit, generation, withCheckpoint, events), initial)
    ensures AllAgree(initial, limit, generation, withCheckpoint, events)
  {
    if events != [] {
      hide ShapesInv, Settled, Step, Agrees, CleanEvent, ChangedTo;
      var before, e := events[..|events| - 1], events[|events| - 1];
      SettledRun(initial, limit, generation, withCheckpoint, before);
      ShapesRun(initial, limit, generation, withCheckpoint, before);
      SizeOfRun(initial, limit, generation, withCheckpoint, before);
      assert CleanEvent(e);
      SettledStep(RunOf(initial, limit, generation, withCheckpoint, before), e,
                  ChangedTo(initial, limit, generation, withCheckpoint, before), initial);
    }
  }

  lemma SettledStep(y: Pane, e: Event, changed: Option<Size>, initial: Size)
    requires ShapesInv(y, initial) && Settled(y, initial) && CleanEvent(e)
    requires y.core.size == if changed == None then LastShape(initial, y.log).size else changed.value
    ensures Settled(Step(y, e), initial) && Agrees(y, e, changed, initial)
  {
    hide ShapesInv, Lists, Fanout, Announced, Next;
    if Enabled(y, e) {
      if e.FinishResize? {
        SettledFinish(y, e, initial);
        SettledAgrees(y, e, changed, initial);
      } else {
        SettledOther(y, e, initial);
      }
      hide Settled;
    }
  }

  /** The device accepted it, so an unchanged epoch means an unchanged size. */
  lemma SettledAgrees(y: Pane, e: Event, changed: Option<Size>, initial: Size)
    requires ShapesInv(y, initial) && Settled(y, initial)
    requires y.core.size == if changed == None then LastShape(initial, y.log).size else changed.value
    ensures Agrees(y, e, changed, initial)
  {
    hide Lists, Announced, UpTo, Positive;
  }

  // ---- where it fails -----------------------------------------------------------------

  /** On every run a new client is told the shape last announced exactly if the size was
      not changed since by a resize under way or failed, or by one without an epoch.
      When the device accepts all and every resize carries an epoch, that is exactly
      while no resize that changes the size is between its two sections. */
  lemma ReplyShape(initial: Size, limit: int, generation: string, withCheckpoint: bool, events: seq<Event>,
                   request: SyncRequest, created: Option<string>, memoryOk: bool)
    requires var y := RunOf(initial, limit, generation, withCheckpoint, events);
             CoreOk(y.core) && AttachOf(y.core, request, created, memoryOk).1.Attached?
    ensures var y := RunOf(initial, limit, generation, withCheckpoint, events);
            var reply := AttachOf(y.core, request, created, memoryOk).1.reply;
            var told := Shape(reply.epoch, reply.size) == LastShape(initial, y.log);
            && (told <==> Unchanged(ChangedTo(initial, limit, generation, withCheckpoint, events), LastShape(initial, y.log).size))
            && (Clean(events) ==>
                  (told <==> !(y.resizing.Some? && (y.resizing.value.pty == Resizing || y.resizing.value.pty == NoProcess))))
  {
    hide AllAgree, ChangedTo, RunOf, CoreOk, CanResume, Announced, OneSizePerEpoch, UpTo, Positive, EpochInv;
    ShapesRun(initial, limit, generation, withCheckpoint, events);
    SizeOfRun(initial, limit, generation, withCheckpoint, events);
    if Clean(events) {
      SettledRun(initial, limit, generation, withCheckpoint, events);
    }
  }

  lemma {:induction false} ExecAppend(y: Pane, a: seq<Event>, b: seq<Event>)
    ensures Exec(y, a + b) == Exec(Exec(y, a), b)
    decreases |b|
  {
    if b == [] {
      assert a + b == a;
    } else {
      ExecAppend(y, a, b[..|b| - 1]);
      assert (a + b)[..|a + b| - 1] == a + b[..|b| - 1];
    }
  }

  lemma ExecTwo(y: Pane, e: Event, f: Event)
    ensures Exec(y, [e, f]) == Step(Step(y, e), f)
  {
    assert [e, f][..1] == [e] && [e][..0] == [];
    assert Exec(y, [e]) == Step(y, e);
  }

  function Resize(epoch: nat, size: Size, ptyOk: bool): seq<Event>
  {
    [BeginResize(epoch, size, false, None, true), FinishResize(ptyOk, 0, [])]
  }

  /** After a failed device resize, a resize with the old epoch can announce a second
      size for it: the failed one leaves its size with the old epoch, which the
      check for conflicts then takes for that epoch's own. */
  lemma FailedResizeReusesEpoch(a: Size, b: Size)
    requires a != b
    ensures var y := RunOf(a, 1, "", false, Resize(1, a, true) + Resize(2, b, false) + Resize(1, b, true));
            Announced(y.log) == [Shape(1, a), Shape(1, b)] && !OneSizePerEpoch(Announced(y.log))
  {
    var start := NewPane(a, 1, "", false);
    var y1 := start.(core := start.core.(epoch := 1), log := [Mark(ResizeApplied(1, a), false)]);
    var y2 := y1.(core := y1.core.(size := b));
    assert [] + y1.log == y1.log;
    OneResize(start, 1, a, true);
    OneResize(y1, 2, b, false);
    OneResize(y2, 1, b, true);
    hide Exec, Announced, Step;
    ExecAppend(start, Resize(1, a, true), Resize(2, b, false));
    ExecAppend(start, Resize(1, a, true) + Resize(2, b, false), Resize(1, b, true));
    var m1, m2 := Mark(ResizeApplied(1, a), false), Mark(ResizeApplied(1, b), false);
    AnnouncedOne(m1);
    AnnouncedOne(m2);
    AnnouncedAppend([m1], [m2]);
    var shapes := [Shape(1, a)] + [Shape(1, b)];
    assert shapes[0] == Shape(1, a) && shapes[1] == Shape(1, b);
  }

  /** A resize of a pane without clients, uninterrupted. */
  lemma OneResize(y: Pane, epoch: nat, size: Size, ptyOk: bool)
    requires y.viewers == [] && OutputFree(y) && y.owner == None && !y.core.closing && !y.core.exited && y.core.checkpoint == None
    requires VerdictOf(y.core, epoch, size, false, false) == Proceed
    ensures Exec(y, Resize(epoch, size, ptyOk))
         == if ptyOk || size == y.core.size
            then y.(core := y.core.(size := size, epoch := epoch), log := y.log + [Mark(ResizeApplied(epoch, size), false)])
            else y.(core := y.core.(size := size))
  {
    hide Exec, VerdictOf, CoreOk, CaptureOf, LimitOf, DeliverStep, AttachStep;
    ExecTwo(y, BeginResize(epoch, size, false, None, true), FinishResize(ptyOk, 0, []));
  }

  /** An attach that meets a resize between its sections: the size is told under an
      epoch that was announced with another size. */
  lemma AttachBetweenSections(a: Size, b: Size, request: SyncRequest)
    requires a != b
    ensures var y := RunOf(a, 1, "g", false, Resize(1, a, true) + [BeginResize(2, b, false, None, true), Attach(request, None, true)]);
            && |y.viewers| == 1 && Shape(y.viewers[0].reply.epoch, y.viewers[0].reply.size) == Shape(1, b)
            && Announced(y.log) == [Shape(1, a)]
  {
    var start := NewPane(a, 1, "g", false);
    var begin, attach := BeginResize(2, b, false, None, true), Attach(request, None, true);
    var y := start.(core := start.core.(epoch := 1), log := [Mark(ResizeApplied(1, a), false)]);
    assert [] + y.log == y.log;
    OneResize(start, 1, a, true);
    ExecTwo(y, begin, attach);
    ExecAppend(start, Resize(1, a, true), [begin, attach]);
    AnnouncedOne(Mark(ResizeApplied(1, a), false));
    hide Exec, Announced, SnapshotOf, SnapshotFromOf, CanResume;
    assert Step(y, begin) == y.(core := y.core.(size := b), resizing := Some(PendingResize(2, None, Resizing)));
  }

  /** Two clients attach, the first sets a size with an epoch, and the second takes it
      over: it repeats that size in a resize without an epoch and then sends another. */
  lemma SecondClientTakesOver(a: Size, b: Size, request: SyncRequest)
    requires a != b
    ensures var attach := Attach(request, None, true);
            var claim := [BeginResize(1, a, false, Some(0), true), FinishResize(true, 0, [0, 1])];
            var take := [LegacyResize(EmptyEpoch, a, Some(1), true, true), LegacyResize(EmptyEpoch, b, Some(1), true, true)];
            var y := RunOf(a, 1, "g", false, [attach, attach] + claim);
            var z := RunOf(a, 1, "g", false, [attach, attach] + claim + take);
            && y.core.epoch == 1 && y.core.size == a && y.owner == Some(0)
            && z.core.epoch == 1 && z.core.size == b && z.owner == Some(1)
  {
    var attach := Attach(request, None, true);
    var claim := [BeginResize(1, a, false, Some(0), true), FinishResize(true, 0, [0, 1])];
    var repeated := LegacyResize(EmptyEpoch, a, Some(1), true, true);
    var take := [repeated, LegacyResize(EmptyEpoch, b, Some(1), true, true)];
    var start := NewPane(a, 1, "g", false);
    hide Exec, Step;
    var one := Step(start, attach);
    var two := Step(one, attach);
    AttachAlone(start, attach);
    AttachAlone(one, attach);
    ExecTwo(start, attach, attach);
    ClaimSize(two, a);
    ExecAppend(start, [attach, attach], claim);
    ExecAppend(start, [attach, attach] + claim, take);
    var y := Exec(two, claim);
    assert Repeats(y, repeated);
    RepeatedSizeTakesOver(y, repeated, b, EmptyEpoch, true);
  }

  lemma AttachAlone(y: Pane, e: Event)
    requires e.Attach? && CoreOk(y.core) && y.core.generation != "" && !y.core.closing && y.core.checkpoint == None
    ensures var z := Step(y, e);
            && |z.viewers| == |y.viewers| + 1 && z.viewers[..|y.viewers|] == y.viewers && z.viewers[|y.viewers|].attached
            && z.core == y.core.(hasAttached := true)
            && z.owner == y.owner && z.resizing == y.resizing && z.todo == y.todo
  {
    hide CanResume, SnapshotOf, SnapshotFromOf;
  }

  lemma ClaimSize(y: Pane, a: Size)
    requires |y.viewers| == 2 && y.viewers[0].attached && y.viewers[1].attached && OutputFree(y) && y.owner == None
    requires y.core.size == a && y.core.epoch == 0 && !y.core.closing
    ensures var z := Exec(y, [BeginResize(1, a, false, Some(0), true), FinishResize(true, 0, [0, 1])]);
            && z.core.epoch == 1 && z.core.size == a && z.owner == Some(0) && z.resizing.None?
            && z.viewers == y.viewers && !z.core.closing
  {
    hide Exec, CoreOk, Fanout;
    ExecTwo(y, BeginResize(1, a, false, Some(0), true), FinishResize(true, 0, [0, 1]));
  }

  /** Exactly when a resize without an epoch is carried out: from anyone before an epoch is
      in force, then from the owner, and, if its epoch is empty and not white space, also if
      it repeats the current size. */
  lemma LegacyExactly(y: Pane, path: LegacyPath, wanted: Size, source: Option<nat>, checkpointOk: bool, ptyOk: bool)
    requires y.resizing.None? && SourceOk(y, source)
    ensures Enabled(y, LegacyResize(path, wanted, source, checkpointOk, ptyOk)) <==>
              || y.core.epoch == 0 || (source.Some? && y.owner == source)
              || (path == EmptyEpoch && wanted == y.core.size)
  {}
}
