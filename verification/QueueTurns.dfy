/** The writer's turns on every run: whatever other threads do to a stream, what is
    sent is cut into turns of bounded size, and no turn passes without sending. */
module QueueTurns {
  import opened Bytes
  import opened QueueStream
  import opened QueueRuns
  import opened QueueOrder
  import opened QueueWriter
  import opened QueueProgress

  /** The entries sent in each turn so far, after one more step. */
  function TurnsAfter(y: System, e: Event, turns: seq<seq<Outbound>>): seq<seq<Outbound>>
  {
    if e.StartTurn? && Enabled(y, e) then turns + [[]]
    else if e.Pop? && Pops(y) && turns != []
    then turns[..|turns| - 1] + [turns[|turns| - 1] + [y.stream.buffer[0]]]
    else turns
  }

  /** The writer is in a turn and its next pop sends an entry. */
  predicate Pops(y: System)
  {
    y.writer.InTurn? && CanPop(y.stream, y.writer.target, y.writer.written)
  }

  function TurnsOf(sub: Subscription, errors: ErrorControls, events: seq<Event>): seq<seq<Outbound>>
  {
    if events == [] then []
    else
      TurnsAfter(Exec(Start(sub, errors), events[..|events| - 1]), events[|events| - 1],
                 TurnsOf(sub, errors, events[..|events| - 1]))
  }

  ghost predicate AllWithinBudget(turns: seq<seq<Outbound>>)
  {
    forall i :: 0 <= i < |turns| ==> WithinBudget(turns[i])
  }

  /** The turn in progress, as the writer counts it. */
  ghost predicate Counted(w: Writer, turns: seq<seq<Outbound>>)
  {
    w.InTurn? ==>
      && turns != [] && |turns[|turns| - 1]| == w.count && SumCost(turns[|turns| - 1]) == w.written
  }

  /** While the stream serves, no turn so far was empty; one in progress may only
      be so as long as its first pop will succeed. */
  ghost predicate NoneEmpty(y: System, turns: seq<seq<Outbound>>)
  {
    Serving(y.stream) ==>
      && (forall i :: 0 <= i < |turns| - 1 ==> turns[i] != [])
      && (turns != [] && turns[|turns| - 1] == [] ==> FreshTurn(y))
  }

  ghost predicate TurnsInv(y: System, turns: seq<seq<Outbound>>)
  {
    && Flatten(turns) == y.popped
    && AllWithinBudget(turns)
    && Counted(y.writer, turns)
    && NoneEmpty(y, turns)
  }

  lemma FlattenLast(turns: seq<seq<Outbound>>, e: Outbound)
    requires turns != []
    ensures Flatten(turns[..|turns| - 1] + [turns[|turns| - 1] + [e]]) == Flatten(turns) + [e]
  {
    var front, last := turns[..|turns| - 1], turns[|turns| - 1];
    FlattenSnoc(front, last);
    FlattenSnoc(front, last + [e]);
    Uncons(turns);
    Assoc(Flatten(front), last, [e]);
  }

  lemma NothingWithinBudget()
    ensures WithinBudget([]) && SumCost([]) == 0
  {}

  lemma TurnsPop(y: System, turns: seq<seq<Outbound>>)
    requires TurnsInv(y, turns) && Pops(y)
    ensures TurnsInv(Step(y, Pop), TurnsAfter(y, Pop, turns))
  {
    hide SumCost, WithinBudget, CanPop, PopSection, Flatten, FreshTurn;
    PopGuard(y.stream, y.writer.target, y.writer.written);
    var e, last := y.stream.buffer[0], turns[|turns| - 1];
    FlattenLast(turns, e);
    BudgetStep(last, e);
    assert TurnsAfter(y, Pop, turns)[|turns| - 1] == last + [e];
    PopServes(y);
  }

  lemma PopServes(y: System)
    requires Pops(y)
    ensures Step(y, Pop) == PopStep(y)
    ensures Serving(PopStep(y).stream) <==> Serving(y.stream)
  {}

  /** Every other step leaves the writer's count alone, or ends or starts a turn. */
  lemma TurnsOther(y: System, e: Event, turns: seq<seq<Outbound>>)
    requires Reachable(y) && TurnsInv(y, turns) && !(e.Pop? && Pops(y))
    ensures TurnsInv(Step(y, e), TurnsAfter(y, e, turns))
  {
    hide SumCost, WithinBudget, CanPop, Flatten, FreshTurn, Step;
    NotPopped(y, e);
    LifeStep(y, e);
    if e.StartTurn? && Enabled(y, e) {
      FlattenSnoc(turns, []);
      Empty(Flatten(turns));
      NothingWithinBudget();
      FreshStart(y);
      assert Serving(y.stream) && turns != [] && turns[|turns| - 1] == [] ==> FreshTurn(y);
      FreshIsInTurn(y);
    } else if Serving(Step(y, e).stream) && turns != [] && turns[|turns| - 1] == [] {
      if e.Pop? {
        FreshIsInTurn(y);
      } else {
        FreshStays(y, e);
      }
    }
  }

  lemma FreshIsInTurn(y: System)
    ensures FreshTurn(y) ==> y.writer.InTurn? && Pops(y)
  {}

  lemma NotPopped(y: System, e: Event)
    requires !(e.Pop? && Pops(y))
    ensures Step(y, e).popped == y.popped
    ensures Step(y, e).writer.InTurn? ==> Step(y, e).writer == y.writer || (e.StartTurn? && Enabled(y, e))
    ensures e.StartTurn? && Enabled(y, e) ==> y.writer == Idle && Step(y, e).writer.count == 0 && Step(y, e).writer.written == 0
  {
    hide CanPop;
  }

  /** On every run the entries sent are the turns' entries, turn by turn; every turn,
      also the one in progress, is within its budget: at most 512 KiB, or a single
      larger entry. While the stream serves, no turn that has ended was empty. */
  lemma {:induction false} TurnsAreBounded(sub: Subscription, errors: ErrorControls, events: seq<Event>)
    requires ErrorsFit(errors)
    ensures TurnsInv(Exec(Start(sub, errors), events), TurnsOf(sub, errors, events))
  {
    if events != [] {
      var before, e := events[..|events| - 1], events[|events| - 1];
      var y := Exec(Start(sub, errors), before);
      TurnsAreBounded(sub, errors, before);
      hide TurnsInv, Step, TurnsAfter, Pops;
      assert Reachable(y);
      if e.Pop? && Pops(y) {
        TurnsPop(y, TurnsOf(sub, errors, before));
      } else {
        TurnsOther(y, e, TurnsOf(sub, errors, before));
      }
    }
  }
}
