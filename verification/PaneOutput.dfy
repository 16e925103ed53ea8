/** Every interleaving of the threads that touch one pane's output: the reader
    that captures it under the pane's mutex and delivers it later under the output
    mutex, attaching and detaching clients, resizes, and the clients' writers. */
module PaneOutput {
  import opened Bytes
  import opened PaneHistory
  import opened CheckpointBoundary
  import opened Geometry
  import opened Subscriber
  import opened TerminalPane

  /** A client ever attached: what it asked for, what it was told, and where in
      the pane's log that was. */
  datatype Viewer = Viewer(client: Client, attached: bool, request: SyncRequest, reply: HistoryReply, pos: nat)

  /** A resize between its two sections. */
  datatype PendingResize = PendingResize(epoch: nat, source: Option<nat>, pty: Pty)

  /** `todo` is what the holder of the output mutex still has to enqueue; `log`
      records the output captured and the resizes announced, in order. */
  datatype Pane = Pane(
    core: Core, viewers: seq<Viewer>, todo: seq<(nat, PaneOutbound)>,
    owner: Option<nat>, resizing: Option<PendingResize>, log: seq<Token>)

  datatype Event =
    | Capture(data: seq<byte>, parserOk: bool, order: seq<nat>)
    | Deliver
    | Attach(request: SyncRequest, created: Option<string>, memoryOk: bool)
    | Detach(viewer: nat)
    | Receive(viewer: nat)
    | Account(viewer: nat)
    | CloseClient(viewer: nat)
    | Notify(viewer: nat, text: seq<byte>, bytes: nat, closeAfter: bool)
    | BeginResize(epoch: nat, wanted: Size, claim: bool, source: Option<nat>, checkpointOk: bool)
    | FinishResize(ptyOk: bool, bytes: nat, order: seq<nat>)
    | LegacyResize(path: LegacyPath, wanted: Size, source: Option<nat>, checkpointOk: bool, ptyOk: bool)
    | SetLimit(limit: int, checkpointOk: bool)
    | MarkExited
    | ClosePane

  /** Which of the two checks a resize without an epoch meets: one whose epoch is empty
      goes to applyLegacyInputResize, one whose epoch is only white space to the branch
      of applyResize. */
  datatype LegacyPath = EmptyEpoch | BlankEpoch

  function NewPane(size: Size, limit: int, generation: string, withCheckpoint: bool): Pane
  {
    Pane(Core(History([], 0, 0, 0), if withCheckpoint then Some(NEW_ENGINE) else None, generation, limit, size, 0, false, false, false),
         [], [], None, None, [])
  }

  /** `order` lists the attached clients, in the order the map is walked. */
  predicate Lists(order: seq<nat>, viewers: seq<Viewer>)
  {
    && (forall i, j :: 0 <= i < j < |order| ==> order[i] != order[j])
    && (forall i :: 0 <= i < |order| ==> order[i] < |viewers| && viewers[order[i]].attached)
    && (forall v :: 0 <= v < |viewers| && viewers[v].attached ==> v in order)
  }

  /** No one holds the output mutex. */
  predicate OutputFree(y: Pane)
  {
    y.todo == [] && y.resizing.None?
  }

  /** A resize is handled while the client it comes from is attached. */
  predicate SourceOk(y: Pane, source: Option<nat>)
  {
    source.Some? ==> source.value < |y.viewers| && y.viewers[source.value].attached
  }

  /** Once an epoch is in force only its owner may resize without one; a resize with an
      empty epoch that repeats the current size is let through. */
  predicate LegacyAllowed(y: Pane, path: LegacyPath, wanted: Size, source: Option<nat>)
  {
    var fromOwner := y.owner.Some? && y.owner == source;
    if path == EmptyEpoch then LegacyAccepted(y.core, wanted, fromOwner) else y.core.epoch == 0 || fromOwner
  }

  predicate Enabled(y: Pane, e: Event)
  {
    match e
    case Capture(data, _, order) => OutputFree(y) && Captures(y.core, data) && Lists(order, y.viewers)
    case Deliver => y.todo != []
    case Attach(_, _, _) => CoreOk(y.core)
    case Detach(v) => v < |y.viewers| && y.viewers[v].attached && y.resizing.None?
    case Receive(v) => v < |y.viewers|
    case Account(v) => v < |y.viewers|
    case CloseClient(v) => v < |y.viewers|
    case Notify(v, _, _, _) => v < |y.viewers|
    case BeginResize(epoch, wanted, claim, source, _) =>
      OutputFree(y) && SourceOk(y, source) && VerdictOf(y.core, epoch, wanted, claim, y.owner.Some? && y.owner != source) == Proceed
    case FinishResize(_, _, order) => y.resizing.Some? && Lists(order, y.viewers)
    case LegacyResize(path, wanted, source, _, _) => y.resizing.None? && SourceOk(y, source) && LegacyAllowed(y, path, wanted, source)
    case SetLimit(_, _) => true
    case MarkExited => true
    case ClosePane => true
  }

  /** Every message for every client, client by client. */
  function Fanout(order: seq<nat>, ms: seq<PaneOutbound>): seq<(nat, PaneOutbound)>
  {
    if order == [] then [] else For(order[0], ms) + Fanout(order[1..], ms)
  }

  function For(v: nat, ms: seq<PaneOutbound>): seq<(nat, PaneOutbound)>
  {
    if ms == [] then [] else [(v, ms[0])] + For(v, ms[1..])
  }

  function SetClient(y: Pane, v: nat, c: Client): Pane
    requires v < |y.viewers|
  {
    y.(viewers := y.viewers[v := y.viewers[v].(client := c)])
  }

  function FinishResizeStep(y: Pane, ptyOk: bool, bytes: nat, order: seq<nat>): Pane
    requires y.resizing.Some?
  {
    var r := y.resizing.value;
    if PtyFails(r.pty, ptyOk) then y.(resizing := None)
    else
      var notice := ResizeApplied(r.epoch, y.core.size);
      y.(core := y.core.(epoch := r.epoch), owner := if r.source.Some? then r.source else y.owner, resizing := None,
         todo := Fanout(order, [Control(notice, bytes, false)]), log := y.log + [Mark(notice, false)])
  }

  function AttachStep(y: Pane, request: SyncRequest, created: Option<string>, memoryOk: bool): Pane
    requires CoreOk(y.core)
  {
    var (core, outcome) := AttachOf(y.core, request, created, memoryOk);
    match outcome
    case Refused(_) => y.(core := core)
    case Attached(reply) => y.(core := core, viewers := y.viewers + [Viewer(NEW_CLIENT, true, request, reply, |y.log|)])
  }

  function Next(y: Pane, e: Event): Pane
    requires Enabled(y, e)
  {
    match e
    case Capture(data, parserOk, order) =>
      y.(core := CaptureOf(y.core, data, parserOk),
         todo := Fanout(order, AsOutput(Pieces(data, HISTORY_CHUNK_MAX))), log := y.log + ByteTokens(data))
    case Deliver => DeliverStep(y)
    case Attach(request, created, memoryOk) => AttachStep(y, request, created, memoryOk)
    case Detach(v) =>
      y.(viewers := y.viewers[v := y.viewers[v].(attached := false)], owner := if y.owner == Some(v) then None else y.owner)
    case Receive(v) => SetClient(y, v, ClientStep(y.viewers[v].client, Subscriber.Receive))
    case Account(v) => SetClient(y, v, ClientStep(y.viewers[v].client, Subscriber.Account))
    case CloseClient(v) => SetClient(y, v, ClientStep(y.viewers[v].client, Subscriber.CloseClient))
    case Notify(v, text, bytes, closeAfter) =>
      SetClient(y, v, EnqueueClient(y.viewers[v].client, Control(OtherNotice(text), bytes, closeAfter)))
    case BeginResize(epoch, wanted, claim, source, checkpointOk) =>
      var (core, pty) := GeometryOf(y.core, wanted, checkpointOk);
      y.(core := core, resizing := Some(PendingResize(epoch, source, pty)))
    case FinishResize(ptyOk, bytes, order) => FinishResizeStep(y, ptyOk, bytes, order)
    case LegacyResize(_, wanted, source, checkpointOk, ptyOk) =>
      var (core, pty) := GeometryOf(y.core, wanted, checkpointOk);
      y.(core := core, owner := if !PtyFails(pty, ptyOk) && source.Some? then source else y.owner)
    case SetLimit(limit, checkpointOk) => y.(core := LimitOf(y.core, limit, checkpointOk))
    case MarkExited => y.(core := y.core.(exited := true))
    case ClosePane => y.(core := CloseOf(y.core))
  }

  function DeliverStep(y: Pane): Pane
    requires y.todo != []
  {
    var (v, m) := y.todo[0];
    var z := y.(todo := y.todo[1..]);
    if v < |y.viewers| then SetClient(z, v, EnqueueClient(y.viewers[v].client, m)) else z
  }

  function Step(y: Pane, e: Event): Pane
  {
    if Enabled(y, e) then Next(y, e) else y
  }

  function Exec(y: Pane, events: seq<Event>): Pane
  {
    if events == [] then y else Step(Exec(y, events[..|events| - 1]), events[|events| - 1])
  }

  // ---- what a client shares with the pane's log ---------------------------------------

  /** Output and resizes are common to all clients; other controls are not. */
  predicate IsShared(t: Token)
  {
    t.Byte? || (t.Mark? && t.notice.ResizeApplied?)
  }

  function Shared(ts: seq<Token>): seq<Token>
  {
    if ts == [] then []
    else Shared(ts[..|ts| - 1]) + (if IsShared(ts[|ts| - 1]) then [ts[|ts| - 1]] else [])
  }

  /** The bytes of a token sequence. */
  function BytesOf(ts: seq<Token>): seq<byte>
  {
    if ts == [] then []
    else BytesOf(ts[..|ts| - 1]) + (if ts[|ts| - 1].Byte? then [ts[|ts| - 1].b] else [])
  }

  lemma {:induction false} SharedAppend(a: seq<Token>, b: seq<Token>)
    ensures Shared(a + b) == Shared(a) + Shared(b)
    decreases |b|
  {
    if b == [] {
      assert a + b == a && Shared(a) + [] == Shared(a);
    } else {
      var front, t := b[..|b| - 1], b[|b| - 1];
      SharedAppend(a, front);
      assert (a + b)[..|a + b| - 1] == a + front;
      Assoc(Shared(a), Shared(front), if IsShared(t) then [t] else []);
    }
  }

  lemma {:induction false} BytesOfAppend(a: seq<Token>, b: seq<Token>)
    ensures BytesOf(a + b) == BytesOf(a) + BytesOf(b)
    decreases |b|
  {
    if b == [] {
      assert a + b == a && BytesOf(a) + [] == BytesOf(a);
    } else {
      var front, t := b[..|b| - 1], b[|b| - 1];
      BytesOfAppend(a, front);
      assert (a + b)[..|a + b| - 1] == a + front;
      Assoc(BytesOf(a), BytesOf(front), if t.Byte? then [t.b] else []);
    }
  }

  lemma {:induction false} OfBytes(p: seq<byte>)
    ensures Shared(ByteTokens(p)) == ByteTokens(p) && BytesOf(ByteTokens(p)) == p
    decreases |p|
  {
    if p != [] {
      var front, b := p[..|p| - 1], p[|p| - 1];
      OfBytes(front);
      assert ByteTokens(p)[..|p| - 1] == ByteTokens(front);
      assert ByteTokens(p) == ByteTokens(front) + [Byte(b)];
      assert p == front + [b];
    }
  }

  lemma {:induction false} OutputTokens(chunks: seq<seq<byte>>)
    ensures Tokens(AsOutput(chunks)) == ByteTokens(Flatten(chunks))
  {
    if chunks != [] {
      OutputTokens(chunks[1..]);
      var rest := AsOutput(chunks[1..]);
      TokensOne(Output(chunks[0], false));
      TokensAppend([Output(chunks[0], false)], rest);
      assert ByteTokens(chunks[0]) + [] == ByteTokens(chunks[0]);
      assert ByteTokens(chunks[0]) + ByteTokens(Flatten(chunks[1..])) == ByteTokens(Flatten(chunks));
    }
  }

  /** What is still to be enqueued for client `v`, in order. */
  function TodoFor(v: nat, todo: seq<(nat, PaneOutbound)>): seq<PaneOutbound>
  {
    if todo == [] then []
    else (if todo[0].0 == v then [todo[0].1] else []) + TodoFor(v, todo[1..])
  }

  lemma {:induction false} TodoAppend(v: nat, a: seq<(nat, PaneOutbound)>, b: seq<(nat, PaneOutbound)>)
    ensures TodoFor(v, a + b) == TodoFor(v, a) + TodoFor(v, b)
  {
    if a == [] {
      assert a + b == b;
    } else {
      TodoAppend(v, a[1..], b);
      assert (a + b)[1..] == a[1..] + b;
      Assoc(if a[0].0 == v then [a[0].1] else [], TodoFor(v, a[1..]), TodoFor(v, b));
    }
  }

  lemma {:induction false} TodoOne(v: nat, w: nat, ms: seq<PaneOutbound>)
    ensures TodoFor(v, For(w, ms)) == if v == w then ms else []
    decreases |ms|
  {
    if ms != [] {
      TodoOne(v, w, ms[1..]);
      assert For(w, ms)[1..] == For(w, ms[1..]);
      assert [ms[0]] + ms[1..] == ms;
    }
  }

  /** Each listed client gets every message once, in order; the others get none. */
  lemma {:induction false} FanoutTodo(v: nat, order: seq<nat>, ms: seq<PaneOutbound>)
    requires forall i, j :: 0 <= i < j < |order| ==> order[i] != order[j]
    ensures TodoFor(v, Fanout(order, ms)) == if v in order then ms else []
  {
    if order != [] {
      var rest := order[1..];
      assert forall i, j :: 0 <= i < j < |rest| ==> rest[i] == order[i + 1] && rest[j] == order[j + 1];
      FanoutTodo(v, rest, ms);
      TodoOne(v, order[0], ms);
      TodoAppend(v, For(order[0], ms), Fanout(rest, ms));
      if v == order[0] {
        assert v !in rest;
        assert ms + [] == ms;
      } else {
        assert v in order <==> v in rest;
      }
    }
  }

  // ---- exactly once -------------------------------------------------------------------

  /** Shared tokens the client accepted, and those it is about to be sent. */
  function Accepted(w: Viewer): seq<Token>
  {
    Shared(Tokens(w.client.accepted))
  }

  function Coming(v: nat, todo: seq<(nat, PaneOutbound)>): seq<Token>
  {
    Shared(Tokens(TodoFor(v, todo)))
  }

  /** A client has accepted, or is about to be sent, exactly the log since it
      attached; one that was cut off or detached has a prefix of it. */
  ghost predicate InStep(w: Viewer, coming: seq<Token>, log: seq<Token>)
  {
    w.pos <= |log| && StepOk(Accepted(w), w.client.queue.done, w.attached, coming, log[w.pos..])
  }

  ghost predicate StepOk(accepted: seq<Token>, done: bool, attached: bool, coming: seq<Token>, since: seq<Token>)
  {
    if done then IsPrefix(accepted, since)
    else if attached then accepted + coming == since
    else IsPrefix(accepted + coming, since)
  }

  /** The reply it got was right for the output at that time. */
  ghost predicate Informed(w: Viewer, log: seq<Token>)
  {
    w.pos <= |log| && ReplyOk(w.reply, w.request, BytesOf(log[..w.pos]))
  }

  ghost predicate ViewersInv(y: Pane)
  {
    forall v :: 0 <= v < |y.viewers| ==> ViewerOk(y.viewers[v], v, y.todo, y.log)
  }

  ghost predicate ViewerOk(w: Viewer, v: nat, todo: seq<(nat, PaneOutbound)>, log: seq<Token>)
  {
    ClientInv(w.client) && InStep(w, Coming(v, todo), log) && Informed(w, log)
  }

  ghost predicate PaneInv(y: Pane)
  {
    && CoreInv(y.core, BytesOf(y.log))
    && (y.resizing.Some? ==> y.todo == [])
    && TodoKnown(y.todo, |y.viewers|)
    && ViewersInv(y)
  }

  /** Messages are only ever due to clients that have attached. */
  ghost predicate TodoKnown(todo: seq<(nat, PaneOutbound)>, viewers: nat)
  {
    forall i :: 0 <= i < |todo| ==> todo[i].0 < viewers
  }

  lemma {:induction false} TodoForStranger(v: nat, todo: seq<(nat, PaneOutbound)>)
    requires TodoKnown(todo, v)
    ensures TodoFor(v, todo) == []
  {
    if todo != [] {
      assert TodoKnown(todo[1..], v);
      TodoForStranger(v, todo[1..]);
    }
  }

  lemma {:induction false} FanoutKnown(order: seq<nat>, ms: seq<PaneOutbound>, viewers: nat)
    requires forall i :: 0 <= i < |order| ==> order[i] < viewers
    ensures TodoKnown(Fanout(order, ms), viewers)
  {
    if order != [] {
      ForKnown(order[0], ms);
      FanoutKnown(order[1..], ms, viewers);
    }
  }

  lemma {:induction false} ForKnown(v: nat, ms: seq<PaneOutbound>)
    ensures TodoKnown(For(v, ms), v + 1)
    decreases |ms|
  {
    if ms != [] {
      ForKnown(v, ms[1..]);
    }
  }

  lemma NotifyTokens(accepted: seq<PaneOutbound>, m: PaneOutbound)
    ensures Shared(Tokens(accepted + [m])) == Shared(Tokens(accepted)) + Shared(TokensOf(m))
  {
    TokensAppend(accepted, [m]);
    TokensOne(m);
    SharedAppend(Tokens(accepted), TokensOf(m));
  }

  lemma ComingHead(v: nat, todo: seq<(nat, PaneOutbound)>)
    requires todo != []
    ensures Coming(v, todo) == (if todo[0].0 == v then Shared(TokensOf(todo[0].1)) else []) + Coming(v, todo[1..])
  {
    var (w, m) := todo[0];
    if w == v {
      TokensOne(m);
      TokensAppend([m], TodoFor(v, todo[1..]));
      SharedAppend(TokensOf(m), Tokens(TodoFor(v, todo[1..])));
    }
    assert [] + TodoFor(v, todo[1..]) == TodoFor(v, todo[1..]);
  }

  lemma StepAccept(accepted: seq<Token>, attached: bool, t: seq<Token>, rest: seq<Token>, since: seq<Token>)
    requires StepOk(accepted, false, attached, t + rest, since)
    ensures StepOk(accepted + t, false, attached, rest, since)
  {
    Assoc(accepted, t, rest);
  }

  lemma StepCut(accepted: seq<Token>, done: bool, attached: bool, coming: seq<Token>, later: seq<Token>, since: seq<Token>)
    requires StepOk(accepted, done, attached, coming, since)
    ensures StepOk(accepted, true, attached, later, since)
  {
    if !done {
      var whole := accepted + coming;
      assert whole[..|accepted|] == accepted;
      assert since[..|accepted|] == since[..|whole|][..|accepted|];
    }
  }

  /** The client at the head of the list is sent its message. */
  lemma DeliverInStep(w: Viewer, m: PaneOutbound, rest: seq<Token>, log: seq<Token>)
    requires ClientInv(w.client) && InStep(w, Shared(TokensOf(m)) + rest, log)
    ensures ClientInv(EnqueueClient(w.client, m))
    ensures InStep(w.(client := EnqueueClient(w.client, m)), rest, log)
  {
    hide ClientInv, Tokens, TokensOf, Shared, StepOk, CanMerge;
    ClientEnqueue(w.client, m);
    NotifyTokens(w.client.accepted, m);
    var t, since := Shared(TokensOf(m)), log[w.pos..];
    if EnqueueOf(w.client.queue, m).1 {
      StepAccept(Accepted(w), w.attached, t, rest, since);
    } else {
      StepCut(Accepted(w), w.client.queue.done, w.attached, t + rest, rest, since);
    }
  }

  lemma DeliverKeeps(y: Pane)
    requires PaneInv(y) && y.todo != []
    ensures PaneInv(DeliverStep(y))
  {
    hide CoreInv, ViewerOk, EnqueueClient;
    var z := DeliverStep(y);
    var (w, m) := y.todo[0];
    forall v | 0 <= v < |z.viewers|
      ensures ViewerOk(z.viewers[v], v, z.todo, z.log)
    {
      assert ViewerOk(y.viewers[v], v, y.todo, y.log);
      if v == w { DeliveredTo(y.viewers[v], v, y.todo, y.log); } else { NotDelivered(y.viewers[v], v, y.todo, y.log); }
    }
  }

  lemma DeliveredTo(w: Viewer, v: nat, todo: seq<(nat, PaneOutbound)>, log: seq<Token>)
    requires ViewerOk(w, v, todo, log) && todo != [] && todo[0].0 == v
    ensures ViewerOk(w.(client := EnqueueClient(w.client, todo[0].1)), v, todo[1..], log)
  {
    hide ClientInv, InStep, Informed, Coming, EnqueueClient, Shared, TokensOf;
    var z := w.(client := EnqueueClient(w.client, todo[0].1));
    ComingHead(v, todo);
    DeliverInStep(w, todo[0].1, Coming(v, todo[1..]), log);
    InformedKeeps(w, z, log, []);
    Empty(log);
  }

  lemma NotDelivered(w: Viewer, v: nat, todo: seq<(nat, PaneOutbound)>, log: seq<Token>)
    requires ViewerOk(w, v, todo, log) && todo != [] && todo[0].0 != v
    ensures ViewerOk(w, v, todo[1..], log)
  {
    hide ClientInv, InStep, Informed, Coming;
    ComingHead(v, todo);
    Empty(Coming(v, todo[1..]));
  }

  lemma InformedKeeps(w: Viewer, z: Viewer, log: seq<Token>, more: seq<Token>)
    requires Informed(w, log) && z.reply == w.reply && z.request == w.request && z.pos == w.pos
    ensures Informed(z, log + more)
  {
    assert (log + more)[..w.pos] == log[..w.pos];
  }

  lemma StepLog(accepted: seq<Token>, done: bool, attached: bool, since: seq<Token>, tail: seq<Token>)
    requires StepOk(accepted, done, attached, [], since)
    ensures StepOk(accepted, done, attached, if attached then tail else [], since + tail)
  {
    assert accepted + [] == accepted;
    if done || !attached {
      PrefixAppend(accepted, since, tail);
    }
  }

  /** One client when the log grows by `tail`. */
  lemma LogInStep(w: Viewer, v: nat, todo: seq<(nat, PaneOutbound)>, log: seq<Token>, tail: seq<Token>)
    requires InStep(w, [], log)
    requires Coming(v, todo) == if w.attached then tail else []
    ensures InStep(w, Coming(v, todo), log + tail)
  {
    hide StepOk, Tokens, Shared;
    StepLog(Accepted(w), w.client.queue.done, w.attached, log[w.pos..], tail);
    assert (log + tail)[w.pos..] == log[w.pos..] + tail;
  }

  lemma FanoutComing(v: nat, order: seq<nat>, ms: seq<PaneOutbound>, viewers: seq<Viewer>)
    requires Lists(order, viewers) && v < |viewers|
    ensures Coming(v, Fanout(order, ms)) == if viewers[v].attached then Shared(Tokens(ms)) else []
    ensures TodoKnown(Fanout(order, ms), |viewers|)
    ensures Coming(v, []) == []
  {
    FanoutKnown(order, ms, |viewers|);
    FanoutTodo(v, order, ms);
    hide Fanout;
    TokensNothing();
  }

  /** The log grows by `tail`, which is what all attached clients are to be sent. */
  lemma LogKeeps(y: Pane, z: Pane, order: seq<nat>, ms: seq<PaneOutbound>, tail: seq<Token>)
    requires ViewersInv(y) && y.todo == [] && Lists(order, y.viewers)
    requires z.viewers == y.viewers && z.todo == Fanout(order, ms) && z.log == y.log + tail
    requires Shared(Tokens(ms)) == tail
    ensures ViewersInv(z) && TodoKnown(z.todo, |z.viewers|)
  {
    FanoutKnown(order, ms, |y.viewers|);
    hide ClientInv, InStep, Informed, Tokens, Shared, Coming, Fanout, Lists;
    forall v | 0 <= v < |z.viewers|
      ensures ViewerOk(z.viewers[v], v, z.todo, z.log)
    {
      var w := y.viewers[v];
      InformedKeeps(w, w, y.log, tail);
      FanoutComing(v, order, ms, y.viewers);
      assert InStep(w, Coming(v, y.todo), y.log);
      LogInStep(w, v, z.todo, y.log, tail);
    }
  }

  lemma TokensNothing()
    ensures Tokens([]) == [] && Shared([]) == []
  {}

  lemma CaptureStepKeeps(y: Pane, data: seq<byte>, parserOk: bool, order: seq<nat>)
    requires PaneInv(y) && Enabled(y, Capture(data, parserOk, order))
    ensures PaneInv(Next(y, Capture(data, parserOk, order)))
  {
    var z := Next(y, Capture(data, parserOk, order));
    var chunks := Pieces(data, HISTORY_CHUNK_MAX);
    PiecesSpec(data, HISTORY_CHUNK_MAX);
    hide CoreInv, ViewersInv, Lists, Fanout, ByteTokens, CaptureOf, Pieces, Tokens, BytesOf, Shared;
    OutputTokens(chunks);
    OfBytes(data);
    BytesOfAppend(y.log, ByteTokens(data));
    CaptureKeeps(y.core, BytesOf(y.log), data, parserOk);
    LogKeeps(y, z, order, AsOutput(chunks), ByteTokens(data));
  }

  lemma MarkTokens(notice: Notice, bytes: nat)
    requires notice.ResizeApplied?
    ensures Shared(Tokens([Control(notice, bytes, false)])) == [Mark(notice, false)]
    ensures BytesOf([Mark(notice, false)]) == []
  {
    TokensOne(Control(notice, bytes, false));
    assert Shared([Mark(notice, false)]) == Shared([]) + [Mark(notice, false)];
  }

  lemma FinishResizeKeeps(y: Pane, ptyOk: bool, bytes: nat, order: seq<nat>)
    requires PaneInv(y) && Enabled(y, FinishResize(ptyOk, bytes, order))
    ensures PaneInv(FinishResizeStep(y, ptyOk, bytes, order))
  {
    hide CoreInv, ViewersInv, Lists, Fanout, BytesOf, Shared, Tokens;
    var z := FinishResizeStep(y, ptyOk, bytes, order);
    var r := y.resizing.value;
    if PtyFails(r.pty, ptyOk) {
      SameViewers(y, z);
    } else {
      var notice := ResizeApplied(r.epoch, y.core.size);
      MarkTokens(notice, bytes);
      BytesOfAppend(y.log, [Mark(notice, false)]);
      assert BytesOf(y.log) + [] == BytesOf(y.log);
      EpochKeeps(y.core, BytesOf(y.log), r.epoch);
      LogKeeps(y, z, order, [Control(notice, bytes, false)], [Mark(notice, false)]);
    }
  }

  /** Steps that touch neither the clients nor the log. */
  lemma SameViewers(y: Pane, z: Pane)
    requires ViewersInv(y) && z.viewers == y.viewers && z.todo == y.todo && z.log == y.log
    ensures ViewersInv(z)
  {
    hide ViewerOk;
    assert forall v :: 0 <= v < |z.viewers| ==> z.viewers[v] == y.viewers[v];
  }

  lemma CoreStepKeeps(y: Pane, e: Event)
    requires PaneInv(y) && Enabled(y, e)
    requires e.BeginResize? || e.LegacyResize? || e.SetLimit? || e.MarkExited? || e.ClosePane?
    ensures PaneInv(Next(y, e))
  {
    hide CoreInv, ViewersInv;
    SameViewers(y, Next(y, e));
    var output := BytesOf(y.log);
    match e
    case BeginResize(_, wanted, _, _, checkpointOk) => OthersKeep(y.core, output, wanted, 0, checkpointOk);
    case LegacyResize(_, wanted, _, checkpointOk, _) => OthersKeep(y.core, output, wanted, 0, checkpointOk);
    case SetLimit(limit, checkpointOk) => OthersKeep(y.core, output, y.core.size, limit, checkpointOk);
    case MarkExited => ExitKeeps(y.core, output);
    case ClosePane => OthersKeep(y.core, output, y.core.size, 0, true);
  }

  lemma ExitKeeps(c: Core, output: seq<byte>)
    requires CoreInv(c, output)
    ensures CoreInv(c.(exited := true), output)
  {
    hide Retains, Reflects;
  }

  /** A new client has nothing yet, and its reply covers all output so far. */
  lemma AttachKeeps(y: Pane, request: SyncRequest, created: Option<string>, memoryOk: bool)
    requires PaneInv(y) && CoreOk(y.core)
    ensures PaneInv(AttachStep(y, request, created, memoryOk))
  {
    var z := AttachStep(y, request, created, memoryOk);
    AttachSpec(y.core, request, created, memoryOk, BytesOf(y.log));
    NewClientOk();
    hide CoreInv, ClientInv, ReplyOk, StepOk, Tokens, AttachOf, BytesOf;
    if |z.viewers| > |y.viewers| {
      var n := |y.viewers|;
      var w := z.viewers[n];
      assert y.log[..|y.log|] == y.log;
      forall v | 0 <= v < |z.viewers|
        ensures ViewerOk(z.viewers[v], v, z.todo, z.log)
      {
        if v < n {
          assert z.viewers[v] == y.viewers[v];
        } else {
          TodoForStranger(n, y.todo);
          TokensNothing();
        }
      }
    } else {
      SameViewers(y, z);
    }
  }

  lemma NewClientOk()
    ensures ClientInv(NEW_CLIENT) && Shared(Tokens(NEW_CLIENT.accepted)) == []
  {
    ClientRuns([]);
  }

  /** One client changes; the others and the log do not. */
  lemma OneViewer(y: Pane, v: nat, w: Viewer)
    requires PaneInv(y) && v < |y.viewers| && ViewerOk(w, v, y.todo, y.log)
    ensures PaneInv(y.(viewers := y.viewers[v := w]))
  {
    hide CoreInv, ViewerOk, TodoKnown;
    var z := y.(viewers := y.viewers[v := w]);
    forall u | 0 <= u < |z.viewers| ensures ViewerOk(z.viewers[u], u, z.todo, z.log) {
      assert ViewerOk(y.viewers[u], u, y.todo, y.log);
    }
  }

  lemma OneClient(y: Pane, v: nat, c: Client)
    requires PaneInv(y) && v < |y.viewers| && ClientInv(c)
    requires InStep(y.viewers[v].(client := c), Coming(v, y.todo), y.log)
    ensures PaneInv(SetClient(y, v, c))
  {
    hide CoreInv, ClientInv, InStep, Informed, Coming, TodoKnown;
    var w := y.viewers[v];
    assert ViewerOk(w, v, y.todo, y.log);
    InformedKeeps(w, w.(client := c), y.log, []);
    assert y.log + [] == y.log;
    OneViewer(y, v, w.(client := c));
  }

  lemma ClientStepKeeps(y: Pane, v: nat, e: ClientEvent)
    requires PaneInv(y) && v < |y.viewers| && !e.Enqueue?
    ensures PaneInv(SetClient(y, v, ClientStep(y.viewers[v].client, e)))
  {
    hide CoreInv, ClientInv, Coming, TodoKnown, Informed, StepOk;
    var w := y.viewers[v];
    assert ViewerOk(w, v, y.todo, y.log);
    ClientEventKeeps(w.client, e);
    if e.CloseClient? {
      StepCut(Accepted(w), w.client.queue.done, w.attached, Coming(v, y.todo), Coming(v, y.todo), y.log[w.pos..]);
    }
    OneClient(y, v, ClientStep(w.client, e));
  }

  lemma ClientEventKeeps(c: Client, e: ClientEvent)
    requires ClientInv(c) && !e.Enqueue?
    ensures ClientInv(ClientStep(c, e)) && ClientStep(c, e).accepted == c.accepted
    ensures !e.CloseClient? ==> ClientStep(c, e).queue.done == c.queue.done
  {
    match e
    case Receive =>
      if c.taken.None? && c.queue.send != [] { ClientReceive(c); }
    case Account =>
      if c.taken.Some? { ClientAccount(c); }
    case CloseClient =>
  }

  lemma NotifyKeeps(y: Pane, v: nat, m: PaneOutbound)
    requires PaneInv(y) && v < |y.viewers| && m.Control? && m.notice.OtherNotice?
    ensures PaneInv(SetClient(y, v, EnqueueClient(y.viewers[v].client, m)))
  {
    assert Shared(TokensOf(m)) == [] by { assert TokensOf(m)[..0] == []; }
    hide CoreInv, ClientInv, Coming, TodoKnown, Informed, InStep, EnqueueClient, Shared, TokensOf;
    var w := y.viewers[v];
    assert ViewerOk(w, v, y.todo, y.log);
    assert [] + Coming(v, y.todo) == Coming(v, y.todo);
    DeliverInStep(w, m, Coming(v, y.todo), y.log);
    OneClient(y, v, EnqueueClient(w.client, m));
  }

  lemma DetachKeeps(y: Pane, v: nat)
    requires PaneInv(y) && Enabled(y, Detach(v))
    ensures PaneInv(Next(y, Detach(v)))
  {
    hide CoreInv, ClientInv, Informed, Coming, TodoKnown, Shared, Tokens;
    var w := y.viewers[v];
    assert ViewerOk(w, v, y.todo, y.log);
    InformedKeeps(w, w.(attached := false), y.log, []);
    assert y.log + [] == y.log;
    OneViewer(y, v, w.(attached := false));
    hide ViewerOk;
    OwnerKeeps(y.(viewers := y.viewers[v := w.(attached := false)]), if y.owner == Some(v) then None else y.owner);
  }

  lemma OwnerKeeps(y: Pane, owner: Option<nat>)
    requires PaneInv(y)
    ensures PaneInv(y.(owner := owner))
  {
    hide CoreInv, TodoKnown;
    SameViewers(y, y.(owner := owner));
  }

  lemma StepKeeps(y: Pane, e: Event)
    requires PaneInv(y)
    ensures PaneInv(Step(y, e))
  {
    hide PaneInv;
    if Enabled(y, e) {
      match e
      case Capture(data, parserOk, order) => CaptureStepKeeps(y, data, parserOk, order);
      case Deliver => DeliverKeeps(y);
      case Attach(request, created, memoryOk) => AttachKeeps(y, request, created, memoryOk);
      case Detach(v) => DetachKeeps(y, v);
      case Receive(v) => ClientStepKeeps(y, v, Subscriber.Receive);
      case Account(v) => ClientStepKeeps(y, v, Subscriber.Account);
      case CloseClient(v) => ClientStepKeeps(y, v, Subscriber.CloseClient);
      case Notify(v, text, bytes, closeAfter) => NotifyKeeps(y, v, Control(OtherNotice(text), bytes, closeAfter));
      case BeginResize(_, _, _, _, _) => CoreStepKeeps(y, e);
      case FinishResize(ptyOk, bytes, order) => FinishResizeKeeps(y, ptyOk, bytes, order);
      case LegacyResize(_, _, _, _, _) => CoreStepKeeps(y, e);
      case SetLimit(_, _) => CoreStepKeeps(y, e);
      case MarkExited => CoreStepKeeps(y, e);
      case ClosePane => CoreStepKeeps(y, e);
    }
  }

  /** The pane's state after any run that starts with a new pane. */
  function RunOf(size: Size, limit: int, generation: string, withCheckpoint: bool, events: seq<Event>): Pane
  {
    Exec(NewPane(size, limit, generation, withCheckpoint), events)
  }

  lemma {:induction false} PaneRuns(size: Size, limit: int, generation: string, withCheckpoint: bool, events: seq<Event>)
    ensures PaneInv(RunOf(size, limit, generation, withCheckpoint, events))
  {
    if events == [] {
      NewPaneOk(size, limit, generation, withCheckpoint);
    } else {
      hide PaneInv, Step, NewPane;
      PaneRuns(size, limit, generation, withCheckpoint, events[..|events| - 1]);
      StepKeeps(RunOf(size, limit, generation, withCheckpoint, events[..|events| - 1]), events[|events| - 1]);
    }
  }

  lemma NewPaneOk(size: Size, limit: int, generation: string, withCheckpoint: bool)
    ensures PaneInv(NewPane(size, limit, generation, withCheckpoint))
  {
    hide Retains, Reflects, ViewerOk;
    EmptyReflects();
    NothingRetained();
  }

  // ---- the theorem in bytes -----------------------------------------------------------

  lemma {:induction false} SharedBytes(ts: seq<Token>)
    ensures BytesOf(Shared(ts)) == BytesOf(ts)
    decreases |ts|
  {
    if ts != [] {
      var front, t := ts[..|ts| - 1], ts[|ts| - 1];
      SharedBytes(front);
      if IsShared(t) {
        assert (Shared(front) + [t])[..|Shared(front)|] == Shared(front);
      } else {
        assert Shared(front) + [] == Shared(front);
      }
    }
  }

  lemma BytesPrefix(p: seq<Token>, s: seq<Token>)
    requires IsPrefix(p, s)
    ensures IsPrefix(BytesOf(p), BytesOf(s))
  {
    assert s == p + s[|p|..];
    BytesOfAppend(p, s[|p|..]);
  }

  function PaneBytes(y: Pane): seq<byte>
  {
    BytesOf(y.log)
  }

  /** What the viewer's terminal has been shown: what it started from, the replay,
      and the live output its connection has received. */
  function Shown(w: Viewer, output: seq<byte>): seq<byte>
    requires w.reply.part.deltaFrom <= |output|
  {
    output[..w.reply.part.deltaFrom] + Flatten(w.reply.part.chunks) + BytesOf(Tokens(w.client.received))
  }

  /** What is on its way to it. */
  function OnTheWay(w: Viewer, v: nat, todo: seq<(nat, PaneOutbound)>): seq<byte>
  {
    BytesOf(Tokens(InTransit(w.client.queue))) + BytesOf(Tokens(TodoFor(v, todo)))
  }

  lemma AcceptedBytes(w: Viewer)
    requires ClientInv(w.client)
    ensures BytesOf(Accepted(w)) == BytesOf(Tokens(w.client.received)) + BytesOf(Tokens(InTransit(w.client.queue)))
  {
    SharedBytes(Tokens(w.client.accepted));
    BytesOfAppend(Tokens(w.client.received), Tokens(InTransit(w.client.queue)));
  }

  /** Bytes the client accepted continue the output it attached to. */
  lemma LiveBytes(w: Viewer, v: nat, todo: seq<(nat, PaneOutbound)>, log: seq<Token>)
    requires ClientInv(w.client) && InStep(w, Coming(v, todo), log)
    ensures var live := BytesOf(log[w.pos..]);
            && BytesOf(log) == BytesOf(log[..w.pos]) + live
            && IsPrefix(BytesOf(Tokens(w.client.received)), live)
            && (w.attached && !w.client.queue.done ==> BytesOf(Tokens(w.client.received)) + OnTheWay(w, v, todo) == live)
  {
    var live := log[w.pos..];
    assert log == log[..w.pos] + live;
    BytesOfAppend(log[..w.pos], live);
    AcceptedBytes(w);
    SharedBytes(Tokens(TodoFor(v, todo)));
    BytesOfAppend(Accepted(w), Coming(v, todo));
    hide ClientInv, BytesOf, Tokens, Shared, TodoFor;
    StepCut(Accepted(w), w.client.queue.done, w.attached, Coming(v, todo), [], live);
    BytesPrefix(Accepted(w), live);
    var received := BytesOf(Tokens(w.client.received));
    assert IsPrefix(received, BytesOf(Accepted(w)));
    PrefixTransitive(received, BytesOf(Accepted(w)), BytesOf(live));
    Assoc(received, BytesOf(Tokens(InTransit(w.client.queue))), BytesOf(Tokens(TodoFor(v, todo))));
  }

  /** What holds of viewer `v` when the pane has put out `output`. */
  ghost predicate SeesOnce(w: Viewer, v: nat, todo: seq<(nat, PaneOutbound)>, output: seq<byte>)
  {
    && w.reply.part.deltaFrom <= w.reply.part.deltaTo <= |output|
    && ReplyOk(w.reply, w.request, output[..w.reply.part.deltaTo])
    && IsPrefix(Shown(w, output), output)
    && (w.attached && !w.client.queue.done ==> Shown(w, output) + OnTheWay(w, v, todo) == output)
  }

  lemma ViewerSeesOnce(w: Viewer, v: nat, todo: seq<(nat, PaneOutbound)>, log: seq<Token>)
    requires ViewerOk(w, v, todo, log)
    ensures SeesOnce(w, v, todo, BytesOf(log))
  {
    hide ClientInv, BytesOf, Tokens, Coming, OnTheWay, HasGraphics, Flatten, StepOk, Shown, ReplyOk;
    LiveBytes(w, v, todo, log);
    var before, live := BytesOf(log[..w.pos]), BytesOf(log[w.pos..]);
    var received := BytesOf(Tokens(w.client.received));
    ReplyCursors(w.reply, w.request, before);
    ShownSplit(w, before, live);
    Assoc(before, received, OnTheWay(w, v, todo));
    CutFirst(before, live, |before|);
    Empty(before);
    CutSecond(before, live, |received|);
  }

  lemma ReplyCursors(reply: HistoryReply, request: SyncRequest, output: seq<byte>)
    requires ReplyOk(reply, request, output)
    ensures reply.part.deltaFrom <= reply.part.deltaTo == |output|
  {
    hide HasGraphics, Flatten;
  }

  lemma ShownSplit(w: Viewer, before: seq<byte>, live: seq<byte>)
    requires ReplyOk(w.reply, w.request, before)
    ensures Shown(w, before + live) == before + BytesOf(Tokens(w.client.received))
  {
    hide HasGraphics, Flatten, BytesOf, Tokens;
    var from := w.reply.part.deltaFrom;
    assert (before + live)[..from] == before[..from];
    assert before[..from] + before[from..] == before;
  }

  /** Every client, under every interleaving: its reply was right for the output at
      that time; what it has been shown is always a prefix of the pane's output,
      with no gap and no repeat; and while it is attached and was not cut off,
      everything else is on its way to it. */
  lemma ExactlyOnce(size: Size, limit: int, generation: string, withCheckpoint: bool, events: seq<Event>, v: nat)
    requires v < |RunOf(size, limit, generation, withCheckpoint, events).viewers|
    ensures var y := RunOf(size, limit, generation, withCheckpoint, events);
            SeesOnce(y.viewers[v], v, y.todo, PaneBytes(y))
  {
    var y := RunOf(size, limit, generation, withCheckpoint, events);
    PaneRuns(size, limit, generation, withCheckpoint, events);
    hide RunOf, CoreInv, ViewerOk, SeesOnce, BytesOf;
    assert ViewerOk(y.viewers[v], v, y.todo, y.log);
    ViewerSeesOnce(y.viewers[v], v, y.todo, y.log);
  }

  /** The viewer's token `k - pos` is the log's token `k`, seen at the same cursor. */
  ghost predicate SameCursor(w: Viewer, log: seq<Token>, k: nat)
  {
    w.pos <= k < |log| && k - w.pos < |Accepted(w)| ==>
      && Accepted(w)[k - w.pos] == log[k]
      && w.reply.part.deltaTo + |BytesOf(Accepted(w)[..k - w.pos])| == |BytesOf(log[..k])|
  }

  lemma ViewerCursor(w: Viewer, v: nat, todo: seq<(nat, PaneOutbound)>, log: seq<Token>, k: nat)
    requires ViewerOk(w, v, todo, log)
    ensures SameCursor(w, log, k)
  {
    hide ClientInv, BytesOf, Accepted, Coming, HasGraphics, Flatten;
    if w.pos <= k < |log| && k - w.pos < |Accepted(w)| {
      var since := log[w.pos..];
      StepCut(Accepted(w), w.client.queue.done, w.attached, Coming(v, todo), [], since);
      assert Accepted(w)[k - w.pos] == since[k - w.pos];
      assert Accepted(w)[..k - w.pos] == since[..k - w.pos];
      assert log[..k] == log[..w.pos] + since[..k - w.pos];
      BytesOfAppend(log[..w.pos], since[..k - w.pos]);
    }
  }

  /** A resize is seen by every client at the same place in the output: its cursor
      is the number of bytes the pane had put out, whoever looks. */
  lemma ResizeAtOneCursor(size: Size, limit: int, generation: string, withCheckpoint: bool, events: seq<Event>, v: nat, k: nat)
    requires v < |RunOf(size, limit, generation, withCheckpoint, events).viewers|
    ensures SameCursor(RunOf(size, limit, generation, withCheckpoint, events).viewers[v],
                       RunOf(size, limit, generation, withCheckpoint, events).log, k)
  {
    var y := RunOf(size, limit, generation, withCheckpoint, events);
    PaneRuns(size, limit, generation, withCheckpoint, events);
    hide RunOf, CoreInv, ViewerOk, SameCursor;
    assert ViewerOk(y.viewers[v], v, y.todo, y.log);
    ViewerCursor(y.viewers[v], v, y.todo, y.log, k);
  }

  /** The pane can always answer an attach. */
  lemma AttachAlwaysEnabled(size: Size, limit: int, generation: string, withCheckpoint: bool, events: seq<Event>,
                            request: SyncRequest, created: Option<string>, memoryOk: bool)
    ensures Enabled(RunOf(size, limit, generation, withCheckpoint, events), Attach(request, created, memoryOk))
  {
    var y := RunOf(size, limit, generation, withCheckpoint, events);
    PaneRuns(size, limit, generation, withCheckpoint, events);
    hide RunOf, CoreInv, ViewersInv, CoreOk;
    InvIsOk(y.core, BytesOf(y.log));
  }

  /** Only the first client is ever allowed to send generated input during replay. */
  ghost predicate OneGenerator(y: Pane)
  {
    && (y.core.hasAttached <==> y.viewers != [])
    && (forall v :: 0 <= v < |y.viewers| && y.viewers[v].reply.allowGeneratedInput ==> v == 0)
  }

  lemma DeliverReplies(y: Pane)
    requires y.todo != []
    ensures DeliverStep(y).core == y.core && |DeliverStep(y).viewers| == |y.viewers|
    ensures forall v :: 0 <= v < |y.viewers| ==> DeliverStep(y).viewers[v].reply == y.viewers[v].reply
  {
    hide EnqueueOf;
    var v, m := y.todo[0].0, y.todo[0].1;
    if v < |y.viewers| {
      assert DeliverStep(y).viewers == y.viewers[v := y.viewers[v].(client := EnqueueClient(y.viewers[v].client, m))];
    }
  }

  /** Only an attach changes who has attached and what they were told. */
  lemma RepliesStay(y: Pane, e: Event)
    requires Enabled(y, e) && !e.Attach?
    ensures Next(y, e).core.hasAttached == y.core.hasAttached && |Next(y, e).viewers| == |y.viewers|
    ensures forall v :: 0 <= v < |y.viewers| ==> Next(y, e).viewers[v].reply == y.viewers[v].reply
  {
    hide CoreOk, Lists, Fanout, EnqueueClient, ClientStep, TrimOf, AppendAll, WriteOf;
    match e
    case Deliver => DeliverReplies(y);
    case FinishResize(ptyOk, bytes, order) => assert FinishResizeStep(y, ptyOk, bytes, order).viewers == y.viewers;
    case _ =>
  }

  lemma GeneratorStep(y: Pane, e: Event)
    requires OneGenerator(y)
    ensures OneGenerator(Step(y, e))
  {
    if Enabled(y, e) {
      if e.Attach? {
        hide CoreOk, CanResume;
      } else {
        hide Next;
        RepliesStay(y, e);
      }
    }
  }

  lemma {:induction false} GeneratedInputOnce(size: Size, limit: int, generation: string, withCheckpoint: bool, events: seq<Event>)
    ensures OneGenerator(RunOf(size, limit, generation, withCheckpoint, events))
  {
    if events != [] {
      GeneratedInputOnce(size, limit, generation, withCheckpoint, events[..|events| - 1]);
      hide OneGenerator, Step;
      GeneratorStep(RunOf(size, limit, generation, withCheckpoint, events[..|events| - 1]), events[|events| - 1]);
    }
  }

  /** The history never holds more than its limit. */
  predicate HistoryBounded(y: Pane)
  {
    y.core.history.bytes <= EffectiveLimit(y.core.limit)
  }

  lemma BoundedStep(y: Pane, e: Event)
    requires PaneInv(y) && HistoryBounded(y)
    ensures HistoryBounded(Step(y, e))
  {
    hide Lists, Fanout, EnqueueClient, ClientStep, ViewersInv, CoreInv, CanResume, AppendAll, DropBytes, WriteCheckpoint, BytesOf;
    if Enabled(y, e) && e.Capture? {
      CaptureSize(y.core, BytesOf(y.log), e.data, e.parserOk);
    }
  }

  lemma {:induction false} HistoryIsBounded(size: Size, limit: int, generation: string, withCheckpoint: bool, events: seq<Event>)
    ensures HistoryBounded(RunOf(size, limit, generation, withCheckpoint, events))
  {
    if events != [] {
      hide HistoryBounded, Step, PaneInv;
      HistoryIsBounded(size, limit, generation, withCheckpoint, events[..|events| - 1]);
      PaneRuns(size, limit, generation, withCheckpoint, events[..|events| - 1]);
      BoundedStep(RunOf(size, limit, generation, withCheckpoint, events[..|events| - 1]), events[|events| - 1]);
    }
  }

  // ---- how much of the output a viewer is given --------------------------------------

  /** The bytes that a limit allows: 1,750,000 if it is not positive. */
  function Allowed(limit: int): nat
  {
    if limit <= 0 then 1_750_000 else limit
  }

  /** Until its limit is changed, a pane retains as much of its output as the limit it was
      started with allows, and every viewer that was sent no checkpoint was told so; if it
      was sent a snapshot, it was given all of that. */
  ghost predicate RetainsAll(y: Pane, limit: int)
  {
    && Allowed(y.core.limit) == Allowed(limit)
    && y.core.history.bytes == Min(|PaneBytes(y)|, Allowed(limit))
    && (forall v :: 0 <= v < |y.viewers| ==> GivenAll(y.viewers[v].reply, limit))
  }

  ghost predicate GivenAll(reply: HistoryReply, limit: int)
  {
    reply.checkpoint.None? ==>
      && reply.part.deltaTo - reply.part.serverBase == Min(reply.part.deltaTo, Allowed(limit))
      && (reply.mode == SnapshotMode ==> reply.part.deltaFrom == reply.part.serverBase)
  }

  lemma CaptureRetainsAll(y: Pane, data: seq<byte>, parserOk: bool, order: seq<nat>, limit: int)
    requires PaneInv(y) && RetainsAll(y, limit) && Enabled(y, Capture(data, parserOk, order))
    ensures RetainsAll(Next(y, Capture(data, parserOk, order)), limit)
  {
    hide CoreInv, GivenAll, BytesOf, CaptureOf, Retains, ViewersInv, Fanout, Lists, ByteTokens, Pieces, WriteOf;
    CaptureExactly(y.core, BytesOf(y.log), data, parserOk);
    OfBytes(data);
    BytesOfAppend(y.log, ByteTokens(data));
  }

  lemma AttachRetainsAll(y: Pane, request: SyncRequest, created: Option<string>, memoryOk: bool, limit: int)
    requires PaneInv(y) && RetainsAll(y, limit) && CoreOk(y.core)
    ensures RetainsAll(AttachStep(y, request, created, memoryOk), limit)
  {
    hide CoreInv, BytesOf, AttachOf, ViewersInv, CoreOk, GivenAll, Allowed, TodoKnown;
    var z := AttachStep(y, request, created, memoryOk);
    AttachGivesAll(y.core, request, created, memoryOk, BytesOf(y.log), limit);
    forall v | 0 <= v < |z.viewers| ensures GivenAll(z.viewers[v].reply, limit) {
      if v < |y.viewers| {
        assert z.viewers[v] == y.viewers[v];
      }
    }
  }

  lemma AttachGivesAll(c: Core, req: SyncRequest, created: Option<string>, memoryOk: bool, output: seq<byte>, limit: int)
    requires CoreInv(c, output) && CoreOk(c) && c.history.bytes == Min(|output|, Allowed(limit))
    ensures var (d, outcome) := AttachOf(c, req, created, memoryOk);
            && d.history == c.history && d.limit == c.limit
            && (outcome.Attached? ==> GivenAll(outcome.reply, limit))
  {
    hide CoreInv, CoreOk, AttachOf, ReplyExactly, GivenAll;
    AttachIsExact(c, req, created, memoryOk, output);
    var outcome := AttachOf(c, req, created, memoryOk).1;
    if outcome.Attached? {
      ExactGivesAll(c, req, GenerationAt(c, created), outcome.reply, output, limit);
    }
  }

  lemma ExactGivesAll(c: Core, req: SyncRequest, generation: string, reply: HistoryReply, output: seq<byte>, limit: int)
    requires ReplyExactly(c, req, generation, reply, output) && c.history.bytes == Min(|output|, Allowed(limit))
    ensures GivenAll(reply, limit)
  {
    hide Flatten;
  }

  /** A resize, an exit or a close changes neither the history nor its limit. */
  lemma OtherRetains(y: Pane, e: Event)
    requires Enabled(y, e) && !e.Capture? && !e.Attach? && !e.SetLimit?
    ensures Next(y, e).core.history == y.core.history && Next(y, e).core.limit == y.core.limit
    ensures |PaneBytes(Next(y, e))| == |PaneBytes(y)|
  {
    hide CoreOk, Lists, Fanout, EnqueueOf, ClientStep, BytesOf, CanMerge;
    match e
    case FinishResize(ptyOk, bytes, order) =>
      var r := y.resizing.value;
      if !PtyFails(r.pty, ptyOk) {
        MarkTokens(ResizeApplied(r.epoch, y.core.size), bytes);
        BytesOfAppend(y.log, [Mark(ResizeApplied(r.epoch, y.core.size), false)]);
      }
    case Deliver => DeliverReplies(y);
    case _ =>
  }

  lemma RetainsStep(y: Pane, e: Event, limit: int)
    requires PaneInv(y) && RetainsAll(y, limit) && !e.SetLimit?
    ensures RetainsAll(Step(y, e), limit)
  {
    hide PaneInv, GivenAll, BytesOf, Allowed, CoreOk, Captures, Lists, AttachStep, DeliverStep, FinishResizeStep;
    if Enabled(y, e) {
      match e
      case Capture(data, parserOk, order) => CaptureRetainsAll(y, data, parserOk, order, limit);
      case Attach(request, created, memoryOk) => AttachRetainsAll(y, request, created, memoryOk, limit);
      case _ =>
        hide Next;
        OtherRetains(y, e);
        RepliesStay(y, e);
    }
  }

  lemma {:induction false} RetainedRun(size: Size, limit: int, generation: string, withCheckpoint: bool, events: seq<Event>)
    requires forall i :: 0 <= i < |events| ==> !events[i].SetLimit?
    ensures RetainsAll(RunOf(size, limit, generation, withCheckpoint, events), limit)
  {
    if events == [] {
      hide GivenAll;
    } else {
      var before := events[..|events| - 1];
      RetainedRun(size, limit, generation, withCheckpoint, before);
      PaneRuns(size, limit, generation, withCheckpoint, before);
      hide RetainsAll, Step, PaneInv;
      RetainsStep(RunOf(size, limit, generation, withCheckpoint, before), events[|events| - 1], limit);
    }
  }
}
