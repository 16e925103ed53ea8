/** From the shell to the browser: a pane's output as it is captured, the client
    that attaches to it, the agent connection that carries its replay and live
    output, and the queue stream that serves it (core/pane.go to
    core/queue_stream.go). */
module EndToEnd {
  import opened Bytes
  import opened Geometry
  import opened Subscriber
  import opened TerminalPane
  import Pane = PaneOutput
  import opened QueueStream
  import Queue = QueueRuns
  import opened QueueOrder
  import opened QueueDelivery
  import opened AgentStream

  /** The frame that carries a message; of a control only that it is one that does not
      belong to a replay. */
  predicate Carries(f: Queue.Frame, m: PaneOutbound)
  {
    match m
    case Output(payload, _) => f == Queue.BinaryFrame(payload)
    case Control(_, _, _) => f.TextFrame? && LiveFrame(f)
  }

  /** What follows the replay: the messages the connection took from its client,
      or the exit of a pane that had exited before. */
  predicate CarriesLive(live: seq<Queue.Frame>, received: seq<PaneOutbound>)
  {
    || (|live| <= |received| && forall i :: 0 <= i < |live| ==> Carries(live[i], received[i]))
    || (|live| == 1 && live[0].TextFrame? && live[0].message == TerminalControl)
  }

  /** The replay of a reply; the texts are its encoded controls. */
  ghost predicate Announces(r: Replay, reply: HistoryReply)
  {
    && r.deltaFrom == reply.part.deltaFrom
    && r.data == Flatten(reply.part.chunks)
    && r.isSnapshot == (reply.mode == SnapshotMode)
  }

  lemma CarriesIsLive(live: seq<Queue.Frame>, received: seq<PaneOutbound>)
    requires CarriesLive(live, received)
    ensures LiveFrames(live)
  {
    forall i | 0 <= i < |live| ensures LiveFrame(live[i]) {
      if |live| <= |received| && Carries(live[i], received[i]) {}
    }
  }

  lemma {:induction false} CarriedBytes(live: seq<Queue.Frame>, received: seq<PaneOutbound>)
    requires |live| <= |received| && forall i :: 0 <= i < |live| ==> Carries(live[i], received[i])
    ensures LiveBytes(live) == Pane.BytesOf(Tokens(received[..|live|]))
    decreases |live|
  {
    if live == [] {
      assert received[..0] == [];
    } else {
      var n := |live| - 1;
      assert Carries(live[n], received[n]);
      hide Carries, Tokens, Pane.BytesOf, FrameBytes;
      CarriedBytes(live[..n], received);
      assert received[..|live|] == received[..n] + [received[n]];
      OneMoreMessage(received[..n], live[n], received[n]);
    }
  }

  lemma OneMoreMessage(front: seq<PaneOutbound>, f: Queue.Frame, m: PaneOutbound)
    requires Carries(f, m)
    ensures Pane.BytesOf(Tokens(front + [m])) == Pane.BytesOf(Tokens(front)) + FrameBytes(f)
  {
    hide Tokens, Pane.BytesOf, TokensOf;
    TokensAppend(front, [m]);
    TokensOne(m);
    Pane.BytesOfAppend(Tokens(front), TokensOf(m));
    MessageBytes(f, m);
  }

  lemma MessageBytes(f: Queue.Frame, m: PaneOutbound)
    requires Carries(f, m)
    ensures Pane.BytesOf(TokensOf(m)) == FrameBytes(f)
  {
    match m
    case Output(payload, closeAfter) =>
      Pane.OfBytes(payload);
      var tail: seq<Token> := if closeAfter then [Closing] else [];
      Pane.BytesOfAppend(ByteTokens(payload), tail);
      assert tail == [Closing] ==> tail[..0] == [] && Pane.BytesOf(tail) == Pane.BytesOf([]) + [];
      assert payload + [] == payload;
    case Control(notice, _, closing) =>
      assert [Mark(notice, closing)][..0] == [];
      assert Pane.BytesOf([Mark(notice, closing)]) == Pane.BytesOf([]) + [];
  }

  /** The connection's live bytes are a prefix of what its client received. */
  lemma LivePrefix(live: seq<Queue.Frame>, received: seq<PaneOutbound>)
    requires CarriesLive(live, received)
    ensures IsPrefix(LiveBytes(live), Pane.BytesOf(Tokens(received)))
  {
    if |live| <= |received| && forall i :: 0 <= i < |live| ==> Carries(live[i], received[i]) {
      CarriedBytes(live, received);
      var a, b := received[..|live|], received[|live|..];
      assert received == a + b;
      TokensAppend(a, b);
      Pane.BytesOfAppend(Tokens(a), Tokens(b));
    } else {
      assert live[..0] == [] && LiveBytes(live) == LiveBytes([]) + [];
    }
  }

  /** Tiling a suffix of some output from its place in the output. */
  lemma TilesWhole(bins: seq<Outbound>, before: seq<byte>, data: seq<byte>, output: seq<byte>)
    requires Tiles(bins, |before|, data) && IsPrefix(before + data, output)
    ensures forall i :: 0 <= i < |bins| ==> PieceOf(bins[i], 0, output)
  {
    hide PieceOf, Chained;
    var rest := output[|before + data|..];
    assert output == before + data + rest;
    forall i | 0 <= i < |bins| ensures PieceOf(bins[i], 0, output) {
      PieceShifts(bins[i], 0, before, data);
      PieceExtends(bins[i], 0, before + data, rest);
    }
  }

  /** Everything a browser is sent on behalf of viewer `v` is the pane's output from
      the viewer's start cursor on: entry after entry carries exactly the bytes of
      the output that its two cursors name, in order, without gap or repeat. */
  ghost predicate ShowsOutput(bins: seq<Outbound>, from: nat, output: seq<byte>)
  {
    && NumberedFrom(bins, 0) && Chained(bins)
    && (bins != [] ==> bins[0].startCursor == from)
    && (forall i :: 0 <= i < |bins| ==> PieceOf(bins[i], 0, output))
  }

  /** A viewer of a pane, and a queue stream that serves its connection, as long as it
      lasts. */
  ghost predicate Serves(w: Pane.Viewer, sub: Subscription, errors: ErrorControls, events: seq<Queue.Event>,
                         before: seq<Queue.Frame>, r: Replay, live: seq<Queue.Frame>)
  {
    && Announces(r, w.reply) && CarriesLive(live, w.client.received)
    && Queue.ErrorsFit(errors) && OtherTexts(before)
    && Hears(Queue.Exec(Queue.Start(sub, errors), events).frames, AgentFrames(before, r, live))
  }

  lemma ServedBins(w: Pane.Viewer, v: nat, todo: seq<(nat, PaneOutbound)>, output: seq<byte>,
                   sub: Subscription, errors: ErrorControls, events: seq<Queue.Event>,
                   before: seq<Queue.Frame>, r: Replay, live: seq<Queue.Frame>)
    requires Pane.SeesOnce(w, v, todo, output) && Serves(w, sub, errors, events, before, r, live)
    ensures ShowsOutput(Bins(Queue.Exec(Queue.Start(sub, errors), events).popped), r.deltaFrom, output)
  {
    hide Queue.Exec, Hears, AgentFrames, Tokens, Pane.BytesOf, LiveBytes, ReplyOk, Pane.OnTheWay, PieceOf, Chained, NumberedFrom, Carries, Flatten;
    CarriesIsLive(live, w.client.received);
    AgentDelivered(sub, errors, events, before, r, live);
    LivePrefix(live, w.client.received);
    var start, received := output[..r.deltaFrom], Pane.BytesOf(Tokens(w.client.received));
    ShorterPrefix(start + r.data, LiveBytes(live), received, output);
    Assoc(start, r.data, LiveBytes(live));
    TilesWhole(Bins(Queue.Exec(Queue.Start(sub, errors), events).popped), start, r.data + LiveBytes(live), output);
  }

  lemma ShorterPrefix(a: seq<byte>, p: seq<byte>, q: seq<byte>, output: seq<byte>)
    requires IsPrefix(p, q) && IsPrefix(a + q, output)
    ensures IsPrefix(a + p, output)
  {
    assert output[..|a + p|] == (a + q)[..|a + p|] == a + q[..|p|];
  }

  /** For every run of the pane and every run of the stream that serves one of its
      viewers. */
  lemma BrowserSeesThePane(size: Size, limit: int, generation: string, withCheckpoint: bool, paneEvents: seq<Pane.Event>, v: nat,
                           sub: Subscription, errors: ErrorControls, events: seq<Queue.Event>,
                           before: seq<Queue.Frame>, r: Replay, live: seq<Queue.Frame>)
    requires v < |Pane.RunOf(size, limit, generation, withCheckpoint, paneEvents).viewers|
    requires Serves(Pane.RunOf(size, limit, generation, withCheckpoint, paneEvents).viewers[v], sub, errors, events, before, r, live)
    ensures ShowsOutput(Bins(Queue.Exec(Queue.Start(sub, errors), events).popped), r.deltaFrom,
                        Pane.PaneBytes(Pane.RunOf(size, limit, generation, withCheckpoint, paneEvents)))
  {
    var y := Pane.RunOf(size, limit, generation, withCheckpoint, paneEvents);
    hide Pane.RunOf, Queue.Exec, Pane.SeesOnce, ShowsOutput, Serves, Bins;
    Pane.ExactlyOnce(size, limit, generation, withCheckpoint, paneEvents, v);
    ServedBins(y.viewers[v], v, y.todo, Pane.PaneBytes(y), sub, errors, events, before, r, live);
  }

  /** Nothing is on its way any more: the viewer is attached and was not cut off, its
      connection has sent all that its client was given, and the stream has read and
      sent all of that. */
  ghost predicate CaughtUp(w: Pane.Viewer, v: nat, todo: seq<(nat, PaneOutbound)>, y: Queue.System,
                           before: seq<Queue.Frame>, r: Replay, live: seq<Queue.Frame>)
  {
    && w.attached && !w.client.queue.done && Pane.OnTheWay(w, v, todo) == []
    && |live| == |w.client.received| && (forall i :: 0 <= i < |live| ==> Carries(live[i], w.client.received[i]))
    && y.frames == AgentFrames(before, r, live)
    && Serving(y.stream) && (y.reader.Gate? || y.reader.Ready?) && y.stream.buffer == []
  }

  lemma AllSentOn(w: Pane.Viewer, v: nat, todo: seq<(nat, PaneOutbound)>, output: seq<byte>,
                  sub: Subscription, errors: ErrorControls, events: seq<Queue.Event>,
                  before: seq<Queue.Frame>, r: Replay, live: seq<Queue.Frame>)
    requires Pane.SeesOnce(w, v, todo, output) && Serves(w, sub, errors, events, before, r, live)
    requires CaughtUp(w, v, todo, Queue.Exec(Queue.Start(sub, errors), events), before, r, live)
    ensures r.deltaFrom <= |output|
    ensures Flatten(PayloadsOf(Bins(Queue.Exec(Queue.Start(sub, errors), events).popped))) == output[r.deltaFrom..]
  {
    hide Queue.Exec, Hears, AgentFrames, Tokens, Pane.BytesOf, LiveBytes, ReplyOk, Pane.OnTheWay, Carries, Flatten, PayloadsOf, Bins, TrackOf;
    CarriesIsLive(live, w.client.received);
    WholeTrack(sub, before, r, live);
    NothingLost(sub, errors, events);
    CarriedBytes(live, w.client.received);
    Empty(w.client.received);
    Empty(Pane.Shown(w, output));
    var start, received := output[..r.deltaFrom], Pane.BytesOf(Tokens(w.client.received));
    Assoc(start, r.data, received);
    CutSecond(start, r.data + received, 0);
    Empty(r.data + received);
  }

  /** And it is all of it: once nothing is on its way, the bytes sent to the browser
      are exactly the pane's output from the viewer's start cursor to its end. */
  lemma BrowserSeesItAll(size: Size, limit: int, generation: string, withCheckpoint: bool, paneEvents: seq<Pane.Event>, v: nat,
                         sub: Subscription, errors: ErrorControls, events: seq<Queue.Event>,
                         before: seq<Queue.Frame>, r: Replay, live: seq<Queue.Frame>)
    requires v < |Pane.RunOf(size, limit, generation, withCheckpoint, paneEvents).viewers|
    requires var y := Pane.RunOf(size, limit, generation, withCheckpoint, paneEvents);
             && Serves(y.viewers[v], sub, errors, events, before, r, live)
             && CaughtUp(y.viewers[v], v, y.todo, Queue.Exec(Queue.Start(sub, errors), events), before, r, live)
    ensures var output := Pane.PaneBytes(Pane.RunOf(size, limit, generation, withCheckpoint, paneEvents));
            && r.deltaFrom <= |output|
            && Flatten(PayloadsOf(Bins(Queue.Exec(Queue.Start(sub, errors), events).popped))) == output[r.deltaFrom..]
  {
    var y := Pane.RunOf(size, limit, generation, withCheckpoint, paneEvents);
    hide Pane.RunOf, Queue.Exec, Pane.SeesOnce, CaughtUp, Serves, Bins, PayloadsOf, Flatten;
    Pane.ExactlyOnce(size, limit, generation, withCheckpoint, paneEvents, v);
    AllSentOn(y.viewers[v], v, y.todo, Pane.PaneBytes(y), sub, errors, events, before, r, live);
  }

  /** A browser that opens a pane for the first time, without a copy and without asking for
      the parser's memory, is shown everything that is retained, and what follows: all but
      what the limit had cut off by then, so all of the output if it was within the limit. */
  lemma FreshBrowserSeesAllRetained(size: Size, limit: int, generation: string, withCheckpoint: bool, paneEvents: seq<Pane.Event>,
                                    v: nat, sub: Subscription, errors: ErrorControls, events: seq<Queue.Event>,
                                    before: seq<Queue.Frame>, r: Replay, live: seq<Queue.Frame>)
    requires forall i :: 0 <= i < |paneEvents| ==> !paneEvents[i].SetLimit?
    requires v < |Pane.RunOf(size, limit, generation, withCheckpoint, paneEvents).viewers|
    requires var y := Pane.RunOf(size, limit, generation, withCheckpoint, paneEvents);
             && y.viewers[v].request.localEnd.None? && !y.viewers[v].request.wantsCheckpoint
             && Serves(y.viewers[v], sub, errors, events, before, r, live)
             && CaughtUp(y.viewers[v], v, y.todo, Queue.Exec(Queue.Start(sub, errors), events), before, r, live)
    ensures var y := Pane.RunOf(size, limit, generation, withCheckpoint, paneEvents);
            var output, attached := Pane.PaneBytes(y), y.viewers[v].reply.part.deltaTo;
            var from := if limit <= 0 then Max(attached - 1_750_000, 0) else Max(attached - limit, 0);
            && from <= attached <= |output|
            && Flatten(PayloadsOf(Bins(Queue.Exec(Queue.Start(sub, errors), events).popped))) == output[from..]
  {
    var y := Pane.RunOf(size, limit, generation, withCheckpoint, paneEvents);
    Pane.ExactlyOnce(size, limit, generation, withCheckpoint, paneEvents, v);
    Pane.RetainedRun(size, limit, generation, withCheckpoint, paneEvents);
    StartsWhereRetained(y.viewers[v], v, y.todo, Pane.PaneBytes(y), limit);
    hide Pane.RunOf, Queue.Exec, Pane.SeesOnce, Pane.GivenAll, CaughtUp, Bins, PayloadsOf, Flatten, Hears, CarriesLive, Pane.PaneBytes;
    BrowserSeesItAll(size, limit, generation, withCheckpoint, paneEvents, v, sub, errors, events, before, r, live);
  }

  lemma StartsWhereRetained(w: Pane.Viewer, v: nat, todo: seq<(nat, PaneOutbound)>, output: seq<byte>, limit: int)
    requires Pane.SeesOnce(w, v, todo, output) && Pane.GivenAll(w.reply, limit)
    requires w.request.localEnd.None? && !w.request.wantsCheckpoint
    ensures var attached := w.reply.part.deltaTo;
            attached <= |output| && w.reply.part.deltaFrom == if limit <= 0 then Max(attached - 1_750_000, 0) else Max(attached - limit, 0)
  {
    hide Pane.Shown, Pane.OnTheWay, Flatten;
  }
}
