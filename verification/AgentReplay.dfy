/** The replay burst at work: a snapshot that was granted one reaches the client without
    waiting for a single acknowledgement (core/terminal_queue_replay.go:8-55). */
module AgentReplay {
  import opened Bytes
  import opened QueueStream
  import opened QueueRuns
  import opened QueueOrder
  import opened QueueBounds
  import opened QueueDelivery
  import opened QueueLedger
  import opened QueueBurst
  import opened QueueEffects
  import opened HistoryReplay
  import opened AgentStream
  import opened QueueProgress

  // ---- a burst is open from its start to its end, under every protocol -----------------

  /** Whether a burst is open follows from the entries sent, and within one no turn has
      been announced. */
  ghost predicate OpenInv(y: System)
  {
    !y.stream.overloaded ==>
      && y.stream.burstActive == BurstOf(y.popped).open
      && (y.stream.burstActive ==> y.announced == [])
  }

  lemma OpenPop(y: System)
    requires OpenInv(y) && FlowInv(y) && OrderInv(y) && y.writer.InTurn?
    requires OneBurst(Labels(y.stream.sub, y.frames).1)
    ensures OpenInv(PopStep(y))
  {
    hide OneBurst, Labels, BurstOf, Bins, Proj, MarkedUpTo, Ledger, Covered, Pending;
    if !y.stream.overloaded && CanPop(y.stream, y.writer.target, y.writer.written) {
      var e := y.stream.buffer[0];
      BurstSnoc(y.popped, e);
      if e.burstStart {
        OpensFirst(y, e);
        NoneAnnounced(y);
      }
      hide OrderInv, FlowInv;
      assert PopStep(y).popped == y.popped + [e];
    }
  }

  /** Nothing sent, nothing announced. */
  lemma NoneAnnounced(y: System)
    requires FlowInv(y) && Serving(y.stream) && Bins(y.popped) == []
    ensures y.announced == []
  {
    hide Ledger, Covered, Pending, Bins;
  }

  lemma OpenStep(y: System, e: Event)
    requires OpenInv(y) && FlowInv(y) && OrderInv(y)
    requires OneBurst(Labels(y.stream.sub, y.frames).1)
    ensures OpenInv(Step(y, e))
  {
    hide BurstOf, OneBurst, Labels, FlowInv, OrderInv, TextSection, BinarySection, EnqueueSection, AckSection, PopStep, TargetSection, GateOpen;
    if Enabled(y, e) {
      if QueueSide(y, e) {
        QueueSideStep(y, e);
        hide Step;
      } else {
        match e
        case Pop => OpenPop(y);
        case Ack(ack) => AckKeepsBurst(y.stream, ack);
        case _ =>
      }
    }
  }

  lemma AckKeepsBurst(s: Stream, ack: Option<(nat, nat)>)
    ensures AckSection(s, ack).0.burstActive == s.burstActive && AckSection(s, ack).0.overloaded == s.overloaded
  {
    hide FindBoundary, SumBytes;
  }

  lemma {:induction false} OpenRun(sub: Subscription, errors: ErrorControls, events: seq<Event>)
    requires ErrorsFit(errors)
    requires OneBurst(Labels(sub, Exec(Start(sub, errors), events).frames).1)
    ensures OpenInv(Exec(Start(sub, errors), events))
    ensures Exec(Start(sub, errors), events).stream.sub == sub
  {
    if events != [] {
      var before, e := events[..|events| - 1], events[|events| - 1];
      var y := Exec(Start(sub, errors), before);
      FramesGrow(y, e);
      LabelsGrow(sub, y.frames, Step(y, e).frames);
      OneBurstPrefix(Labels(sub, y.frames).1, Labels(sub, Step(y, e).frames).1);
      OpenRun(sub, errors, before);
      FlowRun(sub, errors, before);
      OrderRun(sub, errors, before);
      LifeStep(y, e);
      hide OpenInv, FlowInv, OrderInv, OneBurst, Labels, Step;
      OpenStep(y, e);
    }
  }

  // ---- all of the replay lies within its burst ------------------------------------------

  /** Every entry of output up to this cursor comes while a burst is open. */
  ghost predicate WithinBurst(entries: seq<Outbound>, end: nat)
  {
    forall k :: 0 <= k < |entries| && entries[k].messageType == Binary && entries[k].endCursor <= end ==>
                  BurstOf(entries[..k]).open
  }

  lemma WithinPrefix(a: seq<Outbound>, b: seq<Outbound>, end: nat)
    requires IsPrefix(a, b) && WithinBurst(b, end)
    ensures WithinBurst(a, end)
  {
    hide BurstOf;
    forall k | 0 <= k < |a| && a[k].messageType == Binary && a[k].endCursor <= end ensures BurstOf(a[..k]).open {
      assert b[..|a|][k] == b[k];
      TakeTwice(b, |a|, k);
    }
  }

  lemma WithinSnoc(entries: seq<Outbound>, e: Outbound, end: nat)
    requires WithinBurst(entries, end)
    requires e.messageType == Binary && e.endCursor <= end ==> BurstOf(entries).open
    ensures WithinBurst(entries + [e], end)
  {
    hide BurstOf;
    var more := entries + [e];
    forall k | 0 <= k < |more| && more[k].messageType == Binary && more[k].endCursor <= end ensures BurstOf(more[..k]).open {
      CutFirst(entries, [e], k);
      Empty(entries);
    }
  }

  /** Output inside a burst, or output beyond the cursor. */
  lemma {:induction false} WithinOutputs(entries: seq<Outbound>, more: seq<Outbound>, end: nat)
    requires WithinBurst(entries, end)
    requires forall i :: 0 <= i < |more| ==> more[i].messageType == Binary && !more[i].burstStart && !more[i].burstFinish
    requires BurstOf(entries).open || forall i :: 0 <= i < |more| ==> more[i].endCursor > end
    ensures WithinBurst(entries + more, end)
    decreases |more|
  {
    hide BurstOf, WithinBurst;
    if more == [] {
      Empty(entries);
    } else {
      var n := |more| - 1;
      WithinOutputs(entries, more[..n], end);
      BurstBinaries(entries, more[..n]);
      WithinSnoc(entries + more[..n], more[n], end);
      Uncons(more);
      Assoc(entries, more[..n], [more[n]]);
    }
  }

  lemma {:induction false} EntriesBeyond(pieces: seq<seq<byte>>, start: nat, sequence: nat)
    requires forall i :: 0 <= i < |pieces| ==> pieces[i] != []
    ensures forall i :: 0 <= i < |BinaryEntries(pieces, start, sequence)| ==> BinaryEntries(pieces, start, sequence)[i].endCursor > start
    decreases |pieces|
  {
    if pieces != [] {
      EntriesBeyond(pieces[1..], start + |pieces[0]|, sequence + 1);
      var rest := BinaryEntries(pieces[1..], start + |pieces[0]|, sequence + 1);
      var bins := BinaryEntries(pieces, start, sequence);
      forall i | 0 <= i < |bins| ensures bins[i].endCursor > start {
        if i > 0 {
          assert bins[i] == rest[i - 1];
        }
      }
    }
  }

  /** What a frame of output adds to a conversation of which this much has come. */
  lemma WithinFrame(sub: Subscription, frames: seq<Frame>, from: nat, got: seq<byte>, burst: Burst, payload: seq<byte>, end: nat)
    requires Following(sub, frames, from, got, burst) && WithinBurst(Labels(sub, frames).1, end)
    requires burst.open || end <= from + |got|
    ensures WithinBurst(Labels(sub, frames + [BinaryFrame(payload)]).1, end)
  {
    hide Labels, TrackOf, AcceptedFrames, BurstOf, OneBurst, Pieces, BinaryEntries, Flatten, Tiles, NumberedFrom, Bins, SumCost, WithinBurst;
    var f := BinaryFrame(payload);
    LabelsMatch(sub, frames);
    LabelsSnoc(sub, frames, f);
    var (l, entries) := Labels(sub, frames);
    if payload == [] {
      Empty(entries);
    } else {
      var pieces := Pieces(payload, BINARY_MAX);
      PiecesSpec(payload, BINARY_MAX);
      BinaryEntriesCost(pieces, l.cursor, l.binarySequence);
      EntriesBeyond(pieces, l.cursor, l.binarySequence);
      WithinOutputs(entries, LabelFrame(sub, l, f).1, end);
    }
  }

  lemma WithinText(sub: Subscription, frames: seq<Frame>, f: Frame, end: nat)
    requires WithinBurst(Labels(sub, frames).1, end) && f.TextFrame?
    ensures WithinBurst(Labels(sub, frames + [f]).1, end)
  {
    hide Labels, WithinBurst;
    LabelsSnoc(sub, frames, f);
    var (l, entries) := Labels(sub, frames);
    var more := LabelFrame(sub, l, f).1;
    if more == [] {
      Empty(entries);
    } else {
      assert more == [more[0]];
      WithinSnoc(entries, more[0], end);
    }
  }

  lemma {:induction false} WithinReplay(sub: Subscription, frames: seq<Frame>, from: nat, got: seq<byte>, bytes: nat,
                                        payloads: seq<seq<byte>>, end: nat)
    requires Following(sub, frames, from, got, Burst(true, bytes)) && WithinBurst(Labels(sub, frames).1, end)
    ensures WithinBurst(Labels(sub, frames + Outputs(payloads)).1, end)
    decreases |payloads|
  {
    hide Following, WithinBurst, Labels;
    if payloads == [] {
      Empty(frames);
    } else {
      var f := BinaryFrame(payloads[0]);
      FollowBinary(sub, frames, from, got, Burst(true, bytes), payloads[0]);
      WithinFrame(sub, frames, from, got, Burst(true, bytes), payloads[0], end);
      WithinReplay(sub, frames + [f], from, got + payloads[0], bytes + |payloads[0]|, payloads[1..], end);
      Assoc(frames, [f], Outputs(payloads[1..]));
    }
  }

  lemma {:induction false} WithinLive(sub: Subscription, frames: seq<Frame>, from: nat, got: seq<byte>, bytes: nat, live: seq<Frame>)
    requires Following(sub, frames, from, got, Burst(false, bytes)) && LiveFrames(live)
    requires WithinBurst(Labels(sub, frames).1, from + |got|)
    ensures WithinBurst(Labels(sub, frames + live).1, from + |got|)
    decreases |live|
  {
    hide Following, WithinBurst, Labels, LiveBytes;
    if live == [] {
      Empty(frames);
    } else {
      var front, f := live[..|live| - 1], live[|live| - 1];
      FollowLive(sub, frames, from, got, bytes, front);
      WithinLive(sub, frames, from, got, bytes, front);
      if f.BinaryFrame? {
        WithinFrame(sub, frames + front, from, got + LiveBytes(front), Burst(false, bytes), f.payload, from + |got|);
      } else {
        WithinText(sub, frames + front, f, from + |got|);
      }
      Uncons(live);
      Assoc(frames, front, [f]);
    }
  }

  /** The replay's own condition for a burst. */
  predicate Grants(sub: Subscription, r: Replay)
  {
    && r.isSnapshot && sub.flow in {TurnAck, WindowAck} && sub.replayBurstLimit > 0
    && 0 < |r.data| <= sub.replayBurstLimit && |r.data| <= 3_500_000
  }

  /** All of a granted replay is its burst; otherwise there is none. */
  lemma GrantsExactly(sub: Subscription, r: Replay)
    ensures Granted(sub, r) == if Grants(sub, r) then |r.data| else 0
    ensures Grants(sub, r) <==> BurstGranted(sub, StartFrame(r).message)
  {}

  lemma ConversationWithin(sub: Subscription, before: seq<Frame>, r: Replay, live: seq<Frame>)
    requires OtherTexts(before) && LiveFrames(live) && Grants(sub, r)
    ensures WithinBurst(Labels(sub, AgentFrames(before, r, live)).1, r.deltaFrom + |r.data|)
  {
    hide Following, WithinBurst, Labels, Pieces, Flatten, Granted, Grants;
    var end, pieces := r.deltaFrom + |r.data|, Pieces(r.data, HISTORY_REPLAY_CHUNK);
    PiecesSpec(r.data, HISTORY_REPLAY_CHUNK);
    var started := before + [StartFrame(r)];
    var replayed := started + Outputs(pieces);
    GrantsExactly(sub, r);
    assert Granted(sub, r) > 0 by { SomeData(sub, r); }
    StartWithin(sub, before, r, end);
    FollowStart(sub, before, r);
    WithinReplay(sub, started, r.deltaFrom, [], 0, pieces, end);
    FollowOutputs(sub, started, r.deltaFrom, [], Burst(true, 0), pieces);
    Empty(r.data);
    FollowText(sub, replayed, r.deltaFrom, r.data, Burst(true, |r.data|), CompleteFrame(r));
    WithinText(sub, replayed, CompleteFrame(r), end);
    WithinLive(sub, replayed + [CompleteFrame(r)], r.deltaFrom, r.data, |r.data|, live);
  }

  lemma SomeData(sub: Subscription, r: Replay)
    requires Grants(sub, r)
    ensures |r.data| > 0
  {}

  lemma StartWithin(sub: Subscription, before: seq<Frame>, r: Replay, end: nat)
    requires OtherTexts(before)
    ensures WithinBurst(Labels(sub, before + [StartFrame(r)]).1, end)
  {
    BeforeReplay(sub, before);
    WithinText(sub, before, StartFrame(r), end);
  }

  lemma {:induction false} WithinEndings(sub: Subscription, frames: seq<Frame>, k: nat, end: nat)
    requires k <= |frames| && WithinBurst(Labels(sub, frames[..k]).1, end) && Endings(frames[k..])
    ensures WithinBurst(Labels(sub, frames).1, end)
    decreases |frames|
  {
    hide WithinBurst, Labels;
    if k == |frames| {
      Empty(frames);
    } else {
      var front, f := frames[..|frames| - 1], frames[|frames| - 1];
      TakeTwice(frames, |frames| - 1, k);
      assert f == frames[k..][|frames| - 1 - k];
      forall i | 0 <= i < |front[k..]| ensures Ending(front[k..][i]) {
        assert front[k..][i] == frames[k..][i];
      }
      WithinEndings(sub, front, k, end);
      WithinText(sub, front, f, end);
      Uncons(frames);
    }
  }

  lemma HeardWithin(sub: Subscription, frames: seq<Frame>, before: seq<Frame>, r: Replay, live: seq<Frame>)
    requires OtherTexts(before) && LiveFrames(live) && Hears(frames, AgentFrames(before, r, live)) && Grants(sub, r)
    ensures WithinBurst(Labels(sub, frames).1, r.deltaFrom + |r.data|)
  {
    hide AgentFrames, WithinBurst, Labels, Endings, Grants;
    var all, end := AgentFrames(before, r, live), r.deltaFrom + |r.data|;
    ConversationWithin(sub, before, r, live);
    var k :| 0 <= k <= |frames| && IsPrefix(frames[..k], all) && Endings(frames[k..]);
    LabelsGrow(sub, frames[..k], all);
    WithinPrefix(Labels(sub, frames[..k]).1, Labels(sub, all).1, end);
    WithinEndings(sub, frames, k, end);
  }

  /** The burst is open whenever an entry of the replay comes next. */
  lemma HeadWithin(y: System, end: nat)
    requires OrderInv(y) && y.stream.buffer != [] && WithinBurst(Labels(y.stream.sub, y.frames).1, end)
    requires y.stream.buffer[0].messageType == Binary && y.stream.buffer[0].endCursor <= end
    ensures BurstOf(y.popped).open
  {
    var all, e, rest := Labels(y.stream.sub, y.frames).1, y.stream.buffer[0], y.stream.buffer[1..];
    Uncons(y.stream.buffer);
    ProjAppend([e], rest);
    ProjOne(e);
    BurstProj(y.popped);
    hide Labels, Proj, BurstOf;
    var sent, queued := Proj(y.popped), Proj(y.stream.buffer);
    var k := |sent|;
    assert (sent + queued)[k] == e.(sequence := 0);
    assert all[..|sent + queued|][k] == all[k];
    TakeTwice(all, |sent + queued|, k);
    CutFirst(sent, queued, k);
    Empty(sent);
    assert all[..k] == sent;
  }

  /** An agent's snapshot that is granted a burst needs no acknowledgement: whatever was
      acknowledged or not, while the stream serves and an entry of the snapshot comes next,
      the entry may be sent, and between turns the stream is ready to send it. */
  lemma ReplayNeedsNoAck(sub: Subscription, errors: ErrorControls, events: seq<Event>,
                         before: seq<Frame>, r: Replay, live: seq<Frame>)
    requires ServesAgent(sub, errors, events, before, r, live) && Grants(sub, r)
    ensures var y := Exec(Start(sub, errors), events);
            Serving(y.stream) && y.stream.buffer != [] && y.stream.buffer[0].messageType == Binary
            && y.stream.buffer[0].endCursor <= r.deltaFrom + |r.data| ==>
              && WindowAllows(y.stream, y.stream.buffer[0]) && !y.stream.awaitingTurnAck
              && (y.writer == Idle ==> Enabled(y, StartTurn))
  {
    hide Exec, Hears, AgentFrames, LiveBytes, TrackOf, AcceptedFrames, Labels, OneBurst, BurstOf, WithinBurst, Grants, OrderInv, BoundInv, FlowInv;
    var y := Exec(Start(sub, errors), events);
    AgentFollows(sub, y.frames, before, r, live);
    OpenRun(sub, errors, events);
    OrderRun(sub, errors, events);
    HeardWithin(sub, y.frames, before, r, live);
    if Serving(y.stream) && y.stream.buffer != [] && y.stream.buffer[0].messageType == Binary
       && y.stream.buffer[0].endCursor <= r.deltaFrom + |r.data| {
      HeadWithin(y, r.deltaFrom + |r.data|);
      assert Reachable(y);
      ReachableInv(y);
      NotAwaiting(y);
      if y.writer == Idle {
        ReadyExactly(y);
      }
    }
  }

  lemma NotAwaiting(y: System)
    requires FlowInv(y) && Serving(y.stream) && y.announced == []
    ensures !y.stream.awaitingTurnAck
  {
    hide Bins, Ledger;
  }
}
