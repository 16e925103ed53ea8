/** A queue stream that reads what an attached agent sends: other controls, one
    history replay, then live output (core/agent_attach.go, handleAttach and
    writeAgentHistoryReplay). */
module AgentStream {
  import opened Bytes
  import opened QueueStream
  import opened QueueRuns
  import opened QueueOrder
  import opened QueueBounds
  import opened QueueDelivery
  import opened QueueBurst
  import opened HistoryReplay

  /** A history snapshot as it is announced: its bytes start at `deltaFrom`. The
      texts are the encoded controls, `encoded` the start with a granted burst. */
  datatype Replay = Replay(deltaFrom: nat, data: seq<byte>, isSnapshot: bool,
                           startText: seq<byte>, encoded: seq<byte>, completeText: seq<byte>)

  function Outputs(payloads: seq<seq<byte>>): seq<Frame>
  {
    if payloads == [] then [] else [BinaryFrame(payloads[0])] + Outputs(payloads[1..])
  }

  function StartFrame(r: Replay): Frame
  {
    TextFrame(r.startText, ReplayStart(Some(r.deltaFrom), Some(r.deltaFrom + |r.data|), r.isSnapshot, r.encoded))
  }

  function CompleteFrame(r: Replay): Frame
  {
    TextFrame(r.completeText, ReplayComplete(Some(r.deltaFrom + |r.data|)))
  }

  predicate OtherTexts(frames: seq<Frame>)
  {
    forall i :: 0 <= i < |frames| ==> frames[i].TextFrame? && frames[i].message == OtherControl
  }

  predicate LiveFrame(f: Frame)
  {
    f.TextFrame? ==> !f.message.ReplayStart? && !f.message.ReplayComplete?
  }

  predicate LiveFrames(frames: seq<Frame>)
  {
    forall i :: 0 <= i < |frames| ==> LiveFrame(frames[i])
  }

  function LiveBytes(frames: seq<Frame>): seq<byte>
  {
    if frames == [] then []
    else LiveBytes(frames[..|frames| - 1]) + FrameBytes(frames[|frames| - 1])
  }

  function FrameBytes(f: Frame): seq<byte>
  {
    if f.BinaryFrame? then f.payload else []
  }

  /** Everything the agent sends: `before`, the replay, and `live`. */
  function AgentFrames(before: seq<Frame>, r: Replay, live: seq<Frame>): seq<Frame>
  {
    before + [StartFrame(r)] + Outputs(Pieces(r.data, HISTORY_REPLAY_CHUNK)) + [CompleteFrame(r)] + live
  }

  // ---- what the frames so far amount to ---------------------------------------

  /** After these frames output began at `from` and `got` has come; all were
      acceptable; and at most one burst was opened, which holds `burst` bytes. */
  ghost predicate Following(sub: Subscription, frames: seq<Frame>, from: nat, got: seq<byte>, burst: Burst)
  {
    && AcceptedFrames(sub, frames)
    && TrackOf(frames) == At(from, got, from + |got|)
    && OneBurst(Labels(sub, frames).1)
    && BurstOf(Labels(sub, frames).1) == burst
  }

  lemma OneBurstAppend(entries: seq<Outbound>, more: seq<Outbound>)
    requires OneBurst(entries) && forall i :: 0 <= i < |more| ==> !more[i].burstStart
    ensures OneBurst(entries + more)
  {}

  lemma {:induction false} BurstBinaries(entries: seq<Outbound>, more: seq<Outbound>)
    requires forall i :: 0 <= i < |more| ==> more[i].messageType == Binary && !more[i].burstStart && !more[i].burstFinish
    ensures var b := BurstOf(entries);
            BurstOf(entries + more) == Burst(b.open, if b.open then b.bytes + SumCost(more) else b.bytes)
    decreases |more|
  {
    if more == [] {
      assert entries + more == entries;
    } else {
      var n := |more| - 1;
      BurstBinaries(entries, more[..n]);
      BurstSnoc(entries + more[..n], more[n]);
      assert entries + more == entries + more[..n] + [more[n]];
      assert more == more[..n] + [more[n]];
      SumCostAppend(more[..n], [more[n]]);
      assert SumCost([more[n]]) == more[n].byteCost + SumCost([]);
    }
  }

  lemma {:induction false} BinaryEntriesCost(pieces: seq<seq<byte>>, start: nat, sequence: nat)
    ensures var bins := BinaryEntries(pieces, start, sequence);
            && SumCost(bins) == |Flatten(pieces)|
            && (forall i :: 0 <= i < |bins| ==> bins[i].messageType == Binary && !bins[i].burstStart && !bins[i].burstFinish)
    decreases |pieces|
  {
    if pieces != [] {
      BinaryEntriesCost(pieces[1..], start + |pieces[0]|, sequence + 1);
      var bins := BinaryEntries(pieces, start, sequence);
      assert bins[1..] == BinaryEntries(pieces[1..], start + |pieces[0]|, sequence + 1);
    }
  }

  lemma SnocFacts(sub: Subscription, frames: seq<Frame>, f: Frame)
    ensures TrackOf(frames + [f]) == TrackFrame(TrackOf(frames), f)
    ensures AcceptedFrames(sub, frames + [f]) <==> AcceptedFrames(sub, frames) && AcceptedFrame(Labels(sub, frames).0, f)
  {
    assert (frames + [f])[..|frames + [f]| - 1] == frames;
  }

  lemma FollowBinary(sub: Subscription, frames: seq<Frame>, from: nat, got: seq<byte>, burst: Burst, payload: seq<byte>)
    requires Following(sub, frames, from, got, burst)
    ensures Following(sub, frames + [BinaryFrame(payload)], from, got + payload,
                      Burst(burst.open, if burst.open then burst.bytes + |payload| else burst.bytes))
  {
    hide Labels, TrackOf, AcceptedFrames, BurstOf, OneBurst, Pieces, BinaryEntries, Flatten, Tiles, NumberedFrom, Bins, SumCost;
    var f := BinaryFrame(payload);
    LabelsMatch(sub, frames);
    LabelsSnoc(sub, frames, f);
    SnocFacts(sub, frames, f);
    var (l, entries) := Labels(sub, frames);
    var pieces := Pieces(payload, BINARY_MAX);
    PiecesSpec(payload, BINARY_MAX);
    BinaryEntriesCost(pieces, l.cursor, l.binarySequence);
    var more := LabelFrame(sub, l, f).1;
    if payload == [] {
      Empty(got);
      Empty(entries);
    } else {
      BurstBinaries(entries, more);
      OneBurstAppend(entries, more);
    }
  }

  lemma FollowText(sub: Subscription, frames: seq<Frame>, from: nat, got: seq<byte>, burst: Burst, f: Frame)
    requires Following(sub, frames, from, got, burst) && f.TextFrame? && !f.message.ReplayStart?
    requires f.message.ReplayComplete? ==> f.message.historyCursor == Some(from + |got|)
    ensures exists open :: Following(sub, frames + [f], from, got, Burst(open, burst.bytes))
    ensures f.message.ReplayComplete? || !burst.open ==> Following(sub, frames + [f], from, got, Burst(false, burst.bytes))
  {
    hide Labels, TrackOf, AcceptedFrames, BurstOf, OneBurst, Tiles, NumberedFrom, Bins;
    LabelsMatch(sub, frames);
    LabelsSnoc(sub, frames, f);
    SnocFacts(sub, frames, f);
    var (l, entries) := Labels(sub, frames);
    var more := LabelFrame(sub, l, f).1;
    if more == [] {
      Empty(entries);
      assert Following(sub, frames + [f], from, got, Burst(burst.open, burst.bytes));
    } else {
      assert more == [more[0]];
      BurstSnoc(entries, more[0]);
      OneBurstAppend(entries, more);
      assert Following(sub, frames + [f], from, got, Burst(false, burst.bytes));
    }
  }

  lemma {:induction false} BeforeReplay(sub: Subscription, before: seq<Frame>)
    requires OtherTexts(before)
    ensures Labels(sub, before) == (Labeler(false, 0, 0), []) && AcceptedFrames(sub, before) && TrackOf(before) == NoOutput
    decreases |before|
  {
    if before != [] {
      var front, last := before[..|before| - 1], before[|before| - 1];
      BeforeReplay(sub, front);
      assert last.message == OtherControl;
      LabelsSnoc(sub, front, last);
      SnocFacts(sub, front, last);
      assert front + [last] == before;
    }
  }

  /** The burst a replay is granted: all of it, or none. */
  function Granted(sub: Subscription, r: Replay): nat
  {
    ReplayBurstBytes(sub, Some(r.deltaFrom), Some(r.deltaFrom + |r.data|), r.isSnapshot)
  }

  lemma FollowStart(sub: Subscription, before: seq<Frame>, r: Replay)
    requires OtherTexts(before)
    ensures Following(sub, before + [StartFrame(r)], r.deltaFrom, [], Burst(Granted(sub, r) > 0, 0))
  {
    BeforeReplay(sub, before);
    LabelsSnoc(sub, before, StartFrame(r));
    SnocFacts(sub, before, StartFrame(r));
    var more := Labels(sub, before + [StartFrame(r)]).1;
    hide Labels, TrackOf, AcceptedFrames;
    if more != [] {
      assert more == [more[0]] && more[..0] == [];
      BurstSnoc([], more[0]);
      assert [] + [more[0]] == more;
    }
  }

  lemma {:induction false} FollowOutputs(sub: Subscription, frames: seq<Frame>, from: nat, got: seq<byte>, burst: Burst,
                                         payloads: seq<seq<byte>>)
    requires Following(sub, frames, from, got, burst)
    ensures Following(sub, frames + Outputs(payloads), from, got + Flatten(payloads),
                      Burst(burst.open, if burst.open then burst.bytes + |Flatten(payloads)| else burst.bytes))
    decreases |payloads|
  {
    hide Following;
    if payloads == [] {
      assert frames + Outputs(payloads) == frames && got + Flatten(payloads) == got;
    } else {
      FollowBinary(sub, frames, from, got, burst, payloads[0]);
      var next := Burst(burst.open, if burst.open then burst.bytes + |payloads[0]| else burst.bytes);
      FollowOutputs(sub, frames + [BinaryFrame(payloads[0])], from, got + payloads[0], next, payloads[1..]);
      Assoc(frames, [BinaryFrame(payloads[0])], Outputs(payloads[1..]));
      Assoc(got, payloads[0], Flatten(payloads[1..]));
    }
  }

  lemma {:induction false} FollowLive(sub: Subscription, frames: seq<Frame>, from: nat, got: seq<byte>, bytes: nat,
                                      live: seq<Frame>)
    requires Following(sub, frames, from, got, Burst(false, bytes)) && LiveFrames(live)
    ensures Following(sub, frames + live, from, got + LiveBytes(live), Burst(false, bytes))
    decreases |live|
  {
    hide Following;
    if live == [] {
      assert frames + live == frames && got + LiveBytes(live) == got;
    } else {
      var front, f := live[..|live| - 1], live[|live| - 1];
      FollowLive(sub, frames, from, got, bytes, front);
      assert LiveFrame(f);
      if f.BinaryFrame? {
        FollowBinary(sub, frames + front, from, got + LiveBytes(front), Burst(false, bytes), f.payload);
      } else {
        FollowText(sub, frames + front, from, got + LiveBytes(front), Burst(false, bytes), f);
        assert LiveBytes(front) + [] == LiveBytes(front);
      }
      assert front + [f] == live;
      Assoc(frames, front, [f]);
      Assoc(got, LiveBytes(front), FrameBytes(f));
    }
  }

  /** Everything an attached agent sends is acceptable: the replay ends at the
      cursor it announced, live output continues there, and the only burst opened
      is the replay itself. */
  lemma WholeConversation(sub: Subscription, before: seq<Frame>, r: Replay, live: seq<Frame>)
    requires OtherTexts(before) && LiveFrames(live)
    ensures Following(sub, AgentFrames(before, r, live), r.deltaFrom, r.data + LiveBytes(live), Burst(false, Granted(sub, r)))
    ensures Granted(sub, r) <= REPLAY_BURST_MAX
  {
    hide Following;
    var pieces := Pieces(r.data, HISTORY_REPLAY_CHUNK);
    PiecesSpec(r.data, HISTORY_REPLAY_CHUNK);
    hide Pieces, Flatten;
    var started := before + [StartFrame(r)];
    var replayed := started + Outputs(pieces);
    var open := Granted(sub, r) > 0;
    FollowStart(sub, before, r);
    FollowOutputs(sub, started, r.deltaFrom, [], Burst(open, 0), pieces);
    assert [] + r.data == r.data;
    FollowText(sub, replayed, r.deltaFrom, r.data, Burst(open, if open then |r.data| else 0), CompleteFrame(r));
    FollowLive(sub, replayed + [CompleteFrame(r)], r.deltaFrom, r.data, Granted(sub, r), live);
  }

  lemma WholeTrack(sub: Subscription, before: seq<Frame>, r: Replay, live: seq<Frame>)
    requires OtherTexts(before) && LiveFrames(live)
    ensures TrackOf(AgentFrames(before, r, live)).At? && TrackOf(AgentFrames(before, r, live)).data == r.data + LiveBytes(live)
  {
    hide AgentFrames, TrackOf, AcceptedFrames, Labels, OneBurst, BurstOf, LiveBytes;
    WholeConversation(sub, before, r, live);
  }

  // ---- reading a part of it ----------------------------------------------------

  /** Reading only some of the frames yields a prefix of the output. */
  lemma {:induction false} TrackPrefix(a: seq<Frame>, b: seq<Frame>)
    requires IsPrefix(a, b) && TrackOf(b).At?
    ensures var t := TrackOf(a);
            t != Broken && (t.At? ==> IsPrefix(t.data, TrackOf(b).data) && (t.data != [] ==> t.base == TrackOf(b).base))
    decreases |b|
  {
    if |a| < |b| {
      var front, last := b[..|b| - 1], b[|b| - 1];
      assert front[..|a|] == a;
      if TrackOf(front).At? {
        TrackPrefix(a, front);
        if TrackOf(a).At? {
          PrefixTransitive(TrackOf(a).data, TrackOf(front).data, TrackOf(b).data);
        }
      } else {
        NoOutputPrefix(a, front);
      }
    } else {
      assert a == b;
    }
  }

  lemma {:induction false} NoOutputPrefix(a: seq<Frame>, b: seq<Frame>)
    requires IsPrefix(a, b) && TrackOf(b) == NoOutput
    ensures TrackOf(a) == NoOutput
    decreases |b|
  {
    if |a| < |b| {
      assert b[..|b| - 1][..|a|] == a;
      NoOutputPrefix(a, b[..|b| - 1]);
    } else {
      assert a == b;
    }
  }

  lemma TilesMore(bins: seq<Outbound>, base: nat, data: seq<byte>, all: seq<byte>)
    requires Tiles(bins, base, data) && IsPrefix(data, all)
    ensures Tiles(bins, base, all)
  {
    forall i | 0 <= i < |bins| ensures PieceOf(bins[i], base, all) {
      assert PieceOf(bins[i], base, data);
      assert data + all[|data|..] == all;
      PieceExtends(bins[i], base, data, all[|data|..]);
    }
  }

  /** The control with which the reader ends a stream whose connection broke, and any
      with which an agent refuses to attach. */
  predicate Ending(f: Frame)
  {
    f.TextFrame? && (f.message == TerminalControl || f.message == ConnectionError)
  }

  predicate Endings(frames: seq<Frame>)
  {
    forall i :: 0 <= i < |frames| ==> Ending(frames[i])
  }

  /** The first part of what an agent sends, up to wherever the connection broke, and
      what the reader put after it. */
  ghost predicate Hears(frames: seq<Frame>, all: seq<Frame>)
  {
    exists k :: 0 <= k <= |frames| && IsPrefix(frames[..k], all) && Endings(frames[k..])
  }

  /** These frames are acceptable, carry a prefix of `data` from cursor `from` on, and
      open at most one burst, before any output, with at most `burst` bytes. */
  ghost predicate Keeps(sub: Subscription, frames: seq<Frame>, from: nat, data: seq<byte>, burst: nat)
  {
    && AcceptedFrames(sub, frames)
    && Within(TrackOf(frames), from, data)
    && OneBurst(Labels(sub, frames).1)
    && BurstOf(Labels(sub, frames).1).bytes <= burst
  }

  ghost predicate Within(t: Track, from: nat, data: seq<byte>)
  {
    match t
    case NoOutput => true
    case At(base, got, _) => IsPrefix(got, data) && (got != [] ==> base == from)
    case Broken => false
  }

  lemma PrefixKeeps(sub: Subscription, a: seq<Frame>, all: seq<Frame>, from: nat, data: seq<byte>, bytes: nat)
    requires IsPrefix(a, all) && Following(sub, all, from, data, Burst(false, bytes))
    ensures Keeps(sub, a, from, data, bytes)
  {
    hide TrackOf, AcceptedFrames, Labels, OneBurst, BurstOf;
    AcceptedPrefix(sub, a, all);
    TrackPrefix(a, all);
    LabelsGrow(sub, a, all);
    OneBurstPrefix(Labels(sub, a).1, Labels(sub, all).1);
    BurstGrows(Labels(sub, a).1, Labels(sub, all).1);
  }

  lemma EndingKeeps(sub: Subscription, frames: seq<Frame>, f: Frame, from: nat, data: seq<byte>, bytes: nat)
    requires Keeps(sub, frames, from, data, bytes) && Ending(f)
    ensures Keeps(sub, frames + [f], from, data, bytes)
  {
    hide TrackOf, AcceptedFrames, Labels, OneBurst, BurstOf;
    SnocFacts(sub, frames, f);
    LabelsSnoc(sub, frames, f);
    var (l, entries) := Labels(sub, frames);
    var more := LabelFrame(sub, l, f).1;
    assert more == [more[0]];
    BurstSnoc(entries, more[0]);
    OneBurstAppend(entries, more);
  }

  lemma {:induction false} EndingsKeep(sub: Subscription, frames: seq<Frame>, k: nat, from: nat, data: seq<byte>, bytes: nat)
    requires k <= |frames| && Keeps(sub, frames[..k], from, data, bytes) && Endings(frames[k..])
    ensures Keeps(sub, frames, from, data, bytes)
    decreases |frames|
  {
    hide Keeps, Ending;
    if k == |frames| {
      assert frames[..k] == frames;
    } else {
      var front, f := frames[..|frames| - 1], frames[|frames| - 1];
      assert front[..k] == frames[..k];
      assert f == frames[k..][|frames| - 1 - k];
      forall i | 0 <= i < |front[k..]| ensures Ending(front[k..][i]) {
        assert front[k..][i] == frames[k..][i];
      }
      EndingsKeep(sub, front, k, from, data, bytes);
      EndingKeeps(sub, front, f, from, data, bytes);
      assert front + [f] == frames;
    }
  }

  /** However much of the conversation is heard, wherever the connection breaks, and
      whatever ends it. */
  lemma AgentFollows(sub: Subscription, frames: seq<Frame>, before: seq<Frame>, r: Replay, live: seq<Frame>)
    requires OtherTexts(before) && LiveFrames(live) && Hears(frames, AgentFrames(before, r, live))
    ensures Keeps(sub, frames, r.deltaFrom, r.data + LiveBytes(live), Granted(sub, r)) && Granted(sub, r) <= REPLAY_BURST_MAX
  {
    hide AgentFrames, Following, Keeps, Endings, LiveBytes;
    var all := AgentFrames(before, r, live);
    WholeConversation(sub, before, r, live);
    var k :| 0 <= k <= |frames| && IsPrefix(frames[..k], all) && Endings(frames[k..]);
    PrefixKeeps(sub, frames[..k], all, r.deltaFrom, r.data + LiveBytes(live), Granted(sub, r));
    EndingsKeep(sub, frames, k, r.deltaFrom, r.data + LiveBytes(live), Granted(sub, r));
  }

  /** A run that reads what an attached agent sends, as far as its connection lasts. */
  ghost predicate ServesAgent(sub: Subscription, errors: ErrorControls, events: seq<Event>,
                              before: seq<Frame>, r: Replay, live: seq<Frame>)
  {
    && ErrorsFit(errors) && OtherTexts(before) && LiveFrames(live)
    && Hears(Exec(Start(sub, errors), events).frames, AgentFrames(before, r, live))
  }

  /** The viewer's entries tile the snapshot followed by the live output: each
      carries exactly the bytes its cursors name, in order, without gap or repeat. */
  lemma AgentDelivered(sub: Subscription, errors: ErrorControls, events: seq<Event>,
                       before: seq<Frame>, r: Replay, live: seq<Frame>)
    requires ServesAgent(sub, errors, events, before, r, live)
    ensures var y := Exec(Start(sub, errors), events);
            NumberedFrom(Bins(y.popped), 0) && Tiles(Bins(y.popped), r.deltaFrom, r.data + LiveBytes(live))
  {
    var y := Exec(Start(sub, errors), events);
    hide Hears, AgentFrames, LiveBytes, Exec, NumberedFrom, PieceOf, Labels, AcceptedFrames, OneBurst, BurstOf;
    AgentFollows(sub, y.frames, before, r, live);
    ContiguousDelivery(sub, errors, events);
    var t := TrackOf(y.frames);
    if t.At? && t.data != [] {
      TilesMore(Bins(y.popped), t.base, t.data, r.data + LiveBytes(live));
    }
  }

  /** The window stays within 3,500,000 bytes in flight and 256 turns. */
  lemma AgentBounded(sub: Subscription, errors: ErrorControls, events: seq<Event>,
                     before: seq<Frame>, r: Replay, live: seq<Frame>)
    requires ServesAgent(sub, errors, events, before, r, live)
    ensures var y := Exec(Start(sub, errors), events);
            && 0 <= y.stream.window.inFlight <= Max(WINDOW_BYTES, Granted(sub, r)) <= REPLAY_BURST_MAX
            && |y.stream.window.boundaries| <= WINDOW_TURNS
  {
    var y := Exec(Start(sub, errors), events);
    hide Hears, AgentFrames, LiveBytes, Exec, TrackOf, AcceptedFrames, Labels, OneBurst, BurstOf;
    AgentFollows(sub, y.frames, before, r, live);
    WindowStaysBounded(sub, errors, events);
  }

  /** The replay never trips the stream's continuity check, whether or not the
      connection lasts: unless something else fills the buffer, the stream is never
      overloaded. */
  lemma AgentNotCutOff(sub: Subscription, errors: ErrorControls, reserve: nat, events: seq<Event>,
                       before: seq<Frame>, r: Replay, live: seq<Frame>)
    requires ServesAgent(sub, errors, events, before, r, live) && Moderate(sub, errors, reserve, events)
    ensures !Exec(Start(sub, errors), events).stream.overloaded
  {
    hide Hears, AgentFrames, Exec, TrackOf, AcceptedFrames, Labels, OneBurst, BurstOf, Moderate;
    AgentFollows(sub, Exec(Start(sub, errors), events).frames, before, r, live);
    NeverOverloaded(sub, errors, reserve, events);
  }
}
