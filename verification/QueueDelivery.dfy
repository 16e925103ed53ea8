/** What a viewer receives through one queue stream: numbered entries that tile
    the agent's bytes without gap or repetition. */
module QueueDelivery {
  import opened Bytes
  import opened QueueStream
  import opened QueueRuns
  import opened QueueOrder
  import opened QueueBounds

  /** The binary entries of a list. */
  function Bins(entries: seq<Outbound>): seq<Outbound>
  {
    if entries == [] then []
    else if entries[0].messageType == Binary then [entries[0]] + Bins(entries[1..])
    else Bins(entries[1..])
  }

  lemma {:induction false} BinsAppend(a: seq<Outbound>, b: seq<Outbound>)
    ensures Bins(a + b) == Bins(a) + Bins(b)
  {
    if a == [] {
      assert a + b == b;
    } else {
      BinsAppend(a[1..], b);
      assert (a + b)[1..] == a[1..] + b;
      Assoc([a[0]], Bins(a[1..]), Bins(b));
    }
  }

  lemma {:induction false} BinsProj(entries: seq<Outbound>)
    ensures |Bins(Proj(entries))| == |Bins(entries)|
    ensures forall i :: 0 <= i < |Bins(entries)| ==> Bins(Proj(entries))[i] == Bins(entries)[i].(sequence := 0)
  {
    if entries != [] {
      BinsProj(entries[1..]);
      if Marked(entries[0]) {
        BinsAppend([entries[0].(sequence := 0)], Proj(entries[1..]));
        assert [entries[0].(sequence := 0)][1..] == [];
      }
    }
  }

  lemma BinsPrefix(a: seq<Outbound>, b: seq<Outbound>)
    requires IsPrefix(a, b)
    ensures IsPrefix(Bins(a), Bins(b))
  {
    BinsAppend(a, b[|a|..]);
    assert b == a + b[|a|..];
  }

  predicate NumberedFrom(bins: seq<Outbound>, last: nat)
  {
    forall i :: 0 <= i < |bins| ==> bins[i].binarySequence == last + 1 + i
  }

  /** Every entry starts where the previous one ended. */
  predicate Chained(bins: seq<Outbound>)
  {
    forall i, j :: 0 <= i < |bins| && 0 <= j < |bins| && j == i + 1 ==> bins[j].startCursor == bins[i].endCursor
  }

  /** The entries are consecutive pieces of `data`, which starts at cursor `base`. */
  predicate Tiles(bins: seq<Outbound>, base: nat, data: seq<byte>)
  {
    && Chained(bins)
    && (bins != [] ==> bins[0].startCursor == base)
    && (forall i :: 0 <= i < |bins| ==> PieceOf(bins[i], base, data))
  }

  predicate PieceOf(e: Outbound, base: nat, data: seq<byte>)
  {
    && base <= e.startCursor <= e.endCursor <= base + |data|
    && e.payload == data[e.startCursor - base..e.endCursor - base]
  }

  function EndOf(bins: seq<Outbound>, base: nat): nat
  {
    if bins == [] then base else bins[|bins| - 1].endCursor
  }

  lemma {:induction false} BinaryEntriesNumbered(pieces: seq<seq<byte>>, start: nat, sequence: nat)
    ensures var bins := BinaryEntries(pieces, start, sequence);
            |bins| == |pieces| && Bins(bins) == bins && NumberedFrom(bins, sequence)
    decreases |pieces|
  {
    if pieces != [] {
      BinaryEntriesNumbered(pieces[1..], start + |pieces[0]|, sequence + 1);
      assert BinaryEntries(pieces, start, sequence)[1..] == BinaryEntries(pieces[1..], start + |pieces[0]|, sequence + 1);
    }
  }

  lemma {:induction false} BinaryEntriesTile(pieces: seq<seq<byte>>, start: nat, sequence: nat)
    ensures var bins := BinaryEntries(pieces, start, sequence);
            Tiles(bins, start, Flatten(pieces)) && EndOf(bins, start) == start + |Flatten(pieces)|
    decreases |pieces|
  {
    hide Tiles, EndOf, BinaryEntry;
    if pieces == [] {
      TilesNone(start);
    } else {
      var rest := BinaryEntries(pieces[1..], start + |pieces[0]|, sequence + 1);
      BinaryEntriesTile(pieces[1..], start + |pieces[0]|, sequence + 1);
      TilesCons(pieces[0], start, sequence + 1, rest, Flatten(pieces[1..]));
    }
  }

  lemma TilesNone(start: nat)
    ensures Tiles([], start, []) && EndOf([], start) == start
  {}

  lemma TilesCons(chunk: seq<byte>, start: nat, sequence: nat, rest: seq<Outbound>, data: seq<byte>)
    requires Tiles(rest, start + |chunk|, data) && EndOf(rest, start + |chunk|) == start + |chunk| + |data|
    ensures var bins := [BinaryEntry(chunk, start, sequence)] + rest;
            Tiles(bins, start, chunk + data) && EndOf(bins, start) == start + |chunk + data|
  {
    hide PieceOf;
    PieceItself(chunk, start, sequence);
    TilesAppend([BinaryEntry(chunk, start, sequence)], rest, start, chunk, data);
  }

  lemma PieceItself(chunk: seq<byte>, start: nat, sequence: nat)
    ensures PieceOf(BinaryEntry(chunk, start, sequence), start, chunk)
  {
    assert chunk[0..|chunk|] == chunk;
  }

  lemma PieceExtends(e: Outbound, base: nat, data: seq<byte>, more: seq<byte>)
    requires PieceOf(e, base, data)
    ensures PieceOf(e, base, data + more)
  {
    assert (data + more)[e.startCursor - base..e.endCursor - base] == data[e.startCursor - base..e.endCursor - base];
  }

  lemma PieceShifts(e: Outbound, base: nat, before: seq<byte>, data: seq<byte>)
    requires PieceOf(e, base + |before|, data)
    ensures PieceOf(e, base, before + data)
  {
    var from, to := e.startCursor - base - |before|, e.endCursor - base - |before|;
    assert (before + data)[|before| + from..|before| + to] == data[from..to];
  }

  lemma ChainedAppend(a: seq<Outbound>, b: seq<Outbound>, base: nat)
    requires Chained(a) && Chained(b)
    requires a != [] && b != [] ==> b[0].startCursor == EndOf(a, base)
    ensures Chained(a + b)
  {
    forall i, j | 0 <= i < |a + b| && 0 <= j < |a + b| && j == i + 1
      ensures (a + b)[j].startCursor == (a + b)[i].endCursor
    {
      if j == |a| {
        assert (a + b)[j] == b[0];
      } else if j > |a| {
        assert (a + b)[j] == b[j - |a|] && (a + b)[i] == b[i - |a|];
      }
    }
  }

  lemma TilesAppend(a: seq<Outbound>, b: seq<Outbound>, base: nat, dataA: seq<byte>, dataB: seq<byte>)
    requires Tiles(a, base, dataA) && EndOf(a, base) == base + |dataA|
    requires Tiles(b, base + |dataA|, dataB) && EndOf(b, base + |dataA|) == base + |dataA| + |dataB|
    ensures Tiles(a + b, base, dataA + dataB)
    ensures EndOf(a + b, base) == base + |dataA + dataB|
  {
    ChainedAppend(a, b, base);
    forall i | 0 <= i < |a + b| ensures PieceOf((a + b)[i], base, dataA + dataB) {
      if i < |a| {
        PieceExtends(a[i], base, dataA, dataB);
      } else {
        PieceShifts(b[i - |a|], base, dataA, dataB);
      }
    }
    hide PieceOf, Chained;
  }

  /** Sent entries are the data up to where the last one ends. */
  lemma {:induction false} TilesFlatten(bins: seq<Outbound>, base: nat, data: seq<byte>)
    requires Tiles(bins, base, data)
    ensures base <= EndOf(bins, base) <= base + |data|
    ensures Flatten(PayloadsOf(bins)) == data[..EndOf(bins, base) - base]
    decreases |bins|
  {
    hide Tiles, PieceOf, Flatten, PayloadsOf;
    if bins == [] {
      NoPayloads();
    } else {
      var n := |bins| - 1;
      var front, e := bins[..n], bins[n];
      TilesFront(bins, base, data);
      TilesFlatten(front, base, data);
      PayloadsSnoc(bins);
      FlattenSnoc(PayloadsOf(front), e.payload);
      SplitTwice(data, e.startCursor - base, e.endCursor - base);
    }
  }

  lemma NoPayloads()
    ensures Flatten(PayloadsOf([])) == []
  {}

  lemma PayloadsSnoc(bins: seq<Outbound>)
    requires bins != []
    ensures PayloadsOf(bins) == PayloadsOf(bins[..|bins| - 1]) + [bins[|bins| - 1].payload]
  {}

  lemma TilesFront(bins: seq<Outbound>, base: nat, data: seq<byte>)
    requires Tiles(bins, base, data) && bins != []
    ensures var n := |bins| - 1;
            && Tiles(bins[..n], base, data)
            && bins[n].startCursor == EndOf(bins[..n], base)
            && base <= bins[n].startCursor <= bins[n].endCursor <= base + |data|
            && bins[n].payload == data[bins[n].startCursor - base..bins[n].endCursor - base]
  {
    var n := |bins| - 1;
    assert PieceOf(bins[n], base, data);
    forall i | 0 <= i < n ensures PieceOf(bins[..n][i], base, data) {
      assert PieceOf(bins[i], base, data);
    }
  }

  function PayloadsOf(bins: seq<Outbound>): seq<seq<byte>>
  {
    seq(|bins|, i requires 0 <= i < |bins| => bins[i].payload)
  }

  // ---- what the agent's frames say about positions ---------------------------

  /** `At(base, data, next)`: output began at cursor `base`, `data` followed, and
      the next byte belongs at `next`. `Broken`: bytes came at another cursor
      than the one where the bytes before them ended. */
  datatype Track = NoOutput | At(base: nat, data: seq<byte>, next: nat) | Broken

  function TrackFrame(t: Track, frame: Frame): Track
  {
    match frame
    case TextFrame(_, ReplayStart(Some(c), _, _, _)) =>
      (match t
       case NoOutput => At(c, [], c)
       case At(base, data, _) => if data == [] then At(c, [], c) else At(base, data, c)
       case Broken => Broken)
    case TextFrame(_, _) => t
    case BinaryFrame(payload) =>
      if t.At? && payload != []
      then if t.next == t.base + |t.data| then At(t.base, t.data + payload, t.next + |payload|) else Broken
      else t
  }

  function TrackOf(frames: seq<Frame>): Track
  {
    if frames == [] then NoOutput
    else TrackFrame(TrackOf(frames[..|frames| - 1]), frames[|frames| - 1])
  }

  ghost predicate Matches(t: Track, l: Labeler, bins: seq<Outbound>)
  {
    && NumberedFrom(bins, 0) && |bins| == l.binarySequence
    && match t
       case NoOutput => bins == [] && !l.hasCursor
       case At(base, data, next) =>
         && l.hasCursor && l.cursor == next
         && Tiles(bins, base, data) && EndOf(bins, base) == base + |data|
         && (data == [] ==> bins == [] && next == base)
       case Broken => l.hasCursor && !Chained(bins)
  }

  lemma NoBins(e: Outbound)
    ensures e.messageType == Text ==> Bins([e]) == []
  {
    assert [e][1..] == [];
  }

  lemma MatchesText(sub: Subscription, t: Track, l: Labeler, entries: seq<Outbound>, payload: seq<byte>, message: Message)
    requires Matches(t, l, Bins(entries))
    ensures var (l', more) := LabelFrame(sub, l, TextFrame(payload, message));
            Matches(TrackFrame(t, TextFrame(payload, message)), l', Bins(entries + more))
  {
    var (l', more) := LabelFrame(sub, l, TextFrame(payload, message));
    if more != [] {
      NoBins(more[0]);
      assert more == [more[0]];
    }
    BinsAppend(entries, more);
    assert Bins(entries) + [] == Bins(entries);
  }

  lemma MatchesBinary(sub: Subscription, t: Track, l: Labeler, entries: seq<Outbound>, payload: seq<byte>)
    requires Matches(t, l, Bins(entries))
    ensures var (l', more) := LabelFrame(sub, l, BinaryFrame(payload));
            Matches(TrackFrame(t, BinaryFrame(payload)), l', Bins(entries + more))
  {
    hide Pieces, Flatten, Bins, Tiles, NumberedFrom, EndOf;
    var (l', more) := LabelFrame(sub, l, BinaryFrame(payload));
    BinsAppend(entries, more);
    if payload == [] || !l.hasCursor {
      NothingMore();
      Empty(Bins(entries));
    } else {
      var pieces := Pieces(payload, BINARY_MAX);
      PiecesSpec(payload, BINARY_MAX);
      BinaryEntriesNumbered(pieces, l.cursor, l.binarySequence);
      BinaryEntriesTile(pieces, l.cursor, l.binarySequence);
      FirstPiece(pieces, l.cursor, l.binarySequence, payload);
      MatchesMore(t, l, Bins(entries), payload, more);
    }
  }

  lemma NothingMore()
    ensures Bins([]) == []
  {}

  lemma FirstPiece(pieces: seq<seq<byte>>, start: nat, sequence: nat, payload: seq<byte>)
    requires Flatten(pieces) == payload != []
    ensures var bins := BinaryEntries(pieces, start, sequence);
            bins != [] && bins[0].startCursor == start && |bins| == |pieces|
    decreases |pieces|
  {
    BinaryEntriesNumbered(pieces, start, sequence);
  }

  lemma MatchesMore(t: Track, l: Labeler, bins: seq<Outbound>, payload: seq<byte>, more: seq<Outbound>)
    requires Matches(t, l, bins) && l.hasCursor && payload != [] && more != []
    requires NumberedFrom(more, l.binarySequence)
    requires Tiles(more, l.cursor, payload) && EndOf(more, l.cursor) == l.cursor + |payload|
    requires more[0].startCursor == l.cursor
    ensures Matches(TrackFrame(t, BinaryFrame(payload)),
                    Labeler(true, l.cursor + |payload|, l.binarySequence + |more|), bins + more)
  {
    hide Tiles, PieceOf, Chained, NumberedFrom;
    NumberedAppend(bins, more);
    match t
    case At(base, data, next) =>
      if next == base + |data| {
        TilesAppend(bins, more, base, data, payload);
      } else {
        Unchained(bins, more, base);
      }
    case Broken => StaysUnchained(bins, more);
    case NoOutput =>
  }

  lemma NumberedAppend(a: seq<Outbound>, b: seq<Outbound>)
    requires NumberedFrom(a, 0) && NumberedFrom(b, |a|)
    ensures NumberedFrom(a + b, 0)
  {}

  lemma Unchained(a: seq<Outbound>, b: seq<Outbound>, base: nat)
    requires a != [] && b != [] && b[0].startCursor != EndOf(a, base)
    ensures !Chained(a + b)
  {
    assert (a + b)[|a|] == b[0] && (a + b)[|a| - 1] == a[|a| - 1];
  }

  lemma StaysUnchained(a: seq<Outbound>, b: seq<Outbound>)
    requires !Chained(a)
    ensures !Chained(a + b)
  {
    var i, j :| 0 <= i < |a| && 0 <= j < |a| && j == i + 1 && a[j].startCursor != a[i].endCursor;
    assert (a + b)[i] == a[i] && (a + b)[j] == a[j];
  }

  /** The entries called for are numbered 1, 2, 3, ... and start where the
      previous one ended exactly when the agent never sends bytes at another
      cursor than the one where its bytes before them ended. */
  lemma {:induction false} LabelsMatch(sub: Subscription, frames: seq<Frame>)
    ensures Matches(TrackOf(frames), Labels(sub, frames).0, Bins(Labels(sub, frames).1))
    ensures Chained(Bins(Labels(sub, frames).1)) <==> TrackOf(frames) != Broken
  {
    if frames != [] {
      var front, last := frames[..|frames| - 1], frames[|frames| - 1];
      LabelsMatch(sub, front);
      var (l, entries) := Labels(sub, front);
      match last
      case TextFrame(payload, message) => MatchesText(sub, TrackOf(front), l, entries, payload, message);
      case BinaryFrame(payload) => MatchesBinary(sub, TrackOf(front), l, entries, payload);
    }
  }

  // ---- what is actually sent ---------------------------------------------------

  lemma NumberedPrefix(p: seq<Outbound>, bins: seq<Outbound>)
    requires IsPrefix(p, bins) && NumberedFrom(bins, 0)
    ensures NumberedFrom(p, 0)
  {
    forall i | 0 <= i < |p| ensures p[i] == bins[i] {
      assert bins[..|p|][i] == bins[i];
    }
  }

  lemma TilesPrefix(p: seq<Outbound>, bins: seq<Outbound>, base: nat, data: seq<byte>)
    requires IsPrefix(p, bins) && Tiles(bins, base, data)
    ensures Tiles(p, base, data)
  {
    forall i | 0 <= i < |p| ensures p[i] == bins[i] && PieceOf(p[i], base, data) {
      assert bins[..|p|][i] == bins[i];
    }
  }

  /** Queue-wide sequence numbers do not matter to numbering and tiling. */
  ghost predicate SameBins(a: seq<Outbound>, b: seq<Outbound>)
  {
    |a| == |b| && forall i :: 0 <= i < |a| ==> a[i] == b[i].(sequence := 0)
  }

  lemma SameTiles(a: seq<Outbound>, b: seq<Outbound>, base: nat, data: seq<byte>)
    requires SameBins(a, b) && Tiles(a, base, data)
    ensures Tiles(b, base, data) && EndOf(b, base) == EndOf(a, base)
  {
    hide Chained, EndOf, PieceOf;
    SameChained(a, b);
    SameEnds(a, b, base);
    forall i | 0 <= i < |b| ensures PieceOf(b[i], base, data) {
      SamePiece(a[i], b[i], base, data);
    }
  }

  lemma SamePiece(x: Outbound, y: Outbound, base: nat, data: seq<byte>)
    requires x == y.(sequence := 0) && PieceOf(x, base, data)
    ensures PieceOf(y, base, data)
  {}

  lemma SameEnds(a: seq<Outbound>, b: seq<Outbound>, base: nat)
    requires SameBins(a, b)
    ensures EndOf(b, base) == EndOf(a, base) && (b != [] ==> a != [] && b[0].startCursor == a[0].startCursor)
  {
    hide Chained, PieceOf;
    if b != [] {
      var n := |b| - 1;
      assert a[0] == b[0].(sequence := 0);
      assert a[n] == b[n].(sequence := 0);
    }
  }

  lemma SameChained(a: seq<Outbound>, b: seq<Outbound>)
    requires SameBins(a, b) && Chained(a)
    ensures Chained(b)
  {
    forall i, j | 0 <= i < |b| && 0 <= j < |b| && j == i + 1 ensures b[j].startCursor == b[i].endCursor {
      assert a[i] == b[i].(sequence := 0) && a[j] == b[j].(sequence := 0);
    }
  }

  /** What was sent is a prefix of what the frames call for. */
  lemma SentIsPrefix(y: System)
    requires OrderInv(y)
    ensures SameBins(Bins(Proj(y.popped)), Bins(y.popped))
    ensures IsPrefix(Bins(Proj(y.popped)), Bins(Labels(y.stream.sub, y.frames).1))
  {
    BinsProj(y.popped);
    var all := Labels(y.stream.sub, y.frames).1;
    hide Proj, Labels, Bins;
    var sent := Proj(y.popped) + Proj(y.stream.buffer);
    PrefixOfSum(Proj(y.popped), Proj(y.stream.buffer));
    PrefixTransitive(Proj(y.popped), sent, all);
    BinsPrefix(Proj(y.popped), all);
  }

  /** On every run, what the viewer is sent is numbered 1, 2, 3, ...; it tiles
      the agent's output from its first cursor, so the payloads joined together
      are a prefix of that output; and nothing is sent before a cursor is known. */
  lemma ContiguousDelivery(sub: Subscription, errors: ErrorControls, events: seq<Event>)
    ensures var y := Exec(Start(sub, errors), events);
            var sent := Bins(y.popped);
            && NumberedFrom(sent, 0)
            && match TrackOf(y.frames)
               case NoOutput => sent == []
               case At(base, data, _) =>
                 && Tiles(sent, base, data) && IsPrefix(Flatten(PayloadsOf(sent)), data)
                 && (data == [] ==> sent == [])
               case Broken => true
  {
    var y := Exec(Start(sub, errors), events);
    OrderRun(sub, errors, events);
    SentIsPrefix(y);
    LabelsMatch(y.stream.sub, y.frames);
    var all := Bins(Labels(y.stream.sub, y.frames).1);
    var sent := Bins(y.popped);
    var p := Bins(Proj(y.popped));
    hide Labels, Bins, Proj, Tiles, Exec, OrderInv;
    NumberedPrefix(p, all);
    match TrackOf(y.frames)
    case NoOutput =>
    case At(base, data, _) =>
      TilesPrefix(p, all, base, data);
      SameTiles(p, sent, base, data);
      TilesFlatten(sent, base, data);
    case Broken =>
  }

  /** Nothing is lost either: while the stream serves and the reader is between
      frames, an empty buffer means that everything read has been sent. */
  lemma NothingLost(sub: Subscription, errors: ErrorControls, events: seq<Event>)
    ensures var y := Exec(Start(sub, errors), events);
            Serving(y.stream) && (y.reader.Gate? || y.reader.Ready?) && y.stream.buffer == [] && TrackOf(y.frames).At? ==>
              Flatten(PayloadsOf(Bins(y.popped))) == TrackOf(y.frames).data
  {
    hide Labels, Bins, Proj, Tiles, Exec, PayloadsOf, Flatten, OrderInv;
    var y := Exec(Start(sub, errors), events);
    OrderRun(sub, errors, events);
    if Serving(y.stream) && (y.reader.Gate? || y.reader.Ready?) && y.stream.buffer == [] && TrackOf(y.frames).At? {
      var At(base, data, _) := TrackOf(y.frames);
      LabelsMatch(y.stream.sub, y.frames);
      BinsProj(y.popped);
      AllSent(y);
      SameTiles(Bins(Proj(y.popped)), Bins(y.popped), base, data);
      TilesFlatten(Bins(y.popped), base, data);
      Empty(data);
    }
  }

  lemma AllSent(y: System)
    requires OrderInv(y) && Serving(y.stream) && (y.reader.Gate? || y.reader.Ready?) && y.stream.buffer == []
    ensures Labels(y.stream.sub, y.frames).1 == Proj(y.popped)
  {
    hide Labels;
    assert InStep(y);
    Empty(Proj(y.popped));
  }

  // ---- an agent that keeps its promises is never cut off ----------------------

  /** The reader accepts every frame: replays end at the announced cursor and no
      output comes before a cursor is known. */
  predicate AcceptedFrame(l: Labeler, frame: Frame)
  {
    match frame
    case TextFrame(_, ReplayComplete(historyCursor)) => l.hasCursor && historyCursor == Some(l.cursor)
    case TextFrame(_, _) => true
    case BinaryFrame(payload) => payload == [] || l.hasCursor
  }

  predicate AcceptedFrames(sub: Subscription, frames: seq<Frame>)
  {
    frames == [] ||
    (var front, last := frames[..|frames| - 1], frames[|frames| - 1];
     AcceptedFrames(sub, front) && AcceptedFrame(Labels(sub, front).0, last))
  }

  lemma FramesGrow(y: System, e: Event)
    ensures IsPrefix(y.frames, Step(y, e).frames)
  {}

  lemma AcceptedPrefix(sub: Subscription, a: seq<Frame>, b: seq<Frame>)
    requires IsPrefix(a, b) && AcceptedFrames(sub, b)
    ensures AcceptedFrames(sub, a)
    decreases |b|
  {
    if |a| < |b| {
      assert b[..|b| - 1][..|a|] == a;
      AcceptedPrefix(sub, a, b[..|b| - 1]);
    } else {
      assert b[..|a|] == b;
    }
  }

  lemma AcceptedStep(y: System, e: Event, reserve: nat, own: set<nat>)
    requires BoundInv(y) && OrderInv(y) && Fits(y, reserve, own) && Serving(y.stream) && !y.reader.Overloading?
    requires reserve <= FRAME_MAX && ModerateEvent(y, e, reserve, own)
    requires AcceptedFrames(y.stream.sub, Step(y, e).frames)
    ensures var z := Step(y, e);
            (Serving(z.stream) && !z.reader.Overloading?) || (e.Deactivate? && !z.stream.overloaded)
  {
    hide Proj, Increasing, SumCost, Labels, AcceptedFrames;
    FitsStep(y, e, reserve, own);
    if e.Read? && y.reader == Ready {
      ReadAccepted(y, e.frame);
      AcceptedRead(y, e.frame, reserve, own);
    }
  }

  lemma ReadAccepted(y: System, frame: Frame)
    requires OrderInv(y) && Serving(y.stream) && y.reader == Ready
    requires AcceptedFrames(y.stream.sub, y.frames + [frame])
    ensures AcceptedFrame(Labeler(y.stream.hasCursor, y.stream.cursor, y.stream.binarySequence), frame)
  {
    hide Proj, Labels;
    assert InStep(y);
    Snoc(y.frames, frame);
  }

  lemma AcceptedRead(y: System, frame: Frame, reserve: nat, own: set<nat>)
    requires Serving(y.stream) && SmallFrame(frame, reserve) && Fits(y, reserve, own) && y.reader == Ready
    requires AcceptedFrame(Labeler(y.stream.hasCursor, y.stream.cursor, y.stream.binarySequence), frame)
    ensures !ReadStep(y, frame).reader.Overloading?
  {}

  /** While frames keep the replay protocol, and leave room for what else comes
      between two openings of the gate, the stream is never overloaded. */
  lemma {:induction false} NeverOverloaded(sub: Subscription, errors: ErrorControls, reserve: nat, events: seq<Event>)
    requires ErrorsFit(errors) && Moderate(sub, errors, reserve, events)
    requires AcceptedFrames(sub, Exec(Start(sub, errors), events).frames)
    ensures var y := Exec(Start(sub, errors), events);
            !y.stream.overloaded && (y.stream.active ==> !y.reader.Overloading?) && y.stream.sub == sub
  {
    if events != [] {
      hide OrderInv, BoundInv, Fits, AcceptedFrames, Step, ModerateEvent, Own;
      var before, e := events[..|events| - 1], events[|events| - 1];
      var y := Exec(Start(sub, errors), before);
      FramesGrow(y, e);
      AcceptedPrefix(sub, y.frames, Step(y, e).frames);
      NeverOverloaded(sub, errors, reserve, before);
      OrderRun(sub, errors, before);
      BoundRun(sub, errors, before);
      GateRun(sub, errors, reserve, before);
      LifeStep(y, e);
      if y.stream.active {
        AcceptedStep(y, e, reserve, Own(sub, errors, before));
      }
    }
  }
}
