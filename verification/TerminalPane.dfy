/** One terminal pane (core/pane.go, core/pane_replay.go, core/pane_resize.go):
    what each section under its mutex does to its history, its checkpoint engine,
    its geometry and its attached clients. */
module TerminalPane {
  import opened Bytes
  import opened PaneHistory
  import opened CheckpointBoundary
  import opened Geometry
  import opened Subscriber

  const DEFAULT_HISTORY_LIMIT: int := 5000 * 350

  /** The fields of a pane other than its clients. */
  datatype Core = Core(
    history: History, checkpoint: Option<Engine>, generation: string, limit: int,
    size: Size, epoch: nat, hasAttached: bool, closing: bool, exited: bool)

  /** What holds of a pane that has put out `output` so far. */
  ghost predicate CoreInv(c: Core, output: seq<byte>)
  {
    && Retains(c.history, output)
    && (c.checkpoint.Some? && !c.closing && !c.checkpoint.value.failed ==> Reflects(c.checkpoint.value, output))
  }

  /** The part of the invariant that the pane's own arithmetic relies on. */
  predicate CoreOk(c: Core)
  {
    && c.history.base <= c.history.end
    && (c.checkpoint.Some? && CheckpointUsable(c) ==> |c.checkpoint.value.pending| <= c.history.end)
  }

  predicate CheckpointUsable(c: Core)
  {
    c.checkpoint.Some? && !c.closing && !c.checkpoint.value.failed && !c.checkpoint.value.legacyGraphics
  }

  lemma InvIsOk(c: Core, output: seq<byte>)
    requires CoreInv(c, output)
    ensures CoreOk(c)
  {
    if CheckpointUsable(c) {
      assert Reflects(c.checkpoint.value, output);
    }
  }

  // ---- output -----------------------------------------------------------------------

  function EffectiveLimit(limit: int): (r: int)
    ensures r > 0
  {
    if limit <= 0 then DEFAULT_HISTORY_LIMIT else limit
  }

  function WriteCheckpoint(checkpoint: Option<Engine>, data: seq<byte>, parserOk: bool): Option<Engine>
  {
    match checkpoint
    case None => None
    case Some(e) => Some(WriteOf(e, data, parserOk))
  }

  predicate Captures(c: Core, data: seq<byte>)
  {
    data != [] && !c.closing && !c.exited
  }

  /** The section of appendOutput that records the filtered output. */
  function CaptureOf(c: Core, data: seq<byte>, parserOk: bool): Core
  {
    if !Captures(c, data) then c
    else
      var limit := EffectiveLimit(c.limit);
      c.(checkpoint := WriteCheckpoint(c.checkpoint, data, parserOk),
         history := TrimOf(AppendAll(c.history, Pieces(data, HISTORY_CHUNK_MAX)), limit),
         limit := limit)
  }

  lemma CaptureKeeps(c: Core, output: seq<byte>, data: seq<byte>, parserOk: bool)
    requires CoreInv(c, output) && Captures(c, data)
    ensures CoreInv(CaptureOf(c, data, parserOk), output + data)
  {
    var chunks := Pieces(data, HISTORY_CHUNK_MAX);
    PiecesSpec(data, HISTORY_CHUNK_MAX);
    AppendAllRetains(c.history, output, chunks);
    TrimRetains(AppendAll(c.history, chunks), output + data, EffectiveLimit(c.limit));
    hide Retains, TrimOf, AppendAll, Pieces, Reflects;
    if c.checkpoint.Some? && !c.checkpoint.value.failed {
      WriteReflects(c.checkpoint.value, output, data, parserOk);
    }
  }

  /** A capture keeps as much of the output as the limit allows, and no more. */
  lemma CaptureSize(c: Core, output: seq<byte>, data: seq<byte>, parserOk: bool)
    requires CoreInv(c, output) && Captures(c, data)
    ensures CaptureOf(c, data, parserOk).history.bytes == Min(c.history.bytes + |data|, EffectiveLimit(c.limit))
    ensures CaptureOf(c, data, parserOk).limit == EffectiveLimit(c.limit)
  {
    hide CoreInv, TrimOf, Pieces, Retains;
    var chunks := Pieces(data, HISTORY_CHUNK_MAX);
    PiecesSpec(data, HISTORY_CHUNK_MAX);
    CoreRetains(c, output);
    AppendAllRetains(c.history, output, chunks);
    TrimRetains(AppendAll(c.history, chunks), output + data, EffectiveLimit(c.limit));
    AppendAllBytes(c.history, chunks);
  }

  /** Output is recorded exactly if there is any and the pane neither closes nor has
      exited: then the output grows by it, of which as much is retained as the limit
      allows, 1,750,000 bytes by default; otherwise nothing changes. */
  lemma CaptureExactly(c: Core, output: seq<byte>, data: seq<byte>, parserOk: bool)
    requires CoreInv(c, output)
    ensures var d, limit := CaptureOf(c, data, parserOk), if c.limit <= 0 then 1_750_000 else c.limit;
            if data == [] || c.closing || c.exited then d == c
            else
              && Retains(d.history, output + data) && d.history.bytes == Min(c.history.bytes + |data|, limit)
              && d == c.(history := d.history, checkpoint := d.checkpoint, limit := limit)
              && (c.checkpoint.None? ==> d.checkpoint.None?)
              && (c.checkpoint.Some? ==> d.checkpoint == Some(WriteOf(c.checkpoint.value, data, parserOk)))
  {
    if Captures(c, data) {
      CaptureKeeps(c, output, data, parserOk);
      CaptureSize(c, output, data, parserOk);
      CoreRetains(CaptureOf(c, data, parserOk), output + data);
    }
    hide Retains, TrimOf, AppendAll, Pieces, WriteOf, CoreInv;
  }

  lemma CoreRetains(c: Core, output: seq<byte>)
    requires CoreInv(c, output)
    ensures Retains(c.history, output)
  {
    hide Reflects;
  }

  lemma {:induction false} AppendAllBytes(h: History, chunks: seq<seq<byte>>)
    ensures AppendAll(h, chunks).bytes == h.bytes + |Flatten(chunks)|
    decreases |chunks|
  {
    if chunks != [] {
      AppendAllBytes(AppendOf(h, chunks[0]), chunks[1..]);
    }
  }

  // ---- attach -----------------------------------------------------------------------

  /** What a viewer already has: `localEnd` is present when it names a range. */
  datatype SyncRequest = SyncRequest(generation: string, localEnd: Option<nat>, forceSnapshot: bool, wantsCheckpoint: bool)

  datatype SyncMode = SnapshotMode | DeltaMode | CurrentMode

  datatype HistoryReply = HistoryReply(
    part: Snapshot, mode: SyncMode, checkpoint: Option<seq<byte>>, checkpointFallback: bool,
    generation: string, epoch: nat, size: Size, allowGeneratedInput: bool)

  datatype AttachError = PaneClosing | NoGeneration | CheckpointUnavailable

  datatype AttachOutcome = Attached(reply: HistoryReply) | Refused(error: AttachError)

  predicate Fallback(c: Core)
  {
    c.checkpoint.Some? && c.checkpoint.value.failed
  }

  /** The viewer's copy is of this pane's output and ends inside the history. */
  predicate CanResume(c: Core, req: SyncRequest)
  {
    && !Fallback(c) && !req.forceSnapshot
    && req.localEnd.Some? && req.generation == c.generation
    && c.history.base <= req.localEnd.value <= c.history.end
  }

  /** The parser's memory, represented by the bytes it has consumed, and the
      bytes still pending; `None` when raw history is to be used. */
  function CheckpointPart(c: Core): Snapshot
    requires CoreOk(c) && CheckpointUsable(c)
  {
    var pending := c.checkpoint.value.pending;
    var from := c.history.end - |pending|;
    Snapshot(if pending == [] then [] else [pending], Min(c.history.base, from), c.history.end, from, c.history.end)
  }

  function ReplyOf(c: Core, req: SyncRequest): HistoryReply
    requires CoreOk(c)
  {
    var useCheckpoint := req.wantsCheckpoint && CheckpointUsable(c);
    var resume := !useCheckpoint && CanResume(c, req);
    var mode := if !resume then SnapshotMode else if req.localEnd.value == c.history.end then CurrentMode else DeltaMode;
    HistoryReply(
      if useCheckpoint then CheckpointPart(c) else if resume then SnapshotFromOf(c.history, req.localEnd.value) else SnapshotOf(c.history),
      mode,
      if useCheckpoint then Some(c.checkpoint.value.fed) else None,
      Fallback(c), c.generation, c.epoch, c.size,
      mode == SnapshotMode && !c.hasAttached)
  }

  /** `created` is a new random generation, `memoryOk` the outcome of reading and
      compressing the parser's memory. */
  function AttachOf(c: Core, req: SyncRequest, created: Option<string>, memoryOk: bool): (Core, AttachOutcome)
    requires CoreOk(c)
  {
    if c.closing then (c, Refused(PaneClosing))
    else if c.generation == "" && created.None? then (c, Refused(NoGeneration))
    else
      var c := if c.generation == "" then c.(generation := created.value) else c;
      if req.wantsCheckpoint && CheckpointUsable(c) && !(c.checkpoint.value.open && memoryOk) then (c, Refused(CheckpointUnavailable))
      else (c.(hasAttached := true), Attached(ReplyOf(c, req)))
  }

  /** What a reply to `req` promises a viewer of a pane whose output is `output`:
      the replayed bytes are exactly the output from `deltaFrom` to now, and what
      precedes them is what the viewer (or the parser it is sent) already has. */
  ghost predicate ReplyOk(reply: HistoryReply, req: SyncRequest, output: seq<byte>)
  {
    var part := reply.part;
    && part.serverBase <= part.deltaFrom <= part.deltaTo == part.serverEnd == |output|
    && Flatten(part.chunks) == output[part.deltaFrom..]
    && (reply.checkpoint.Some? ==>
          && req.wantsCheckpoint && reply.mode == SnapshotMode && !reply.checkpointFallback
          && reply.checkpoint.value == output[..part.deltaFrom] && !HasGraphics(output))
    && (reply.checkpoint.None? && reply.mode == SnapshotMode ==> part.deltaFrom == part.serverBase)
    && (reply.mode != SnapshotMode ==> req.localEnd == Some(part.deltaFrom) && req.generation == reply.generation)
    && (reply.mode == CurrentMode ==> part.deltaFrom == |output| && Flatten(part.chunks) == [])
    && (reply.mode == DeltaMode ==> part.deltaFrom < |output|)
  }

  lemma AttachSpec(c: Core, req: SyncRequest, created: Option<string>, memoryOk: bool, output: seq<byte>)
    requires CoreInv(c, output) && CoreOk(c)
    ensures CoreInv(AttachOf(c, req, created, memoryOk).0, output)
    ensures AttachOf(c, req, created, memoryOk).1.Attached? ==> ReplyOk(AttachOf(c, req, created, memoryOk).1.reply, req, output)
  {
    if AttachOf(c, req, created, memoryOk).1.Attached? {
      var d := if c.generation == "" then c.(generation := created.value) else c;
      ReplySpec(d, req, output);
    }
  }

  lemma ReplySpec(c: Core, req: SyncRequest, output: seq<byte>)
    requires CoreInv(c, output) && CoreOk(c) && !c.closing
    ensures ReplyOk(ReplyOf(c, req), req, output)
  {
    if req.wantsCheckpoint && CheckpointUsable(c) {
      CheckpointReply(c, req, output);
    } else {
      HistoryReplySpec(c, req, output);
    }
  }

  /** The parser's memory and what is pending make up the output. */
  lemma CheckpointReply(c: Core, req: SyncRequest, output: seq<byte>)
    requires CoreInv(c, output) && CoreOk(c) && !c.closing && req.wantsCheckpoint && CheckpointUsable(c)
    ensures ReplyOk(ReplyOf(c, req), req, output)
  {
    var e := c.checkpoint.value;
    assert Reflects(e, output);
    PendingSplit(e, output);
    hide Reflects, HasGraphics, DropBytes, Flatten, SnapshotOf, SnapshotFromOf, CanResume;
  }

  lemma PendingSplit(e: Engine, output: seq<byte>)
    requires Reflects(e, output) && !e.legacyGraphics
    ensures |e.pending| <= |output| && !HasGraphics(output)
    ensures e.fed == output[..|output| - |e.pending|] && e.pending == output[|output| - |e.pending|..]
    ensures Flatten(if e.pending == [] then [] else [e.pending]) == e.pending
  {
    assert Flatten([e.pending]) == e.pending + Flatten<byte>([]);
    hide Boundary, HasGraphics, DropBytes, Flatten;
    FlattenNothing();
    Empty(e.pending);
    assert output == e.fed + e.pending;
  }

  lemma HistoryReplySpec(c: Core, req: SyncRequest, output: seq<byte>)
    requires CoreInv(c, output) && CoreOk(c) && !c.closing && !(req.wantsCheckpoint && CheckpointUsable(c))
    ensures ReplyOk(ReplyOf(c, req), req, output)
  {
    hide Reflects, HasGraphics, DropBytes;
    if CanResume(c, req) {
      SnapshotFromSpec(c.history, output, req.localEnd.value);
    }
  }

  /** The generation of a pane once a client has attached. */
  function GenerationAt(c: Core, created: Option<string>): string
  {
    if c.generation == "" && created.Some? then created.value else c.generation
  }

  /** Which reply `req` gets from a pane that has put out `output`, and from where. A
      checkpoint is sent exactly if it was asked for and there is one that neither failed
      nor met graphics. Otherwise what the viewer lacks is sent exactly if no checkpoint
      failed, it did not ask for a snapshot, and its copy is of this generation and ends
      within what is retained; and everything retained if not. */
  ghost predicate ReplyExactly(c: Core, req: SyncRequest, generation: string, reply: HistoryReply, output: seq<byte>)
  {
    var part, base := reply.part, |output| - c.history.bytes;
    && reply.generation == generation && reply.epoch == c.epoch && reply.size == c.size
    && (reply.checkpointFallback <==> c.checkpoint.Some? && c.checkpoint.value.failed)
    && (reply.checkpoint.Some? <==>
          req.wantsCheckpoint && c.checkpoint.Some? && !c.checkpoint.value.failed && !c.checkpoint.value.legacyGraphics)
    && (reply.mode != SnapshotMode <==>
          && !reply.checkpointFallback && reply.checkpoint.None? && !req.forceSnapshot
          && req.generation == generation && req.localEnd.Some? && base <= req.localEnd.value <= |output|)
    && (reply.mode == CurrentMode <==> reply.mode != SnapshotMode && req.localEnd == Some(|output|))
    && (reply.allowGeneratedInput <==> reply.mode == SnapshotMode && !c.hasAttached)
    && part.serverEnd == part.deltaTo == |output|
    && part.deltaFrom == (if reply.checkpoint.Some? then |output| - |c.checkpoint.value.pending|
                          else if reply.mode == SnapshotMode then base else req.localEnd.value)
    && part.serverBase == Min(base, part.deltaFrom) && part.deltaFrom <= |output|
    && Flatten(part.chunks) == output[part.deltaFrom..]
  }

  /** When an attach is refused, and why; which reply it gets otherwise; and what it
      leaves behind: a generation, and that a client has attached. */
  ghost predicate AttachExactly(c: Core, req: SyncRequest, created: Option<string>, memoryOk: bool, output: seq<byte>,
                                d: Core, outcome: AttachOutcome)
  {
    var unnamed := c.generation == "" && created.None?;
    var usable := c.checkpoint.Some? && !c.checkpoint.value.failed && !c.checkpoint.value.legacyGraphics;
    && (outcome == Refused(PaneClosing) <==> c.closing)
    && (outcome == Refused(NoGeneration) <==> !c.closing && unnamed)
    && (outcome == Refused(CheckpointUnavailable) <==>
          !c.closing && !unnamed && req.wantsCheckpoint && usable && !(c.checkpoint.value.open && memoryOk))
    && (outcome.Attached? ==> ReplyExactly(c, req, GenerationAt(c, created), outcome.reply, output))
    && d == c.(generation := if c.closing then c.generation else GenerationAt(c, created),
               hasAttached := c.hasAttached || outcome.Attached?)
  }

  lemma AttachIsExact(c: Core, req: SyncRequest, created: Option<string>, memoryOk: bool, output: seq<byte>)
    requires CoreInv(c, output) && CoreOk(c)
    ensures AttachExactly(c, req, created, memoryOk, output, AttachOf(c, req, created, memoryOk).0, AttachOf(c, req, created, memoryOk).1)
  {
    var (d, outcome) := AttachOf(c, req, created, memoryOk);
    var named := c.(generation := GenerationAt(c, created));
    if outcome.Attached? {
      ReplyIsExact(named, req, output);
      hide ReplyOf, CoreInv;
      assert ReplyExactly(named, req, named.generation, outcome.reply, output);
    }
  }

  lemma ReplyIsExact(c: Core, req: SyncRequest, output: seq<byte>)
    requires CoreInv(c, output) && CoreOk(c) && !c.closing
    ensures ReplyExactly(c, req, c.generation, ReplyOf(c, req), output)
  {
    hide Reflects, HasGraphics, DropBytes;
    if req.wantsCheckpoint && CheckpointUsable(c) {
      assert Reflects(c.checkpoint.value, output);
      PendingSplit(c.checkpoint.value, output);
      hide SnapshotOf, SnapshotFromOf, CanResume, Flatten;
    } else {
      SnapshotSpec(c.history, output);
      if CanResume(c, req) {
        SnapshotFromSpec(c.history, output, req.localEnd.value);
      }
      hide SnapshotOf, SnapshotFromOf, Flatten, CheckpointPart;
    }
  }

  lemma FlattenNothing()
    ensures Flatten<byte>([]) == []
  {}

  // ---- geometry ---------------------------------------------------------------------

  /** What happened to the terminal device. */
  datatype Pty = PaneIsClosing | SameSize | NoProcess | Resizing

  function ResizeCheckpoint(checkpoint: Option<Engine>, ok: bool): Option<Engine>
  {
    match checkpoint
    case None => None
    case Some(e) => Some(if e.open && !e.failed && !e.legacyGraphics && !ok then e.(failed := true) else e)
  }

  /** The section of resizeWithPixelsUnlocked. */
  function GeometryOf(c: Core, wanted: Size, checkpointOk: bool): (Core, Pty)
  {
    if c.closing then (c, PaneIsClosing)
    else if c.size == wanted then (c, SameSize)
    else (c.(size := wanted, checkpoint := ResizeCheckpoint(c.checkpoint, checkpointOk)), if c.exited then NoProcess else Resizing)
  }

  datatype ResizeVerdict = InvalidEpoch | StaleEpoch | EpochConflict | OwnedElsewhere | Proceed

  /** Whether a resize that carries an epoch may go ahead; 0 stands for an epoch
      that is not a positive number. */
  function VerdictOf(c: Core, epoch: nat, wanted: Size, claim: bool, ownedByOther: bool): ResizeVerdict
  {
    if epoch == 0 then InvalidEpoch
    else if epoch < c.epoch then StaleEpoch
    else if epoch == c.epoch && wanted != c.size then EpochConflict
    else if ownedByOther && !claim && epoch != c.epoch then OwnedElsewhere
    else Proceed
  }

  datatype ResizeResult = Rejected(verdict: ResizeVerdict) | DeviceFailed | Applied(epoch: nat, size: Size)

  /** Whether a resize with an empty epoch may go ahead. */
  predicate LegacyAccepted(c: Core, wanted: Size, fromOwner: bool)
  {
    c.epoch == 0 || fromOwner || wanted == c.size
  }

  predicate PtyFails(pty: Pty, ptyOk: bool)
  {
    pty == PaneIsClosing || (pty == Resizing && !ptyOk)
  }

  /** applyResize for a message that carries an epoch, without interruption. */
  function ApplyOf(c: Core, epoch: nat, wanted: Size, claim: bool, ownedByOther: bool, checkpointOk: bool, ptyOk: bool)
    : (Core, ResizeResult)
  {
    var verdict := VerdictOf(c, epoch, wanted, claim, ownedByOther);
    if verdict != Proceed then (c, Rejected(verdict)) else ProceedOf(c, epoch, wanted, checkpointOk, ptyOk)
  }

  /** The part of it under the output mutex. */
  function ProceedOf(c: Core, epoch: nat, wanted: Size, checkpointOk: bool, ptyOk: bool): (Core, ResizeResult)
  {
    var (d, pty) := GeometryOf(c, wanted, checkpointOk);
    if PtyFails(pty, ptyOk) then (d, DeviceFailed) else (d.(epoch := epoch), Applied(epoch, wanted))
  }

  /** What a second resize meets after an applied one, whoever sends it: the same one
      again is accepted and changes nothing, and the same epoch with another size,
      or an older epoch, is refused. */
  lemma AppliedResize(c: Core, epoch: nat, wanted: Size, claim: bool, ownedByOther: bool, checkpointOk: bool, ptyOk: bool,
                      again: nat, size: Size, claim2: bool, ownedByOther2: bool, checkpointOk2: bool, ptyOk2: bool)
    requires ApplyOf(c, epoch, wanted, claim, ownedByOther, checkpointOk, ptyOk).1.Applied?
    ensures var d := ApplyOf(c, epoch, wanted, claim, ownedByOther, checkpointOk, ptyOk).0;
            var second := ApplyOf(d, again, size, claim2, ownedByOther2, checkpointOk2, ptyOk2);
            && 0 < epoch && c.epoch <= d.epoch
            && (again == epoch && size == wanted ==> second == (d, Applied(epoch, wanted)))
            && (again == epoch && size != wanted ==> second == (d, Rejected(EpochConflict)))
            && (0 < again < epoch ==> second == (d, Rejected(StaleEpoch)))
            && (again == 0 ==> second == (d, Rejected(InvalidEpoch)))
  {}

  /** The parser is in use. */
  predicate Parsing(checkpoint: Option<Engine>)
  {
    checkpoint.Some? && checkpoint.value.open && !checkpoint.value.failed && !checkpoint.value.legacyGraphics
  }

  /** When a resize that carries an epoch is carried out, and otherwise why not: its epoch
      is a number and not an older one; the epoch in force goes with its own size only;
      and while another client owns the size a new epoch needs a claim. What it then
      changes: the size, and, unless the device fails, the epoch. */
  lemma ResizeExactly(c: Core, epoch: nat, wanted: Size, claim: bool, ownedByOther: bool, checkpointOk: bool, ptyOk: bool)
    ensures var (d, result) := ApplyOf(c, epoch, wanted, claim, ownedByOther, checkpointOk, ptyOk);
            var carriedOut := epoch > 0 && epoch >= c.epoch && (epoch == c.epoch ==> wanted == c.size)
                              && (ownedByOther ==> claim || epoch == c.epoch);
            var works := !c.closing && (wanted == c.size || c.exited || ptyOk);
            && (carriedOut <==> !result.Rejected?)
            && (result == Applied(epoch, wanted) <==> carriedOut && works)
            && (result == DeviceFailed <==> carriedOut && !works)
            && (result == Rejected(InvalidEpoch) <==> epoch == 0)
            && (result == Rejected(StaleEpoch) <==> 0 < epoch < c.epoch)
            && (result == Rejected(EpochConflict) <==> 0 < epoch == c.epoch && wanted != c.size)
            && (result == Rejected(OwnedElsewhere) <==> epoch > c.epoch && ownedByOther && !claim)
            && d == c.(size := if carriedOut && !c.closing then wanted else c.size,
                       epoch := if result.Applied? then epoch else c.epoch, checkpoint := d.checkpoint)
            && d.checkpoint == (if carriedOut && !c.closing && wanted != c.size && !checkpointOk && Parsing(c.checkpoint)
                                then Some(c.checkpoint.value.(failed := true)) else c.checkpoint)
  {}

  /** A new limit, 1,750,000 bytes if it is not positive, is in force at once: nothing
      beyond it stays retained, and nothing within it is dropped. */
  lemma LimitExactly(c: Core, output: seq<byte>, wanted: int, checkpointOk: bool)
    requires CoreInv(c, output)
    ensures var d, limit := LimitOf(c, wanted, checkpointOk), if wanted <= 0 then 1_750_000 else wanted;
            if c.closing then d == c
            else
              && Retains(d.history, output) && d.history.bytes == Min(c.history.bytes, limit)
              && d == c.(history := d.history, checkpoint := d.checkpoint, limit := limit)
              && d.checkpoint == (if !checkpointOk && Parsing(c.checkpoint) then Some(c.checkpoint.value.(failed := true)) else c.checkpoint)
  {
    TrimRetains(c.history, output, if wanted <= 0 then 1_750_000 else wanted);
    hide Reflects, Retains, TrimOf;
  }

  function LimitOf(c: Core, limit: int, checkpointOk: bool): Core
  {
    if c.closing then c
    else
      var l := EffectiveLimit(limit);
      c.(limit := l, history := TrimOf(c.history, l), checkpoint := ResizeCheckpoint(c.checkpoint, checkpointOk))
  }

  function CloseCheckpoint(checkpoint: Option<Engine>): Option<Engine>
  {
    match checkpoint
    case None => None
    case Some(e) => Some(e.(open := false, pending := if e.open then [] else e.pending))
  }

  function CloseOf(c: Core): Core
  {
    if c.closing then c else c.(closing := true, checkpoint := CloseCheckpoint(c.checkpoint))
  }

  lemma OthersKeep(c: Core, output: seq<byte>, wanted: Size, limit: int, checkpointOk: bool)
    requires CoreInv(c, output)
    ensures CoreInv(GeometryOf(c, wanted, checkpointOk).0, output)
    ensures CoreInv(LimitOf(c, limit, checkpointOk), output)
    ensures CoreInv(CloseOf(c), output)
  {
    TrimRetains(c.history, output, EffectiveLimit(limit));
    hide Retains, TrimOf, HasGraphics, Boundary;
  }

  // ---- the pane -----------------------------------------------------------------------

  function EnqueueAll(q: Queue, ms: seq<PaneOutbound>): Queue
    decreases |ms|
  {
    if ms == [] then q else EnqueueAll(EnqueueOf(q, ms[0]).0, ms[1..])
  }

  function AsOutput(chunks: seq<seq<byte>>): seq<PaneOutbound>
  {
    if chunks == [] then [] else [Output(chunks[0], false)] + AsOutput(chunks[1..])
  }

  class TerminalPane {
    const history: PaneHistory
    const checkpoint: TerminalCheckpointEngine?
    var generation: string
    var limit: int
    var size: Size
    var epoch: nat
    var owner: PaneClient?
    var clients: set<PaneClient>
    var hasAttached: bool
    var closing: bool
    var exited: bool

    ghost function View(): Core
      reads this, history, checkpoint
    {
      Core(history.View(), if checkpoint == null then None else Some(checkpoint.View()),
           generation, limit, size, epoch, hasAttached, closing, exited)
    }

    ghost predicate Valid()
      reads this, history, checkpoint
    {
      CoreInv(View(), history.log) && Normal(size)
    }

    constructor (cols: int, rows: int, limit: int, generation: string, withCheckpoint: bool)
      ensures Valid() && fresh(history) && (checkpoint != null ==> fresh(checkpoint))
      ensures clients == {} && owner == null
      ensures View() == Core(History([], 0, 0, 0), if withCheckpoint then Some(NEW_ENGINE) else None, generation, limit,
                             Size(NormalizeCols(cols), NormalizeRows(rows), 0, 0), 0, false, false, false)
    {
      hide CoreInv, Retains, Reflects;
      history := new PaneHistory();
      if withCheckpoint {
        checkpoint := new TerminalCheckpointEngine();
      } else {
        checkpoint := null;
      }
      this.generation, this.limit, epoch := generation, limit, 0;
      size := Size(NormalizeCols(cols), NormalizeRows(rows), 0, 0);
      owner, clients, hasAttached, closing, exited := null, {}, false, false, false;
      new;
      NewCoreOk(View());
    }

    method TrimHistory()
      requires history.Valid()
      modifies this`limit, history
      ensures history.Valid() && history.log == old(history.log)
      ensures limit == EffectiveLimit(old(limit))
      ensures history.View() == TrimOf(old(history.View()), limit)
    {
      if limit <= 0 {
        limit := DEFAULT_HISTORY_LIMIT;
      }
      history.Trim(limit);
    }

    /** Records the output; the caller delivers `chunks` to `targets`. */
    method AppendOutput(filtered: seq<byte>, parserOk: bool) returns (chunks: seq<seq<byte>>, targets: set<PaneClient>)
      requires Valid()
      modifies this`limit, history, checkpoint
      ensures Valid() && View() == CaptureOf(old(View()), filtered, parserOk)
      ensures chunks == Pieces(filtered, HISTORY_CHUNK_MAX)
      ensures targets == if Captures(old(View()), filtered) then clients else {}
      ensures history.log == old(history.log) + (if Captures(old(View()), filtered) then filtered else [])
    {
      targets := {};
      chunks := MakeHistoryChunks(filtered);
      if filtered == [] || closing || exited {
        assert history.log + [] == history.log;
        return;
      }
      CaptureKeeps(View(), history.log, filtered, parserOk);
      hide CoreInv;
      if checkpoint != null {
        checkpoint.Write(filtered, parserOk);
      }
      AppendChunks(chunks);
      PiecesSpec(filtered, HISTORY_CHUNK_MAX);
      TrimHistory();
      targets := clients;
    }

    method AppendChunks(chunks: seq<seq<byte>>)
      requires history.Valid()
      modifies history
      ensures history.Valid() && history.log == old(history.log) + Flatten(chunks)
      ensures history.View() == AppendAll(old(history.View()), chunks)
    {
      for i := 0 to |chunks|
        invariant history.Valid()
        invariant AppendAll(history.View(), chunks[i..]) == AppendAll(old(history.View()), chunks)
        invariant history.log + Flatten(chunks[i..]) == old(history.log) + Flatten(chunks)
      {
        assert chunks[i..][1..] == chunks[i + 1..];
        history.Append(chunks[i]);
      }
    }

    method AttachClient(req: SyncRequest, created: Option<string>, memoryOk: bool)
      returns (outcome: AttachOutcome, client: PaneClient?)
      requires Valid() && CoreOk(View())
      modifies this`generation, this`hasAttached, this`clients
      ensures Valid() && (View(), outcome) == AttachOf(old(View()), req, created, memoryOk)
      ensures outcome.Refused? ==> clients == old(clients)
      ensures outcome.Attached? ==>
                && client != null && fresh(client) && client.View() == NEW_CLIENT.queue
                && clients == old(clients) + {client}
      ensures outcome.Attached? ==> ReplyOk(outcome.reply, req, history.log)
      ensures AttachExactly(old(View()), req, created, memoryOk, history.log, View(), outcome)
    {
      hide CoreInv, ReplyOk, ReplyOf, Retains, Reflects, AttachExactly;
      client := null;
      AttachSpec(View(), req, created, memoryOk, history.log);
      AttachIsExact(View(), req, created, memoryOk, history.log);
      if closing {
        return Refused(PaneClosing), null;
      }
      if generation == "" {
        match created
        case None => return Refused(NoGeneration), null;
        case Some(g) => generation := g;
      }
      outcome := SnapshotFor(req, memoryOk);
      if outcome.Attached? {
        hasAttached := true;
        client := new PaneClient();
        clients := clients + {client};
      }
    }

    method SnapshotFor(req: SyncRequest, memoryOk: bool) returns (outcome: AttachOutcome)
      requires history.Valid() && CoreOk(View()) && !closing
      ensures outcome == (if req.wantsCheckpoint && CheckpointUsable(View()) && !(View().checkpoint.value.open && memoryOk)
                          then Refused(CheckpointUnavailable) else Attached(ReplyOf(View(), req)))
    {
      var part := history.TakeSnapshot();
      var mode := SnapshotMode;
      var memory: Option<seq<byte>> := None;
      var fallback := checkpoint != null && checkpoint.failed;
      if !fallback && req.wantsCheckpoint && checkpoint != null && !checkpoint.legacyGraphics {
        if !checkpoint.open || !memoryOk {
          return Refused(CheckpointUnavailable);
        }
        var from := history.end - |checkpoint.pending|;
        memory := Some(checkpoint.fed);
        part := Snapshot(if checkpoint.pending == [] then [] else [checkpoint.pending],
                         Min(part.serverBase, from), part.serverEnd, from, part.deltaTo);
      }
      if !fallback && memory.None? && !req.forceSnapshot && req.localEnd.Some? && req.generation == generation {
        if history.base <= req.localEnd.value <= history.end {
          part := history.SnapshotFrom(req.localEnd.value);
          mode := if req.localEnd.value == history.end then CurrentMode else DeltaMode;
        }
      }
      return Attached(HistoryReply(part, mode, memory, fallback, generation, epoch, size, mode == SnapshotMode && !hasAttached));
    }

    /** Returns the clients to tell that the resize owner is gone. */
    method DetachClient(client: PaneClient) returns (released: bool, targets: set<PaneClient>)
      modifies this`clients, this`owner
      ensures clients == old(clients) - {client}
      ensures released == (old(owner) == client)
      ensures owner == if released then null else old(owner)
      ensures targets == if released then clients else {}
    {
      clients := clients - {client};
      released := owner == client;
      targets := {};
      if released {
        owner := null;
        targets := clients;
      }
    }

    method Close() returns (targets: set<PaneClient>)
      requires Valid()
      modifies this`closing, checkpoint
      ensures Valid() && View() == CloseOf(old(View()))
      ensures closing && (checkpoint != null && !old(closing) ==> !checkpoint.open)
      ensures targets == if old(closing) then {} else clients
    {
      OthersKeep(View(), history.log, size, limit, true);
      hide CoreInv;
      if closing {
        return {};
      }
      closing := true;
      if checkpoint != null {
        checkpoint.Close();
      }
      return clients;
    }

    method SetHistoryLimit(wanted: int, checkpointOk: bool)
      requires Valid()
      modifies this`limit, history, checkpoint
      ensures Valid() && View() == LimitOf(old(View()), wanted, checkpointOk)
    {
      OthersKeep(View(), history.log, size, wanted, checkpointOk);
      if closing {
        return;
      }
      limit := EffectiveLimit(wanted);
      TrimHistory();
      if checkpoint != null {
        checkpoint.Resize(checkpointOk);
      }
    }

    method Resize(cols: int, rows: int, pixelWidth: int, pixelHeight: int, checkpointOk: bool) returns (pty: Pty)
      requires Valid()
      modifies this`size, checkpoint
      ensures Valid()
      ensures (View(), pty) == GeometryOf(old(View()), Requested(old(size), cols, rows, pixelWidth, pixelHeight), checkpointOk)
    {
      var wanted := Requested(size, cols, rows, pixelWidth, pixelHeight);
      RequestedTwice(size, cols, rows, pixelWidth, pixelHeight);
      OthersKeep(View(), history.log, wanted, limit, checkpointOk);
      hide CoreInv;
      if closing {
        return PaneIsClosing;
      }
      if size == wanted {
        return SameSize;
      }
      size := wanted;
      if checkpoint != null {
        checkpoint.Resize(checkpointOk);
      }
      return if exited then NoProcess else Resizing;
    }

    /** A resize message that carries an epoch, 0 if it is not a positive number; the
        caller announces an applied resize to `targets`. `ptyOk` is the outcome of
        resizing the device. */
    method ApplyResize(newEpoch: nat, cols: int, rows: int, pixelWidth: int, pixelHeight: int, claim: bool,
                       source: PaneClient?, checkpointOk: bool, ptyOk: bool)
      returns (result: ResizeResult, targets: set<PaneClient>)
      requires Valid()
      modifies this`size, this`epoch, this`owner, checkpoint
      ensures Valid()
      ensures var wanted := Requested(old(size), cols, rows, pixelWidth, pixelHeight);
              (View(), result) == ApplyOf(old(View()), newEpoch, wanted, claim, old(owner) != null && old(owner) != source, checkpointOk, ptyOk)
      ensures owner == if result.Applied? && source != null then source else old(owner)
      ensures targets == if result.Applied? then clients else {}
    {
      hide CoreInv, ProceedOf, Requested;
      targets := {};
      var wanted := Requested(size, cols, rows, pixelWidth, pixelHeight);
      RequestedTwice(size, cols, rows, pixelWidth, pixelHeight);
      if newEpoch == 0 {
        return Rejected(InvalidEpoch), {};
      }
      if newEpoch < epoch {
        return Rejected(StaleEpoch), {};
      }
      if newEpoch == epoch && wanted != size {
        return Rejected(EpochConflict), {};
      }
      if owner != null && !claim && newEpoch != epoch && source != owner {
        return Rejected(OwnedElsewhere), {};
      }
      result := ProceedResize(newEpoch, wanted, source, checkpointOk, ptyOk);
      targets := if result.Applied? then clients else {};
    }

    /** A resize whose epoch is empty: from anyone before an epoch is in force, then from
        the owner, or if it repeats the current size. */
    method ApplyLegacyInputResize(cols: int, rows: int, pixelWidth: int, pixelHeight: int,
                                  source: PaneClient?, checkpointOk: bool, ptyOk: bool)
      returns (ok: bool)
      requires Valid()
      modifies this`size, this`owner, checkpoint
      ensures Valid()
      ensures var wanted := Requested(old(size), cols, rows, pixelWidth, pixelHeight);
              var accepted := cols > 0 && rows > 0
                              && (old(epoch) == 0 || (old(owner) != null && old(owner) == source) || wanted == old(size));
              var (core, pty) := GeometryOf(old(View()), wanted, checkpointOk);
              && View() == (if accepted then core else old(View()))
              && ok == (cols <= 0 || rows <= 0 || (accepted && !PtyFails(pty, ptyOk)))
              && owner == (if accepted && ok && source != null then source else old(owner))
    {
      hide CoreInv, GeometryOf, PtyFails, Requested;
      if cols <= 0 || rows <= 0 {
        return true;
      }
      var wanted := Requested(size, cols, rows, pixelWidth, pixelHeight);
      if epoch != 0 && (owner == null || owner != source) && wanted != size {
        return false;
      }
      var pty := Resize(cols, rows, pixelWidth, pixelHeight, checkpointOk);
      if PtyFails(pty, ptyOk) {
        return false;
      }
      if source != null {
        owner := source;
      }
      return true;
    }

    /** The rest of it, under the output mutex. */
    method ProceedResize(newEpoch: nat, wanted: Size, source: PaneClient?, checkpointOk: bool, ptyOk: bool)
      returns (result: ResizeResult)
      requires Valid() && Requested(size, wanted.cols, wanted.rows, wanted.pixelWidth, wanted.pixelHeight) == wanted
      modifies this`size, this`epoch, this`owner, checkpoint
      ensures Valid() && (View(), result) == ProceedOf(old(View()), newEpoch, wanted, checkpointOk, ptyOk)
      ensures owner == if result.Applied? && source != null then source else old(owner)
    {
      hide CoreInv, GeometryOf, PtyFails, Requested;
      GeometryDone(View(), wanted, checkpointOk, ptyOk);
      var pty := Resize(wanted.cols, wanted.rows, wanted.pixelWidth, wanted.pixelHeight, checkpointOk);
      if PtyFails(pty, ptyOk) {
        return DeviceFailed;
      }
      EpochKeeps(View(), history.log, newEpoch);
      epoch := newEpoch;
      if source != null {
        owner := source;
      }
      return Applied(epoch, size);
    }
  }

  lemma GeometryDone(c: Core, wanted: Size, checkpointOk: bool, ptyOk: bool)
    ensures !PtyFails(GeometryOf(c, wanted, checkpointOk).1, ptyOk) ==> GeometryOf(c, wanted, checkpointOk).0.size == wanted
  {}

  lemma EpochKeeps(c: Core, output: seq<byte>, epoch: nat)
    requires CoreInv(c, output)
    ensures CoreInv(c.(epoch := epoch), output)
  {
    hide Retains, Reflects;
  }

  lemma NewCoreOk(c: Core)
    requires c.history == History([], 0, 0, 0) && (c.checkpoint == None || c.checkpoint == Some(NEW_ENGINE))
    ensures CoreInv(c, [])
  {
    hide Retains, Reflects;
    EmptyReflects();
    NothingRetained();
  }

  lemma EmptyReflects()
    ensures Reflects(NEW_ENGINE, [])
  {
    hide Reflects, Boundary, HasGraphics, WriteOf;
    FlattenNothing();
    WritesReflect([]);
  }

  lemma NothingRetained()
    ensures Retains(History([], 0, 0, 0), [])
  {
    FlattenNothing();
    hide Flatten;
  }

  /** Enqueues every message for every target. */
  method DeliverOutput(targets: set<PaneClient>, chunks: seq<seq<byte>>)
    modifies targets
    ensures forall c :: c in targets ==> c.View() == EnqueueAll(old(c.View()), AsOutput(chunks))
  {
    var left := targets;
    while left != {}
      invariant left <= targets
      invariant forall c :: c in left ==> c.View() == old(c.View())
      invariant forall c :: c in targets && c !in left ==> c.View() == EnqueueAll(old(c.View()), AsOutput(chunks))
      decreases |left|
    {
      var c :| c in left;
      DeliverTo(c, chunks);
      left := left - {c};
    }
  }

  method DeliverTo(client: PaneClient, chunks: seq<seq<byte>>)
    modifies client
    ensures client.View() == EnqueueAll(old(client.View()), AsOutput(chunks))
  {
    for i := 0 to |chunks|
      invariant EnqueueAll(client.View(), AsOutput(chunks[i..])) == EnqueueAll(old(client.View()), AsOutput(chunks))
    {
      assert chunks[i..][1..] == chunks[i + 1..];
      hide EnqueueOf;
      var accepted := client.Enqueue(Output(chunks[i], false));
    }
  }
}
