# The terminal core, modelled and proved

A web shell keeps terminals alive on a machine and shows them in browsers that come and go. Each
*pane* owns a process and its output; a *workspace* arranges panes in tabs with split layouts; an
*agent connection* replays a pane's history to a viewer and then follows its output; a *queue stream*
carries that connection to the browser under flow control. This project models the parts of the Go
package `core` (and the lease loop of `clientruntime/managedruntime`) that decide whether every byte
of a pane reaches every viewer exactly once, in order and in bounded memory, whether the text filters
depend on how output was cut, and whether a workspace stays consistent and can be saved and rebuilt.

## How it is built

Objects that the source updates in place are classes (`PaneHistory`, `PaneStream`, `PaneClient`,
`TerminalCheckpointEngine`, `TerminalPane`, `TerminalWorkspace`, `PrivateControlFilter`,
`TerminalQueryFilter`, `LeaseGate`). Each method ties the object's new value, `View()`, to a function
of its old value; the theorems are about those functions. Concurrency is a step relation: one step is
one section that the source executes under a mutex, and `Exec` (or `Run`) is the state after an
arbitrary sequence of such steps, so a lemma about it speaks of every interleaving. Clocks, random
values, and the outcomes of the operating system and of the WASM parser are parameters or free choices.

* Output of a pane: `PaneHistory` (trimmed history), `CheckpointBoundary` (where a checkpoint may
  cut the stream, and the engine around it), `ControlItems` (the items it must not cut), `Subscriber` (a client's queue), `TerminalPane` (the
  sections under the pane's mutex), `PaneOutput` (all interleavings of capture, delivery, attach,
  detach, resize and the clients' writers), `PaneResize` (resize epochs and ownership), `Geometry`.
* Delivery to the browser: `QueueStream` (sections of the stream), `QueueRuns` (interleavings),
  `QueueOrder`, `QueueBounds`, `QueueDelivery`, `QueueLedger`, `QueueProgress`, `QueueBurst`,
  `QueueTexts` (what holds on every run), `QueueEffects` (what one call does, on the fields), `QueueWriter` (the broker's rounds as methods), `QueueTurns` and `QueueRounds`
  (turns, rounds and wake-ups while other threads run), `HistoryReplay`, `AgentStream` and
  `AgentReplay` (what an agent connection sends), `EndToEnd` (pane to browser).
* Filters: `PrivateControl`, `QueryFilter`, `QueryAnswers`.
* Workspace: `Layout`, `LayoutShape`, `LayoutCheck`, `Names`, `Workspace` (the actions as functions),
  `WorkspaceInvariant`, `WorkspaceKeeps`, `WorkspaceEffects`, `WorkspaceActions`, `TerminalWorkspace` (the object),
  `RecoveryPath`, `WorkspaceRecovery`, `RecoveryRoundTrip`, `RecoveryInstances`.
* `AdmissionLease`: the pipe reader and the lease loop. `Bytes`: shared helpers.

## Where the code does not do what one might expect

Each of these has a lemma with an input on which it happens, and one that says when.

* A client that attaches while a resize is between its two sections is told the new size under the
  old epoch (`PaneResize.AttachBetweenSections`), and so is one that attaches after a resize that
  failed at the device or carried no epoch (exactly when: `PaneResize.ReplyShape`). A resize notice
  corrects the first.
* After a failed resize of the device, a resize with the old epoch can announce a second size for it
  (`PaneResize.FailedResizeReusesEpoch`; exactly when: `PaneResize.AnnouncementAgrees`).
* An attached client that repeats the current size in a resize without an epoch becomes the resize
  owner, although another client owns the size, and may then set another size under the epoch in
  force (`PaneResize.SecondClientTakesOver`; exactly when: `PaneResize.SizeIsTheOwners`). An agent
  connection sends every resize whose epoch is empty down that path (core/agent_attach.go:165-166);
  only one whose epoch is white space meets the stricter branch of `applyResize`.
* The private-control filter depends on chunk boundaries exactly if a chunk ends with more than 512
  bytes of an unfinished control (`PrivateControl.BoundaryCanMatter`; exactly when:
  `PrivateControl.BoundaryIsHarmless`).
* A graphics query without a semicolon is answered only if a semicolon comes behind it; otherwise it
  is held back while no more than 64 bytes have come and then passed on unanswered
  (`QueryAnswers.UnansweredQuery`; exactly when: `QueryAnswers.BareQuery`).
* `update_layout` with an unknown active pane fails after it has replaced the layout
  (`WorkspaceEffects.RefusedUpdateReplacesLayout`; exactly when: `WorkspaceEffects.RefusedUpdate`).
* A recovery document is checked on a normalised copy of each layout but the layout is kept as sent:
  children hidden inside a leaf survive, and a later split can land in them
  (`RecoveryInstances.HiddenPane`; exactly when: `RecoveryRoundTrip.RebuiltWorkspace`).
* Normalising a working directory twice can differ from normalising it once: a shell in "/x / " (a
  directory named by a space, inside one whose name ends with a space) is saved as "/x ", which is
  not normal, and then the document of a healthy workspace is refused
  (`RecoveryInstances.RefusedDocument`; exactly when: `RecoveryPath.NormalTwice`,
  `RecoveryRoundTrip.DocumentValid`).

## Model

| member | source | states |
|---|---|---|
| PaneHistory.AppendAllRetains | core/history.go:52-59 | after any appended chunks the retained chunks concatenate to the log from `base`, with `bytes = end - base` and `end` the length of the log |
| PaneHistory.TrimRetains | core/history.go:61-88 | a trim keeps exactly the last min(limit, bytes) bytes of the log |
| PaneHistory.SnapshotFromSpec | core/history.go:100-130 | a snapshot from a cursor is the log from that cursor clamped to the retained range, and announces the range and its ends |
| PaneHistory.SnapshotSpec | core/history.go:90-98 | a whole snapshot announces the start of what is retained, starts there, and holds all of it |
| PaneHistory.RunsRefineTheLog | core/history.go:52-88 | any sequence of appends and trims keeps refining the unbounded log |
| PaneHistory.PaneHistory.Append | core/history.go:52-59 | the new history and log for one chunk; empty chunks change nothing |
| PaneHistory.PaneHistory.Trim | core/history.go:61-88 | the loop over chunks, against its specification; how many bytes stay |
| PaneHistory.PaneHistory.SnapshotFrom | core/history.go:100-130 | the loop that skips to a cursor, against its specification |
| PaneHistory.MakeHistoryChunks | core/history.go:38-50 | output is cut into pieces of 32 KiB and a shorter rest |
| Bytes.PiecesSpec | core/history.go:38-50 | cutting loses nothing, keeps the order, and only the last piece is short |
| CheckpointBoundary.TerminalCheckpointBoundary | core/terminal_checkpoint_runtime.go:322-381 | the scan over the data returns the boundary, which `ControlItems.BoundaryIsLast` says is the end of the last complete item |
| ControlItems.ItemIsFirst | core/terminal_checkpoint_runtime.go:322-381 | the scanner finds an item of n bytes at the front exactly if the first n bytes are one: below 0x80 a single byte, or an escape sequence, a control sequence (parameters and a final byte from 0x40 to 0x7e) or a control string (opened by ] P _ ^ X, ended by ESC and a backslash, an OSC also by BEL), cut short by CAN and SUB; from 0x80 on an encoded character, or one byte that begins none; each described without the scanner |
| ControlItems.BoundaryIsLast | core/terminal_checkpoint_runtime.go:320-381 | what lies before the boundary is complete items one after the other, behind it no complete item begins, and it is the last such place |
| ControlItems.WriteExactly | core/terminal_checkpoint_runtime.go:154-185 | a write to a working engine closes it for ESC _ G, fails exactly if more than 1 MiB would be pending or the parser refuses complete items, and otherwise feeds all complete items and keeps the rest |
| CheckpointBoundary.RunesFollowTheStandard | core/terminal_checkpoint_runtime.go:327-336 | the multi-byte characters consumed as one item are those of section 4 of RFC 3629 |
| CheckpointBoundary.BoundaryComposes | core/terminal_checkpoint_runtime.go:322-381 | for all byte strings x and y, boundary(xy) = boundary(x) + boundary(rest of x followed by y) |
| CheckpointBoundary.BoundaryAvoidsGraphics | core/terminal_checkpoint_runtime.go:154-163 | no boundary falls inside ESC _ G |
| CheckpointBoundary.TerminalCheckpointEngine.Write | core/terminal_checkpoint_runtime.go:138-221 | what one write does to pending bytes, parser input, failure and the switch to legacy graphics |
| CheckpointBoundary.TerminalCheckpointEngine.Resize | core/terminal_checkpoint_runtime.go:223-275 | a resize can only make a healthy engine fail |
| CheckpointBoundary.WritesReflect | core/terminal_checkpoint_runtime.go:138-221 | after any writes the parser has consumed the output up to its boundary and the rest is pending; graphics are noticed exactly if the output contains ESC _ G |
| CheckpointBoundary.ChunkingIsIrrelevant | core/terminal_checkpoint_runtime.go:138-171 | two healthy engines given the same output in different chunks agree |
| Subscriber.PaneClient.Enqueue | core/subscriber.go:24-75 | one enqueue: byte budget, channel, merging into the tail, overflow limit, cut-off |
| Subscriber.PaneClient.Dequeued | core/subscriber.go:77-98 | accounting for a message and the loop that refills the channel |
| Subscriber.ClientRuns | core/subscriber.go:24-104 | on every run the client's queue is a FIFO up to merging adjacent output, its byte counter is exact and at most 8 MiB, and messages in the overflow are as merged as they can be |
| Subscriber.NeverStranded | core/subscriber.go:77-98 | once a message is accounted for, overflow waits only behind a full channel |
| Subscriber.CutOffOnlyWhenBehind | core/subscriber.go:39-64 | a client that is only sent output is cut off only if it is more than 4 MiB behind |
| Subscriber.EnqueueExactly | core/subscriber.go:24-75 | on every run, exactly when a message is accepted (not cut off, at most 8 MiB on their way with it, and room for 256 waiting messages or a place in the last one), and where it goes |
| TerminalPane.CaptureKeeps | core/pane.go:169-193 | capturing output keeps history and checkpoint in step with the pane's output |
| TerminalPane.CaptureSize | core/pane.go:184-210 | after a capture the history holds as much as its limit allows and no more |
| TerminalPane.CaptureExactly | core/pane.go:156-210 | output is recorded exactly if there is any and the pane neither closes nor has exited; as much is retained as the limit allows, 1,750,000 bytes by default; otherwise nothing changes |
| TerminalPane.ReplySpec | core/pane_replay.go:20-58 | a reply's replay is the output from its start cursor to now; what precedes it is what the viewer said it has, what the checkpoint's parser consumed, or what is no longer retained |
| TerminalPane.AttachSpec | core/pane_replay.go:7-73 | the same for every outcome of an attach; a refused attach leaves the invariant intact |
| TerminalPane.AttachIsExact | core/pane_replay.go:7-73 | as equivalences on the request and the fields: when an attach is refused and why; that a checkpoint is sent exactly if it was asked for and one is usable; that only the missing part is sent exactly if no checkpoint failed or is sent, no snapshot was forced, the generations agree and the copy ends within what is retained; where the reply starts, what it announces as retained, and who may generate input |
| TerminalPane.OthersKeep | core/pane_resize.go:70-105 | resizing, changing the history limit and closing keep history and checkpoint in step |
| TerminalPane.AppliedResize | core/pane_resize.go:136-197 | after an applied resize the same one again is accepted from anyone and changes nothing; its epoch with another size, an older epoch and epoch 0 are refused and change nothing |
| TerminalPane.ResizeExactly | core/pane_resize.go:134-199 | a resize that carries an epoch goes ahead exactly if the epoch is positive and not an older one, the epoch in force goes with its own size, and, while another client owns the size, it claims it or repeats that epoch; which refusal it gets otherwise; and the new size, epoch and checkpoint in every case |
| TerminalPane.LimitExactly | core/workspace.go:302-318 | a new limit is in force at once, drops exactly what exceeds it, and is 1,750,000 bytes if none is given; a closing pane ignores it |
| TerminalPane.TerminalPane.AppendOutput | core/pane.go:156-193 | the capture section on the object: history, checkpoint and the clients to deliver to |
| TerminalPane.TerminalPane.AttachClient | core/pane_replay.go:7-73 | the attach section on the object: reply, new client, and that the reply is right for the output |
| TerminalPane.TerminalPane.DetachClient | core/pane_replay.go:75-99 | the client is gone, and the resize owner with it |
| TerminalPane.TerminalPane.ApplyResize | core/pane_resize.go:107-202 | a resize with an epoch carried out without interruption: the size asked for, refusals (an epoch that is not a positive number among them), geometry, epoch, owner, clients to tell |
| TerminalPane.TerminalPane.ApplyLegacyInputResize | core/pane_resize.go:11-37 | a resize with an empty epoch: whom it is accepted from, its geometry, and that its sender becomes the owner |
| Geometry.RequestedTwice | core/pane_resize.go:76-90 | the size asked for is one a pane can have, and normalising it a second time changes nothing |
| Geometry.RequestedExactly | core/layout.go:233-252 | the bounds on columns, rows and pixels, their defaults, and that unknown pixel sizes are kept |
| TerminalPane.TerminalPane.Close | core/pane.go:315-339 | closing once disposes of the checkpoint and names the clients to close |
| TerminalPane.TerminalPane.SetHistoryLimit | core/workspace.go:302-318 | a new limit trims the history unless the pane is closing |
| TerminalPane.DeliverOutput | core/pane.go:196-200 | every chunk is enqueued for every target, client by client |
| PaneOutput.PaneRuns | core/pane.go:156-201 | on every interleaving each client has accepted, or is about to be sent, exactly the pane's log since it attached; one cut off or detached has a prefix of it |
| PaneOutput.ExactlyOnce | core/pane_replay.go:7-73 | every viewer, under every interleaving: start content, replay and live bytes received are a prefix of the pane's output, and with what is on the way equal it while the viewer is attached and not cut off |
| PaneOutput.ResizeAtOneCursor | core/pane_resize.go:176-200 | every client attached across a resize sees it at the same output cursor |
| PaneOutput.AttachAlwaysEnabled | core/pane_replay.go:36-43 | the cursor arithmetic of an attach never underflows |
| PaneOutput.GeneratedInputOnce | core/pane_replay.go:59-60 | only the first client ever attached may send generated input during its replay |
| PaneOutput.HistoryIsBounded | core/pane.go:203-210 | the history never exceeds its limit |
| PaneOutput.RetainedRun | core/pane.go:184-210 | on every run in which the limit is not changed, a pane retains as much of its output as the limit allows, every reply without a checkpoint announces exactly that, and a snapshot starts there |
| PaneResize.EpochNeverDecreases | core/pane_resize.go:139-187 | the resize epoch never decreases |
| PaneResize.OwnerIsAttached | core/pane_resize.go:165-188 | the resize owner is always an attached client |
| PaneResize.SizeIsTheOwners | core/pane_resize.go:27-37 | once an epoch is in force, on every run without epoch-carrying resizes and resizes from the owner, the owner stays (or is gone) exactly if no other attached client repeats the current size in a resize with an empty epoch; and while the owner stays, so do size and epoch |
| PaneResize.RepeatedSizeTakesOver | core/agent_attach.go:165-166 | from every state such a repeat makes its sender the owner, whose next size is accepted under the epoch in force |
| PaneResize.LegacyExactly | core/pane_resize.go:11-37 | exactly which resizes without an epoch are carried out, under either check |
| PaneResize.SecondClientTakesOver | core/agent_attach.go:165-166 | the run on which a second client takes over and changes the size that the first has set with an epoch |
| PaneResize.AnnouncementAgrees | core/pane_resize.go:157-199 | on every run the announcements keep one size per epoch exactly if each finished resize had a new epoch, or the size was not changed (by a failed resize or one without an epoch) since it was last announced |
| PaneResize.EpochIdentifiesSize | core/pane_resize.go:107-202 | on runs of epoch-carrying resizes that the device accepts, equal epochs mean equal sizes |
| PaneResize.ReplyShape | core/pane_replay.go:22-26 | on every run a new client is told the shape last announced exactly if the size was not changed since; where the device accepts all and every resize has an epoch, exactly while no resize that changes the size is under way |
| PaneResize.AttachBetweenSections | core/pane_replay.go:22-26 | the run on which a new client is told a size under an epoch announced with another size |
| PaneResize.FailedResizeReusesEpoch | core/pane_resize.go:92-104 | the run (epoch 1 applied, epoch 2 failing at the device, epoch 1 again) on which one epoch is announced with two sizes |
| QueueStream.PaneStream.EnqueueText | core/queue_stream.go:207-247 | one control: cursor, burst markers, continuity check; its effect is spelled out by `QueueEffects.TextEffect` |
| QueueStream.PaneStream.EnqueueBinary | core/queue_stream.go:249-289 | one output frame: reserved cursors, pieces of 512 KiB, overload |
| QueueEffects.TextEffect | core/queue_stream.go:207-247 | on a serving stream a text is queued as it came, but a replay start that is granted a burst (turn-ack or window-ack, positive limit, snapshot, both cursors, 0 < to - from <= min(limit, 3,500,000)) with the burst written into it and as its start; exactly when the stream is cut off instead, and with which error; and the cursor it leaves |
| QueueEffects.BinaryEffect | core/queue_stream.go:249-289 | a frame of output cuts a serving stream off exactly if no cursor is known or it does not fit whole, with the error for it; otherwise all its bytes are queued in pieces of 512 KiB with consecutive cursors and numbers |
| QueueEffects.ReaderCall | core/queue_stream.go:207-325 | read without interruption, the steps of the run model for a frame do to the stream exactly what one call does |
| QueueStream.PaneStream.Enqueue | core/queue_stream.go:291-308 | one entry, or an overload if it does not fit |
| QueueStream.PaneStream.Overload | core/queue_stream.go:310-341 | everything is dropped for one error control; happens once |
| QueueStream.PaneStream.Deactivate | core/queue_stream.go:83-89 | nothing stays buffered |
| QueueStream.PaneStream.AcknowledgeTurn | core/queue_stream.go:343-372 | which acknowledgements are accepted under either protocol, and their effect |
| QueueStream.PaneStream.AcknowledgeWindow | core/terminal_queue_flow.go:38-55 | the loops over boundaries: the first match credits everything up to it |
| QueueStream.PaneStream.TargetSequence | core/queue_stream.go:374-384 | when a stream is ready, and up to which entry |
| QueueStream.PaneStream.PopThrough | core/queue_stream.go:386-417 | when the head may be sent, and what sending it changes |
| QueueStream.PaneStream.FinishTurn | core/terminal_queue_replay.go:27-54 | when a turn is announced, and what is then awaited |
| QueueStream.FindBoundaryIsFirst | core/terminal_queue_flow.go:43-53 | the boundary found is the first that matches |
| QueueOrder.OrderRun | core/queue_stream.go:207-308 | on every interleaving the entries sent and buffered are, up to other controls, those that the frames read call for, in order |
| QueueOrder.StepSucceeds | core/queue_stream.go:83-341 | a stream is never reactivated, never recovers from an overload, and is overloaded only while it serves |
| QueueTexts.SentInOrder | core/queue_stream.go:207-312 | on every interleaving what was sent, text and output together, is in order what the frames call for, as far as they got, with only the connection's own controls in between, and all of it once nothing is left; a stream that is cut off sends at most one error control after that |
| QueueTexts.TerminalControlKnown | core/queue_stream.go:193-198 | a stream knows of an exit, refresh or checkpoint error exactly if a frame said so |
| QueueBounds.BoundRun | core/queue_stream.go:291-341 | `bufferBytes` is the sum of the buffered costs and at most 4 MiB; sequences increase; an overloaded stream buffers at most its error control |
| QueueBounds.AfterOverload | core/queue_stream.go:310-341 | after an overload nothing but the one error control is ever sent |
| QueueBounds.AfterDeactivation | core/queue_stream.go:83-89 | after a deactivation nothing is ever sent |
| QueueBounds.GateRun | core/queue_stream.go:131-148 | as long as the connection's own controls that are buffered and the frame being read stay within 1 MiB together, whatever comes fits |
| QueueDelivery.LabelsMatch | core/queue_stream.go:207-289 | entries are numbered 1, 2, 3, ... and each starts where the last ended, exactly if the agent never jumps to another cursor |
| QueueDelivery.ContiguousDelivery | core/queue_stream.go:249-308 | on every run the entries sent are numbered 1, 2, 3, ..., tile the agent's output from its first cursor, and join to a prefix of it |
| QueueDelivery.NothingLost | core/queue_stream.go:249-308 | with an empty buffer between frames everything read has been sent |
| QueueDelivery.NeverOverloaded | core/queue_stream.go:207-308 | an agent that keeps the replay protocol is never cut off while that holds |
| QueueLedger.AckNames | core/terminal_queue_flow.go:38-55 | an acknowledgement succeeds exactly if it repeats the last one or names a pending boundary |
| QueueLedger.AckExactly | core/queue_stream.go:343-372 | under each protocol, exactly when an acknowledgement is accepted; one that is not changes nothing |
| QueueLedger.LedgerAck | core/terminal_queue_flow.go:43-53 | it credits precisely the entries up to the boundary it names, each once; a rejected one changes nothing |
| QueueLedger.FlowRun | core/terminal_queue_flow.go:31-55 | on every interleaving the ledger partitions the entries sent into acknowledged, announced and current ones, with strictly increasing boundaries above the last acknowledgement |
| QueueLedger.CreditConserved | core/terminal_queue_replay.go:27-54 | in every state `inFlight` is the current turn plus the pending boundaries and also the bytes sent and not acknowledged; between turns and outside a burst nothing is left unannounced |
| QueueProgress.NoStall | core/queue_stream.go:374-384 | with all announced turns acknowledged, a stream with something buffered is ready |
| QueueProgress.ReadyExactly | core/terminal_queue_flow.go:31-36 | in every reachable state, exactly when a serving stream with something buffered is ready between turns: unless a turn awaits its acknowledgement, or the window is used, no burst is open, output comes next, and 256 turns or 1 MiB would be exceeded |
| QueueProgress.GateExactly | core/queue_stream.go:131-148 | the gate holds the reader back exactly while 3 MiB or more are buffered |
| QueueProgress.AckUnblocks | core/terminal_queue_flow.go:31-55 | an idle stream that is not ready waits for exactly one thing, and acknowledging the last announced boundary makes it ready |
| QueueProgress.TurnAckBlocks | core/queue_stream.go:362-370 | under the turn protocol nothing is sent while a turn is unacknowledged, and only its exact end clears it |
| QueueProgress.TurnAckAwaits | core/terminal_queue_replay.go:42-46 | under the turn protocol a stream waits exactly from announcing a turn to the acknowledgement that names its end |
| QueueProgress.TurnSends | core/terminal_queue.go:113-126 | a turn that starts sends at least one entry, whatever other threads do, unless the stream is overloaded or deactivated meanwhile |
| QueueBurst.WindowStaysBounded | core/terminal_queue_replay.go:10-23 | with one burst opened before any output, in every state `inFlight` never exceeds the window or the burst, nor the ledger 256 boundaries; after an overload nothing is in flight |
| QueueWriter.RunTurn | core/terminal_queue.go:114-150 | one turn writes a non-empty run of entries, within its budget or as a single larger entry, and stops only at the budget, the time limit or an entry that may not be sent |
| QueueWriter.TurnStops | core/terminal_queue.go:114-141 | where a turn ends, on the buffer and the window: at the time limit, at 512 KiB, with everything sent, or before an entry that would exceed 512 KiB or that the window keeps back |
| QueueWriter.RunRound | core/terminal_queue.go:111-155 | one round gives every ready stream exactly one turn, leaves the others alone, and writes nothing only if none was ready |
| QueueTurns.TurnsAreBounded | core/terminal_queue.go:113-141 | on every interleaving all that is sent is cut into turns, each of at most 512 KiB or a single larger entry, also the one in progress; while the stream serves no turn ended empty |
| QueueRounds.OneTurnEach | core/terminal_queue.go:85-155 | on every interleaving a stream in the map that is ready when a round begins gets exactly one turn in it unless it is deactivated, no stream gets two, and turns follow priority and age if the snapshot is sorted by them |
| QueueRounds.NoLostWakeUp | core/terminal_queue.go:78-155 | no wake-up is lost: whenever the writer waits and no signal has come or is coming, no stream in the map is ready |
| QueueRounds.SleepsOnlyForAcks | core/queue_stream.go:343-384 | a stream that then has something buffered waits for an announced turn, and its acknowledgement makes it ready and wakes the writer |
| HistoryReplay.WriteHistoryReplay | core/agent_attach.go:242-283 | the replay frames are the history cut at 512 KiB, stamped with consecutive sequences and cursors |
| HistoryReplay.StampsContiguous | core/agent_attach.go:243-260 | frame k carries sequence first + k and the cursor where the frames before it end, into live output |
| HistoryReplay.StampsExactly | core/agent_attach.go:243-260 | every frame carries its payload, and a stamp exactly under the integrity protocol |
| AgentStream.AgentFollows | core/agent_attach.go:91-143 | however much of its conversation is heard, and whatever control ends it, what an attached agent sends is acceptable: the replay ends at the cursor it announced, and the only burst is the replay itself |
| AgentStream.AgentDelivered | core/agent_attach.go:91-143 | what a viewer is sent tiles the snapshot followed by the live output |
| AgentStream.AgentBounded | core/terminal_queue_replay.go:10-23 | serving such an agent keeps, in every state, at most 3,500,000 bytes and 256 turns in flight |
| AgentStream.AgentNotCutOff | core/queue_stream.go:229-235 | a replay never trips the continuity check, whether or not the connection lasts |
| AgentReplay.GrantsExactly | core/terminal_queue_replay.go:12-23 | the burst granted to a replay is all of it or nothing, and which |
| AgentReplay.ReplayNeedsNoAck | core/terminal_queue_replay.go:25-55 | on every run that serves an agent whose snapshot is granted a burst, whatever was or was not acknowledged: while the stream serves and an entry of the snapshot comes next, it may be sent, no acknowledgement is awaited, and between turns the stream is ready |
| EndToEnd.BrowserSeesThePane | core/agent_attach.go:91-143 | for every run of a pane and of the stream that serves one of its viewers, exits and broken connections included, each entry sent carries exactly the bytes of the pane's output that its cursors name, in order, from the viewer's start cursor |
| EndToEnd.BrowserSeesItAll | core/agent_attach.go:91-143 | and once nothing is on its way, the bytes sent are exactly the pane's output from that cursor to its end |
| EndToEnd.FreshBrowserSeesAllRetained | core/history.go:90-98 | a browser that attaches without a copy and without asking for a checkpoint is sent all of the pane's output but what the limit had cut off by then |
| PrivateControl.PrivateControlFilter.FilterPrivateControlOutput | core/private_control.go:7-55 | the loop: output, kept bytes and the last valid terminal name |
| PrivateControl.OversizeMet | core/private_control.go:35-45 | the branch for oversized controls is met exactly if somewhere in the bytes a control begins, is not ended, and has more than 512 bytes |
| PrivateControl.BoundaryIsHarmless | core/private_control.go:7-79 | filtering a then b gives the output, values and kept bytes of filtering ab, for every b, exactly if a holds no such control |
| PrivateControl.BoundaryCanMatter | core/private_control.go:35-45 | an introducer and 494 letters, cut before the terminator: the cut changes the output |
| PrivateControl.ChunksDoNotMatter | core/private_control.go:7-79 | output, values and kept bytes do not depend on the cuts, as long as nothing fed before a cut holds such a control |
| PrivateControl.NothingLost | core/private_control.go:16-54 | text, complete controls and kept bytes make up the input, in order; the output is the text |
| PrivateControl.PendingIsBounded | core/private_control.go:8-45 | at most 512 bytes are kept |
| PrivateControl.ControlIsTakenOut | core/private_control.go:17-52 | a complete control behind text without an introducer is taken out with its value, and filtering goes on behind it |
| PrivateControl.UnfinishedIsKept | core/private_control.go:35-45 | an unended control of at most 512 bytes is kept, and nothing of it put out |
| PrivateControl.PendingWaits | core/private_control.go:18-45 | what is kept is the beginning of an introducer, or an unended control |
| PrivateControl.LastValidIs | core/private_control.go:46-51 | the terminal name is the last valid value, or the one before |
| QueryFilter.TerminalQueryFilter.FilterOutput | core/queries.go:22-161 | the loop: output, answers and expectations, kept bytes |
| QueryFilter.AnswerIsQuery | core/queries.go:198-240 | what is taken out is a recognised query (device attributes, program status, the three colours, a graphics query) and gets its own answer; queries and answers are written out |
| QueryAnswers.QueryIsAnswered | core/queries.go:36-158 | every recognised query, with whatever follows it, is taken out and given its answer, and filtering goes on behind it; a graphics query if it has its semicolon |
| QueryAnswers.BareQuery | core/queries.go:54-67 | a graphics query without a semicolon is answered exactly if one follows and before it an attribute says a=q; what happens otherwise |
| QueryAnswers.UnansweredQuery | core/queries.go:54-63 | a graphics query without a semicolon, followed by 53 bytes without one, is passed on unanswered |
| QueryAnswers.BeginningIsKept | core/queries.go:43-138 | the beginning of a query is kept until the rest comes, up to 64 bytes, of a graphics query behind its semicolon up to 4096 |
| QueryAnswers.ReportsAreExpected | core/queries.go:112-119 | ESC [5n and ESC [6n are passed on and their replies expected |
| QueryFilter.NothingLost | core/queries.go:22-161 | every byte is forwarded, part of an answered query, or kept, in order; an expectation is set only behind ESC [5n or ESC [6n, and which |
| QueryFilter.OneAnswerEach | core/queries.go:81-87 | one answer for each query taken out, in order, and no other |
| QueryFilter.PendingIsBounded | core/queries.go:43-138 | what is kept is an unfinished sequence of at most 4096 bytes |
| QueryAnswers.PendingExactly | core/queries.go:43-138 | what is kept after any input is nothing or the start of a sequence that may be a query, described without the filter, and stays kept as it is |
| Layout.SplitSpec | core/layout.go:9-31 | a split puts the new pane right behind its target and changes nothing else; it fails exactly if there is no such leaf |
| LayoutShape.SplitReplaces | core/layout.go:9-31 | a split puts two halves in the given direction in the place and at the size of one leaf that shows its target, and changes nothing else |
| Layout.RemoveSpec | core/layout.go:33-67 | removing a pane removes exactly its leaves, in order, and collapses splits left with one child |
| LayoutShape.RemoveKeepsParting | core/layout.go:33-67 | after a removal any two other panes part in the same direction as before |
| LayoutShape.RemoveSizes | core/layout.go:52-65 | what is left takes the size of what it replaces, and no child is left without a size |
| Layout.ReplaceSpec | core/workspace_restart.go:31-43 | replacing an id replaces it in place |
| LayoutShape.ReplaceRelabels | core/workspace_restart.go:31-43 | and nothing else in the layout changes |
| Layout.AdjacentSpec | core/layout.go:146-200 | the pane chosen next to a given one is its neighbour among the leaves, and none exactly for the only pane |
| LayoutCheck.LayoutAccepted | core/layout.go:69-131 | a layout is accepted exactly if it is made of leaves and directed splits and its leaves are the tab's panes, each once; the kept form is well-formed with the same leaves and clamped sizes |
| LayoutCheck.LayoutKept | core/layout.go:85-131 | an accepted layout is kept with its leaves, splits and directions, each size below the top put between 5 and 95 |
| LayoutCheck.TotalIsPositive | core/layout.go:119-126 | the fallback to equal sizes is never used |
| Names.NameNumber | core/workspace.go:176-186 | a generated id is read back as its counter |
| Names.TrimSpec | core/workspace_actions.go:97 | trimming takes away exactly the white space at both ends |
| WorkspaceKeeps.ApplyKeeps | core/workspace_actions.go:9-43 | each of the 13 actions keeps the invariant: tabs partition the panes, each layout shows exactly its tab's panes, active pane and tab are live, at most two distinct live recents, ids below the counters |
| WorkspaceKeeps.RunKeeps | core/workspace_actions.go:9-348 | so does every sequence of actions, exits and removals |
| WorkspaceKeeps.CloseOtherTabsKeeps | core/workspace_actions.go:130-143 | closing the others leaves exactly the one tab, active |
| WorkspaceKeeps.AddTabKeeps | core/workspace_actions.go:55-64 | a new tab's id is fresh |
| WorkspaceEffects.FailureIsAtomic | core/workspace_actions.go:45-348 | a failed action changes nothing, except a used-up pane number or a layout already replaced |
| WorkspaceEffects.RefusedUpdate | core/workspace_actions.go:336-347 | an update refused for its active pane leaves the workspace as it was exactly if its layout, once checked, is the tab's own |
| WorkspaceEffects.RefusedUpdateReplacesLayout | core/workspace_actions.go:336-347 | the run on which a layout update fails and has exchanged two panes |
| WorkspaceEffects.ClosedPane | core/workspace_actions.go:185-208 | the other panes keep their order; the neighbour of a closed active pane becomes active |
| WorkspaceEffects.SplitEffect | core/workspace_actions.go:145-175 | the new pane is fresh, behind its target, active, and the fallback layout is never used |
| WorkspaceEffects.RestartEffect | core/workspace_restart.go:9-51 | a restarted pane takes a fresh id in the old one's place, and only an exited pane is restarted |
| WorkspaceEffects.MoveTabEffect | core/workspace_actions.go:246-274 | the tab stands where it was asked to, the others keep their order |
| WorkspaceEffects.ReorderEffect | core/workspace_actions.go:276-299 | the tab stands right before the given one, or last; nothing else changes |
| WorkspaceEffects.AddTabEffect | core/workspace_actions.go:68-90 | a new tab stands right behind its source, and is active |
| WorkspaceEffects.CloseTabEffect | core/workspace_actions.go:106-128 | a closed tab takes its panes with it, and which tab becomes active |
| WorkspaceEffects.ActivateEffect | core/workspace.go:134-164 | the recent tabs are the activated one and the one active before it |
| WorkspaceEffects.NeverReused | core/workspace.go:166-186 | a pane id that has gone never comes back |
| WorkspaceEffects.ExitEffect | core/workspace.go:209-240 | an exiting pane is kept exactly if it failed and was the last one |
| WorkspaceActions.ActivatePaneExactly | core/workspace_actions.go:321-332 | `activate_pane`: that pane is its tab's active one, that tab is active, the recent tabs are it and the one active before, and nothing else changes; fails exactly for a pane of no or another tab |
| WorkspaceActions.RenameExactly | core/workspace_actions.go:92-104 | `rename_tab`: the trimmed title, marked as custom, and nothing else; fails exactly for an empty one |
| WorkspaceActions.UpdateLayoutExactly | core/workspace_actions.go:334-348 | `update_layout`: accepted exactly if the layout has a proper shape, shows the tab's panes and names no stranger to activate; then that layout is kept and only a named pane activated |
| WorkspaceActions.MovePaneExactly | core/workspace_actions.go:210-244 | `move_pane_to_tab`: a new tab behind the source with that pane alone, its title and id; the others keep their order and arrangement, and a neighbour takes over if the pane was active |
| WorkspaceActions.ActivateTabExactly | core/workspace_actions.go:301-313 | `activate_tab`: the tab is active; the recent tabs are it and the one active before, or the first live one of those given |
| WorkspaceActions.CreateTabExactly | core/workspace_actions.go:45-66 | `create_tab`: a fresh pane in a fresh tab, its title, its place behind the source or else the active tab, active; a pane that does not start costs a number |
| WorkspaceActions.SplitExactly | core/workspace_actions.go:145-175 | `split_pane`: the failures, and otherwise a fresh pane beside the given one in half of its place, last in the list, active |
| WorkspaceActions.RestartExactly | core/workspace_restart.go:9-51 | `restart_pane`: the failures, and otherwise a fresh id in the old one's place in list and layout, active exactly if the old one was |
| WorkspaceActions.ClosePaneExactly | core/workspace_actions.go:177-208 | `close_pane`: the pane leaves its tab; the last one takes the tab with it |
| WorkspaceActions.CloseTabExactly | core/workspace_actions.go:106-128 | `close_tab`: exactly that tab and its panes are gone; the active and the recent tabs afterwards |
| WorkspaceActions.CloseOtherTabsExactly | core/workspace_actions.go:130-143 | `close_other_tabs`: that tab and its panes are left, active |
| WorkspaceActions.MoveTabExactly | core/workspace_actions.go:246-274 | `move_tab`: where the tab goes, and that it becomes active exactly if it moves |
| WorkspaceActions.ReorderExactly | core/workspace_actions.go:276-299 | `reorder_tab`: the failures, and otherwise the tab stands right before the given one or last, and nothing else changes |
| WorkspaceActions.UnknownTabExactly | core/workspace_actions.go:9-43 | an action on a tab that does not exist, or that is not known, fails and changes nothing |
| TerminalWorkspace.TerminalWorkspace.ApplyAction | core/workspace_actions.go:9-43 | the object carries out each action as specified and stays valid |
| TerminalWorkspace.TerminalWorkspace.CloseTab | core/workspace_actions.go:106-128 | the loops over panes and the choice of the next active tab |
| TerminalWorkspace.TerminalWorkspace.CloseOtherTabs | core/workspace_actions.go:130-143 | the loop from the last tab to the first |
| TerminalWorkspace.TerminalWorkspace.SetRecentTabs | core/workspace.go:123-132 | the loop that keeps the first two distinct live tabs |
| TerminalWorkspace.TerminalWorkspace.RestartExitedPane | core/workspace_restart.go:9-51 | the loop that replaces the id in the tab's list |
| TerminalWorkspace.TerminalWorkspace.RemovePaneAfterExit | core/workspace.go:231-240 | the first tab that has the pane loses it |
| TerminalWorkspace.TerminalWorkspace.RetainFailedFinalPane | core/workspace.go:209-229 | whether a failed pane is kept |
| RecoveryPath.NormalTwice | core/workspace_recovery.go:71-86 | normalising a directory twice is normalising it once exactly if the last part of the trimmed and resolved path does not end in white space |
| RecoveryPath.CleanIsClean | core/workspace_recovery.go:85 | cleaning an absolute path is idempotent |
| RecoveryPath.CleanRules | core/workspace_recovery.go:85 | what any absolute path is cleaned to, part by part: empty parts and "." vanish, ".." takes the part before it away, the root has no parent |
| RecoveryPath.NormalExactly | core/workspace_recovery.go:71-86 | which directories are cleaned, kept as they are, or dropped |
| WorkspaceRecovery.ValidateSpec | core/workspace_recovery.go:88-171 | the checks accept exactly the documents whose every tab fits, with distinct numeric ids, at most 64 tabs and 256 panes, and a live active tab and recents |
| WorkspaceRecovery.ValidExactly | core/workspace_recovery.go:88-171 | the same with the limits as numbers: version 1, 64 tabs, 256 panes, titles of 16 KiB, tokens of 128 bytes, layouts nested 32 deep |
| WorkspaceRecovery.ValidateDocument | core/workspace_recovery.go:88-151 | the loops of the check over tabs, panes and recent tabs |
| WorkspaceRecovery.RecoverWorkspace | core/workspace_recovery.go:173-235 | the loops that build the new workspace |
| RecoveryRoundTrip.RebuiltWorkspace | core/workspace_recovery.go:199-234 | a rebuilt workspace has the document's tabs, panes and active tab and counters above all ids, and satisfies the workspace invariant exactly if no layout hides anything inside a leaf |
| RecoveryRoundTrip.DocumentValid | core/workspace_recovery.go:42-69 | the document of a live workspace is valid exactly if it is within the limits and no directory's last part ends in white space |
| RecoveryInstances.RefusedDocument | core/workspace_recovery.go:121-124 | the run after which a healthy workspace's document is refused |
| RecoveryRoundTrip.RoundTrip | core/workspace_recovery.go:42-235 | saving and rebuilding gives back tabs, titles, layouts, pane order, active panes, active and recent tabs, each pane in its normalised directory (home if it has none), and the invariant |
| RecoveryInstances.HiddenPane | core/layout.go:25-29 | a valid document that, rebuilt and split, has a live active pane its layout shows nowhere |
| AdmissionLease.AdmissionIsSafe | clientruntime/managedruntime/manager.go:105-182 | in every interleaving, admission is open only on the startup or a renewal read after the latest pause and expiry, and then, until the loop ends, the lease timer is running or about to be noticed |
| AdmissionLease.RegistrationDecides | clientruntime/managedruntime/manager.go:168-180 | a finished registration leaves admission open exactly if it succeeded and nothing has stopped admission since its renewal was read |
| AdmissionLease.TimerFollows | clientruntime/managedruntime/manager.go:141-162 | when the lease runs, has run out or is stopped, and what registration is under way |
| AdmissionLease.AddressFollows | clientruntime/managedruntime/manager.go:163-167 | the gateway in use is that of the last renewal taken which named one with its credential |
| AdmissionLease.LeaseRuns | clientruntime/managedruntime/manager.go:113-182 | controls in flight are in reading order and carry the generation of their reading; at most four wait |
| AdmissionLease.LeaseGate.ReadControl | clientruntime/managedruntime/manager.go:121-127 | the reader's section |
| AdmissionLease.LeaseGate.FinishRegistration | clientruntime/managedruntime/manager.go:169-180 | the end of a registration |

## Left out

- QueueWriter.RunRound: takes the streams in any given order, uninterrupted; the interleaved round is `QueueRounds.OneTurnEach`.
- QueueWriter.RunTurn: works on an uninterrupted stream; the interleaved turn is `QueueTurns.TurnsAreBounded` and `QueueProgress.TurnSends`.
- QueueRounds.OneTurnEach: a round may visit the streams in any order; that the library's sort sorts, and a priority changed while it does, are not modelled. Which streams `ReplaceSubscriptions` adds and removes is a free choice.
- QueueRounds.NoLostWakeUp: speaks of a writer whose writes succeed; a failed write ends the broker.
- QueueStream.PaneStream.EnqueueText: takes the decoded control as a datatype and its encoded text as a parameter; JSON is not modelled.
- HistoryReplay.WriteHistoryReplay: does not model failing writes; a failed write ends the connection, which is a prefix of the frames.
- CheckpointBoundary.TerminalCheckpointEngine.Write: takes the outcome of the WASM parser as a parameter and stands for its memory by the bytes it has consumed; compression and hashing are left out.
- Subscriber.PaneClient.Enqueue: does not model the storage that coalesced payloads share or own.
- Subscriber.NeverStranded: speaks of messages that are not empty, because the code skips refilling the channel for an empty one, which no caller sends.
- TerminalPane.TerminalPane.AppendOutput: takes the output after the filters as its input; the echo filter and the directory filter are not modelled.
- PaneOutput.RetainedRun: speaks of runs in which the history limit is not changed; `TerminalPane.LimitExactly`, `TerminalPane.CaptureExactly` and `TerminalPane.AttachIsExact` say what a change, an output and an attach do in any state.
- TerminalWorkspace.TerminalWorkspace.ApplyAction: keeps tabs and layouts as values, so sharing of nodes between a tab and its request is not captured; a pane's directory and the label shown for it are inputs.
- Layout.RemoveSpec: sizes are real numbers and only carried along; rounding is not modelled.
- LayoutCheck.LayoutAccepted: layouts are values; the check returns the normalised layout instead of changing its argument.
- RecoveryPath.NormalTwice: paths of platforms whose absolute paths start with '/'; a pane's recovered directory is a parameter of the platform.
- WorkspaceRecovery.RecoverWorkspace: the processes of all panes start, or the recovery fails as a whole; closing the panes started before a failure is not modelled.
- Names.NameNumber: counters and ids are unbounded; the overflow of a 64-bit counter is not modelled.
- Cursors, sequences, epochs and generations are natural numbers; 64-bit wrap-around is not modelled.
- Time budgets (8 ms turns, 2 s waits, the 35 s lease) are free choices.
- WebSocket, HTTP, JSON, base64, gzip, PTY, process, SSH and file code, diagnostics, logging, theme colours and activity scanning.
- The heuristic echo filter, whose result depends on chunk boundaries, and the program-status scanner, a fold over bytes.
- An interleaving of other workspace actions between the two sections of a pane's exit is covered by the invariant, not by the effect stated for an undisturbed exit.
