# A model of the PTY manager

The repository keeps a pseudo-terminal process, shares its output out to any number of sessions,
and draws that output through a virtual DOM.  This project models its state machines and proves
what they keep, where they meet their promises, and exactly where they do not.

| file | models |
|---|---|
| `SessionTable.dfy`, `SessionMachine.dfy`, `Delivery.dfy`, `SessionSteps.dfy`, `Runs.dfy`, `Multiplexer.dfy` | the session multiplexer: its table, its interleaved steps, what single steps do to sessions, theorems about whole runs, and the object itself |
| `VirtualDom.dfy`, `TreeDiff.dfy`, `Patching.dfy`, `DiffLaws.dfy`, `Terminal.dfy`, `Rendering.dfy`, `PtyRendering.dfy` | trees, their diff, what applying a diff does and when it brings the new tree, the terminal attributes the renderer drives, the renderer and the PTY renderer with its cache |
| `CommandLoop.dfy` | the serial command loop, its queue and one-shot replies, and the client that closes or resizes the PTY |
| `LineEditor.dfy` | the byte-level line editor |
| `PathExpansion.dfy` | `expand_path` |
| `ControlSequences.dfy` | the printing of parsed control sequences |
| `Basics.dfy` | `Option`, `Result` and bytes |

How the outside world enters:

- A flush of the terminal may fail, and then delivers any part of what was written from its start.
  `Plan` lists the outcomes of the flushes to come, and every statement holds for every plan.
- The escape-sequence parser hands over numbers in 16 bits, nothing as zero, and collects a private
  marker first among the intermediates.
- Whether an operating-system call works, and when a client runs out of patience, is an argument of
  the step that meets it.
- Concurrency is a choice among enabled steps.  Locks do not admit their holder twice; each map
  operation and each lock acquisition is one atomic step.  Clones of a session share one output
  buffer, so a session holds a handle to it.
- Histories, chunk lists and counters in the session machine record the run; no step depends on them.

What the code does that its documentation does not say, each proved below:

- A merge with a live primary never returns: it waits for a lock it holds (`MergeSessions`,
  `MergeAlone`, `MergeNeverReturns`).
- A split loses what readers append to the old buffer after its output was copied, except for chunks
  whose snapshot held the new buffers as well (`SplitLoses`, `OrphanNeverRead`).
- The forced kill a failed or slow `close` falls back on cannot succeed (`KillAfterClose`,
  `EscalationNeverSucceeds`); after a failed `resize` it can, and then the resize reports success with
  the process dead (`ResizeSucceedsOrKills`, `ResizeKills`).
- After a close, session commands still write to the process, through the multiplexer's own copy of it
  (`ProcessGoneForever`).
- Applying the diff of two trees of one tag brings the new tree exactly when overlapping children and
  styles are equal and no prop is removed, but for nested appends and removals that balance
  (`ApplyDiffLaw`, `ApplyDiffExactly`, `NestedAccident`); a nested replacement always spoils it
  (`ReplaceMisses`), and a text root is never updated (`TextLaw`).
- After one failed flush `render` can report success on a stale root (`RenderCanDisagree`), and
  `AgreementExactly` says when.
- An erased character stays in the current word (`WordKeepsErased`); `InStepExactly` says for which
  streams the word is the tail of the line.
- `expand_path` fails on values that form references (`ChainedValue`), and `Expansion` says when.
- A private marker of a control sequence is printed behind the parameters (`ShowCursor`), and
  sub-parameters without a separator (`SubParametersCollide`); `ReprintedExactly` says which sequences
  are printed as they were received.
- A colour outside the eight named ones makes the look of a text depend on the order of a hash map
  (`OrderFreeExactly`).

## Model

| member | source | states |
|---|---|---|
| Delivery.StepKeeps | src/pty/multiplexer.rs:202-343 | every step of any task keeps the invariant: no session shares a buffer, each buffer's start and appended pieces are what was drained plus what it holds, and each chunk is in each snapshotted buffer once, after its append |
| Delivery.ReachableInv | src/pty/multiplexer.rs:114-140 | the invariant holds after every interleaving of any number of readers with the command loop |
| Delivery.AppendKeeps | src/pty/multiplexer.rs:450-468 | appending a chunk under one lock keeps conservation and exactly-once delivery while other steps are half done |
| Delivery.ReadKeeps | src/pty/multiplexer.rs:470-486 | a read with its snapshot keeps the invariant |
| Delivery.ReadPending | src/pty/multiplexer.rs:450-459 | right after a read its chunk is outstanding for exactly the live buffers, and nothing changes for earlier chunks |
| Delivery.AdvanceKeeps | src/pty/multiplexer.rs:245-343 | every single step inside a split or a merge keeps the invariant |
| Delivery.FinalWaits | src/pty/multiplexer.rs:275-279 | a merge that reaches its copy-back awaits the lock it holds |
| SessionSteps.DrainTakesAll | src/pty/multiplexer.rs:202-215 | after a drain the buffer is empty, what it held is the last drained, and every session, other buffer, reader and chunk is as before |
| SessionSteps.DrainTwice | src/pty/multiplexer.rs:202-215 | a second drain right after the first takes nothing |
| SessionSteps.DrainUnknown | src/pty/multiplexer.rs:202-215 | draining an unknown id changes nothing |
| SessionSteps.RemoveTakesOne | src/pty/multiplexer.rs:232-242 | exactly the removed id is gone; buffers stay |
| SessionSteps.CloseTakesAll | src/pty/multiplexer.rs:397-401 | no id is left |
| SessionSteps.SendReachesOne | src/pty/multiplexer.rs:164-183 | exactly the addressed input is longer, by the new data at its end |
| SessionSteps.SendUnknown | src/pty/multiplexer.rs:178-182 | sending to an unknown id changes nothing |
| SessionSteps.BroadcastReachesAll | src/pty/multiplexer.rs:186-199 | every input is longer by the new data at its end, and nothing else changes |
| SessionSteps.NewId | src/pty/multiplexer.rs:145-149 | a new id is 1 in an empty table, otherwise one more than the largest, in 32 bits |
| SessionSteps.CreateAddsOne | src/pty/multiplexer.rs:145-161 | a created session is empty, under that id, with a buffer of its own; all others stay |
| SessionSteps.ReadMarksAll | src/pty/multiplexer.rs:450-459 | a read chunk is outstanding for the buffer of every session and for no other |
| SessionSteps.AppendAddsChunk | src/pty/multiplexer.rs:460-466 | an append puts the whole chunk at the end of one buffer and touches nothing else |
| SessionSteps.LockKeepsReadersOut | src/pty/multiplexer.rs:270-272 | a merge that holds the primary's lock keeps readers from that buffer and from no other |
| SessionSteps.CommandsAreSerial | src/pty/command_handler.rs:66-155 | no command begins while one is under way, and without one every outstanding append can run |
| SessionSteps.DispatchReachesAll | src/pty/multiplexer.rs:450-468 | a dispatched chunk is at the end of every session's output |
| SessionSteps.ClearEmpties | src/pty/multiplexer.rs:202-210 | emptying one session's buffer leaves all other outputs as they are |
| SessionSteps.MeasureIsHalf | src/pty/multiplexer.rs:298-302 | a split measures the middle of the output as it is at that moment |
| SessionSteps.LiveOutputsInOrder | src/pty/multiplexer.rs:262-273 | the outputs a merge appends stand in the order of its list |
| Runs.OneReaderDelivery | src/pty/multiplexer.rs:450-486 | with one reader and no merge, drained bytes followed by the buffer are the start followed by exactly the chunks whose snapshot held the buffer and whose append has run, in read order, over every interleaving including splits |
| Runs.EqualShares | src/pty/handle.rs:173-194 | with several readers, buffers in the same snapshots hold equal multisets of whole chunks, each exactly once, when no append is outstanding |
| Runs.DispatchAlone | src/pty/multiplexer.rs:450-468 | a reader's uninterrupted appends, in any order, add up to one `Dispatch` of the table |
| Runs.SplitInRange | src/pty/multiplexer.rs:300-311 | in no run does a split slice out of range |
| Runs.ForeignDrainPanics | src/pty/multiplexer.rs:300-311 | a drain between the measuring and the slicing, which only the serial command loop rules out, would slice out of range |
| Runs.SplitConserves | src/pty/multiplexer.rs:300-341 | whatever appends fall in between, before the removal two sessions with consecutive ids own buffers that started with the two halves of the output at the last capture |
| Runs.SplitLoses | src/pty/multiplexer.rs:308-342 | after the removal the old buffer is no session's; since the last capture it has gained exactly what readers appended to it; of all chunks the new buffers hold exactly those whose snapshots held them and whose appends have run, and none that was read before the capture |
| Runs.OrphanNeverRead | src/pty/multiplexer.rs:202-215 | what is in a buffer no session has is never drained, moved or given to a session again, over every continuation |
| Runs.SplitAlone | src/pty/multiplexer.rs:288-343 | uninterrupted, the seven steps of a split make of the table what `Split` says |
| Runs.MergeNeverReturns | src/pty/multiplexer.rs:267-279 | once a merge with a live primary has begun, in every continuation the command loop is still in it and nothing but it and the readers runs |
| Runs.MergeReachesSelfWait | src/pty/multiplexer.rs:267-279 | left alone, such a merge arrives in finitely many steps at a lock it holds itself, all appends up to there done |
| Runs.MergeAlone | src/pty/multiplexer.rs:245-285 | from any state and for any ids with a live first one, the merge makes of sessions and outputs what `Merged` describes, the primary's input unchanged, and waits for itself |
| Runs.IdsOverRuns | src/pty/multiplexer.rs:145-161 | while creates plus twice the splits stay below 2^32, every key is its session's own id and none exceeds that sum |
| Runs.InsertsOverwriteNothing | src/pty/multiplexer.rs:313-337 | every insertion, also inside a split under interleaving, gets an id above all ids in the table and leaves all sessions as they were |
| SessionTable.NextIdFresh | src/pty/multiplexer.rs:146-149 | below the 32-bit limit a new id exceeds every id in use |
| SessionTable.MergeEffect | src/pty/multiplexer.rs:261-274 | distinct ids: the primary's output gains the live listed outputs in list order, exactly the other listed ids leave the table, missing ids are skipped, all else is untouched |
| SessionTable.CollectRemoves | src/pty/multiplexer.rs:261-266 | exactly the listed ids leave the table, and only sessions of the table are collected, whether or not ids repeat |
| SessionTable.SplitEffect | src/pty/multiplexer.rs:298-342 | the two new sessions share out the input and the output of the old one, which goes; all others keep theirs |
| SessionTable.SplitIdsFresh | src/pty/multiplexer.rs:313-325 | below the limit both ids of a split are unused and differ |
| SessionTable.SplitThenMerge | src/pty/multiplexer.rs:261-342 | appending the second half of a split to the first restores the output, not the input, and leaves the other sessions alone |
| Multiplexer.PtyMultiplexer.CreateSession | src/pty/multiplexer.rs:145-161 | a session with empty buffers under the next id; nothing is written |
| Multiplexer.PtyMultiplexer.SendToSession | src/pty/multiplexer.rs:164-183 | the input is logged before the write, so it stays logged when the write fails; an unknown id changes nothing |
| Multiplexer.PtyMultiplexer.BroadcastData | src/pty/multiplexer.rs:186-199 | every session's input gains the data, the process gets it once |
| Multiplexer.PtyMultiplexer.ReadFromSession | src/pty/multiplexer.rs:202-215 | the whole buffer is returned and emptied, no other buffer changes |
| Multiplexer.PtyMultiplexer.ReadAllSessions | src/pty/multiplexer.rs:218-229 | every session exactly once with its output, nothing drained |
| Multiplexer.PtyMultiplexer.RemoveSession | src/pty/multiplexer.rs:232-242 | the session goes, or an error for an unknown id |
| Multiplexer.PtyMultiplexer.MergeSessions | src/pty/multiplexer.rs:245-285 | for every table and list of ids: refused without effect on an empty list or a missing primary, otherwise it never returns, with the table as far as `Merged` |
| Multiplexer.PtyMultiplexer.SplitSession | src/pty/multiplexer.rs:288-343 | the table becomes `Split` of it and the two ids are returned, or an error without effect |
| Multiplexer.PtyMultiplexer.DispatchOutput | src/pty/multiplexer.rs:450-468 | every live buffer gains the chunk once, whatever the order |
| Multiplexer.PtyMultiplexer.ReadAndDispatch | src/pty/multiplexer.rs:470-486 | only a read that brings bytes is dispatched; no data yet is no error |
| Multiplexer.PtyMultiplexer.CloseAllSessions | src/pty/multiplexer.rs:397-401 | the table is empty |
| Multiplexer.PrimaryStays | src/pty/multiplexer.rs:262-275 | unless the primary's own buffer was collected, the primary is still in the table when the copy-back looks for it |
| CommandLoop.StepKeeps | src/pty/command_handler.rs:66-155 | every step of loop, queue and clients keeps reply order, the process lifecycle and what a closing client may conclude |
| CommandLoop.AnsweredInOrder | src/pty/command_handler.rs:66-155 | in every run the answers carry the tickets 0, 1, 2 and so on, none twice and none skipped, a shutdown is the last, and a running loop still queues all the rest |
| CommandLoop.ProcessGoneForever | src/pty/command_handler.rs:594-649 | a process once taken never comes back to the handler, and the calls after that are exactly the writes of the session commands served, which go through the multiplexer's copy (src/pty/multiplexer.rs:169-174, 191-196) |
| CommandLoop.RefusedAfterTaking | src/pty/command_handler.rs:594-672 | after a command that took the process it was signalled, waited for and closed, with only writes of session commands since; all later commands for the handler's copy fail except closing and shutting down, which succeed |
| CommandLoop.FirstTakerEnds | src/pty/command_handler.rs:594-653 | in every run the first command answered that takes the process decides the three calls that end it: signal 15, wait with option 1 and close for a close or a shutdown, signal 9, wait with option 0 and close for a forced kill; after them come only writes of session commands |
| CommandLoop.OwnCall | src/pty/command_handler.rs:417-798 | with the process present, any other command for it makes one call: a kill with its own signal, a wait with its own options, or its own |
| CommandLoop.OneReply | src/pty/command_handler.rs:417-1277 | the kind of every reply, its ticket, and that exactly closing, killing and shutting down leave no process and exactly a shutdown stops the loop |
| CommandLoop.WhoNeedsProcess | src/pty/command_handler.rs:171-1277 | exactly the session commands, closing and shutting down are answered alike with and without the process |
| CommandLoop.SessionReach | src/pty/multiplexer.rs:164-199 | exactly a broadcast and a send to a session write to the process beside the handler, unless refused |
| CommandLoop.ServesFirst | src/pty/command_handler.rs:66-155 | the command that waits longest is served; a shutdown drops all behind it |
| CommandLoop.NobodyIsStuck | src/pty/command_handler.rs:58-155 | a running loop with work goes on, and a client's wait ends exactly with the answer to its ticket or when that was dropped |
| CommandLoop.ServeAllIsRun | src/pty/command_handler.rs:58-155 | the loop over a queue is a run of the system from the queue's front, to its end or to a shutdown or a hanging merge |
| CommandLoop.HangsUnanswered | src/pty/command_handler.rs:1000-1031 | only a merge hangs, and then it is never answered; a merge never succeeds |
| CommandLoop.ReplyDecides | src/pty/handle.rs:436-466 | success of the reply is success of the operation, failure sends a forced kill, a dropped reply is an error |
| CommandLoop.PatienceDecides | src/pty/handle.rs:454-458 | when time runs out, a forced kill is sent; when it was the kill that took too long, the operation fails |
| CommandLoop.KillDecides | src/pty/handle.rs:486-517 | an escalated operation reports what its kill reports |
| CommandLoop.CallSends | src/pty/handle.rs:421-434 | a call sends its command behind all that wait, and fails when the loop is gone |
| CommandLoop.QueueBound | src/pty/handle.rs:111-112 | a hundred commands may wait; then senders wait too |
| CommandLoop.KillAfterClose | src/pty/command_handler.rs:637-672 | a forced kill behind a close is answered with failure whenever it is answered |
| CommandLoop.CloseSucceedsOnlyInTime | src/pty/handle.rs:421-467 | `close` reports success only if the close command itself was answered with success and no kill was tried |
| CommandLoop.ResizeSucceedsOrKills | src/pty/handle.rs:269-314 | `resize` reports success only if the resize was answered with success, or else its kill was the first command to take the process, which is ended |
| CommandLoop.ResizeKills | src/pty/handle.rs:289-305 | a run in which the resize fails, the kill works and the client is told of success |
| CommandLoop.EscalationNeverSucceeds | src/pty/handle.rs:442-518 | once a close has escalated, no continuation turns it into a success |
| CommandLoop.CommandHandler.HandleClose | src/pty/command_handler.rs:594-624 | takes the process, signals SIGTERM, waits without hanging, closes; success when there is none |
| CommandLoop.CommandHandler.HandleForceKill | src/pty/command_handler.rs:637-672 | takes the process, signals SIGKILL, waits, closes; failure when there is none |
| CommandLoop.CommandHandler.HandleShutdownPty | src/pty/command_handler.rs:1247-1277 | as a close; the loop stops afterwards |
| CommandLoop.CommandHandler.HandleProcessCommand | src/pty/command_handler.rs:417-798 | one call to the process and its reply, or failure when the process is gone |
| CommandLoop.CommandHandler.HandleSessionCommand | src/pty/command_handler.rs:811-1071 | a reply, after the write to the process that a broadcast or a send to a session makes; a merge that hangs hangs the loop |
| CommandLoop.CommandHandler.HandleCommands | src/pty/command_handler.rs:66-155 | the loop serves the queue in order up to a shutdown or a hung merge |
| TreeDiff.DiffComplete | src/virtual_dom/diff.rs:40-85 | the diff is the single no-op exactly for equal trees; otherwise it is non-empty and free of no-ops, so the final retaining removes nothing |
| TreeDiff.ChildrenComplete | src/virtual_dom/diff.rs:118-144 | the children's diff is free of no-ops and empty exactly for equal lists |
| TreeDiff.PropChangesExact | src/virtual_dom/diff.rs:88-115 | the prop diff names exactly the keys on which the maps disagree, with an empty string for removed ones |
| TreeDiff.DiffFromNew | src/virtual_dom/diff.rs:40-144 | for all trees, every text, node or child a patch carries is one of the new tree |
| TreeDiff.DiffNodes | src/virtual_dom/diff.rs:40-85 | the pushing code computes `Diff`, about which the laws here are proved |
| TreeDiff.DiffElements | src/virtual_dom/diff.rs:57-76 | for one tag it pushes the prop patch, the style patch and the children's patches, each only when there is one |
| TreeDiff.DiffProps | src/virtual_dom/diff.rs:88-115 | the two loops over hash maps compute the prop diff in whatever order they go |
| TreeDiff.DiffChildNodes | src/virtual_dom/diff.rs:118-144 | the three loops compute overlap, appends and right-to-left removals |
| TreeDiff.DiffOverlapping | src/virtual_dom/diff.rs:123-129 | the loop over the overlap concatenates the diffs of exactly the pairs that differ |
| DiffLaws.ApplyDiffLaw | src/virtual_dom/renderer.rs:215-255 | same tag: with equal overlapping children, equal styles and no prop key removed, only a failing flush stops the patches from bringing the new tree; otherwise no plan makes them bring it, unless nested appends and removals balance; with overlapping children of the same shapes the outcome is stated outright |
| DiffLaws.ApplyDiffExactly | src/virtual_dom/renderer.rs:215-255 | so for all trees of one tag but those with balanced nested changes of shape, applying the diff works if and only if that condition holds |
| DiffLaws.ReplaceMisses | src/virtual_dom/diff.rs:123-129 | a replacement anywhere among the patches for overlapping children, at any depth and whatever else changes: the outcome is never the new tree |
| DiffLaws.SuccessNeeds | src/virtual_dom/renderer.rs:215-255 | for all trees of one tag and every plan, a success needs no nested replacement, nested appends and removals in balance, equal styles, no prop removed and no nested prop change showing at the root |
| DiffLaws.WithoutReplace | src/virtual_dom/renderer.rs:233-249 | without a replacement the root keeps its tag and styles, gets exactly the props the patches add up to, and as many children as are appended and not removed |
| DiffLaws.DiffFits | src/virtual_dom/diff.rs:40-85 | no patch of a diff brings a node larger than the new tree, and appended nodes are smaller |
| Patching.DiffBrings | src/virtual_dom/diff.rs:61-76 | where the diff leads: old tag and styles, old props overlaid with the changes, children beyond the overlap as in the new tree |
| Patching.EqualOverlapProps | src/virtual_dom/diff.rs:61-73 | with equal overlapping children the props are the old ones overlaid with the prop diff and then the style diff |
| Patching.FlushCounts | src/virtual_dom/renderer.rs:272-349 | a text and a content are flushed once each, anything else as its children are |
| Patching.FlushesSplit | src/virtual_dom/renderer.rs:342-347 | lists of nodes are flushed one after the other |
| Patching.AppliedExactly | src/virtual_dom/renderer.rs:508-527 | when that outcome equals the new tree, in both directions |
| Patching.RemovalsBring | src/virtual_dom/renderer.rs:576-601 | removals from right to left never leave the bounds and cut off exactly the tail |
| Patching.AppendsBring | src/virtual_dom/renderer.rs:546-558 | appends add the new children in order |
| DiffLaws.ReplaceLaw | src/virtual_dom/renderer.rs:231-238 | another kind or tag always makes the root the new tree, even when a flush fails |
| DiffLaws.TextLaw | src/virtual_dom/renderer.rs:475-489 | a text root is never updated: its patch is refused |
| DiffLaws.TextBrings | src/virtual_dom/diff.rs:49-53 | the patch between two texts sets an element's content to the new text |
| DiffLaws.NestedText | src/virtual_dom/diff.rs:123-129 | a text that changes below an element lands in the element's own content, and the child keeps its old text |
| DiffLaws.TextRootRefuses | src/virtual_dom/renderer.rs:475-601 | a text root refuses every patch but a replacement and stays as it is |
| DiffLaws.RemovalRefused | src/virtual_dom/renderer.rs:576-601 | a removal beyond the last child is an error and changes nothing |
| DiffLaws.FailedFlush | src/virtual_dom/renderer.rs:475-601 | what a failing flush leaves of the tree, patch by patch |
| DiffLaws.ContentNeedsTwoFlushes | src/virtual_dom/renderer.rs:475-489 | a new content is set only after both of its flushes have worked |
| DiffLaws.NestedReplace | src/virtual_dom/diff.rs:123-129 | the plainest case: an only child that changes kind or tag takes the place of the whole tree |
| DiffLaws.NestedAccident | src/virtual_dom/diff.rs:123-129 | a balanced change: two nested patches of shape hit the root and nevertheless bring the new tree |
| DiffLaws.RemovalsInBounds | src/virtual_dom/diff.rs:139-141 | for any number of children the removals stay in bounds and leave the right number |
| DiffLaws.CutIndex | src/virtual_dom/renderer.rs:215-226 | with 2^32 + 1 children the removal index is cut to 32 bits and the first child goes instead of the last |
| Rendering.Renderer.ApplyPatches | src/virtual_dom/renderer.rs:215-255 | the loop over patches does to root and flushes what `ApplyAll` says, up to the first error |
| Rendering.Renderer.Render | src/virtual_dom/renderer.rs:183-198 | success leaves exactly the new tree whatever the patches did; an error leaves what the patches made of the root |
| Rendering.Renderer.RenderNode | src/virtual_dom/renderer.rs:272-279 | from default attributes, text without ESC is shown in tree order and the attributes end up default; when a flush fails on the way, whatever part of the output it delivered, the text shown is a part of that from its start |
| Rendering.Renderer.RenderElement | src/virtual_dom/renderer.rs:327-349 | the same for elements: a text element shows its content and not its children |
| Rendering.Renderer.RenderNodes | src/virtual_dom/renderer.rs:342-347 | the children in order, up to the first failure |
| Rendering.StyledPart | src/virtual_dom/renderer.rs:330-337 | cut anywhere, the output of a styled text shows a part of the text from its start |
| Rendering.ShownKinds | src/virtual_dom/renderer.rs:272-349 | a text shows itself, a "text" element its "content" and no children, any other element its children |
| Rendering.ShownSplit | src/virtual_dom/renderer.rs:342-347 | what two lists of nodes show stands side by side, in their order |
| Rendering.FixedSequences | src/virtual_dom/renderer.rs:333-450 | the closing reset and the clearing sequence, character by character |
| Rendering.Renderer.RenderAll | src/virtual_dom/renderer.rs:615-619 | the screen is cleared and shows exactly the text of the root, with the named styles' looks |
| Rendering.Renderer.UpdateTextPatch | src/virtual_dom/renderer.rs:475-489 | the content prop is set after both flushes; a text node is refused |
| Rendering.Renderer.UpdatePropsPatch | src/virtual_dom/renderer.rs:508-527 | the props are changed before the flush, so they stay changed when it fails |
| Rendering.Renderer.AppendChildPatch | src/virtual_dom/renderer.rs:546-558 | the child is rendered first and appended only if that works |
| Rendering.Renderer.RemoveChildPatch | src/virtual_dom/renderer.rs:576-601 | the child goes before the screen is redrawn; an index out of bounds is refused |
| Rendering.Renderer.ClearScreen | src/virtual_dom/renderer.rs:443-457 | the clear sequence is written and flushed once |
| Rendering.FeedClear | src/virtual_dom/renderer.rs:443-457 | a terminal empties its screen on the clear sequence and keeps its attributes |
| Terminal.FeedEntry | src/virtual_dom/renderer.rs:369-404 | a terminal reads the code of a style entry as that entry's effect on its attributes (section 8.3.117 of ECMA-48) |
| Terminal.NamedColour | src/virtual_dom/renderer.rs:371-398 | the eight names in their order are emitted as 30 to 37 and 40 to 47, and the terminal sets exactly that colour |
| Terminal.OtherColour | src/virtual_dom/renderer.rs:381-398 | any other name is emitted as 0 and resets everything |
| Terminal.Switches | src/virtual_dom/renderer.rs:399-402 | bold, italic, underline and strikethrough are emitted as 1, 3, 4 and 9 for the value "true" and set exactly that attribute; other values emit nothing |
| Terminal.OtherEntry | src/virtual_dom/renderer.rs:403 | any other style emits nothing |
| Terminal.FeedCodes | src/virtual_dom/renderer.rs:366-408 | a terminal reads the codes of all entries as the composition of their effects in emission order |
| Terminal.EffectsAreStyled | src/virtual_dom/renderer.rs:366-408 | with named colours that composition depends only on which entries were emitted |
| Terminal.NamedOrderFree | src/virtual_dom/renderer.rs:366-408 | with named colours every order of the map's entries leaves the terminal in the same state |
| Terminal.OrderFreeExactly | src/virtual_dom/renderer.rs:366-408 | the order matters exactly when an entry with an unnamed colour meets one that sets an attribute |
| Terminal.ApplyStyles | src/virtual_dom/renderer.rs:366-408 | the loop emits each entry's code once, in some order of the map |
| PtyRendering.AgreementExactly | src/pty/pty_renderer.rs:66-85 | for every run and every flush failure, cache and root agree exactly when the last call for another text was no `render` with a failed flush |
| PtyRendering.ServeReached | src/pty/pty_renderer.rs:66-85 | one call from a reached state: an unchanged text does nothing, another text changes the root even when its flush fails |
| PtyRendering.HandleOutputAgrees | src/pty/pty_renderer.rs:200-223 | with `handle_output` alone cache and root agree after every run, whatever the flushes do |
| PtyRendering.FaultlessAgrees | src/pty/pty_renderer.rs:66-126 | without a failing flush they agree after every run of any calls |
| PtyRendering.RenderCanDisagree | src/pty/pty_renderer.rs:66-85 | three renders, the second with a failing flush: the third reports success and leaves the wrong text |
| PtyRendering.TextDiff | src/pty/pty_renderer.rs:69-80 | two different screen texts differ by one patch of the content |
| PtyRendering.ContentShown | src/pty/pty_renderer.rs:66-75 | the tree for a screen text shows exactly that text, unstyled |
| PtyRendering.PtyRenderer.RenderText | src/pty/pty_renderer.rs:66-85 | an error returns before the cache is updated |
| PtyRendering.PtyRenderer.HandleOutputText | src/pty/pty_renderer.rs:200-223 | an error is swallowed and the cache updated all the same |
| LineEditor.LinesRefineEditing | src/utils/ascii_parser.rs:109-241 | for every stream and tab width all visible state is told from the stream: the line buffer is the list of non-empty edited lines since the last form feed, the current line the edited tail, the column its length less what a carriage return left behind, and the word what was typed since the last space or the last break that ended a non-empty line |
| LineEditor.WordStartIsLast | src/utils/ascii_parser.rs:229-241 | that word starts right after such an end, or with the stream, and holds none |
| LineEditor.PlainStack | src/utils/ascii_parser.rs:147-219 | without a carriage return editing is a plain stack: backspace and delete pop, a tab pads to the next multiple |
| LineEditor.StretchesCover | src/utils/ascii_parser.rs:164-173 | cutting at LF and VT loses nothing and leaves no break inside a stretch |
| LineEditor.ColumnBound | src/utils/ascii_parser.rs:140-227 | over every run the column never passes the end of the current line, whose characters are printable, and meets it when no carriage return came since the last break |
| LineEditor.BufferedLines | src/utils/ascii_parser.rs:235-241 | no recorded line is empty or holds anything but printable ASCII |
| LineEditor.PassThrough | src/utils/ascii_parser.rs:140-227 | the handler gets exactly the input with VT replaced by LF |
| LineEditor.RunSplit | src/utils/ascii_parser.rs:109-113 | a stream in two chunks gives the state and output of the whole stream |
| LineEditor.QuietBytes | src/utils/ascii_parser.rs:140-198 | 0x07 and 0x1B change nothing, 0x0D only the column |
| LineEditor.EraseBytes | src/utils/ascii_parser.rs:147-206 | 0x08 and 0x7F take the last character, the first of them unless the column is zero |
| LineEditor.BreakBytes | src/utils/ascii_parser.rs:164-241 | 0x0A and 0x0B record the line behind the others and are handed on as 0x0A, 0x0C drops what was recorded |
| LineEditor.TabByte | src/utils/ascii_parser.rs:157-162 | 0x09 adds spaces up to the next multiple of the width, at least one |
| LineEditor.TextBytes | src/utils/ascii_parser.rs:187-227 | 0x20 to 0x7E are added as characters, 0x1A adds `^Z`, every byte left adds a question mark |
| LineEditor.WordStep | src/utils/ascii_parser.rs:140-227 | from a state whose word is the tail of the line, one byte keeps it so if and only if it is safe, erases nothing, erases a space with no word before it, or is a tab with no word under way |
| LineEditor.InStepExactly | src/utils/ascii_parser.rs:109-241 | for every stream the word is the tail of the line after every prefix if and only if every byte meets a state in which it is such a byte |
| LineEditor.AlwaysIsPrefixes | src/utils/ascii_parser.rs:109-113 | that statement speaks of the parser's state after each prefix |
| LineEditor.WordIsTail | src/utils/ascii_parser.rs:208-233 | so on streams of printable bytes, LF, VT, FF, CR, BEL and ESC, for any tab width, the word is the last word of the current line |
| LineEditor.LastWordIsLongest | src/utils/ascii_parser.rs:208-233 | that last word is the longest space-free suffix |
| LineEditor.WordKeepsErased | src/utils/ascii_parser.rs:147-155 | a backspace takes the character from the line and leaves it in the word, which then is not the tail of the line; on an empty line even a line break does not clear it |
| LineEditor.AsciiParser.ProcessBytes | src/utils/ascii_parser.rs:109-113 | the loop over a chunk is `Run` on the parser's state |
| LineEditor.AsciiParser.ProcessByte | src/utils/ascii_parser.rs:116-136 | the dispatch to the handlers is one `Step` |
| LineEditor.AsciiParser.HandleTab | src/utils/ascii_parser.rs:157-162 | the column becomes the next multiple of the tab width |
| LineEditor.AsciiParser.HandleBackspace | src/utils/ascii_parser.rs:147-155 | one character goes unless the column is zero |
| LineEditor.AsciiParser.HandleDelete | src/utils/ascii_parser.rs:200-206 | one character goes even when the column is zero |
| LineEditor.AsciiParser.HandleLinefeed | src/utils/ascii_parser.rs:164-169 | the line is recorded if it is not empty and the column restarts |
| LineEditor.AsciiParser.HandleFormFeed | src/utils/ascii_parser.rs:175-180 | all recorded lines go |
| LineEditor.AsciiParser.Clear | src/utils/ascii_parser.rs:264-269 | a fresh parser; what was handed on stays handed on |
| PathExpansion.ExpandPath | src/path/mod.rs:295-352 | for every path and environment the in-place replacements give the simultaneous substitution exactly when every referenced variable is set and no reference is left in it, and an error otherwise |
| PathExpansion.PlainValues | src/path/mod.rs:295-352 | with no stray `$` in the tilde-expanded path and none in the values the result is the substitution exactly when all variables are set |
| PathExpansion.OneReference | src/path/mod.rs:311-350 | a path around `${name}` gets the named variable's value in its place, and is an error when it is not set |
| PathExpansion.TildeFirst | src/path/mod.rs:297-308 | a leading tilde becomes the home directory in front of the rest, and is an error without one |
| PathExpansion.PlainPath | src/path/mod.rs:295-352 | a path without tilde and dollar expands to itself |
| PathExpansion.SideBySide | src/path/mod.rs:335-340 | several references are replaced each in its place: what follows does not disturb what stands before |
| PathExpansion.ParseComplete | src/path/mod.rs:311-316 | cutting a path at its references loses no text and misses no reference |
| PathExpansion.CountReplace | src/path/mod.rs:335-340 | replacing one reference by any text removes at most that one |
| PathExpansion.NoOverlap | src/path/mod.rs:336 | references do not overlap, so a search cannot hit the middle of one |
| PathExpansion.Iterate | src/path/mod.rs:335-340 | one in-place replacement keeps the loop on the way to the substitution, or keeps a reference that makes the final test fail |
| PathExpansion.ExpandTwice | src/path/mod.rs:295-352 | an expanded path without a leading tilde expands to itself |
| PathExpansion.ChainedValue | src/path/mod.rs:335-349 | a value that is itself a reference makes expansion fail although every variable is set |
| ControlSequences.DecodePrinted | src/utils/ansi_parser.rs:38-60 | a decoder recovers the digits of every parameter, the intermediates with a private marker among them, and the final byte (section 5.4 of ECMA-48) |
| ControlSequences.DecodeParameters | src/utils/ansi_parser.rs:38-60 | with one sub-parameter each, the parameters themselves are recovered |
| ControlSequences.PrintedAlike | src/utils/ansi_parser.rs:38-91 | two sequences are printed alike if and only if they agree on introducer, digits of each parameter, intermediates and final byte |
| ControlSequences.Frame | src/utils/ansi_parser.rs:38-91 | every printed sequence starts with 0x1B and 0x5B or 0x50 and ends in its intermediates and the low eight bits of its final character |
| ControlSequences.PrintedBytes | src/utils/ansi_parser.rs:38-91 | a control sequence and a device control string, byte by byte |
| ControlSequences.SubParametersCollide | src/utils/ansi_parser.rs:50-53 | two sub-parameters are printed like one longer number |
| ControlSequences.ReprintedExactly | src/utils/ansi_parser.rs:38-60 | a received sequence is printed as received if and only if it has no private marker and each parameter is one number, neither left out nor with leading zeros nor beyond 16 bits |
| ControlSequences.MarkerMoves | src/utils/ansi_parser.rs:55-58 | a private marker is printed behind the parameters |
| ControlSequences.ShowCursor | src/utils/ansi_parser.rs:38-60 | `ESC [ ? 25 h` is printed as `ESC [ 25 ? h` |
| ControlSequences.PrintParams | src/utils/ansi_parser.rs:46-54 | the nested loops join the fields with semicolons |
| ControlSequences.AnsiParser.CsiDispatch | src/utils/ansi_parser.rs:38-60 | the handler gets the printed sequence and nothing else |
| ControlSequences.AnsiParser.Hook | src/utils/ansi_parser.rs:74-91 | the same for device control strings |

## Left out

- ApplyDiffLaw: where nested appends and removals balance and nothing nested is replaced, only `SuccessNeeds` is proved, not an exact condition; `NestedAccident` shows that such a diff can work.
- DiffBrings: covers overlapping children of the same shapes, the only ones for which the outcome is stated outright.
- RemovalsBring: more than 2^32 children are outside the law and outside `ApplyDiffLaw`; `RemovalsInBounds` and `CutIndex` say what happens there.
- OneReaderDelivery: runs with a merge are outside, as spliced bytes then stand between chunks; `StepKeeps` still gives conservation and exactly-once delivery for them.
- ReadAndDispatch: the bytes of a read are given; the retry delay of the background loop and its end at shutdown, which may cut a dispatch short, are not modelled.
- NextIdFresh: beyond 2^32 ids the model wraps as a release build does; a debug build would panic.
- HandleTab: a tab width of zero, where the source divides by zero, is excluded; so it is in `InStepExactly`.
- HandleSessionCommand: whether the multiplexer refuses, works or hangs is an argument, and replies carry no data; the effects are in the multiplexer's own model, which proves that a merge is refused or hangs.
- ReprintedExactly: the parser's limits on the numbers of parameters and intermediates, beyond which it drops some and sets a flag the source ignores, are not modelled.
- The texts of replies, and the reply texts a client parses back: `PtyHandle::create_session` expects a bare number where the loop answers `Session ID: n`.
- The methods of `PtyHandle` other than `close`, `resize` and `force_kill`: they send one command and await one reply without escalating, and add only easy members; so do the worker and the N-API glue.
- Reads by the background tasks are not among the calls the command loop records.
- Output that the standard library writes before a flush, and its panic when that fails: a flush is where output reaches the terminal.
- Fairness of the scheduler, and the locks inside the concurrent map: its operations are atomic steps.
- Decoding of bytes to text: the PTY renderer and `expand_path` work on decoded text, and environment variables that are not valid text count as unset.
- The regular expression's word characters are a parameter, any set without `$`, `{` and `}`.
- The bell callback, listeners, key events, OSC strings and single printed characters.
- `find`, `clone_subtree` and `merge` of a virtual node, descriptions of patches: short structural code without a harder property.
- The screen contents after incremental patches: lines of props appear in hash order; only whole renders are described.
- Machine-width overflow of columns and buffer lengths.
- Process spawning, signals, window sizes and device files; shells, environment lookups and logging.
