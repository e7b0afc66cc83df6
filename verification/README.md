# Terminal presentation, scheduling and protocol parsing, verified

This project models the parts of Lector that stand between terminal programs and the
physical terminal, and proves that they keep their promises on every input.

* **Output scheduler** (`SchedulerSteps`, `SchedulerInvariant`, `SchedulerQueueing`,
  `SchedulerDraining`, `SchedulerHistory`, `SchedulerTheorems`, `SchedulerTimeliness`,
  `SchedulerLimits`, `SchedulerDrainLaws`, `SchedulerDeadlines`, `SchedulerQueueLaws`,
  `EffectHistory`, `EffectEncoding`, `MarkerStripping`, `OutputScheduler`). The class
  `OutputScheduler` performs in place the steps of a state machine over queues, partial writes,
  flush fences, replaceable renders and tokens. A history beside the state says what the writer
  accepted and flushed; a run is any sequence of operations with any writer behaviour.
* **VT renderer** (`Grid`, `VtMachine`, `Simulation`, `SceneOperations`, `SceneSimulation`,
  `RegionLimit`, `CellRanges`, `Rendering`, `IncrementalRendering`, `SemanticRendering`). The
  renderer compiles scene changes to control functions; `VtMachine` is a terminal that executes them
  (sections 8.3.21, 8.3.26, 8.3.32, 8.3.38, 8.3.41, 8.3.64, 8.3.67, 8.3.113 and 8.3.147 of ECMA-48,
  and DECSTBM, which ignores a region of fewer than two rows). Both renderer paths are proved correct
  against it by simulation.
* **Update merging** (`RowRanges`, `WriteRuns`): the in-place merge of row ranges and the coalescing
  of write runs.
* **Streaming parsers** (`ProbeBroker`, `ControlRecords`, `ControlParser`, `ControlWire`,
  `ControlGrammar`): a byte-at-a-time filter against a whole-input lexer, and the control-mode
  parser against the wire form of the CONTROL MODE section of tmux(1): it accepts that format and
  nothing else.
* **Adaptive stabilization** (`Stabilization`): the learned quiet window and the commit decision.
* **Images and layers** (`ImageClipping`, `ImageSources`, `OuterIds`, `ImageComposition`,
  `Composition`): fragments under overlays, the part of the picture each one shows, collision-free
  ids, painter's order.

Where the source updates an object, the model is a class whose methods are proved equal to
specification functions; the theorems are about those functions. `Common` and `TerminalEvents` hold
shared vocabulary.

Findings about the code, stated exactly:

* A vertical operation on a one-row region emits a scrolling region that terminals ignore.
  `VerticalOperationIsFaithfulIff` says for which regions the replay is faithful,
  `VerticalBatchIsFaithfulIff` says it of the batch the fast path returns, and `DishonouredBatchFails`
  gives the failing screen.
* Turning synchronized output on after a render was admitted adds 16 bytes without a new capacity
  check. `SwitchCanExceedBudget` and `ExcessOutlivesTheWrapper` are runs that leave the configured
  maximum, under every configuration; `BudgetHoldsIffSwitchesFit` is the exact condition over runs.
* The scheduler's introduction says that bells are retained. Replacing a render does retain them
  (`RendersKeepBells`), but evicting work for control bytes discards them: `BellIsLost` is such a
  run, and `QueueingLosesBellsIff` says exactly when.
* The marker filter scans each transaction once, so removing a marker (`RemovalSplices`) or joining
  two transactions (`JoiningSplices`) can put a new one together. `OutputHasMarkerIff` says exactly
  when, and `NoFragmentsNoMarker` gives a condition on the input that rules it out.
* Coalescing depends on batching only where the 1024-byte limit can bind, which is at the saturating
  column 65535 (`BatchingShowsAtTheLastColumn`); `GroupingAgreesIff` is the exact condition.

## Model

| member | source | states |
|---|---|---|
| SchedulerTheorems.ReachableStatesAreSound | src/output_scheduler.rs:159-859 | after every run of operations the scheduler invariant holds: wire, order of renders, receipts, token ownership, byte budget, wake-up |
| SchedulerTheorems.TransactionsNeverInterleave | src/output_scheduler.rs:779-842 | since the last failure the writer has accepted exactly the finished transactions, whole and in order, then the started part of the front one; nothing else is started |
| SchedulerTheorems.ControlBytesAreConserved | src/output_scheduler.rs:193-240 | without failure or lifecycle cleanup, control bytes written plus queued are exactly the admitted ones in order: none lost, repeated or reordered by eviction, activation, replacement or partial writes |
| SchedulerTheorems.WrittenControlIsAPrefix | src/output_scheduler.rs:779-842 | the control bytes already out are a prefix of the admitted ones |
| SchedulerTheorems.ReceiptsFollowTheFlush | src/output_scheduler.rs:965-1011 | every reported render was written whole, as it was offered and with its own receipt, inside the prefix the last successful flush covers |
| SchedulerTheorems.ReportedGenerationsIncrease | src/output_scheduler.rs:988-1011 | reported generations strictly increase over the whole run, failures included, and stay below every render still held |
| SchedulerTheorems.DrainReportsItsReceipts | src/output_scheduler.rs:701-859 | the report of a drain lists exactly the receipts it added and counts exactly the bytes it wrote |
| SchedulerTheorems.TokensHaveOneOwner | src/output_scheduler.rs:348-356 | a set bypass or timeout-release generation belongs to exactly one render that is pending, active or awaiting its flush |
| SchedulerTheorems.BypassLasts | src/output_scheduler.rs:203-226 | a bypass survives eviction, partial writes and blocked flushes; it ends only by its own completion, by moving to its replacement, by cleanup or by failure |
| SchedulerTheorems.ReleaseLasts | src/output_scheduler.rs:745-764 | a timeout release ends, besides, only when the application closes or really reopens its transaction |
| SchedulerTheorems.BacklogIsBounded | src/output_scheduler.rs:410-424 | retained bytes never exceed the configured maximum by more than the 16-byte wrapper, they are within it while a render is pending with the wrapper off, and control bytes never exceed 64 KiB |
| SchedulerTheorems.ActivationNeverGrowsTheBacklog | src/output_scheduler.rs:865-944 | turning queued work into transactions (encoding effects, stripping markers) never increases the retained total |
| SchedulerLimits.SwitchKeepsBudgetIff | src/output_scheduler.rs:410-424 | switching the wrapper keeps the retained bytes within the maximum if and only if it does not turn it on over a pending render, or the 16 bytes still fit |
| SchedulerLimits.BudgetHoldsIffSwitchesFit | src/output_scheduler.rs:410-424 | from the start, the retained bytes are within the maximum in every state of a run if and only if each switch in it meets that condition |
| SchedulerLimits.OtherStepsKeepBudget | src/output_scheduler.rs:193-859 | no other operation leaves the budget, whatever the writer does |
| SchedulerLimits.SwitchCanExceedBudget | src/output_scheduler.rs:410-424 | for every configuration, a render admitted to the last byte and a switch to on exceed the maximum by the whole wrapper |
| SchedulerLimits.ExcessOutlivesTheWrapper | src/output_scheduler.rs:410-424 | for every configuration that excess can still be there after the wrapper is switched off again, once the wrapped render has become a transaction |
| SchedulerLimits.QueueingLosesBellsIff | src/output_scheduler.rs:203-226 | an operation other than draining and cleanup loses bells if and only if it enqueues control bytes that force an eviction while there are bells |
| SchedulerLimits.ControlKeepsBellsIff | src/output_scheduler.rs:203-226 | enqueuing control bytes keeps every bell if and only if they are empty, refused or fit without eviction, or no bell is waiting |
| SchedulerLimits.RendersKeepBells | src/output_scheduler.rs:3-6 | a newer render that replaces unstarted visual work takes no bell with it |
| SchedulerLimits.BellIsLost | src/output_scheduler.rs:203-226 | for every nonempty budget, a run in which one control byte discards a whole backlog of bells |
| SchedulerTimeliness.HoldKeepsUnstartedWorkBack | src/output_scheduler.rs:722-788 | while an application transaction is open, not timed out, unforced and without a bypass, only bytes of the already started transaction go out, in a drain that ends in a write failure too |
| SchedulerTimeliness.OverdueDrainEndsHold | src/output_scheduler.rs:728-768 | a drain that passes its flush at or after the hard timeout ends the hold |
| SchedulerTimeliness.HoldIsBounded | src/output_scheduler.rs:474-509 | whatever is observed or enqueued, a hold opened at a time is over after the first such drain at or after that time plus the hard timeout, and stays over |
| SchedulerTimeliness.StaysReleased | src/output_scheduler.rs:474-509 | a released hold is not re-entered without a close or a real reopening |
| SchedulerTimeliness.WorkHasADeadline | src/output_scheduler.rs:518-566 | in every reachable state queued work that is not waiting for the writer has a deadline: no lost wake-up |
| SchedulerTimeliness.DrainAtDeadlineMovesOn | src/output_scheduler.rs:701-859 | a drain at or after the deadline with an accepting writer writes, completes, flushes or ends the hold: no spinning |
| SchedulerDrainLaws.HoldLasts | src/output_scheduler.rs:722-788 | until its idle time since the last activity or its hard time since it was opened has passed, an unforced drain without a bypass writes only bytes of the started transaction and, unless the writer fails, leaves the hold as it was |
| SchedulerDrainLaws.ObservedHoldLasts | src/output_scheduler.rs:474-509 | output seen inside an application transaction opens or extends a hold that lasts as long from there |
| SchedulerDrainLaws.EitherBoundEndsHold | src/output_scheduler.rs:728-768 | a drain that passes its flush at or after either of the two bounds releases the hold |
| SchedulerDrainLaws.ReleaseTakesTheNewest | src/output_scheduler.rs:745-764 | a released hold hands its token to the newest render held; with none held the timeout is reported at once |
| SchedulerDrainLaws.DrainAnnouncesTokens | src/output_scheduler.rs:988-1011 | a drain reports a completed bypass or a timeout exactly when it clears the token, or releases a hold with nothing to wait for |
| SchedulerDrainLaws.DrainStopsForAReason | src/output_scheduler.rs:771-842 | at most the write budget goes out; work stays behind only because the writer blocks, the budget is used up, a hold keeps it, it is not due, or the bypass render is out, after which nothing else is finished |
| SchedulerDeadlines.SilentUntilSignalled | src/output_scheduler.rs:703-714 | after a failure every drain, and while the writer is blocked every unforced one, leaves the scheduler, the wire and the report alone |
| SchedulerDeadlines.FailedDrainClears | src/output_scheduler.rs:946-963 | a drain that fails leaves nothing queued, started or awaited, no hold and no token, keeps the settings and the generation counter, and demands recovery |
| SchedulerDeadlines.SignalResumesWork | src/output_scheduler.rs:663-671 | after recovery, or after the writer's signal, nothing queued has changed and a drain moves on if and only if the deadline has come |
| SchedulerDeadlines.EarlyDrainIsIdle | src/output_scheduler.rs:518-566 | before its deadline a drain that owes no flush writes, starts, finishes and releases nothing |
| SchedulerDeadlines.DrainMovesOnIffDue | src/output_scheduler.rs:518-566 | with work, an accepting writer and no flush owed, an unforced drain moves on if and only if the deadline has come |
| SchedulerDeadlines.QueueingNeverPostpones | src/output_scheduler.rs:861-863 | work is due when it was due before or at once, and new work one latency budget after it was queued |
| SchedulerDeadlines.RenderDue | src/output_scheduler.rs:321-344 | a render that replaces an activated one is due at once |
| SchedulerQueueLaws.RenderIsAdmittedIffItFits | src/output_scheduler.rs:287-310 | a render is admitted if and only if it fits, wrapper included, in place of the queued and the unstarted active render |
| SchedulerQueueLaws.AdmittedRenderLaw | src/output_scheduler.rs:312-364 | an admitted render takes the place and the tokens of what it replaces, and an armed bypass, and nothing else is lost |
| SchedulerQueueLaws.RenderOutcomeLaw | src/output_scheduler.rs:281-310 | each outcome says what happened; a refused render only disarms the bypass |
| SchedulerQueueLaws.BypassIsForTheNextRender | src/output_scheduler.rs:508-516 | a bypass is armed only inside an application transaction and only for the next render offered |
| SchedulerQueueLaws.EvictionIsExact | src/output_scheduler.rs:203-226 | eviction spares, in order, exactly started transactions, control bytes and renders holding a token |
| SchedulerQueueLaws.ControlIsAdmittedIffItFits | src/output_scheduler.rs:193-240 | control bytes evict only when they do not fit otherwise, and are queued if and only if they fit then and their own limit holds |
| SchedulerQueueLaws.PushingCoalesces | src/output_scheduler.rs:228-240 | neighbouring control chunks never fit into one, and none exceeds the maximum |
| SchedulerQueueLaws.CleanupKeepsWhatHasBegun | src/output_scheduler.rs:246-268 | cleanup keeps the started transaction and the effects already written, and nothing else |
| SchedulerQueueLaws.BellsFillTheRoom | src/output_scheduler.rs:446-459 | as many bells are kept as there is room for |
| SchedulerQueueLaws.ActivationOrder | src/output_scheduler.rs:865-944 | control chunks, effects, the render and the bells are activated in this order, each queue in its own, with exactly their bytes |
| EffectHistory.EnqueuedEffectLaw | src/output_scheduler.rs:366-408 | an effect never touches one of another owner or kind; with room it is queued last, and of its own owner and kind only a title or directory that has not begun is replaced |
| EffectHistory.DisplacedEffectLaw | src/output_scheduler.rs:392-408 | without room exactly the oldest queued effect of the same owner and kind makes way, and the new one is queued if and only if it fits then |
| EffectHistory.DrainKeepsEffects | src/output_scheduler.rs:701-859 | the effects a drain reports, followed by those it leaves, are those there were, in order |
| EffectHistory.EvictionSparesStartedEffects | src/output_scheduler.rs:203-268 | eviction and cleanup keep exactly the effects that have begun to be written |
| EffectHistory.EffectsAreAccountedFor | src/output_scheduler.rs:366-408 | over any run without failure, cleanup, eviction or lack of room, every effect asked for is reported or held, once and in order; of titles and directories only values superseded by a later one are missing |
| EffectHistory.EffectsTravelAlone | src/output_scheduler.rs:865-944 | in every reachable state an effect transaction carries one effect and no other transaction carries any |
| EffectEncoding.ChargedForItsPayload | src/output_scheduler.rs:1097-1115 | an effect is charged for every byte it carries and sixteen besides |
| EffectEncoding.FittingEffectsStay | src/output_scheduler.rs:1117-1143 | an effect that fits is kept as it is, but for empty clipboard entries |
| EffectEncoding.LongEffectsAreCut | src/output_scheduler.rs:1117-1154 | of one that is too long the front is kept: whole characters of text, as many bytes as fit |
| EffectEncoding.EncodingLaw | src/output_scheduler.rs:1014-1062 | what is sent for each effect: titles and directories without control characters, progress with its state number and percentage, a bell as BEL, else nothing |
| TerminalEvents.EncodedEffectFits | src/output_scheduler.rs:1014-1062 | an encoded effect never exceeds the size it was charged for |
| OutputSchedulers.AppendWithoutSynchronizationMarkers | src/output_scheduler.rs:1162-1182 | the single pass appends the source without the markers present in it, scanning once from the left |
| MarkerStripping.OutputHasMarkerIff | src/output_scheduler.rs:889-920 | the bytes sent between the markers of a render contain another marker if and only if a kept fragment of one is completed by what follows it once markers are removed and transactions joined |
| MarkerStripping.NoFragmentsNoMarker | src/output_scheduler.rs:889-920 | markers are filtered out completely when no transaction has a fragment of one at its end or directly before a marker |
| MarkerStripping.RemovalSplices | src/output_scheduler.rs:1162-1182 | a transaction whose two halves of a marker are joined by removing the marker between them |
| MarkerStripping.JoiningSplices | src/output_scheduler.rs:889-920 | two transactions free of markers whose bytes together are one |
| OutputSchedulers.EncodeRender | src/output_scheduler.rs:889-920 | the bytes of a render: markers stripped, wrapped when the terminal supports it, the one-transaction frame moved when it has no marker |
| OutputSchedulers.OutputScheduler.EnqueueControl | src/output_scheduler.rs:193-240 | performs exactly the enqueue step: refusal over 64 KiB, eviction of regenerable work, coalescing with the last chunk |
| OutputSchedulers.OutputScheduler.PrepareCleanup | src/output_scheduler.rs:246-268 | keeps started transactions only and clears queues, receipts and tokens |
| OutputSchedulers.OutputScheduler.ReclaimBells | src/output_scheduler.rs:334-344 | the index loop removes exactly the unstarted bells, in order, and counts their bytes |
| OutputSchedulers.OutputScheduler.WithdrawReplaced | src/output_scheduler.rs:312-347 | drops what a new render replaces and says whose tokens move to it |
| OutputSchedulers.OutputScheduler.OfferRender | src/output_scheduler.rs:281-364 | performs the render step and returns its outcome, dropping for capacity exactly when the replaced total does not fit |
| OutputSchedulers.OutputScheduler.EnqueueTerminalEffect | src/output_scheduler.rs:366-408 | performs the effect step: bounding, superseding and displacement |
| OutputSchedulers.OutputScheduler.SetSynchronizedOutputSupported | src/output_scheduler.rs:410-424 | changes the recorded length of a pending render by the wrapper and nothing else |
| OutputSchedulers.OutputScheduler.RingBell | src/output_scheduler.rs:446-459 | counts bells within the byte budget |
| OutputSchedulers.OutputScheduler.ObserveApplicationSynchronization | src/output_scheduler.rs:474-512 | opens, refreshes, closes or ignores an application transaction |
| OutputSchedulers.OutputScheduler.Fail | src/output_scheduler.rs:946-963 | a failure empties the scheduler and requires reconciliation |
| OutputSchedulers.OutputScheduler.CompleteAwaitingRenders | src/output_scheduler.rs:988-1011 | reports the awaiting renders oldest first and releases their tokens |
| OutputSchedulers.OutputScheduler.FlushPhysical | src/output_scheduler.rs:965-986 | flushes past interruptions, completes the awaiting renders, blocks or fails |
| OutputSchedulers.OutputScheduler.ActivateWork | src/output_scheduler.rs:865-944 | queues controls, effects, the render and the bells as transactions, in this order |
| OutputSchedulers.OutputScheduler.WriteActive | src/output_scheduler.rs:779-824 | the write loop: what the history says was accepted is what the writer received |
| OutputSchedulers.OutputScheduler.RetireFinished | src/output_scheduler.rs:825-842 | retires transactions whose last byte landed on the budget |
| OutputSchedulers.OutputScheduler.DrainReady | src/output_scheduler.rs:701-859 | one call of the event loop performs exactly the drain step, and the bytes the history gained, or kept for the failed epoch, are the bytes that went down the wire |
| RegionLimit.VerticalOperationIsFaithfulIff | src/presentation.rs:2515-2517 | a full-width vertical operation is replayed faithfully on every grid that accepts it if and only if its region has two rows or more, or the screen has one row, or it edits lines and reaches the last row |
| SemanticRendering.EditIsEffect | src/presentation.rs:2383-2450 | cutting a row apart and joining it around the introduced cells is the meaning of the edit |
| SemanticRendering.EditRepairsFollow | src/presentation.rs:2390-2450 | the pending repairs grow by exactly the introduced cells |
| RegionLimit.DishonouredRegionFails | src/presentation.rs:2279-2363 | otherwise there is a screen on which replaying it shows something else, because the terminal ignores the region |
| SemanticRendering.VerticalBatchIsFaithfulIff | src/presentation.rs:2112-2185 | the batch of such an operation, with the grid it means as the intended one, leaves every terminal showing that grid and the cursor if and only if the region is honoured |
| SemanticRendering.DishonouredBatchFails | src/presentation.rs:2112-2185 | otherwise there are presented rows and a terminal showing them that the returned batch leaves showing something else |
| SceneSimulation.OperationSimulates | src/presentation.rs:2270-2452 | replaying an accepted operation on a terminal that shows the grid leaves it showing the meaning of the operation, for any widths, marks and left-over blanks |
| SceneSimulation.WriteRunShows | src/presentation.rs:2423-2450 | printing a text run shows its cells laid over the row, cut wide characters blanked |
| SceneSimulation.VerticalShows | src/presentation.rs:2279-2363 | scrolling and line editing inside a region, with the introduced rows cleared, shows the shifted rows |
| SceneOperations.AcceptsExactly | src/presentation.rs:2270-2452 | which operations are replayed, in screen coordinates, and that all others are refused |
| SceneOperations.MoveMeaning | src/presentation.rs:2279-2363 | scrolling and line editing move each row of the region by the count and blank the rest, row by row |
| SceneOperations.EditMeaning | src/presentation.rs:2365-2450 | character editing, erasing and writing change one row, column by column |
| SemanticRendering.CellsMoveOrAreIntroduced | src/presentation.rs:2383-2502 | after an operation every cell is one it introduced or one of the row its pending repair came along with |
| SemanticRendering.RowCameFrom | src/presentation.rs:2471-2502 | the row a repair is carried to is the row the operation moved there |
| SceneOperations.ExactRegionIsInside | src/presentation.rs:2454-2469 | a region is exact if and only if it is a nonempty rectangle inside the screen |
| CellRanges.ChangedCellRanges | src/presentation.rs:2574-2597 | the maximal runs of columns that look different, in order and apart, and no others |
| CellRanges.ExpandAndMergeCellRanges | src/presentation.rs:2599-2637 | ordered, disjoint, non-touching ranges that cover the input, cut no wide character of either row, and add only halves of wide characters |
| Rendering.WriteIncrementalRun | src/presentation.rs:2649-2677 | the loop over a run emits the pen, link and text commands of its cells, each change once |
| Rendering.PaintRow | src/presentation.rs:2065-2072 | the emitted runs turn the shown row into one that looks as intended on the candidate columns and is unchanged or intended elsewhere |
| IncrementalRendering.DamageCandidates | src/presentation.rs:2026-2042 | the candidate columns of each row contain every clipped region and exist exactly for damaged rows |
| IncrementalRendering.ShownByLooks | src/presentation.rs:2639-2647 | what a terminal shows depends only on the physical look of the cells |
| IncrementalRendering.DamageIsCovered | src/presentation.rs:2013-2060 | a cell counts as damaged exactly when a region, clipped or not, covers it, and a row exactly when one of its cells does |
| IncrementalRendering.IncrementalBatch | src/presentation.rs:2013-2110 | refused exactly when a damaged row is soft-wrapped; otherwise, for complete damage, every terminal showing the presented screen shows the intended one afterwards, cursor included; for any damage the terminal shows `shown`, whose cells are old or intended and changed only between damaged columns or inside a wide character; nothing but a moved cursor is sent when nothing looks different |
| SemanticRendering.MatchingIsIndistinguishable | src/presentation.rs:899-920 | two grids match physically if and only if no terminal can show one and not the other |
| SceneOperations.ClipKeepsCellsOnScreen | src/presentation.rs:1650-1673 | clipping keeps exactly the cells of a rectangle that lie on the screen, even where 32-bit coordinates saturate |
| SemanticRendering.ShiftRepairRows | src/presentation.rs:2471-2502 | a cell is pending repair afterwards exactly when the cell it came from was |
| SemanticRendering.RotationIsEffect | src/presentation.rs:2296-2320 | rotating the rows of the region and blanking those that came round is the shift by the count |
| SemanticRendering.SemanticReplay.MoveRows | src/presentation.rs:2279-2363 | in place: rows become the meaning of the move, the commands are emitted, pending repairs follow the rows and the introduced rows join them |
| SemanticRendering.SemanticReplay.EditCells | src/presentation.rs:2365-2450 | in place: one row edited, the commands emitted, the introduced cells queued for repair |
| SemanticRendering.SemanticReplay.ApplySceneOperation | src/presentation.rs:2270-2452 | an operation is refused without a trace exactly when the grid does not accept it, or applied, emitted and its repairs queued |
| SemanticRendering.SemanticReplay.RepairRegions | src/presentation.rs:2527-2572 | every cell is the old or the intended one; pending cells become the intended ones, and others change only between pending ones of their row or as part of a wide character |
| SemanticRendering.SemanticBatch | src/presentation.rs:2112-2185 | applies exactly when one pane owns the scene and each operation is accepted in turn; whenever it returns a batch whose regions the terminal honours, every terminal showing the presented rows shows the intended rows and cursor; it returns a batch whenever the replayed and the intended rows agree on marks and look different only at pending repairs, and only if every difference is between such cells of its row or part of a wide character; when the replay alone reaches the intended grid, nothing but the operations is emitted |
| RowRanges.CoalesceInPlace | src/terminal.rs:657-672 | the compacting loop leaves in the kept prefix the ranges joined one by one |
| RowRanges.MergeBackwards | src/terminal.rs:607-635 | the in-place backwards merge never overwrites a left range before reading it: the array is the merge of both lists |
| RowRanges.ChangedRows.Merge | src/terminal.rs:587-636 | the stored list becomes the merge of the old list and the source through every path of the algorithm |
| RowRanges.MergedIsCanonicalUnion | src/terminal.rs:582-672 | for any nonempty ranges, sorted or not, the result is sorted, disjoint, non-adjacent and covers exactly the union of the rows |
| RowRanges.CanonicalListIsUnique | src/terminal.rs:639-643 | two canonical lists of the same rows are equal |
| RowRanges.MergeOrderAndGroupingAreIrrelevant | src/terminal.rs:371-371 | merging is commutative, associative and idempotent |
| RowRanges.TiesDoNotMatter | src/terminal.rs:582-585 | the unstable sort may order equal starts either way without changing the result |
| RowRanges.DamageMergesAsAUnion | src/terminal.rs:571-580 | damage merging forgets no row, invents none and does not depend on order or grouping |
| WriteRuns.OperationLog.WriteChunk | src/terminal.rs:533-557 | joins the last run exactly when row, block, byte limit and end column allow it |
| WriteRuns.OperationLog.Write | src/terminal.rs:482-531 | the character loop cuts a run at every block boundary as the specification does |
| WriteRuns.OperationLog.Append | src/terminal.rs:471-480 | appends a whole update operation by operation |
| WriteRuns.CoalescingKeepsEveryCell | src/terminal.rs:463-569 | for every input, the same characters are written to the same cells in the same order |
| WriteRuns.RunsStayShort | src/terminal.rs:463-469 | every run of an accumulator stays in one 256-column block and within 1024 bytes |
| WriteRuns.RegroupingAgreesIff | src/terminal.rs:541-553 | for every accumulator, two adjacent texts in one block may be appended together or one by one with the same result exactly when the byte limit does not fall between them |
| WriteRuns.GroupingAgreesIff | src/terminal.rs:463-569 | for every accumulator, batch and operation after it: accumulating the batch apart gives the same list if and only if the operation is no run at the saturating column or the byte limit does not fall between the parts it is joined to |
| WriteRuns.RunCommutes | src/terminal.rs:482-531 | a run that starts before the saturating column can be accumulated apart, whatever it meets and wherever it ends |
| WriteRuns.BatchingIsIrrelevant | src/terminal.rs:463-569 | for runs that end before the saturating column, merging accumulated updates in any grouping gives the list of the whole stream |
| WriteRuns.BatchingShowsAtTheLastColumn | src/terminal.rs:559-569 | at the saturating column grouping does show |
| ProbeBroker.ScanFindsTheEnd | src/terminal_protocol.rs:541-564 | the scan returns the shortest prefix at which the sequence ends, and fails only when there is none |
| ProbeBroker.CutsExactlyEscapes | src/terminal_protocol.rs:541-564 | a prefix is cut off if and only if it is a whole escape sequence |
| ProbeBroker.EscapesHaveThreeForms | src/terminal_protocol.rs:541-564 | a whole escape sequence is ESC [ up to the first final byte, ESC ] or P or _ up to the first BEL or ESC backslash, or ESC and one other byte |
| ProbeBroker.LexingLosesNothing | src/terminal_protocol.rs:324-356 | tokens and residue concatenate to the input; every token is a plain byte or a whole escape sequence; the residue is unfinished |
| ProbeBroker.LexingResumesFromResidue | src/terminal_protocol.rs:324-356 | lexing may stop anywhere and resume from the residue |
| ProbeBroker.TrackerSeesTheEnd | src/terminal_protocol.rs:510-538 | the tracker of an oversized sequence recognizes the same end as the scan |
| ProbeBroker.StartupProbeBroker.IngestByte | src/terminal_protocol.rs:324-356 | one byte adds its part of the filtered lexing; claimed replies and dropped sequences are recorded in order |
| ProbeBroker.StartupProbeBroker.Ingest | src/terminal_protocol.rs:312-359 | under any chunking the total output is the whole-input lexing without recognized replies and tokens over 4096 bytes, and what is withheld is an unfinished sequence of at most 4096 bytes |
| ProbeBroker.EveryTokenGoesOneWay | src/terminal_protocol.rs:324-356 | plain bytes and unrecognized sequences of at most 4096 bytes pass in order, recognized ones of at most 4096 bytes are taken in order, longer ones are counted |
| ProbeBroker.StartupProbeBroker.FinishIfTimedOut | src/terminal_protocol.rs:361-371 | from the announced deadline on, and not before, a timeout releases the withheld bytes unchanged, finishes and starts lexing afresh |
| ControlRecords.DecimalRoundTrip | src/tmux_control.rs:448-457 | the decimal value of a canonical number text is the number |
| ControlRecords.TagRoundTrip | src/tmux_control.rs:433-446 | a command tag parses back from its text |
| ControlRecords.PaneRoundTrip | src/tmux_control.rs:459-468 | a pane id parses back from its text |
| ControlRecords.SplitInvertsJoin | src/tmux_control.rs:433-446 | splitting at spaces inverts joining fields without spaces |
| ControlRecords.SeparatorFollowsFields | src/tmux_control.rs:485-490 | the first separator of an extended record is the one after its header fields |
| ControlRecords.DecodesExactlySpellings | src/tmux_control.rs:513-535 | decoding succeeds on exactly the texts that spell its result, escaped or not |
| ControlRecords.OctalRoundTrip | src/tmux_control.rs:513-535 | decoding inverts every escaping that covers the backslash |
| ControlRecords.ScanOctal | src/tmux_control.rs:513-535 | the index loop computes the decoding or its error |
| ControlParser.ChunkingIsIrrelevant | src/tmux_control.rs:191-206 | any fragmentation gives the same events and state, or the same error |
| ControlParser.TruncationIsReported | src/tmux_control.rs:208-234 | a stream cut off before its end parses without error and is then reported as unterminated |
| ControlParser.TmuxControlParser.ProcessLineInPlace | src/tmux_control.rs:287-416 | one line: terminator of the own block, payload, start of a block, or a record |
| ControlParser.TmuxControlParser.PushByteInPlace | src/tmux_control.rs:236-285 | one byte advances the state machine exactly as specified |
| ControlParser.TmuxControlParser.PushBytes | src/tmux_control.rs:191-206 | one call returns all events of its bytes, or the first error and a poisoned parser |
| ControlParser.TmuxControlParser.FinishStream | src/tmux_control.rs:208-234 | end of input succeeds only in the ended state and otherwise poisons the parser |
| ControlWire.PushLine | src/tmux_control.rs:255-275 | a line within the limit, with any number of trailing CRs, reaches the record parser as written |
| ControlWire.KeyedRecord | src/tmux_control.rs:340-416 | a record is recognized by its own keyword and by no other |
| ControlWire.NestedBlocksArePayload | src/tmux_control.rs:306-310 | the lines of a nested control stream are payload; its terminator is payload if and only if its tag differs |
| ControlWire.CommandRoundTrip | src/tmux_control.rs:287-431 | a command block with any admissible payload parses back to its event |
| ControlWire.ControlStreamRoundTrip | src/tmux_control.rs:191-431 | every sequence of events written within the limits and cut into any chunks parses back to exactly those events between start and end |
| ControlGrammar.NumbersAreNumerals | src/tmux_control.rs:448-457 | exactly the decimal numerals of 64-bit numbers, leading zeros allowed, are numbers |
| ControlGrammar.TagsAreThreeNumerals | src/tmux_control.rs:433-446 | a text is a command tag if and only if it is three such numerals with one space between them |
| ControlGrammar.RecordsAreSpelled | src/tmux_control.rs:340-431 | a line outside a block is read as an event if and only if it is within the limit and a record of that event |
| ControlGrammar.LinesAreRead | src/tmux_control.rs:287-338 | a line is taken if and only if it opens or closes a block, is one more line of output within both limits, or is a record; and taken as that |
| ControlGrammar.TextBeforeCarriageReturns | src/tmux_control.rs:259-262 | the text of a line is what stands before its trailing CRs |
| ControlGrammar.AcceptsExactlyStreams | src/tmux_control.rs:191-431 | the parser ends without error, with these events, if and only if the bytes are the start marker, lines that spell the events with no block left open, and the end marker, and nothing else |
| ControlGrammar.CutNamesTheUnfinished | src/tmux_control.rs:208-234 | a stream cut off inside the start marker, behind ESC, inside a line, inside a block or between records is reported as exactly that, after the events of its whole lines |
| Stabilization.StabilizationProfile.ObserveOutput | src/app.rs:721-761 | one output: provisional raise with checkpoint, largest gap, eligibility of the burst |
| Stabilization.StabilizationProfile.Finish | src/app.rs:763-800 | end of a burst: learning and decay, or rollback |
| Stabilization.StabilizationProfile.CancelContext | src/app.rs:818-830 | cancelling rolls back and forgets the burst |
| Stabilization.LearnedDelayStaysInRange | src/app.rs:703-830 | over every run delay, floor and checkpoint stay in 8..60 ms and nothing is provisional between bursts |
| Stabilization.DiscardedBurstLeavesNoTrace | src/app.rs:784-811 | a burst that saw nontraining output, was cancelled or ended other than ordinarily leaves delay and floor as they were when it began |
| Stabilization.OrdinaryBurstTeachesItsTarget | src/app.rs:763-783 | an ordinary burst without late continuation teaches exactly the target of its largest gap |
| Stabilization.LateContinuationRaises | src/app.rs:732-751 | the first output after an ordinary burst raises delay and floor to its pause plus 4 ms, at most 60, if and only if it is trainable, within 100 ms of the commit and without input since; otherwise it changes neither |
| Stabilization.LateContinuationRaisesOnce | src/app.rs:732-751 | no other output of that burst raises anything, and a discarded burst takes the raise back |
| Stabilization.ConfirmedRaiseLasts | src/app.rs:763-783 | a confirmed raise is not worn down by its own burst or the next |
| Stabilization.OrdinaryBurstMovesSlowly | src/app.rs:763-783 | in numbers: the floor rises at once, only every third clean burst lowers the floor by one and the delay by two |
| Stabilization.SteadyTargetIsReached | src/app.rs:763-783 | with a constant target and no late continuation, delay and floor equal the target from the 156th burst on, from any reachable state |
| Stabilization.DescentIsSlow | src/app.rs:763-783 | from the highest values the lowest target takes all 156 bursts |
| Stabilization.WaitingEndsByTheHardDeadline | src/app.rs:640-685 | a wait is for a later moment no later than the hard deadline, from which the decision is to commit |
| Stabilization.CommitsFromOneMomentOn | src/app.rs:640-685 | a burst is reported from exactly one moment on, given by its first and last output, the delay and the flags; no wait overshoots it |
| Stabilization.CommitReasonsAreTrue | src/app.rs:640-685 | the reason given for a commit holds |
| Stabilization.QuietCommitsTrain | src/app.rs:606-611 | exactly the commits of quiet trainable output that nothing else made stable teach the delay |
| Stabilization.BurstWaitsTheLearnedDelay | src/app.rs:802-816 | a trainable burst waits for the learned delay, another for 30 ms at least; rebasing restarts both clocks |
| Stabilization.AtMostTwoWaits | src/app.rs:640-685 | without new output a wait is followed by at most one more before the commit |
| Stabilization.QuietCommitRespectsTheWindow | src/app.rs:677-685 | a quiet commit waits at least 8 ms, and at least 30 ms once the burst saw nontraining output |
| Stabilization.QuietOutputIsReportedPromptly | src/app.rs:640-685 | without prompts, repaints or split sequences, output is committed within 60 ms of quiet |
| ImageClipping.IntersectionIsCommonCells | src/presentation.rs:1054-1074 | the intersection covers exactly the common cells and is missing exactly when there are none |
| ImageClipping.PixelsStayInside | src/presentation.rs:1014-1026 | proportional source pixels with a minimum of one never leave the source, with saturating multiplication |
| ImageClipping.ClipKeepsSource | src/presentation.rs:995-1052 | a clip shows a nonempty part of the effective source rectangle it came from |
| ImageSources.ClipShowsItsShare | src/presentation.rs:995-1052 | a clip skips the proportional pixels of the cells before it and keeps those of its own, each rounded down and at least one kept; offsets stay with the first row and column, all else is unchanged |
| ImageSources.VisibleFragmentsShowTheirPart | src/presentation.rs:1193-1243 | through a clip and any number of occluders every fragment shows in each cell, to two source pixels a clip, the part of the picture the whole placement shows there, at the same scale |
| ImageClipping.SubtractIsExact | src/presentation.rs:1076-1125 | cutting out an occluder leaves disjoint fragments on exactly the cells outside it |
| ImageClipping.FragmentsPartitionVisibleCells | src/presentation.rs:1193-1240 | through a clip and any number of occluders the fragments are disjoint, cover exactly the visible cells, and stay inside the original source rectangle |
| ImageComposition.PlacementShowsItsVisibleCells | src/presentation.rs:1219-1243 | a placement shows exactly its cells inside the scene and outside every overlay in front of its owner |
| ImageComposition.OccludersAreInFront | src/presentation.rs:1199-1234 | the occluders of a placement are the overlays in front of its owner by z-index and position: all of them for a pane |
| ImageComposition.PlacementShowsWhatIsInFront | src/presentation.rs:1193-1243 | a placement shows exactly its cells on the screen that no overlay in front covers, each with its own part of the picture |
| ImageComposition.CutOverlays | src/presentation.rs:1228-1243 | the overlay loop with its early exit computes those fragments |
| ImageComposition.ComposeImageRecords | src/presentation.rs:1193-1294 | all visible fragments in display order, with the outer id of their image and their own outer placement id; the lookup of an image id never fails |
| ImageComposition.RecordsAreTheFragments | src/presentation.rs:1237-1284 | every record shows a visible fragment and every fragment has its record, with the outer id, size and length of its first matching upload |
| ImageComposition.ComposedPlacementIdsAreDistinct | src/presentation.rs:1268-1293 | all fragments of a scene get distinct, nonzero placement ids and are otherwise the drafted records, in display order |
| ImageComposition.RankOrderIsDisplayOrder | src/presentation.rs:1286-1293 | sorting by one number orders the fragments by the lexicographic display key |
| OuterIds.AllocateOuterId | src/presentation.rs:1322-1328 | with fewer than 2^32 - 1 ids in use the probe terminates on the first free id at or after the seed, around zero |
| OuterIds.FreeSeedIsKept | src/presentation.rs:1322-1328 | a free nonzero 32-bit seed is the id; zero counts as one, and seeds count modulo 2^32 |
| OuterIds.FullSetIsLarge | src/presentation.rs:1322-1328 | a set that holds the first n ids has at least n elements |
| OuterIds.AssignedIdsAreDistinct | src/presentation.rs:1182-1190 | colliding seeds still get distinct, nonzero ids |
| OuterIds.AssignmentIsUnique | src/presentation.rs:1164-1190 | the ids are a function of the seeds in order |
| OuterIds.OuterImageIds | src/presentation.rs:1164-1191 | numbers every upload key and every placement key once, in key order |
| OuterIds.KeysComeFromTheScene | src/presentation.rs:1164-1181 | every numbered key is the key of an upload or of a placement |
| OuterIds.ImageIdsAreInjective | src/presentation.rs:1164-1191 | different (owner, image, digest) keys have different ids, and every upload and placement has one |
| OuterIds.ImageIdMapIsUnique | src/presentation.rs:1141-1143 | the two passes that number one scene agree |
| OuterIds.ComposeImageUploads | src/presentation.rs:1141-1162 | no upload is overwritten by another image, the last upload of a key is kept, and a placement finds its own upload under its outer id |
| Composition.BlitSurface | src/presentation.rs:1339-1370 | the clipped blit puts every cell of the surface that falls on the screen there and changes nothing else; the mark is taken when the surface spans the width |
| Composition.ComposeRows | src/presentation.rs:737-771 | every composed cell and mark is the topmost one of the stack, else blank |
| Composition.SharedRowsAreABlit | src/presentation.rs:740-757 | the shared-rows shortcut equals blitting onto a blank screen if and only if every row of the pane has one cell a column |
| Composition.TopCellIsTheLast | src/presentation.rs:759-771 | the top cell belongs to the last surface with a cell there |
| Composition.NoSurfaceNoCell | src/presentation.rs:759-771 | where no surface reaches, the screen stays blank |
| Composition.TopWrapIsTheLast | src/presentation.rs:1360-1368 | the top mark belongs to the last surface that spans the width there |
| Composition.StackOrder | src/presentation.rs:764-771 | the stack is the panes in order, then the overlays by z-index and position |

## Left out

- The engine, snapshots, image decoding and pixel conversion: damage, snapshots and operations are inputs; complete damage is a hypothesis of `IncrementalBatch`.
- Exact byte spelling of control functions and SGR, and image transfer text: commands are abstract in the renderer, and the scheduler treats the bytes of renders as opaque.
- The full-scene renderer, mode changes, titles, bells and the synchronized-output wrapper of a batch: the renderer theorems are about rows, soft-wrap marks and cursor.
- Left and right margins of the terminal: the machine has none, and resetting them is a no-op.
- Rows with a spacer head in the last column (a wide character moved to the next line of a soft-wrapped row): excluded by `WellFormed`.
- Sorting and removing duplicates among pending repairs: the repaired set of cells does not depend on it.
- Bytes of failed epochs in the conservation theorems: a failure empties the queues and starts a new log; what the failed epoch accepted is kept beside it.
- Endless interruption of the writer: a writer is a finite script of replies that afterwards would block.
- Scheduler runs of 2^64 - 1 operations or more, after which render generations wrap.
- Saturation of 128-bit times and of machine-word sizes outside the properties that name a limit: naturals.
- The eighteen scheduler fields are one record field of the class, so aliasing between fields is not modelled.
- Scenes and accessibility bundles inside receipts: opaque numbers that must come back with their own render.
- OutputScheduler queries without a decision (effect counts, retained views): easy members.
- The parsers behind reply recognition and the profile they update: recognition is any predicate, and the profile a function of the recorded replies.
- Merging of printed runs, which no regrouping law fits, and the other counters of an update summary.
- Parser events of a call that ends in an error: the source drops them with the call.
- Surfaces with more than 2^31 - 1 rows or columns, and rectangles whose far corner exceeds a 32-bit coordinate.
- Hash functions: seeds are arbitrary functions, so the id theorems hold whatever collides.
- Pixel format of composed images, image number and virtual placement flag: carried along unchanged by the source.
- Cursor, modes and titles of a composed scene: easy members.
- Event loop, processes, signals, Lua, speech, clipboard, tables, key bindings, tmux topology and flow control.
