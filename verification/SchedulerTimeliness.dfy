/** When the scheduler must hold output back, when it must stop holding it, and when it must act. */
module SchedulerTimeliness {
  import opened Common
  import opened SchedulerSteps
  import opened SchedulerInvariant
  import opened SchedulerQueueing
  import opened SchedulerDraining
  import opened SchedulerHistory
  import opened SchedulerTheorems

  // ----- the hold is safe -----

  /** What is left of a transaction that has begun. */
  function StartedRest(active: seq<ActiveTransaction>): Bytes {
    if active != [] && active[0].offset > 0 then Remaining(active[0]) else []
  }

  ghost predicate SameQueues(s: Scheduler, s': Scheduler) {
    && s'.pendingBytes == s.pendingBytes && s'.pendingRender == s.pendingRender
    && s'.pendingEffects == s.pendingEffects && s'.pendingBells == s.pendingBells
  }

  /** A stage that writes nothing and starts nothing. */
  ghost predicate Quiet(t: Turn, t': Turn) {
    && t'.log.accepted == t.log.accepted && t'.s.active == t.s.active && SameQueues(t.s, t'.s)
    && t'.s.appSync == t.s.appSync && t'.s.config == t.s.config
    && (t.s.bypassGeneration.None? ==> t'.s.bypassGeneration.None?)
  }

  lemma {:induction false} CompletingIsQuiet(t: Turn)
    ensures Quiet(t, CompleteRenders(t))
    decreases |t.s.awaitingRenders|
  {
    if t.s.awaitingRenders != [] {
      CompletingIsQuiet(ReportOldest(t));
    }
  }

  lemma {:induction false} FlushingIsQuiet(t: Turn)
    requires !FlushWriter(t).Fail?
    ensures Quiet(t, FlushWriter(t).turn)
    decreases |t.replies|
  {
    var rest := t.(replies := Later(t.replies));
    match Next(t.replies)
    case Accept(_) =>
      CompletingIsQuiet(rest.(s := rest.s.(flushRequired := false), log := rest.log.(flushed := |rest.log.accepted|)));
    case Interrupted => FlushingIsQuiet(rest);
    case _ =>
  }

  ghost predicate WritesOnlyStarted(t: Turn, t': Turn) {
    && t'.log.accepted <= t.log.accepted + StartedRest(t.s.active)
    && SameQueues(t.s, t'.s)
  }

  /** A failure whose epoch ends with bytes of the transaction that had already begun. */
  ghost predicate FailedWritingOnlyStarted(t: Turn, t': Turn) {
    exists out: Bytes ::
      && t'.log.failedEpochs == t.log.failedEpochs + [out]
      && t.log.accepted <= out <= t.log.accepted + StartedRest(t.s.active)
  }

  ghost predicate ProgressWritesOnlyStarted(t: Turn, p: Progress) {
    if p.Fail? then FailedWritingOnlyStarted(t, p.turn) else WritesOnlyStarted(t, p.turn)
  }

  ghost predicate ExitWritesOnlyStarted(t: Turn, exit: LoopExit) {
    match exit
    case Stopped(turn, _) => WritesOnlyStarted(t, turn) && turn.log.failedEpochs == t.log.failedEpochs
                             && t.log.accepted <= turn.log.accepted
    case Left(progress) => ProgressWritesOnlyStarted(t, progress)
  }

  /** Writing `written` bytes of the started front and then only started bytes is writing only started bytes. */
  lemma WroteOnlyStarted(t: Turn, written: nat, exit: LoopExit)
    requires t.s.active != [] && t.s.active[0].offset > 0 && 0 < written <= |Remaining(t.s.active[0])|
    requires ExitWritesOnlyStarted(WroteFront(t, written), exit)
    ensures ExitWritesOnlyStarted(t, exit)
  {
    var front := t.s.active[0];
    var wrote := WroteFront(t, written);
    var front' := wrote.s.active[0];
    assert Remaining(front) == Remaining(front)[..written] + Remaining(front');
    Reassociate(t.log.accepted, Remaining(front)[..written], Remaining(front'));
    assert t.log.accepted <= wrote.log.accepted;
    if exit.Left? && exit.progress.Fail? {
      var out :| exit.progress.turn.log.failedEpochs == wrote.log.failedEpochs + [out]
                 && wrote.log.accepted <= out <= wrote.log.accepted + StartedRest(wrote.s.active);
      PrefixTransitive(t.log.accepted, wrote.log.accepted, out);
      assert out <= t.log.accepted + StartedRest(t.s.active);
    }
  }

  lemma PrefixTransitive(a: Bytes, b: Bytes, c: Bytes)
    requires a <= b <= c
    ensures a <= c
  {
  }

  lemma PoppedOnlyStarted(t: Turn, exit: LoopExit)
    requires t.s.active != [] && OnlyFrontStarted(t.s.active) && ExitWritesOnlyStarted(PopFront(t), exit)
    ensures ExitWritesOnlyStarted(t, exit)
  {
    var popped := PopFront(t);
    assert StartedRest(popped.s.active) == [];
    assert t.log.accepted + [] == t.log.accepted <= t.log.accepted + StartedRest(t.s.active);
    if exit.Left? && exit.progress.Fail? {
      var out :| exit.progress.turn.log.failedEpochs == popped.log.failedEpochs + [out]
                 && popped.log.accepted <= out <= popped.log.accepted + StartedRest(popped.s.active);
      assert out == t.log.accepted;
    }
  }

  lemma FailedAtOnce(t: Turn, t': Turn)
    requires t'.log.failedEpochs == t.log.failedEpochs + [t.log.accepted]
    ensures FailedWritingOnlyStarted(t, t')
  {
    var out := t.log.accepted;
    assert out <= t.log.accepted + StartedRest(t.s.active);
  }

  lemma {:induction false} FlushFailureKeepsBytes(t: Turn)
    ensures FlushWriter(t).Fail? ==> FlushWriter(t).turn.log.failedEpochs == t.log.failedEpochs + [t.log.accepted]
    decreases |t.replies|
  {
    if Next(t.replies).Interrupted? {
      FlushFailureKeepsBytes(t.(replies := Later(t.replies)));
    }
  }

  lemma PoppedOrder(t: Turn)
    requires t.s.active != [] && OnlyFrontStarted(t.s.active)
    ensures OnlyFrontStarted(PopFront(t).s.active)
    ensures WritesOnlyStarted(t, PopFront(t))
  {
  }

  lemma AdvancedOrder(t: Turn, written: nat)
    requires t.s.active != [] && OnlyFrontStarted(t.s.active) && written <= |Remaining(t.s.active[0])|
    ensures OnlyFrontStarted(WroteFront(t, written).s.active)
  {
  }

  lemma {:induction false} HeldLoopWritesOnlyStarted(t: Turn, budget: nat)
    requires OnlyFrontStarted(t.s.active)
    ensures ExitWritesOnlyStarted(t, WriteLoop(t, budget, true))
    decreases |t.replies|, |t.s.active|
  {
    if t.report.bytesWritten >= budget || t.s.active == [] || t.s.active[0].offset == 0 {
      assert WriteLoop(t, budget, true) == Stopped(t, false);
    } else if Remaining(t.s.active[0]) == [] {
      PoppedOrder(t);
      if !ReachesBypass(t.s, t.s.active[0]) {
        HeldLoopWritesOnlyStarted(PopFront(t), budget);
        PoppedOnlyStarted(t, WriteLoop(PopFront(t), budget, true));
      }
    } else {
      HeldAttempt(t, budget);
    }
  }

  lemma {:induction false} HeldAttempt(t: Turn, budget: nat)
    requires OnlyFrontStarted(t.s.active) && t.report.bytesWritten < budget
    requires t.s.active != [] && t.s.active[0].offset > 0 && Remaining(t.s.active[0]) != []
    ensures ExitWritesOnlyStarted(t, WriteLoop(t, budget, true))
    decreases |t.replies|, 0
  {
    var offered := Min(|Remaining(t.s.active[0])|, budget - t.report.bytesWritten);
    var rest := t.(replies := Later(t.replies));
    match Next(t.replies)
    case Accept(count) =>
      if count != 0 {
        var written := Min(count, offered);
        AdvancedOrder(rest, written);
        HeldLoopWritesOnlyStarted(WroteFront(rest, written), budget);
        WroteOnlyStarted(rest, written, WriteLoop(WroteFront(rest, written), budget, true));
      } else {
        FailedAtOnce(t, FailTurn(rest));
      }
    case Interrupted => HeldLoopWritesOnlyStarted(rest, budget);
    case WouldBlock =>
    case Failure => FailedAtOnce(t, FailTurn(rest));
  }

  lemma {:induction false} PoppingWritesNothing(t: Turn, atBypass: bool)
    ensures PopFinished(t, atBypass).log.accepted == t.log.accepted
    ensures PopFinished(t, atBypass).log.failedEpochs == t.log.failedEpochs && SameQueues(t.s, PopFinished(t, atBypass).s)
    decreases |t.s.active|
  {
    if !(atBypass || t.s.active == [] || Remaining(t.s.active[0]) != []) {
      PoppingWritesNothing(PopFront(t), ReachesBypass(t.s, t.s.active[0]));
    }
  }

  lemma HeldWriteOut(t: Turn)
    requires t.s.active != [] && OnlyFrontStarted(t.s.active)
    ensures ProgressWritesOnlyStarted(t, WriteOut(t, true))
  {
    var budget := Max(t.s.config.writeBudgetBytes, 1);
    assert t.(s := ActivatePending(t.s)) == t;
    HeldLoopWritesOnlyStarted(t, budget);
    match WriteLoop(t, budget, true)
    case Left(_) =>
    case Stopped(stopped, atBypass) =>
      var finished := PopFinished(stopped, atBypass);
      PoppingWritesNothing(stopped, atBypass);
      var fence := FlushIfRequired(finished);
      FlushFailureKeepsBytes(finished);
      if finished.s.flushRequired && !fence.Fail? {
        FlushingIsQuiet(finished);
      }
      if fence.Continue? {
        CompletingIsQuiet(fence.turn);
      }
      if fence.Fail? {
        assert fence.turn.log.failedEpochs == t.log.failedEpochs + [finished.log.accepted];
      }
  }

  /**
    * While an application transaction is open, in time, unforced and without a bypass, a drain writes
    * nothing but the rest of the transaction that had already begun, and activates nothing. A drain
    * that ends in a write failure writes nothing else before it either.
    */
  lemma HoldKeepsUnstartedWorkBack(w: World, now: nat, replies: seq<Reply>)
    requires Inv(w) && Holds(w.s, now, false)
    ensures var p := Drain(w, now, false, replies);
            if p.Fail? then FailedWritingOnlyStarted(Turn(w.s, w.log, replies, EMPTY_REPORT), p.turn)
            else p.turn.log.accepted <= w.log.accepted + StartedRest(w.s.active) && SameQueues(w.s, p.turn.s)
  {
    hide WriteOut, OrderInv, MarkInv, DeliveryInv, TokenInv, BudgetInv, WakeInv;
    var start := Turn(w.s, w.log, replies, EMPTY_REPORT);
    if !(w.s.needsReconciliation || w.s.waitingForWritable) {
      var fence := FlushIfRequired(start);
      FlushFailureKeepsBytes(start);
      if fence.Fail? {
        FailedAtOnce(start, fence.turn);
      } else if start.s.flushRequired {
        FlushingIsQuiet(start);
      }
      if fence.Continue? && fence.turn.s.active != [] && fence.turn.s.active[0].offset > 0 {
        FenceKeepsEpochs(start);
        HeldWriteOut(fence.turn);
      }
    }
  }

  lemma FenceKeepsEpochs(t: Turn)
    ensures FlushIfRequired(t).Continue? ==> FlushIfRequired(t).turn.log.failedEpochs == t.log.failedEpochs
  {
    if t.s.flushRequired {
      FlushingKeepsEpochs(t);
    }
  }

  lemma {:induction false} FlushingKeepsEpochs(t: Turn)
    ensures !FlushWriter(t).Fail? ==> FlushWriter(t).turn.log.failedEpochs == t.log.failedEpochs
    decreases |t.replies|
  {
    var rest := t.(replies := Later(t.replies));
    match Next(t.replies)
    case Accept(_) =>
      CompletingKeepsEpochs(rest.(s := rest.s.(flushRequired := false), log := rest.log.(flushed := |rest.log.accepted|)));
    case Interrupted => FlushingKeepsEpochs(rest);
    case _ =>
  }

  lemma {:induction false} CompletingKeepsEpochs(t: Turn)
    ensures CompleteRenders(t).log.failedEpochs == t.log.failedEpochs
    decreases |t.s.awaitingRenders|
  {
    if t.s.awaitingRenders != [] {
      CompletingKeepsEpochs(ReportOldest(t));
    }
  }

  // ----- the hold is bounded -----

  /** A drain reaches its hold decision: nothing stops it earlier and a required flush succeeds. */
  predicate PassesFlush(w: World, step: Step) {
    && step.DoDrain?
    && !w.s.needsReconciliation
    && !(w.s.waitingForWritable && !step.force)
    && FlushIfRequired(Turn(if step.force then w.s.(waitingForWritable := false) else w.s, w.log, step.replies, EMPTY_REPORT)).Continue?
  }

  lemma OverdueDrainEndsHold(w: World, step: Step)
    requires Inv(w) && PassesFlush(w, step) && !Fails(w, step)
    requires w.s.appSync.Some? && w.s.appSync.value.Active?
    requires step.now >= w.s.appSync.value.startedMs + w.s.config.synchronizationHardTimeoutMs
    ensures Take(w, step).s.appSync == Some(IgnoringUntilClose)
  {
    hide WorldOrder, TokenInv, BudgetInv, WakeInv, ReportExtends, TokensFollow, LogExtends, ControlStream, WriteOut, FlushWriter, HoldsGeneration, PendingTotal;
    var forced := Turn(if step.force then w.s.(waitingForWritable := false) else w.s, w.log, step.replies, EMPTY_REPORT);
    WaitingKeeps(w);
    FlushIfRequiredExtends(forced);
    if forced.s.flushRequired {
      FlushingIsQuiet(forced);
    }
    var fenced := FlushIfRequired(forced).turn;
    assert TimedOut(fenced.s, step.now);
    var released := ReleaseHold(fenced, step.now);
    ReleaseHoldKeeps(fenced, step.now);
    WriteOutExtends(released, Holds(fenced.s, step.now, step.force));
  }

  /** The application neither closes nor, once released, reopens; nothing resets the scheduler. */
  predicate KeepsTransaction(w: World, step: Step) {
    && !Fails(w, step) && !step.DoCleanup?
    && (step.DoObserve? ==> step.synchronized && !(step.didOpen && w.s.appSync == Some(IgnoringUntilClose)))
  }

  lemma HoldOnlyEnds(w: World, step: Step)
    requires Inv(w) && KeepsTransaction(w, step)
    ensures var before, after := w.s.appSync, Take(w, step).s.appSync;
            && (before.Some? && before.value.Active? ==>
                  after == Some(IgnoringUntilClose)
                  || (after.Some? && after.value.Active? && after.value.startedMs == before.value.startedMs))
            && (before == Some(IgnoringUntilClose) ==> after == before)
  {
    hide Drain, EnqueueRender, EnqueueEffect, EnqueueBytes, WorldOrder, TokenInv, BudgetInv, WakeInv, ReportExtends, LogExtends, ControlStream, TokensFollow;
    match step
    case DoEnqueueBytes(bytes, now) => EnqueueBytesFrame(w.s, bytes, now);
    case DoEnqueueRender(batch, accessibility, now) => EnqueueRenderFrame(w.s, batch, accessibility, now);
    case DoEnqueueEffect(owner, event, now) => EnqueueEffectFrame(w.s, owner, event, now);
    case DoDrain(now, force, replies) => DrainExtends(w, now, force, replies);
    case _ =>
  }

  predicate KeepsTransactionThroughout(w: World, steps: seq<Step>)
    decreases |steps|
  {
    steps == [] || (KeepsTransaction(w, steps[0]) && KeepsTransactionThroughout(Take(w, steps[0]), steps[1..]))
  }

  /**
    * Whatever is enqueued, drained or observed, a hold opened at `started` is over after the first
    * drain that passes its flush at or after the hard timeout, and it stays over until the
    * application closes its transaction or really opens another one.
    */
  lemma {:induction false} HoldIsBounded(w: World, before: seq<Step>, drain: Step, after: seq<Step>, started: nat)
    requires Inv(w) && |w.log.offers| + |before| + 1 + |after| < MAX_GENERATION
    requires w.s.appSync == Some(IgnoringUntilClose)
             || (w.s.appSync.Some? && w.s.appSync.value.Active? && w.s.appSync.value.startedMs == started)
    requires KeepsTransactionThroughout(w, before)
    requires PassesFlush(Run(w, before), drain) && !Fails(Run(w, before), drain)
    requires drain.now >= started + w.s.config.synchronizationHardTimeoutMs
    requires KeepsTransactionThroughout(Take(Run(w, before), drain), after)
    ensures Run(Take(Run(w, before), drain), after).s.appSync == Some(IgnoringUntilClose)
    decreases |before|
  {
    if before == [] {
      HoldOnlyEnds(w, drain);
      if w.s.appSync != Some(IgnoringUntilClose) {
        OverdueDrainEndsHold(w, drain);
      }
      StepKeeps(w, drain);
      StaysReleased(Take(w, drain), after);
    } else {
      HoldOnlyEnds(w, before[0]);
      StepKeeps(w, before[0]);
      StepKeepsConfig(w, before[0]);
      HoldIsBounded(Take(w, before[0]), before[1..], drain, after, started);
    }
  }

  lemma {:induction false} StaysReleased(w: World, steps: seq<Step>)
    requires Inv(w) && |w.log.offers| + |steps| < MAX_GENERATION
    requires w.s.appSync == Some(IgnoringUntilClose) && KeepsTransactionThroughout(w, steps)
    ensures Run(w, steps).s.appSync == Some(IgnoringUntilClose)
    decreases |steps|
  {
    if steps != [] {
      HoldOnlyEnds(w, steps[0]);
      StepKeeps(w, steps[0]);
      StaysReleased(Take(w, steps[0]), steps[1..]);
    }
  }

  // ----- no lost wakeup, no spin -----

  /** Queued work that is not waiting for the writer always has a deadline. */
  lemma WorkHasADeadline(config: Config, syncSupported: bool, steps: seq<Step>)
    requires |steps| < MAX_GENERATION
    ensures var s := Run(Start(config, syncSupported), steps).s;
            HasWork(s) && !s.waitingForWritable ==> NextDeadline(s).Some?
  {
    ReachableStatesAreSound(config, syncSupported, steps);
  }

  /** The writer takes at least one byte whenever it is asked, as long as it answers at all. */
  predicate Accepting(replies: seq<Reply>) {
    forall k :: 0 <= k < |replies| ==> replies[k].Accept? && replies[k].count > 0
  }

  /** Something irreversible happened: bytes went out, a transaction or a flush completed, or a hold ended. */
  ghost predicate MovedOn(w: World, t: Turn) {
    || |w.log.accepted| < |t.log.accepted|
    || |w.log.done| < |t.log.done|
    || w.log.flushed < t.log.flushed
    || (w.s.appSync != Some(IgnoringUntilClose) && t.s.appSync == Some(IgnoringUntilClose))
  }

  lemma {:induction false} AcceptingFlush(t: Turn)
    requires Accepting(t.replies)
    ensures !FlushWriter(t).Fail? && Accepting(FlushWriter(t).turn.replies)
    ensures t.replies != [] ==> FlushWriter(t).Continue? && FlushWriter(t).turn.log.flushed == |t.log.accepted|
  {
    if t.replies != [] {
      var rest := t.(replies := Later(t.replies));
      var flushed := rest.(s := rest.s.(flushRequired := false), log := rest.log.(flushed := |rest.log.accepted|));
      CompletingKeepsFence(flushed);
    }
  }

  lemma {:induction false} CompletingKeepsFence(t: Turn)
    ensures CompleteRenders(t).log.flushed == t.log.flushed && CompleteRenders(t).replies == t.replies
    decreases |t.s.awaitingRenders|
  {
    if t.s.awaitingRenders != [] {
      CompletingKeepsFence(ReportOldest(t));
    }
  }

  lemma {:induction false} AcceptingLoop(t: Turn, budget: nat, finishStartedOnly: bool)
    requires Accepting(t.replies)
    ensures match WriteLoop(t, budget, finishStartedOnly)
            case Stopped(turn, _) => Accepting(turn.replies)
            case Left(progress) => progress.Return?
    decreases |t.replies|, |t.s.active|
  {
    if t.report.bytesWritten >= budget || t.s.active == [] || (finishStartedOnly && t.s.active[0].offset == 0) {
    } else if Remaining(t.s.active[0]) == [] {
      AcceptingLoop(PopFront(t), budget, finishStartedOnly);
    } else if t.replies != [] {
      var offered := Min(|Remaining(t.s.active[0])|, budget - t.report.bytesWritten);
      var rest := t.(replies := Later(t.replies));
      AcceptingLoop(WroteFront(rest, Min(t.replies[0].count, offered)), budget, finishStartedOnly);
    }
  }

  lemma {:induction false} PoppingKeepsReplies(t: Turn, atBypass: bool)
    ensures PopFinished(t, atBypass).replies == t.replies
    decreases |t.s.active|
  {
    if !(atBypass || t.s.active == [] || Remaining(t.s.active[0]) != []) {
      PoppingKeepsReplies(PopFront(t), ReachesBypass(t.s, t.s.active[0]));
    }
  }

  lemma AcceptingWriteOut(t: Turn, finishStartedOnly: bool)
    requires Accepting(t.replies)
    ensures !WriteOut(t, finishStartedOnly).Fail?
  {
    var activated := t.(s := ActivatePending(t.s));
    var budget := Max(t.s.config.writeBudgetBytes, 1);
    AcceptingLoop(activated, budget, finishStartedOnly);
    match WriteLoop(activated, budget, finishStartedOnly)
    case Left(_) =>
    case Stopped(stopped, atBypass) =>
      PoppingKeepsReplies(stopped, atBypass);
      AcceptingFlush(PopFinished(stopped, atBypass));
  }

  /** Once there is something the loop may write, it moves on. */
  lemma WriteOutMovesOn(t: Turn, finishStartedOnly: bool)
    requires TurnInv(t) && Accepting(t.replies) && t.replies != [] && t.report.bytesWritten == 0
    requires var active := ActivatePending(t.s).active; active != [] && !(finishStartedOnly && active[0].offset == 0)
    ensures var t' := WriteOut(t, finishStartedOnly).turn;
            |t.log.accepted| < |t'.log.accepted| || |t.log.done| < |t'.log.done|
  {
    hide OrderInv, MarkInv, DeliveryInv, TokenInv, BudgetInv, WakeInv, SyncFollows, ReportExtends, TokensFollow, ControlStream, PopFinished, WriteLoop, ActivatePending;
    var activated := t.(s := ActivatePending(t.s));
    var budget := Max(t.s.config.writeBudgetBytes, 1);
    ActivatePendingKeeps(World(t.s, t.log));
    WriteLoopKeeps(activated, budget, finishStartedOnly);
    AcceptingLoop(activated, budget, finishStartedOnly);
    LoopMovesOn(activated, budget, finishStartedOnly);
    match WriteLoop(activated, budget, finishStartedOnly)
    case Left(_) =>
    case Stopped(stopped, atBypass) =>
      var finished := PopFinished(stopped, atBypass);
      PopFinishedExtends(stopped, atBypass);
      PopFinishedKeeps(stopped, atBypass);
      PoppingKeepsReplies(stopped, atBypass);
      AcceptingFlush(finished);
      ExtendsSelf(finished, finished);
      SettleExtends(finished, finished);
  }

  ghost predicate ExitMovedOn(t: Turn, exit: LoopExit) {
    var t' := if exit.Stopped? then exit.turn else exit.progress.turn;
    |t.log.accepted| < |t'.log.accepted| || |t.log.done| < |t'.log.done|
  }

  /** A loop that does not fail never takes bytes or transactions back. */
  lemma LoopNeverGoesBack(t: Turn, budget: nat, finishStartedOnly: bool)
    requires Accepting(t.replies)
    ensures var exit := WriteLoop(t, budget, finishStartedOnly);
            var t' := if exit.Stopped? then exit.turn else exit.progress.turn;
            |t.log.accepted| <= |t'.log.accepted| && |t.log.done| <= |t'.log.done|
  {
    hide SyncFollows, ReportExtends, TokensFollow, ControlStream, WriteLoop;
    AcceptingLoop(t, budget, finishStartedOnly);
    WriteLoopExtends(t, budget, finishStartedOnly);
  }

  lemma LoopMovesOn(t: Turn, budget: nat, finishStartedOnly: bool)
    requires Accepting(t.replies) && t.replies != [] && t.report.bytesWritten < budget
    requires t.s.active != [] && !(finishStartedOnly && t.s.active[0].offset == 0)
    ensures ExitMovedOn(t, WriteLoop(t, budget, finishStartedOnly))
  {
    hide FailTurn, Blocked, ReachesBypass;
    var front := t.s.active[0];
    if Remaining(front) == [] {
      LoopNeverGoesBack(PopFront(t), budget, finishStartedOnly);
    } else {
      var offered := Min(|Remaining(front)|, budget - t.report.bytesWritten);
      var rest := t.(replies := Later(t.replies));
      var wrote := WroteFront(rest, Min(t.replies[0].count, offered));
      LoopNeverGoesBack(wrote, budget, finishStartedOnly);
    }
  }

  lemma PendingWorkActivates(s: Scheduler)
    requires HasPendingWork(s) && s.active == []
    ensures ActivatePending(s).active != []
  {
    var controls, effects := ActivateControls(s.pendingBytes), ActivateEffects(s.pendingEffects);
    if s.pendingBytes != [] {
      assert |controls| > 0;
    } else if s.pendingEffects != [] {
      assert |effects| > 0;
    }
  }

  /** What the deadline promises about the checks between the fence and the write loop. */
  lemma DeadlineOpensTheGate(s: Scheduler, now: nat)
    requires WakeInv(s) && HasWork(s) && !s.flushRequired && !s.waitingForWritable
    requires NextDeadline(s).Some? && now >= NextDeadline(s).value && !TimedOut(s, now)
    ensures !TooEarly(s, now, false)
    ensures s.active != [] || HasPendingWork(s)
    ensures Holds(s, now, false) ==> s.active != [] && s.active[0].offset > 0
  {
  }

  /** A drain whose fence is down, at or after its deadline. */
  lemma FencedDrainMovesOn(t: Turn, now: nat)
    requires TurnInv(t) && HasWork(t.s) && !t.s.waitingForWritable && !t.s.flushRequired && t.report.bytesWritten == 0
    requires NextDeadline(t.s).Some? && now >= NextDeadline(t.s).value
    requires Accepting(t.replies) && t.replies != []
    ensures !AfterFence(t, now, false).Fail?
    ensures MovedOn(World(t.s, t.log), AfterFence(t, now, false).turn)
  {
    var released := ReleaseHold(t, now);
    var holds := Holds(t.s, now, false);
    ReleaseHoldKeeps(t, now);
    AcceptingWriteOut(released, holds);
    if TimedOut(t.s, now) {
      WriteOutExtends(released, holds);
    } else {
      DeadlineOpensTheGate(t.s, now);
      if t.s.active == [] {
        PendingWorkActivates(t.s);
      }
      WriteOutMovesOn(released, holds);
    }
  }

  /**
    * No spin: a drain at or after the deadline, with a writer that accepts, always moves on; so a
    * caller that sleeps until the deadline and drains can never repeat the same state.
    */
  lemma DrainAtDeadlineMovesOn(w: World, now: nat, replies: seq<Reply>)
    requires Inv(w) && HasWork(w.s) && !w.s.waitingForWritable && !w.s.needsReconciliation
    requires NextDeadline(w.s).Some? && now >= NextDeadline(w.s).value
    requires Accepting(replies) && replies != []
    ensures !Drain(w, now, false, replies).Fail?
    ensures MovedOn(w, Drain(w, now, false, replies).turn)
  {
    var start := Turn(w.s, w.log, replies, EMPTY_REPORT);
    if w.s.flushRequired {
      AcceptingFlush(start);
      FlushIfRequiredExtends(start);
      AfterFenceMonotone(FlushWriter(start).turn, now);
    } else {
      FencedDrainMovesOn(start, now);
    }
  }

  lemma AfterFenceMonotone(t: Turn, now: nat)
    requires TurnInv(t) && Accepting(t.replies)
    ensures !AfterFence(t, now, false).Fail? && t.log.flushed <= AfterFence(t, now, false).turn.log.flushed
  {
    AcceptingWriteOut(ReleaseHold(t, now), Holds(t.s, now, false));
    AfterFenceExtends(t, now, false);
  }
}
