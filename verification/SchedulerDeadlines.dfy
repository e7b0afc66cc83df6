/** The deadline is exact: before it a drain has nothing to do, from it on it has. */
module SchedulerDeadlines {
  import opened Common
  import opened TerminalEvents
  import opened SchedulerSteps
  import opened SchedulerInvariant
  import opened SchedulerQueueing
  import opened SchedulerDraining
  import opened SchedulerHistory
  import opened SchedulerTheorems
  import opened SchedulerTimeliness
  import opened SchedulerDrainLaws

  /** Nothing went out, nothing was started, finished or activated, and the hold is as it was. */
  ghost predicate Idle(w: World, t: Turn) {
    && t.log.accepted == w.log.accepted && t.log.done == w.log.done && t.log.flushed == w.log.flushed
    && t.s.active == w.s.active && SameQueues(w.s, t.s) && t.s.appSync == w.s.appSync
  }

  predicate Due(s: Scheduler, now: nat) {
    NextDeadline(s).Some? && now >= NextDeadline(s).value
  }

  lemma NothingToWrite(t: Turn, finishStartedOnly: bool)
    requires t.s.active == [] && !HasPendingWork(t.s) && !t.s.flushRequired
    ensures !WriteOut(t, finishStartedOnly).Fail?
    ensures Idle(World(t.s, t.log), WriteOut(t, finishStartedOnly).turn)
  {
    hide CompleteRenders;
    var activated := t.(s := ActivatePending(t.s));
    NothingToActivate(t.s);
    assert WriteLoop(activated, Max(t.s.config.writeBudgetBytes, 1), finishStartedOnly) == Stopped(activated, false);
    assert PopFinished(activated, false) == activated;
    CompletingFinishesNothing(activated);
    CompletingIsQuiet(activated);
  }

  lemma NothingToActivate(s: Scheduler)
    requires s.active == [] && !HasPendingWork(s)
    ensures var s' := ActivatePending(s);
      && s'.active == [] && SameQueues(s, s') && s'.appSync == s.appSync && s'.flushRequired == s.flushRequired
  {
  }

  /** Neither held work nor work whose time has not come is touched. */
  lemma EarlyAfterFence(t: Turn, now: nat)
    requires WakeInv(t.s) && !t.s.flushRequired && !t.s.waitingForWritable && !Due(t.s, now)
    ensures !AfterFence(t, now, false).Fail?
    ensures Idle(World(t.s, t.log), AfterFence(t, now, false).turn)
  {
    hide WriteOut, NewestRender;
    if !HasWork(t.s) {
      if !Holds(t.s, now, false) {
        NothingToWrite(ReleaseHold(t, now), false);
      }
    }
  }

  /** Before the deadline a drain that owes no flush does nothing. */
  lemma EarlyDrainIsIdle(w: World, now: nat, replies: seq<Reply>)
    requires Inv(w) && !w.s.flushRequired && !Due(w.s, now)
    ensures !Drain(w, now, false, replies).Fail? && Idle(w, Drain(w, now, false, replies).turn)
  {
    hide AfterFence, WorldOrder, TokenInv, BudgetInv;
    var start := Turn(w.s, w.log, replies, EMPTY_REPORT);
    if !(w.s.needsReconciliation || w.s.waitingForWritable) {
      EarlyAfterFence(start, now);
    }
  }

  /**
    * The exact condition: when the writer accepts and no flush is owed, an unforced drain of a
    * scheduler with work moves on if and only if its deadline has come.
    */
  lemma DrainMovesOnIffDue(w: World, now: nat, replies: seq<Reply>)
    requires Inv(w) && HasWork(w.s) && !w.s.waitingForWritable && !w.s.needsReconciliation && !w.s.flushRequired
    requires Accepting(replies) && replies != []
    ensures MovedOn(w, Drain(w, now, false, replies).turn) <==> Due(w.s, now)
  {
    hide Inv, Drain, NextDeadline;
    if Due(w.s, now) {
      DrainAtDeadlineMovesOn(w, now, replies);
    } else {
      EarlyDrainIsIdle(w, now, replies);
    }
  }

  /** A failed scheduler waits for recovery whatever is forced; a blocked one for the writer, unless forced. */
  lemma SilentUntilSignalled(w: World, now: nat, force: bool, replies: seq<Reply>)
    requires w.s.needsReconciliation || (w.s.waitingForWritable && !force)
    ensures var outcome := Drain(w, now, force, replies);
      !outcome.Fail? && outcome.turn.s == w.s && outcome.turn.log == w.log && outcome.turn.report == EMPTY_REPORT
  {
  }

  /** After the signal the work goes out as soon as it is due. */
  lemma SignalResumesWork(w: World, signal: Step, now: nat, replies: seq<Reply>)
    requires Inv(w) && HasWork(w.s) && !w.s.flushRequired && Accepting(replies) && replies != []
    requires signal.DoRecover? || (signal.DoNotifyWritable? && !w.s.needsReconciliation)
    ensures var woken := Take(w, signal);
      && woken.log == w.log && woken.s.active == w.s.active && SameQueues(w.s, woken.s) && woken.s.appSync == w.s.appSync
      && (MovedOn(woken, Drain(woken, now, false, replies).turn) <==> Due(woken.s, now))
  {
    hide Drain, MovedOn, Due;
    FlagsKeep(w, true);
    DrainMovesOnIffDue(Take(w, signal), now, replies);
  }

  /** Nothing queued, started or awaited, no hold and no token, and nothing more until recovery. */
  ghost predicate Cleared(s: Scheduler, s': Scheduler) {
    && s'.needsReconciliation && !s'.waitingForWritable && !s'.flushRequired
    && s'.active == [] && s'.awaitingRenders == [] && s'.awaitingEffects == []
    && s'.pendingBytes == [] && s'.pendingRender == None && s'.pendingEffects == [] && s'.pendingBells == 0
    && s'.pendingSinceMs == None && s'.appSync == None && !s'.bypassNext
    && s'.bypassGeneration == None && s'.releaseGeneration == None
    && s'.config == s.config && s'.syncSupported == s.syncSupported && s'.nextGeneration == s.nextGeneration
  }

  ghost predicate ClearsOnFailure(t: Turn, p: Progress) {
    p.Fail? ==> Cleared(t.s, p.turn.s) && p.turn.log.accepted == [] && p.turn.log.done == []
  }

  lemma {:induction false} FlushClearsOnFailure(t: Turn)
    ensures ClearsOnFailure(t, FlushWriter(t))
    decreases |t.replies|
  {
    hide CompleteAwaiting;
    if Next(t.replies).Interrupted? {
      FlushClearsOnFailure(t.(replies := Later(t.replies)));
    }
  }

  lemma {:induction false} LoopClearsOnFailure(t: Turn, budget: nat, finishStartedOnly: bool)
    ensures var exit := WriteLoop(t, budget, finishStartedOnly); exit.Left? ==> ClearsOnFailure(t, exit.progress)
    decreases |t.replies|, |t.s.active|
  {
    if t.report.bytesWritten < budget && t.s.active != [] {
      var front := t.s.active[0];
      var rest := t.(replies := Later(t.replies));
      if finishStartedOnly && front.offset == 0 {
      } else if Remaining(front) == [] {
        LoopClearsOnFailure(PopFront(t), budget, finishStartedOnly);
      } else {
        match Next(t.replies)
        case Accept(count) =>
          if count > 0 {
            var offered := Min(|Remaining(front)|, budget - t.report.bytesWritten);
            LoopClearsOnFailure(WroteFront(rest, Min(count, offered)), budget, finishStartedOnly);
          }
        case Interrupted => LoopClearsOnFailure(rest, budget, finishStartedOnly);
        case _ =>
      }
    }
  }

  lemma WritingClearsOnFailure(t: Turn, finishStartedOnly: bool)
    ensures ClearsOnFailure(t, WriteOut(t, finishStartedOnly))
  {
    hide WriteLoop, PopFinished, FlushWriter, Conclude, ActivateControls, ActivateEffects, ActivateRender, ActivateBells;
    var activated := t.(s := ActivatePending(t.s));
    var budget := Max(t.s.config.writeBudgetBytes, 1);
    LoopClearsOnFailure(activated, budget, finishStartedOnly);
    LoopTracks(activated, budget, finishStartedOnly);
    var exit := WriteLoop(activated, budget, finishStartedOnly);
    if exit.Stopped? {
      RetiringTracks(exit.turn, exit.atBypass);
      FlushClearsOnFailure(PopFinished(exit.turn, exit.atBypass));
    }
  }

  /** A drain that fails leaves nothing behind but the demand for recovery. */
  lemma FailedDrainClears(w: World, now: nat, force: bool, replies: seq<Reply>)
    ensures var outcome := Drain(w, now, force, replies);
      outcome.Fail? ==> Cleared(w.s, outcome.turn.s) && outcome.turn.log.accepted == [] && outcome.turn.log.done == []
  {
    hide WriteOut, FlushWriter, NewestRender;
    if !(w.s.needsReconciliation || (w.s.waitingForWritable && !force)) {
      var start := Turn(w.s, w.log, replies, EMPTY_REPORT);
      var forced := if force then start.(s := start.s.(waitingForWritable := false)) else start;
      FlushClearsOnFailure(forced);
      SameIsTracked(forced, forced);
      FlushingTracks(forced);
      var fence := FlushIfRequired(forced);
      if fence.Continue? {
        WritingClearsOnFailure(ReleaseHold(fence.turn, now), Holds(fence.turn.s, now, force));
      }
    }
  }

  // ----- how soon queued work is due -----

  /** When pending work that no hold keeps back is due. */
  function DueAt(s: Scheduler): Option<nat> {
    if s.pendingSinceMs.Some? then Some(s.pendingSinceMs.value + s.config.latencyBudgetMs) else None
  }

  predicate Queues(step: Step) {
    step.DoEnqueueBytes? || step.DoEnqueueRender? || step.DoEnqueueEffect? || step.DoEnqueueBell?
  }

  function QueuedAt(step: Step): nat
    requires Queues(step)
  {
    match step
    case DoEnqueueBytes(_, now) => now
    case DoEnqueueRender(_, _, now) => now
    case DoEnqueueEffect(_, _, now) => now
    case DoEnqueueBell(_, now) => now
  }

  /**
    * Queueing never postpones work: what is pending afterwards is due when it was due before, or at
    * once, and otherwise one latency budget after the call.
    */
  lemma QueueingNeverPostpones(w: World, step: Step)
    requires Inv(w) && Queues(step)
    ensures var before, after, now, latency := DueAt(w.s), DueAt(Take(w, step).s), QueuedAt(step), w.s.config.latencyBudgetMs;
      && (HasPendingWork(Take(w, step).s) ==> after.Some?)
      && (after.Some? ==> if before.Some? then after.value <= Max(before.value, Max(now, latency)) else after.value <= now + latency)
  {
    hide Inv, WorldOrder, TokenInv, BudgetInv, EnqueueBytes, EnqueueRender, EnqueueEffect, EnqueueBell, HasPendingWork;
    match step
    case DoEnqueueBytes(bytes, now) =>
      EnqueueBytesKeeps(w, bytes, now);
      SoundWorkIsDue(Take(w, step));
      BytesDue(w.s, bytes, now);
    case DoEnqueueRender(batch, accessibility, now) =>
      SoundIsAwake(w);
      RenderDue(w.s, batch, accessibility, now);
    case DoEnqueueEffect(owner, event, now) =>
      EnqueueEffectKeeps(w, owner, event, now);
      SoundWorkIsDue(Take(w, step));
      EffectDue(w.s, owner, event, now);
    case DoEnqueueBell(count, now) =>
      EnqueueBellKeeps(w, count, now);
      SoundWorkIsDue(Take(w, step));
      BellDue(w.s, count, now);
  }

  lemma SoundWorkIsDue(w: World)
    requires Inv(w)
    ensures HasPendingWork(w.s) ==> DueAt(w.s).Some?
  {
  }

  lemma SoundIsAwake(w: World)
    requires Inv(w)
    ensures WakeInv(w.s)
  {
  }

  /** Due when it was, or one latency budget from now. */
  predicate SameDue(s: Scheduler, s': Scheduler, now: nat) {
    && s'.config == s.config
    && (s'.pendingSinceMs == s.pendingSinceMs || (s.pendingSinceMs.None? && s'.pendingSinceMs == Some(now)))
  }

  lemma NotingIsSameDue(s: Scheduler, now: nat)
    ensures SameDue(s, NotePending(s, now), now) && NotePending(s, now).pendingSinceMs.Some?
  {
  }

  lemma MakingRoomIsSameDue(s: Scheduler, bytes: Bytes)
    ensures var s' := MakeRoom(s, bytes); s'.config == s.config && s'.pendingSinceMs == s.pendingSinceMs
  {
    hide PendingTotal, Filter, SurvivesEviction;
  }

  lemma BytesDue(s: Scheduler, bytes: Bytes, now: nat)
    ensures SameDue(s, EnqueueBytes(s, bytes, now), now)
  {
    hide MakeRoom, ControlFits, PushControl, AcceptsControl, NotePending;
    MakingRoomIsSameDue(s, bytes);
    NotingIsSameDue(MakeRoom(s, bytes), now);
  }

  lemma BellDue(s: Scheduler, count: nat, now: nat)
    ensures SameDue(s, EnqueueBell(s, count, now), now)
  {
    hide PendingTotal, NotePending;
    NotingIsSameDue(s, now);
  }

  lemma SupersedingIsSameDue(s: Scheduler, owner: nat, kind: EventKind)
    ensures var s' := SupersedeEffects(s, owner, kind); s'.config == s.config && s'.pendingSinceMs == s.pendingSinceMs
  {
    hide Filter;
  }

  lemma DisplacingIsSameDue(s: Scheduler, owner: nat, event: TerminalEvent)
    ensures var s' := DisplaceOlder(s, owner, event); s'.config == s.config && s'.pendingSinceMs == s.pendingSinceMs
  {
    hide RetainedEffectBytes, WithoutFirst;
  }

  lemma EffectDue(s: Scheduler, owner: nat, event: TerminalEvent, now: nat)
    ensures SameDue(s, EnqueueEffect(s, owner, event, now), now)
  {
    hide PendingTotal, SupersedeEffects, DisplaceOlder, Bound, NotePending;
    var bounded := Bound(event, s.config.maximumPendingBytes);
    var s1 := SupersedeEffects(s, owner, Kind(bounded));
    SupersedingIsSameDue(s, owner, Kind(bounded));
    DisplacingIsSameDue(s1, owner, bounded);
    NotingIsSameDue(DisplaceOlder(s1, owner, bounded), now);
  }

  lemma WithdrawingIsDueAtOnce(s: Scheduler, now: nat)
    ensures var s' := WithdrawUnstartedRender(s, now);
      && s'.config == s.config
      && s'.pendingSinceMs == if exists t :: t in s.active && IsUnstartedRender(t) then Some(Sub(now, s.config.latencyBudgetMs))
                              else s.pendingSinceMs
  {
    hide UnstartedBellBytes, WithoutUnstartedBells;
    FirstUnstartedRender(s.active);
  }

  lemma FirstUnstartedRender(active: seq<ActiveTransaction>)
    ensures UnstartedRenderIndex(active) < |active| <==> exists t :: t in active && IsUnstartedRender(t)
  {
    var index := UnstartedRenderIndex(active);
    if index < |active| {
      assert active[index] in active;
    }
  }

  /** A render that replaces an activated one is due at once. */
  lemma RenderDue(s: Scheduler, batch: RenderBatch, accessibility: nat, now: nat)
    requires WakeInv(s)
    ensures var s' := EnqueueRender(s, batch, accessibility, now);
      && s'.config == s.config
      && (HasPendingWork(s') ==> s'.pendingSinceMs.Some?)
      && (if AcceptsRender(s, batch) && (exists t :: t in s.active && IsUnstartedRender(t))
          then s'.pendingSinceMs.Some? && DueAt(s').value == Max(now, s.config.latencyBudgetMs)
          else SameDue(s, s', now))
  {
    hide AcceptsRender, ReplacesGeneration, BatchBytes, WithdrawUnstartedRender, NotePending, IsUnstartedRender;
    var disarmed := s.(bypassNext := false);
    WithdrawingIsDueAtOnce(disarmed, now);
    NotingIsSameDue(WithdrawUnstartedRender(disarmed, now), now);
  }
}
