/** Two promises the scheduler keeps only under a condition, each with its failing run and its exact condition. */
module SchedulerLimits {
  import opened Common
  import opened TerminalEvents
  import opened SchedulerSteps
  import opened SchedulerInvariant
  import opened SchedulerQueueing
  import opened SchedulerDraining
  import opened SchedulerHistory
  import opened SchedulerTheorems
  import opened MarkerStripping

  // ----- the byte budget without slack -----

  predicate Fits(s: Scheduler) {
    PendingTotal(s) <= s.config.maximumPendingBytes
  }

  /** Switching the wrapper on leaves room for it, or touches no pending render. */
  predicate SwitchFits(s: Scheduler, supported: bool) {
    || !(supported && !s.syncSupported && s.pendingRender.Some?)
    || PendingTotal(s) + SYNC_WRAPPER_BYTES <= s.config.maximumPendingBytes
  }

  lemma SwitchKeepsBudgetIff(w: World, supported: bool)
    requires Inv(w) && Fits(w.s)
    ensures Fits(SetSyncSupported(w.s, supported)) <==> SwitchFits(w.s, supported)
  {
    hide WorldOrder, TokenInv, WakeInv;
  }

  lemma RunTwo(w: World, first: Step, second: Step)
    ensures Run(w, [first]) == Take(w, first)
    ensures Run(w, [first, second]) == Take(Take(w, first), second)
  {
    hide Take;
    var both := [first, second];
    assert [first][1..] == [] && both[1..] == [second] && [second][1..] == [];
    assert Run(w, both) == Run(Take(w, first), both[1..]);
    assert Run(Take(w, first), [second]) == Take(Take(w, first), second);
  }

  /** One transaction of zeros, as long as the budget. */
  function FullBatch(config: Config): RenderBatch {
    RenderBatch([seq(config.maximumPendingBytes, _ => 0)], 0)
  }

  lemma FullBatchIsAdmitted(config: Config)
    ensures var queued := Take(Start(config, false), DoEnqueueRender(FullBatch(config), 0, 0)).s;
      && queued.active == [] && queued.pendingRender.Some? && !queued.syncSupported && !queued.needsReconciliation
      && queued.pendingRender.value.batch == FullBatch(config) && !queued.flushRequired && queued.appSync.None?
      && queued.pendingBytes == [] && queued.pendingEffects == [] && queued.pendingBells == 0
      && queued.config == config && PendingTotal(queued) == config.maximumPendingBytes
  {
    var batch := FullBatch(config);
    assert batch.transactions[1..] == [] && TotalLength(batch.transactions) == config.maximumPendingBytes;
    assert AcceptsRender(Start(config, false).s, batch);
  }

  /** A render admitted to the last byte exceeds the budget by the whole wrapper once it is switched on. */
  lemma SwitchCanExceedBudget(config: Config) returns (steps: seq<Step>)
    ensures steps == [DoEnqueueRender(FullBatch(config), 0, 0), DoSetSyncSupported(true)]
    ensures PendingTotal(Run(Start(config, false), steps).s) == config.maximumPendingBytes + SYNC_WRAPPER_BYTES
  {
    hide EnqueueRender;
    steps := [DoEnqueueRender(FullBatch(config), 0, 0), DoSetSyncSupported(true)];
    FullBatchIsAdmitted(config);
    RunTwo(Start(config, false), steps[0], steps[1]);
  }

  lemma FullBatchBytes(config: Config)
    ensures |RenderBytes(FullBatch(config), true)| == config.maximumPendingBytes + SYNC_WRAPPER_BYTES
  {
    var bytes: Bytes := FullBatch(config).transactions[0];
    PlainBytesPass(bytes, 0, |bytes|);
    assert bytes[0..] == bytes && bytes[0..|bytes|] == bytes && bytes[|bytes|..] == [];
    assert FullBatch(config).transactions[1..] == [];
    assert StripMarkers(bytes) == bytes + [];
  }

  lemma BlockedDrainActivates(w: World)
    requires !w.s.needsReconciliation && !w.s.flushRequired && w.s.appSync.None?
    requires w.s.active == [] && w.s.pendingRender.Some? && w.s.pendingBytes == [] && w.s.pendingEffects == []
    requires w.s.pendingBells == 0 && |RenderBytes(w.s.pendingRender.value.batch, w.s.syncSupported)| > 0
    ensures var s := Drain(w, 0, true, []).turn.s;
      && s.pendingRender.None? && s.syncSupported == w.s.syncSupported
      && PendingTotal(s) == |RenderBytes(w.s.pendingRender.value.batch, w.s.syncSupported)|
  {
    hide RenderBytes;
    var bytes := RenderBytes(w.s.pendingRender.value.batch, w.s.syncSupported);
    var s := w.s.(waitingForWritable := false);
    var activated := ActivatePending(s);
    assert activated.active == [Unstarted(Render, bytes).(completedRender := Some(Track(s.pendingRender.value)))];
    assert activated.active[1..] == [];
    assert Remaining(activated.active[0]) == bytes;
    assert LeftOver(activated.active) == |bytes|;
  }

  /**
    * The excess can outlive the wrapper: once the wrapped render is a transaction, switching the
    * wrapper off again takes nothing back.
    */
  lemma ExcessOutlivesTheWrapper(config: Config) returns (steps: seq<Step>)
    ensures var s := Run(Start(config, false), steps).s;
      !s.syncSupported && s.pendingRender.None? && PendingTotal(s) == config.maximumPendingBytes + SYNC_WRAPPER_BYTES
  {
    hide EnqueueRender, Drain, RenderBytes;
    var two := SwitchCanExceedBudget(config);
    var drain, off := DoDrain(0, true, []), DoSetSyncSupported(false);
    FullBatchIsAdmitted(config);
    FullBatchBytes(config);
    RunTwo(Start(config, false), two[0], two[1]);
    var wrapped := Run(Start(config, false), two);
    steps := two + [drain, off];
    RunAppend(Start(config, false), two, [drain, off]);
    RunTwo(wrapped, drain, off);
    BlockedDrainActivates(wrapped);
  }

  lemma {:induction false} RunAppend(w: World, a: seq<Step>, b: seq<Step>)
    ensures Run(w, a + b) == Run(Run(w, a), b)
    decreases |a|
  {
    hide Take;
    if a == [] {
      assert a + b == b;
    } else {
      assert (a + b)[0] == a[0] && (a + b)[1..] == a[1..] + b;
      RunAppend(Take(w, a[0]), a[1..], b);
    }
  }

  // ----- every other step keeps the budget -----

  lemma WroteFrontShrinks(t: Turn, written: nat)
    requires t.s.active != [] && written <= |Remaining(t.s.active[0])|
    ensures PendingTotal(WroteFront(t, written).s) <= PendingTotal(t.s)
  {
    assert WroteFront(t, written).s.active[1..] == t.s.active[1..];
  }

  lemma {:induction false} CompleteRendersShrinks(t: Turn)
    ensures PendingTotal(CompleteRenders(t).s) == PendingTotal(t.s)
    decreases |t.s.awaitingRenders|
  {
    if t.s.awaitingRenders != [] {
      CompleteRendersShrinks(ReportOldest(t));
    }
  }

  lemma CompleteAwaitingShrinks(t: Turn)
    ensures PendingTotal(CompleteAwaiting(t).s) == PendingTotal(t.s)
  {
    hide CompleteRenders;
    CompleteRendersShrinks(t);
  }

  lemma FailedIsEmpty(t: Turn)
    ensures PendingTotal(FailTurn(t).s) == 0
  {
  }

  lemma {:induction false} FlushWriterShrinks(t: Turn)
    ensures PendingTotal(FlushWriter(t).turn.s) <= PendingTotal(t.s)
    decreases |t.replies|
  {
    hide CompleteAwaiting;
    var rest := t.(replies := Later(t.replies));
    match Next(t.replies)
    case Accept(_) =>
      CompleteAwaitingShrinks(rest.(s := rest.s.(flushRequired := false), log := rest.log.(flushed := |rest.log.accepted|)));
    case Interrupted => FlushWriterShrinks(rest);
    case WouldBlock =>
    case Failure => FailedIsEmpty(rest);
  }

  function ExitTurn(exit: LoopExit): Turn {
    match exit
    case Stopped(turn, _) => turn
    case Left(progress) => progress.turn
  }

  lemma {:induction false} WriteLoopShrinks(t: Turn, budget: nat, finishStartedOnly: bool)
    ensures PendingTotal(ExitTurn(WriteLoop(t, budget, finishStartedOnly)).s) <= PendingTotal(t.s)
    decreases |t.replies|, |t.s.active|, 1
  {
    if t.report.bytesWritten >= budget || t.s.active == [] || (finishStartedOnly && t.s.active[0].offset == 0) {
    } else if Remaining(t.s.active[0]) == [] {
      if !ReachesBypass(t.s, t.s.active[0]) {
        WriteLoopShrinks(PopFront(t), budget, finishStartedOnly);
      }
    } else {
      WriteAttemptShrinks(t, budget, finishStartedOnly);
    }
  }

  lemma {:induction false} WriteAttemptShrinks(t: Turn, budget: nat, finishStartedOnly: bool)
    requires t.report.bytesWritten < budget && t.s.active != []
    requires !(finishStartedOnly && t.s.active[0].offset == 0) && Remaining(t.s.active[0]) != []
    ensures PendingTotal(ExitTurn(WriteLoop(t, budget, finishStartedOnly)).s) <= PendingTotal(t.s)
    decreases |t.replies|, |t.s.active|, 0
  {
    hide FailTurn, LeftOver, TotalLength, EffectBytes;
    var offered := Min(|Remaining(t.s.active[0])|, budget - t.report.bytesWritten);
    var rest := t.(replies := Later(t.replies));
    match Next(t.replies)
    case Accept(count) =>
      if count == 0 {
        FailedIsEmpty(rest);
      } else {
        WroteFrontShrinks(rest, Min(count, offered));
        WriteLoopShrinks(WroteFront(rest, Min(count, offered)), budget, finishStartedOnly);
      }
    case Interrupted => WriteLoopShrinks(rest, budget, finishStartedOnly);
    case WouldBlock =>
    case Failure => FailedIsEmpty(rest);
  }

  lemma {:induction false} PopFinishedShrinks(t: Turn, atBypass: bool)
    ensures PendingTotal(PopFinished(t, atBypass).s) <= PendingTotal(t.s)
    decreases |t.s.active|
  {
    if !(atBypass || t.s.active == [] || Remaining(t.s.active[0]) != []) {
      PopFinishedShrinks(PopFront(t), ReachesBypass(t.s, t.s.active[0]));
    }
  }

  lemma SettleShrinks(t: Turn)
    ensures PendingTotal(Settle(t).turn.s) <= PendingTotal(t.s)
  {
    hide FlushWriter, CompleteAwaiting, PendingTotal;
    FlushWriterShrinks(t);
    var fence := FlushIfRequired(t);
    if fence.Continue? {
      CompleteAwaitingShrinks(fence.turn);
    }
  }

  lemma WriteOutShrinks(t: Turn, finishStartedOnly: bool)
    requires TurnInv(t)
    ensures PendingTotal(WriteOut(t, finishStartedOnly).turn.s) <= PendingTotal(t.s)
  {
    hide WriteLoop, PopFinished, Settle, ActivatePending, PendingTotal;
    var activated := t.(s := ActivatePending(t.s));
    ActivatePendingKeeps(World(t.s, t.log));
    WriteLoopShrinks(activated, Max(t.s.config.writeBudgetBytes, 1), finishStartedOnly);
    match WriteLoop(activated, Max(t.s.config.writeBudgetBytes, 1), finishStartedOnly)
    case Left(_) =>
    case Stopped(stopped, atBypass) =>
      PopFinishedShrinks(stopped, atBypass);
      SettleShrinks(PopFinished(stopped, atBypass));
  }

  /** Draining only ever gives bytes away. */
  lemma DrainShrinks(w: World, now: nat, force: bool, replies: seq<Reply>)
    requires Inv(w)
    ensures PendingTotal(Drain(w, now, force, replies).turn.s) <= PendingTotal(w.s)
  {
    hide FlushWriter, WriteOut, ReleaseHold, WorldOrder, TokenInv, BudgetInv, WakeInv, LeftOver, TotalLength, EffectBytes;
    var forced := Turn(if force then w.s.(waitingForWritable := false) else w.s, w.log, replies, EMPTY_REPORT);
    WaitingKeeps(w);
    assert TurnInv(forced);
    FlushWriterShrinks(forced);
    FlushIfRequiredExtends(forced);
    var fence := FlushIfRequired(forced);
    if fence.Continue? {
      ReleaseHoldKeeps(fence.turn, now);
      ReleaseHoldFrame(fence.turn, now);
      WriteOutShrinks(ReleaseHold(fence.turn, now), Holds(fence.turn.s, now, force));
    }
  }

  lemma ReleaseHoldFrame(t: Turn, now: nat)
    ensures PendingTotal(ReleaseHold(t, now).s) == PendingTotal(t.s)
  {
  }

  lemma PruningShrinks(s: Scheduler, s': Scheduler, keep: ActiveTransaction -> bool)
    requires s'.active == Filter(s.active, keep) && forall t :: t in s.active && t.offset > 0 ==> keep(t)
    ensures LeftOver(s'.active) <= LeftOver(s.active)
  {
    FilterPrunes(s.active, keep);
    PrunedSizes(s'.active, s.active);
  }

  lemma EnqueueBytesFits(w: World, bytes: Bytes, now: nat)
    requires Inv(w) && Fits(w.s)
    ensures Fits(EnqueueBytes(w.s, bytes, now))
  {
    hide Inv, PendingTotal, ControlFits, MakeRoom, PushControl, NotePending;
    MakeRoomFits(w, bytes);
    if AcceptsControl(w.s, bytes) {
      AdmittedBytesFit(MakeRoom(w.s, bytes), bytes, now);
    }
  }

  lemma AdmittedBytesFit(s: Scheduler, bytes: Bytes, now: nat)
    requires PendingTotal(s) + |bytes| <= s.config.maximumPendingBytes
    ensures var noted := NotePending(s, now);
      Fits(noted.(pendingBytes := PushControl(noted.pendingBytes, bytes, s.config.maximumPendingBytes)))
  {
    hide LeftOver, EffectBytes, TotalLength, PushControl;
    PushControlBytes(s.pendingBytes, bytes, s.config.maximumPendingBytes);
  }

  lemma MakeRoomFits(w: World, bytes: Bytes)
    requires Inv(w)
    ensures PendingTotal(MakeRoom(w.s, bytes)) <= PendingTotal(w.s) && MakeRoom(w.s, bytes).config == w.s.config
  {
    hide Inv, PendingTotal;
    EvictKeeps(w);
  }

  lemma CleanupFits(s: Scheduler)
    requires Fits(s)
    ensures Fits(PrepareForLifecycleCleanup(s))
  {
    PruningShrinks(s, PrepareForLifecycleCleanup(s), (t: ActiveTransaction) => t.offset > 0);
  }

  lemma EnqueueEffectFits(s: Scheduler, owner: nat, original: TerminalEvent, now: nat)
    requires Fits(s)
    ensures Fits(EnqueueEffect(s, owner, original, now))
  {
    hide SupersedeEffects, DisplaceOlder, PushEffect, PendingTotal;
    var event := Bound(original, s.config.maximumPendingBytes);
    var s1 := SupersedeEffects(s, owner, Kind(event));
    SupersedeFits(s, owner, Kind(event));
    DisplaceFits(s1, owner, event);
    PushEffectFits(DisplaceOlder(s1, owner, event), ScheduledEffect(owner, event), now);
  }

  lemma SupersedeFits(s: Scheduler, owner: nat, kind: EventKind)
    requires Fits(s)
    ensures Fits(SupersedeEffects(s, owner, kind)) && SupersedeEffects(s, owner, kind).config == s.config
  {
    if kind == TitleKind || kind == WorkingDirectoryKind {
      PruningShrinks(s, SupersedeEffects(s, owner, kind), (t: ActiveTransaction) =>
        t.offset != 0 || t.kind != Effect || !CarriesEffect(t, owner, kind));
      FilterEffectBytes(s.pendingEffects, (e: ScheduledEffect) => !SameEffect(e, owner, kind));
    }
  }

  lemma DisplaceFits(s: Scheduler, owner: nat, event: TerminalEvent)
    requires Fits(s)
    ensures Fits(DisplaceOlder(s, owner, event)) && DisplaceOlder(s, owner, event).config == s.config
  {
    WithoutFirstBytes(s.pendingEffects, owner, Kind(event));
  }

  lemma PushEffectFits(s: Scheduler, effect: ScheduledEffect, now: nat)
    requires Fits(s)
    ensures Fits(PushEffect(s, effect, now))
  {
    hide LeftOver, TotalLength;
    EffectBytesAppend(s.pendingEffects, [effect]);
    assert EffectBytes([effect]) == RetainedBytes(effect.event);
  }

  lemma EnqueueRenderFits(w: World, batch: RenderBatch, accessibility: nat, now: nat)
    requires Inv(w) && Fits(w.s)
    ensures Fits(EnqueueRender(w.s, batch, accessibility, now))
  {
    hide WorldOrder, TokenInv, WakeInv, LeftOver, TotalLength, EffectBytes;
    if AcceptsRender(w.s, batch) {
      EnqueueRenderBudget(w.s, batch, accessibility, now);
      EnqueueRenderFrame(w.s, batch, accessibility, now);
    }
  }

  lemma SmallStepsFit(w: World, step: Step)
    requires Fits(w.s)
    requires step.DoEnqueueBell? || step.DoObserve? || step.DoSetBypassed? || step.DoRecover? || step.DoNotifyWritable?
    ensures Fits(Take(w, step).s)
  {
    hide PendingTotal, EnqueueBytes, EnqueueRender, EnqueueEffect, Drain, EnqueueBell, Observe;
    match step
    case DoEnqueueBell(count, now) => BellsFit(w.s, count, now);
    case DoObserve(synchronized, didOpen, activity, now) => ObservingFits(w.s, synchronized, didOpen, activity, now);
    case _ => FlagsDoNotCount(w.s, Take(w, step).s);
  }

  lemma FlagsDoNotCount(s: Scheduler, s': Scheduler)
    requires s'.active == s.active && s'.pendingBytes == s.pendingBytes && s'.pendingRender == s.pendingRender
    requires s'.pendingEffects == s.pendingEffects && s'.pendingBells == s.pendingBells
    ensures PendingTotal(s') == PendingTotal(s)
  {
  }

  lemma ObservingFits(s: Scheduler, synchronized: bool, didOpen: bool, activity: bool, now: nat)
    requires Fits(s)
    ensures Fits(Observe(s, synchronized, didOpen, activity, now))
  {
    hide PendingTotal;
    FlagsDoNotCount(s, Observe(s, synchronized, didOpen, activity, now));
  }

  lemma BellsFit(s: Scheduler, count: nat, now: nat)
    requires Fits(s)
    ensures Fits(EnqueueBell(s, count, now))
  {
    hide LeftOver, TotalLength, EffectBytes;
  }

  /** No step but switching the wrapper on can leave the budget. */
  lemma OtherStepsKeepBudget(w: World, step: Step)
    requires Inv(w) && Fits(w.s) && !step.DoSetSyncSupported?
    ensures Fits(Take(w, step).s)
  {
    hide EnqueueBytes, EnqueueRender, EnqueueEffect, Drain, PrepareForLifecycleCleanup, Inv, PendingTotal;
    match step
    case DoEnqueueBytes(bytes, now) => EnqueueBytesFits(w, bytes, now);
    case DoCleanup => CleanupFits(w.s);
    case DoEnqueueRender(batch, accessibility, now) => EnqueueRenderFits(w, batch, accessibility, now);
    case DoEnqueueEffect(owner, event, now) => EnqueueEffectFits(w.s, owner, event, now);
    case DoDrain(now, force, replies) =>
      DrainShrinks(w, now, force, replies);
      StepKeepsConfig(w, step);
    case _ => SmallStepsFit(w, step);
  }

  // ----- over whole runs -----

  /** The retained bytes stay within the configured maximum in every state of the run. */
  predicate AlwaysFits(w: World, steps: seq<Step>)
    decreases |steps|
  {
    Fits(w.s) && (steps == [] || AlwaysFits(Take(w, steps[0]), steps[1..]))
  }

  /** Every switch of the run leaves room for the wrapper. */
  predicate SwitchesFit(w: World, steps: seq<Step>)
    decreases |steps|
  {
    steps == []
    || ((steps[0].DoSetSyncSupported? ==> SwitchFits(w.s, steps[0].supported)) && SwitchesFit(Take(w, steps[0]), steps[1..]))
  }

  lemma {:induction false} RunFitsIff(w: World, steps: seq<Step>)
    requires Inv(w) && Fits(w.s) && |w.log.offers| + |steps| < MAX_GENERATION
    ensures AlwaysFits(w, steps) <==> SwitchesFit(w, steps)
    decreases |steps|
  {
    hide Inv, Take, Fits, SwitchFits;
    if steps != [] {
      StepKeeps(w, steps[0]);
      StepFitsIff(w, steps[0]);
      if Fits(Take(w, steps[0]).s) {
        RunFitsIff(Take(w, steps[0]), steps[1..]);
      } else {
        NeverFits(Take(w, steps[0]), steps[1..]);
      }
    }
  }

  lemma NeverFits(w: World, steps: seq<Step>)
    requires !Fits(w.s)
    ensures !AlwaysFits(w, steps)
  {
  }

  lemma StepFitsIff(w: World, step: Step)
    requires Inv(w) && Fits(w.s)
    ensures Fits(Take(w, step).s) <==> (step.DoSetSyncSupported? ==> SwitchFits(w.s, step.supported))
  {
    hide Inv, Fits, SwitchFits, SetSyncSupported;
    if step.DoSetSyncSupported? {
      SwitchKeepsBudgetIff(w, step.supported);
    } else {
      OtherStepsKeepBudget(w, step);
    }
  }

  /**
    * From the start, the retained bytes stay within the maximum in every state of a run if and only if
    * every switch of the wrapper to on, with a render pending, finds room for it.
    */
  lemma BudgetHoldsIffSwitchesFit(config: Config, syncSupported: bool, steps: seq<Step>)
    requires |steps| < MAX_GENERATION
    ensures AlwaysFits(Start(config, syncSupported), steps) <==> SwitchesFit(Start(config, syncSupported), steps)
  {
    StartsWell(config, syncSupported);
    RunFitsIff(Start(config, syncSupported), steps);
  }

  // ----- bells -----

  /** The bells that are still to ring. */
  function Bells(s: Scheduler): nat {
    s.pendingBells + UnstartedBellBytes(s.active)
  }

  /** Admitting the bytes takes an eviction. */
  predicate Evicts(s: Scheduler, bytes: Bytes) {
    bytes != [] && ControlFits(s, bytes) && PendingTotal(s) + |bytes| > s.config.maximumPendingBytes
  }

  lemma {:induction false} FilterBells(active: seq<ActiveTransaction>, keep: ActiveTransaction -> bool)
    ensures (forall t :: t in active && IsUnstartedBell(t) ==> keep(t)) ==>
              UnstartedBellBytes(Filter(active, keep)) == UnstartedBellBytes(active)
    ensures (forall t :: t in active && IsUnstartedBell(t) ==> !keep(t)) ==>
              UnstartedBellBytes(Filter(active, keep)) == 0
  {
    if active != [] {
      FilterBells(active[1..], keep);
      if keep(active[0]) {
        assert ([active[0]] + Filter(active[1..], keep))[1..] == Filter(active[1..], keep);
      }
    }
  }

  lemma EvictionLosesBells(w: World)
    requires Inv(w)
    ensures Bells(Evict(w.s)) == 0
  {
    hide TokenInv, BudgetInv, WakeInv, WireInv, OrderInv, DeliveryInv;
    forall t | t in w.s.active && IsUnstartedBell(t)
      ensures !SurvivesEviction(w.s, t)
    {
      assert WellMarked(w.log.offers, t);
    }
    FilterBells(w.s.active, (t: ActiveTransaction) => SurvivesEviction(w.s, t));
  }

  /** Enqueuing control bytes keeps the bells if and only if it does not evict or there are none. */
  lemma ControlKeepsBellsIff(w: World, bytes: Bytes, now: nat)
    requires Inv(w)
    ensures Bells(EnqueueBytes(w.s, bytes, now)) == Bells(w.s) <==> !Evicts(w.s, bytes) || Bells(w.s) == 0
  {
    hide Inv, PendingTotal, ControlTotal, Evict;
    EvictionLosesBells(w);
  }

  lemma EffectsKeepBells(s: Scheduler, owner: nat, original: TerminalEvent, now: nat)
    ensures Bells(EnqueueEffect(s, owner, original, now)) == Bells(s)
  {
    hide SupersedeEffects, DisplaceOlder, PushEffect, UnstartedBellBytes;
    var event := Bound(original, s.config.maximumPendingBytes);
    var s1 := SupersedeEffects(s, owner, Kind(event));
    var s2 := DisplaceOlder(s1, owner, event);
    SupersedingKeepsBells(s, owner, Kind(event));
    QueueingEffectKeepsBells(s1, owner, event);
    PushingEffectKeepsBells(s2, ScheduledEffect(owner, event), now);
  }

  lemma SupersedingKeepsBells(s: Scheduler, owner: nat, kind: EventKind)
    ensures Bells(SupersedeEffects(s, owner, kind)) == Bells(s)
  {
    FilterBells(s.active, (t: ActiveTransaction) => t.offset != 0 || t.kind != Effect || !CarriesEffect(t, owner, kind));
  }

  lemma QueueingEffectKeepsBells(s: Scheduler, owner: nat, event: TerminalEvent)
    ensures Bells(DisplaceOlder(s, owner, event)) == Bells(s)
  {
    hide UnstartedBellBytes, RetainedEffectBytes;
  }

  lemma PushingEffectKeepsBells(s: Scheduler, effect: ScheduledEffect, now: nat)
    ensures Bells(PushEffect(s, effect, now)) == Bells(s)
  {
    hide UnstartedBellBytes, PendingTotal;
  }

  lemma {:induction false} BellsAppend(a: seq<ActiveTransaction>, b: seq<ActiveTransaction>)
    ensures UnstartedBellBytes(a + b) == UnstartedBellBytes(a) + UnstartedBellBytes(b)
  {
    if a == [] {
      assert a + b == b;
    } else {
      assert (a + b)[1..] == a[1..] + b;
      BellsAppend(a[1..], b);
    }
  }

  lemma WithdrawKeepsBells(s: Scheduler, now: nat)
    ensures Bells(WithdrawUnstartedRender(s, now)) == Bells(s)
  {
    var index := UnstartedRenderIndex(s.active);
    if index < |s.active| {
      var head, tail, render := s.active[..index], s.active[index + 1..], s.active[index];
      assert s.active == head + ([render] + tail);
      BellsAppend(head, tail);
      BellsAppend([render], tail);
      BellsAppend(head, [render] + tail);
      FilterBells(head + tail, (t: ActiveTransaction) => !IsUnstartedBell(t));
      assert UnstartedBellBytes([render]) == 0;
    }
  }

  /** A render that replaces another takes no bell with it. */
  lemma RendersKeepBells(s: Scheduler, batch: RenderBatch, accessibility: nat, now: nat)
    ensures Bells(EnqueueRender(s, batch, accessibility, now)) == Bells(s)
  {
    hide AcceptsRender, WithdrawUnstartedRender, ReplacesGeneration, BatchBytes, UnstartedBellBytes;
    WithdrawKeepsBells(s.(bypassNext := false), now);
  }

  /** Queueing anything loses bells if and only if control bytes force an eviction while there are some. */
  lemma QueueingLosesBellsIff(w: World, step: Step)
    requires Inv(w) && !step.DoDrain? && !step.DoCleanup?
    ensures Bells(Take(w, step).s) < Bells(w.s) <==>
            step.DoEnqueueBytes? && Evicts(w.s, step.bytes) && Bells(w.s) > 0
  {
    hide Inv, EnqueueBytes, EnqueueRender, EnqueueEffect, Evicts, UnstartedBellBytes, PendingTotal;
    match step
    case DoEnqueueBytes(bytes, now) =>
      ControlKeepsBellsIff(w, bytes, now);
      ControlAddsNoBells(w, bytes, now);
    case DoEnqueueRender(batch, accessibility, now) => RendersKeepBells(w.s, batch, accessibility, now);
    case DoEnqueueEffect(owner, event, now) => EffectsKeepBells(w.s, owner, event, now);
    case _ =>
  }

  lemma ControlAddsNoBells(w: World, bytes: Bytes, now: nat)
    requires Inv(w)
    ensures Bells(EnqueueBytes(w.s, bytes, now)) <= Bells(w.s)
  {
    hide Inv, PendingTotal, ControlTotal, Evict;
    EvictionLosesBells(w);
  }

  lemma FullOfBells(config: Config)
    ensures var s := EnqueueBell(Start(config, false).s, config.maximumPendingBytes, 0);
      && Bells(s) == PendingTotal(s) == config.maximumPendingBytes && s.config == config
      && (config.maximumPendingBytes > 0 ==> Evicts(s, [0]))
  {
  }

  /** When bells fill the backlog, one control byte discards them all. */
  lemma BellIsLost(config: Config) returns (steps: seq<Step>)
    requires config.maximumPendingBytes > 0
    ensures steps == [DoEnqueueBell(config.maximumPendingBytes, 0), DoEnqueueBytes([0], 0)]
    ensures Bells(Run(Start(config, false), steps[..1]).s) == config.maximumPendingBytes
    ensures Bells(Run(Start(config, false), steps).s) == 0
  {
    hide Inv, Take, Evicts, Bells, EnqueueBell, EnqueueBytes, Evict, PendingTotal, Start;
    steps := [DoEnqueueBell(config.maximumPendingBytes, 0), DoEnqueueBytes([0], 0)];
    var start := Start(config, false);
    RunTwo(start, steps[0], steps[1]);
    assert steps[..1] == [steps[0]];
    BellsGoWithTheByte(config);
  }

  lemma BellsGoWithTheByte(config: Config)
    requires config.maximumPendingBytes > 0
    ensures var ring := DoEnqueueBell(config.maximumPendingBytes, 0);
      var ringing := Take(Start(config, false), ring);
      Bells(ringing.s) == config.maximumPendingBytes && Bells(Take(ringing, DoEnqueueBytes([0], 0)).s) == 0
  {
    hide Inv, Bells, EnqueueBell, Evict, PendingTotal, ControlTotal, Evicts, EnqueueBytes;
    var start := Start(config, false);
    var ring := DoEnqueueBell(config.maximumPendingBytes, 0);
    FullOfBells(config);
    StartsWell(config, false);
    StepKeeps(start, ring);
    EvictionLosesBells(Take(start, ring));
    AdmittedByteTouchesNoBell(Take(start, ring).s);
  }

  lemma AdmittedByteTouchesNoBell(s: Scheduler)
    requires Evicts(s, [0])
    ensures Bells(EnqueueBytes(s, [0], 0)) == Bells(Evict(s))
  {
    hide Evict, UnstartedBellBytes;
  }
}
