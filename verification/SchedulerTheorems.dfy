/** The promises of the output scheduler, over every run. */
module SchedulerTheorems {
  import opened Common
  import opened TerminalEvents
  import opened SchedulerSteps
  import opened SchedulerInvariant
  import opened SchedulerQueueing
  import opened SchedulerDraining
  import opened SchedulerHistory

  // ----- every run keeps the invariant -----

  lemma StartsWell(config: Config, syncSupported: bool)
    ensures Inv(Start(config, syncSupported))
  {
  }

  lemma StepKeeps(w: World, step: Step)
    requires Inv(w) && |w.log.offers| + 1 < MAX_GENERATION
    ensures Inv(Take(w, step))
    ensures |Take(w, step).log.offers| <= |w.log.offers| + 1
  {
    hide EnqueueBytes, EnqueueRender, EnqueueEffect, Drain, Observe, SetSyncSupported, EnqueueBell, PrepareForLifecycleCleanup, SetBypassed, Recover, NotifyWritable, WorldOrder, TokenInv, BudgetInv, WakeInv, ReportExtends, TokensFollow, SyncFollows, ControlStream;
    match step
    case DoEnqueueBytes(bytes, now) => EnqueueBytesKeeps(w, bytes, now);
    case DoCleanup => CleanupKeeps(w);
    case DoEnqueueRender(batch, accessibility, now) => EnqueueRenderKeeps(w, batch, accessibility, now);
    case DoEnqueueEffect(owner, event, now) => EnqueueEffectKeeps(w, owner, event, now);
    case DoSetSyncSupported(supported) => SetSyncSupportedKeeps(w, supported);
    case DoEnqueueBell(count, now) => EnqueueBellKeeps(w, count, now);
    case DoObserve(synchronized, didOpen, activity, now) => ObserveKeeps(w, synchronized, didOpen, activity, now);
    case DoSetBypassed(bypassed) => FlagsKeep(w, bypassed);
    case DoDrain(now, force, replies) =>
      DrainKeeps(w, now, force, replies);
      DrainExtends(w, now, force, replies);
    case DoRecover => FlagsKeep(w, true);
    case DoNotifyWritable => FlagsKeep(w, true);
  }

  lemma {:induction false} RunKeeps(w: World, steps: seq<Step>)
    requires Inv(w) && |w.log.offers| + |steps| < MAX_GENERATION
    ensures Inv(Run(w, steps))
    ensures |Run(w, steps).log.offers| <= |w.log.offers| + |steps|
    decreases |steps|
  {
    if steps != [] {
      StepKeeps(w, steps[0]);
      RunKeeps(Take(w, steps[0]), steps[1..]);
    }
  }

  lemma ReachableStatesAreSound(config: Config, syncSupported: bool, steps: seq<Step>)
    requires |steps| < MAX_GENERATION
    ensures Inv(Run(Start(config, syncSupported), steps))
  {
    StartsWell(config, syncSupported);
    RunKeeps(Start(config, syncSupported), steps);
  }

  // ----- no interleaving, nothing lost -----

  /**
    * Since the last write failure, the writer has accepted exactly the finished transactions, whole
    * and in order, followed by the started part of the front one; no other transaction is started.
    */
  lemma TransactionsNeverInterleave(config: Config, syncSupported: bool, steps: seq<Step>)
    requires |steps| < MAX_GENERATION
    ensures var w := Run(Start(config, syncSupported), steps);
            && w.log.accepted == DoneBytes(w.log.done) + StartedPrefix(w.s.active)
            && (forall i :: 0 < i < |w.s.active| ==> w.s.active[i].offset == 0)
  {
    ReachableStatesAreSound(config, syncSupported, steps);
  }

  predicate Fails(w: World, step: Step) {
    step.DoDrain? && Drain(w, step.now, step.force, step.replies).Fail?
  }

  /** No write failure and no lifecycle cleanup happens in the run. */
  predicate Undisturbed(w: World, steps: seq<Step>)
    decreases |steps|
  {
    steps == []
    || (!Fails(w, steps[0]) && !steps[0].DoCleanup? && Undisturbed(Take(w, steps[0]), steps[1..]))
  }

  /** The control bytes that the operations of a run were given and admitted, in order. */
  function AdmittedControl(w: World, steps: seq<Step>): Bytes
    decreases |steps|
  {
    if steps == [] then []
    else
      (if steps[0].DoEnqueueBytes? && AcceptsControl(w.s, steps[0].bytes) then steps[0].bytes else [])
      + AdmittedControl(Take(w, steps[0]), steps[1..])
  }

  lemma StepKeepsControl(w: World, step: Step)
    requires Inv(w) && !Fails(w, step) && !step.DoCleanup?
    ensures ControlStream(Take(w, step)) == ControlStream(w) + AdmittedControl(w, [step])
  {
    hide EnqueueBytes, EnqueueRender, EnqueueEffect, Drain, Observe, SetSyncSupported, EnqueueBell, PrepareForLifecycleCleanup, SetBypassed, Recover, NotifyWritable, WorldOrder, TokenInv, BudgetInv, WakeInv, ReportExtends, TokensFollow, SyncFollows, LogExtends, ControlStream;
    if step.DoDrain? {
      DrainExtends(w, step.now, step.force, step.replies);
    } else {
      QueueingKeepsControl(w, step);
    }
    assert AdmittedControl(Take(w, step), [step][1..]) == [];
  }

  /** Admitted control bytes are never lost, duplicated or reordered by an undisturbed run. */
  lemma {:induction false} ControlBytesAreConserved(w: World, steps: seq<Step>)
    requires Inv(w) && |w.log.offers| + |steps| < MAX_GENERATION && Undisturbed(w, steps)
    ensures ControlStream(Run(w, steps)) == ControlStream(w) + AdmittedControl(w, steps)
    decreases |steps|
  {
    if steps == [] {
      assert ControlStream(w) + [] == ControlStream(w);
    } else {
      var w1 := Take(w, steps[0]);
      StepKeepsControl(w, steps[0]);
      StepKeeps(w, steps[0]);
      ControlBytesAreConserved(w1, steps[1..]);
      FirstAdmitted(w, steps);
      Reassociate(ControlStream(w), AdmittedControl(w, [steps[0]]), AdmittedControl(w1, steps[1..]));
    }
  }

  lemma FirstAdmitted(w: World, steps: seq<Step>)
    requires steps != []
    ensures AdmittedControl(w, steps) == AdmittedControl(w, [steps[0]]) + AdmittedControl(Take(w, steps[0]), steps[1..])
  {
    hide Take;
    assert [steps[0]][1..] == [];
  }

  /** From the start, the control bytes already written are a prefix of those admitted. */
  lemma WrittenControlIsAPrefix(config: Config, syncSupported: bool, steps: seq<Step>)
    requires |steps| < MAX_GENERATION && Undisturbed(Start(config, syncSupported), steps)
    ensures ControlDone(Run(Start(config, syncSupported), steps).log.done) <= AdmittedControl(Start(config, syncSupported), steps)
  {
    hide ControlStream, Inv, Run, AdmittedControl, Undisturbed;
    StartsWell(config, syncSupported);
    var start := Start(config, syncSupported);
    ControlBytesAreConserved(start, steps);
    NoControlAtStart(config, syncSupported);
    DonePrefix(Run(start, steps));
  }

  lemma NoControlAtStart(config: Config, syncSupported: bool)
    ensures ControlStream(Start(config, syncSupported)) == []
  {
  }

  lemma DonePrefix(w: World)
    ensures ControlDone(w.log.done) <= ControlStream(w)
  {
    Reassociate(ControlDone(w.log.done), ControlActive(w.s.active), Concat(w.s.pendingBytes));
  }

  // ----- receipts follow the flush -----

  /** `render` was written whole, as offered, inside the first `limit` accepted bytes. */
  ghost predicate PresentedWithin(log: Log, render: TrackedRender, limit: nat) {
    exists i ::
      && 0 <= i < |log.done|
      && log.done[i].render == Some(render)
      && IsRenderOf(log.offers, log.done[i].bytes, render)
      && |DoneBytes(log.done[..i + 1])| <= limit
  }

  /**
    * In every reachable state each render reported since the last failure was written completely,
    * with the bytes and the receipt of its own offer, before the point the last flush reached.
    */
  lemma ReceiptsFollowTheFlush(config: Config, syncSupported: bool, steps: seq<Step>)
    requires |steps| < MAX_GENERATION
    ensures var log := Run(Start(config, syncSupported), steps).log;
            && log.flushed <= |log.accepted|
            && forall r :: r in log.receipts ==> PresentedWithin(log, r, log.flushed)
  {
    ReachableStatesAreSound(config, syncSupported, steps);
    var log := Run(Start(config, syncSupported), steps).log;
    forall r | r in log.receipts
      ensures PresentedWithin(log, r, log.flushed)
    {
      assert Delivered(log, r, log.flushed);
      var i :| 0 <= i < |log.done| && log.done[i].render == Some(r) && |DoneBytes(log.done[..i + 1])| <= log.flushed;
      assert log.done[i] in log.done;
    }
  }

  /** Reported generations strictly increase over the whole run, failures included. */
  lemma ReportedGenerationsIncrease(config: Config, syncSupported: bool, steps: seq<Step>)
    requires |steps| < MAX_GENERATION
    ensures var w := Run(Start(config, syncSupported), steps);
            && Ascending(Reported(w.log))
            && AllBelow(Reported(w.log), Held(w.s.awaitingRenders, w.s.active, w.s.pendingRender))
  {
    ReachableStatesAreSound(config, syncSupported, steps);
    var w := Run(Start(config, syncSupported), steps);
    AscendingParts(Reported(w.log), Held(w.s.awaitingRenders, w.s.active, w.s.pendingRender));
  }

  ghost predicate AllBelow(earlier: seq<TrackedRender>, later: seq<TrackedRender>) {
    forall r, h :: r in earlier && h in later ==> r.generation < h.generation
  }

  lemma AscendingParts(a: seq<TrackedRender>, b: seq<TrackedRender>)
    requires Ascending(a + b)
    ensures Ascending(a) && AllBelow(a, b)
  {
    forall i, j | 0 <= i < j < |a|
      ensures a[i].generation < a[j].generation
    {
      assert (a + b)[i] == a[i] && (a + b)[j] == a[j];
    }
    forall r: TrackedRender, h: TrackedRender | r in a && h in b
      ensures r.generation < h.generation
    {
      var i :| 0 <= i < |a| && a[i] == r;
      var j :| 0 <= j < |b| && b[j] == h;
      assert (a + b)[i] == r && (a + b)[|a| + j] == h;
    }
  }

  /** A drain that does not fail reports exactly the receipts it adds, and counts exactly its bytes. */
  lemma DrainReportsItsReceipts(w: World, now: nat, force: bool, replies: seq<Reply>)
    requires Inv(w) && !Drain(w, now, force, replies).Fail?
    ensures var t := Drain(w, now, force, replies).turn;
            && w.log.receipts <= t.log.receipts
            && t.report.completedRenders == Receipts(t.log.receipts[|w.log.receipts|..])
            && w.log.accepted <= t.log.accepted
            && t.report.bytesWritten == |t.log.accepted| - |w.log.accepted|
  {
    DrainExtends(w, now, force, replies);
  }

  // ----- token ownership -----

  /** Exactly one render held by the scheduler has this generation. */
  ghost predicate OwnedByOne(s: Scheduler, generation: nat) {
    var held := Held(s.awaitingRenders, s.active, s.pendingRender);
    exists k :: 0 <= k < |held| && held[k].generation == generation
             && forall j :: 0 <= j < |held| && held[j].generation == generation ==> j == k
  }

  lemma TokensHaveOneOwner(config: Config, syncSupported: bool, steps: seq<Step>)
    requires |steps| < MAX_GENERATION
    ensures var s := Run(Start(config, syncSupported), steps).s;
            && (s.bypassGeneration.Some? ==> OwnedByOne(s, s.bypassGeneration.value))
            && (s.releaseGeneration.Some? ==> OwnedByOne(s, s.releaseGeneration.value))
  {
    ReachableStatesAreSound(config, syncSupported, steps);
    var w := Run(Start(config, syncSupported), steps);
    if w.s.bypassGeneration.Some? {
      HeldMeansOwned(w, w.s.bypassGeneration.value);
    }
    if w.s.releaseGeneration.Some? {
      HeldMeansOwned(w, w.s.releaseGeneration.value);
    }
  }

  lemma HeldMeansOwned(w: World, generation: nat)
    requires OrderInv(w.s.awaitingRenders, w.s.active, w.s.pendingRender, w.log)
    requires HoldsGeneration(w.s.awaitingRenders, w.s.active, w.s.pendingRender, generation)
    ensures OwnedByOne(w.s, generation)
  {
    var reported, held := Reported(w.log), Held(w.s.awaitingRenders, w.s.active, w.s.pendingRender);
    var r :| r in held && r.generation == generation;
    var k :| 0 <= k < |held| && held[k] == r;
    forall j | 0 <= j < |held| && held[j].generation == generation
      ensures j == k
    {
      assert (reported + held)[|reported| + j] == held[j] && (reported + held)[|reported| + k] == held[k];
    }
  }

  /**
    * How a token can end. Eviction, other operations, partial writes and blocked flushes never end
    * it: a bypass ends by its own completion, by moving to a newer render, by cleanup or by failure.
    */
  lemma BypassLasts(w: World, step: Step)
    requires Inv(w) && w.s.bypassGeneration.Some? && !Fails(w, step) && !step.DoCleanup?
    ensures var w' := Take(w, step);
            || w'.s.bypassGeneration == w.s.bypassGeneration
            || (step.DoEnqueueRender? && AcceptsRender(w.s, step.batch)
                && (w.s.bypassNext || ReplacesGeneration(w.s, w.s.bypassGeneration))
                && w'.s.bypassGeneration == Some(w.s.nextGeneration))
            || (step.DoDrain? && ReportedSince(w.log, w'.log, w.s.bypassGeneration.value))
  {
    hide Drain, EnqueueRender, EnqueueEffect, EnqueueBytes, WorldOrder, TokenInv, BudgetInv, WakeInv, ReportExtends, LogExtends, ControlStream, AcceptsRender, ReplacesGeneration, ReportedSince;
    match step
    case DoEnqueueBytes(bytes, now) => EnqueueBytesFrame(w.s, bytes, now);
    case DoEnqueueRender(batch, accessibility, now) => EnqueueRenderFrame(w.s, batch, accessibility, now);
    case DoEnqueueEffect(owner, event, now) => EnqueueEffectFrame(w.s, owner, event, now);
    case DoDrain(now, force, replies) => DrainExtends(w, now, force, replies);
    case _ =>
  }

  /** A timeout release ends, besides, when the application closes or really reopens its transaction. */
  lemma ReleaseLasts(w: World, step: Step)
    requires Inv(w) && w.s.releaseGeneration.Some? && !Fails(w, step) && !step.DoCleanup?
    requires step.DoObserve? ==> step.synchronized && !step.didOpen
    ensures var w' := Take(w, step);
            || w'.s.releaseGeneration == w.s.releaseGeneration
            || (step.DoEnqueueRender? && AcceptsRender(w.s, step.batch) && ReplacesGeneration(w.s, w.s.releaseGeneration)
                && w'.s.releaseGeneration == Some(w.s.nextGeneration))
            || (step.DoDrain? && ReportedSince(w.log, w'.log, w.s.releaseGeneration.value))
  {
    hide Drain, EnqueueRender, EnqueueEffect, EnqueueBytes, WorldOrder, TokenInv, BudgetInv, WakeInv, ReportExtends, LogExtends, ControlStream, AcceptsRender, ReplacesGeneration, ReportedSince;
    match step
    case DoEnqueueBytes(bytes, now) => EnqueueBytesFrame(w.s, bytes, now);
    case DoEnqueueRender(batch, accessibility, now) => EnqueueRenderFrame(w.s, batch, accessibility, now);
    case DoEnqueueEffect(owner, event, now) => EnqueueEffectFrame(w.s, owner, event, now);
    case DoDrain(now, force, replies) => DrainExtends(w, now, force, replies);
    case _ =>
  }

  // ----- byte budget -----

  /**
    * The backlog stays within the configured maximum, plus at most the 16 bytes of a wrapper that
    * became necessary after a render was admitted; control bytes stay within their own limit.
    */
  lemma BacklogIsBounded(config: Config, syncSupported: bool, steps: seq<Step>)
    requires |steps| < MAX_GENERATION
    ensures var s := Run(Start(config, syncSupported), steps).s;
            && PendingTotal(s) <= config.maximumPendingBytes + SYNC_WRAPPER_BYTES
            && (s.pendingRender.Some? && !s.syncSupported ==> PendingTotal(s) <= config.maximumPendingBytes)
            && ControlTotal(s) <= CONTROL_BACKLOG_LIMIT_BYTES
  {
    ReachableStatesAreSound(config, syncSupported, steps);
    StartsWell(config, syncSupported);
    ConfigNeverChanges(Start(config, syncSupported), steps);
  }

  lemma {:induction false} ConfigNeverChanges(w: World, steps: seq<Step>)
    requires Inv(w) && |w.log.offers| + |steps| < MAX_GENERATION
    ensures Run(w, steps).s.config == w.s.config
    decreases |steps|
  {
    if steps != [] {
      StepKeeps(w, steps[0]);
      StepKeepsConfig(w, steps[0]);
      ConfigNeverChanges(Take(w, steps[0]), steps[1..]);
    }
  }

  lemma StepKeepsConfig(w: World, step: Step)
    requires Inv(w)
    ensures Take(w, step).s.config == w.s.config
  {
    hide Drain, EnqueueRender, EnqueueEffect, EnqueueBytes, WorldOrder, TokenInv, BudgetInv, WakeInv, ReportExtends, TokensFollow, SyncFollows, LogExtends, ControlStream;
    match step
    case DoEnqueueBytes(bytes, now) => EnqueueBytesFrame(w.s, bytes, now);
    case DoEnqueueRender(batch, accessibility, now) => EnqueueRenderFrame(w.s, batch, accessibility, now);
    case DoEnqueueEffect(owner, event, now) => EnqueueEffectFrame(w.s, owner, event, now);
    case DoDrain(now, force, replies) => DrainExtends(w, now, force, replies);
    case _ =>
  }

  /** Turning queued work into transactions never makes the backlog larger. */
  lemma ActivationNeverGrowsTheBacklog(w: World)
    requires Inv(w)
    ensures PendingTotal(ActivatePending(w.s)) <= PendingTotal(w.s)
  {
    ActivatePendingKeeps(w);
  }
}
