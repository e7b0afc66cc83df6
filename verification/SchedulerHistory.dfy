/** What one operation may do to the history: bytes, receipts, control data and tokens only move forward. */
module SchedulerHistory {
  import opened Common
  import opened TerminalEvents
  import opened SchedulerSteps
  import opened SchedulerInvariant
  import opened SchedulerQueueing
  import opened SchedulerDraining

  // ----- control data -----

  function ControlDone(done: seq<Done>): Bytes {
    if done == [] then []
    else ControlDone(done[..|done| - 1]) + if done[|done| - 1].kind == Control then done[|done| - 1].bytes else []
  }

  function ControlActive(active: seq<ActiveTransaction>): Bytes {
    if active == [] then []
    else (if active[0].kind == Control then active[0].bytes else []) + ControlActive(active[1..])
  }

  /** All control bytes the scheduler is responsible for, written or not, in order. */
  function ControlStream(w: World): Bytes {
    ControlDone(w.log.done) + ControlActive(w.s.active) + Concat(w.s.pendingBytes)
  }

  lemma {:induction false} ControlActiveAppend(a: seq<ActiveTransaction>, b: seq<ActiveTransaction>)
    ensures ControlActive(a + b) == ControlActive(a) + ControlActive(b)
  {
    if a == [] {
      assert a + b == b;
    } else {
      assert (a + b)[1..] == a[1..] + b;
      ControlActiveAppend(a[1..], b);
    }
  }

  lemma {:induction false} ControlActiveFilter(active: seq<ActiveTransaction>, keep: ActiveTransaction -> bool)
    requires forall t :: t in active && t.kind == Control ==> keep(t)
    ensures ControlActive(Filter(active, keep)) == ControlActive(active)
  {
    if active != [] {
      ControlActiveFilter(active[1..], keep);
      if keep(active[0]) {
        var rest := Filter(active[1..], keep);
        assert ([active[0]] + rest)[1..] == rest;
      }
    }
  }

  lemma {:induction false} ControlActiveNone(active: seq<ActiveTransaction>)
    requires forall t :: t in active ==> t.kind != Control
    ensures ControlActive(active) == []
  {
    if active != [] {
      ControlActiveNone(active[1..]);
    }
  }

  lemma {:induction false} ControlActivated(pending: seq<Bytes>)
    ensures ControlActive(ActivateControls(pending)) == Concat(pending)
  {
    if pending != [] {
      ControlActivated(pending[1..]);
      var head, tail := [Unstarted(Control, pending[0])], ActivateControls(pending[1..]);
      assert (head + tail)[1..] == tail;
    }
  }

  lemma OthersAreNotControl(s: Scheduler)
    ensures var others := ActivateEffects(s.pendingEffects) + ActivateRender(s.pendingRender, s.syncSupported)
                          + ActivateBells(s.pendingBells);
            forall t :: t in others ==> t.kind != Control
  {
    EffectsActivated(s.pendingEffects);
  }

  lemma ActivationKeepsControl(w: World)
    ensures ControlStream(World(ActivatePending(w.s), w.log)) == ControlStream(w)
  {
    hide RenderBytes, ActivateEffects, ActivateRender, ActivateBells, ActivateControls, ControlDone, EffectBytes;
    if w.s.active == [] {
      var others := ActivateEffects(w.s.pendingEffects) + ActivateRender(w.s.pendingRender, w.s.syncSupported)
                    + ActivateBells(w.s.pendingBells);
      OthersAreNotControl(w.s);
      assert Activated(w.s) == ActivateControls(w.s.pendingBytes) + others;
      ControlActiveAppend(ActivateControls(w.s.pendingBytes), others);
      ControlActiveNone(others);
      ControlActivated(w.s.pendingBytes);
    }
  }

  lemma WithdrawKeepsControl(s: Scheduler, now: nat)
    ensures ControlActive(WithdrawUnstartedRender(s, now).active) == ControlActive(s.active)
  {
    hide Remaining, ControlActive, UnstartedRenderIndex, UnstartedBellBytes, Filter;
    var index := UnstartedRenderIndex(s.active);
    if index < |s.active| {
      var before, render, after := s.active[..index], [s.active[index]], s.active[index + 1..];
      assert s.active == before + (render + after);
      assert IsUnstartedRender(render[0]);
      ControlActiveAppend(before, render + after);
      ControlActiveAppend(render, after);
      ControlActiveNone(render);
      ControlActiveAppend(before, after);
      ControlActiveFilter(before + after, (t: ActiveTransaction) => !IsUnstartedBell(t));
    }
  }

  lemma MakeRoomControl(s: Scheduler, bytes: Bytes)
    ensures MakeRoom(s, bytes).pendingBytes == s.pendingBytes
    ensures ControlActive(MakeRoom(s, bytes).active) == ControlActive(s.active)
  {
    ControlActiveFilter(s.active, (t: ActiveTransaction) => SurvivesEviction(s, t));
  }

  lemma EnqueueBytesControl(s: Scheduler, bytes: Bytes, now: nat)
    ensures ControlActive(EnqueueBytes(s, bytes, now).active) == ControlActive(s.active)
    ensures Concat(EnqueueBytes(s, bytes, now).pendingBytes)
         == Concat(s.pendingBytes) + if AcceptsControl(s, bytes) then bytes else []
  {
    MakeRoomControl(s, bytes);
    PushControlBytes(s.pendingBytes, bytes, s.config.maximumPendingBytes);
  }

  lemma SupersedeControl(s: Scheduler, owner: nat, kind: EventKind)
    ensures ControlActive(SupersedeEffects(s, owner, kind).active) == ControlActive(s.active)
  {
    ControlActiveFilter(s.active, (t: ActiveTransaction) => t.offset != 0 || t.kind != Effect || !CarriesEffect(t, owner, kind));
  }

  lemma EffectFrame(s: Scheduler, owner: nat, event: TerminalEvent, now: nat)
    ensures DisplaceOlder(s, owner, event).active == s.active && DisplaceOlder(s, owner, event).pendingBytes == s.pendingBytes
    ensures forall effect :: PushEffect(s, effect, now).active == s.active
    ensures forall effect :: PushEffect(s, effect, now).pendingBytes == s.pendingBytes
  {
  }

  lemma EnqueueEffectControl(s: Scheduler, owner: nat, original: TerminalEvent, now: nat)
    ensures ControlActive(EnqueueEffect(s, owner, original, now).active) == ControlActive(s.active)
    ensures EnqueueEffect(s, owner, original, now).pendingBytes == s.pendingBytes
  {
    var event := Bound(original, s.config.maximumPendingBytes);
    var s1 := SupersedeEffects(s, owner, Kind(event));
    var s2 := DisplaceOlder(s1, owner, event);
    SupersedeControl(s, owner, Kind(event));
    EffectFrame(s1, owner, event, now);
    EffectFrame(s2, owner, event, now);
    assert EnqueueEffect(s, owner, original, now) == PushEffect(s2, ScheduledEffect(owner, event), now);
  }

  lemma EnqueueRenderControl(s: Scheduler, batch: RenderBatch, accessibility: nat, now: nat)
    ensures ControlActive(EnqueueRender(s, batch, accessibility, now).active) == ControlActive(s.active)
    ensures EnqueueRender(s, batch, accessibility, now).pendingBytes == s.pendingBytes
  {
    WithdrawKeepsControl(s.(bypassNext := false), now);
  }

  /** Every queueing operation except cleanup leaves the control stream alone or appends to it. */
  lemma QueueingKeepsControl(w: World, step: Step)
    requires !step.DoDrain? && !step.DoCleanup?
    ensures ControlStream(Take(w, step))
         == ControlStream(w) + if step.DoEnqueueBytes? && AcceptsControl(w.s, step.bytes) then step.bytes else []
  {
    hide EnqueueBytes, EnqueueRender, EnqueueEffect, Drain, AcceptsControl, ControlActive, Concat, ControlDone;
    match step
    case DoEnqueueBytes(bytes, now) => EnqueueBytesControl(w.s, bytes, now);
    case DoEnqueueRender(batch, accessibility, now) => EnqueueRenderControl(w.s, batch, accessibility, now);
    case DoEnqueueEffect(owner, event, now) => EnqueueEffectControl(w.s, owner, event, now);
    case _ =>
  }

  // ----- what queueing leaves alone -----

  ghost predicate SameTokens(s: Scheduler, s': Scheduler) {
    s'.config == s.config && s'.bypassGeneration == s.bypassGeneration && s'.releaseGeneration == s.releaseGeneration
    && s'.appSync == s.appSync
  }

  lemma EnqueueBytesFrame(s: Scheduler, bytes: Bytes, now: nat)
    ensures SameTokens(s, EnqueueBytes(s, bytes, now))
  {
    assert SameTokens(s, MakeRoom(s, bytes));
  }

  lemma SupersedeFrame(s: Scheduler, owner: nat, kind: EventKind)
    ensures SameTokens(s, SupersedeEffects(s, owner, kind))
  {
    hide Filter;
  }

  lemma DisplaceFrame(s: Scheduler, owner: nat, event: TerminalEvent)
    ensures SameTokens(s, DisplaceOlder(s, owner, event))
  {
    hide RetainedEffectBytes, WithoutFirst;
  }

  lemma PushEffectFrame(s: Scheduler, effect: ScheduledEffect, now: nat)
    ensures SameTokens(s, PushEffect(s, effect, now))
  {
    hide PendingTotal;
  }

  lemma EnqueueEffectFrame(s: Scheduler, owner: nat, original: TerminalEvent, now: nat)
    ensures SameTokens(s, EnqueueEffect(s, owner, original, now))
  {
    hide SupersedeEffects, DisplaceOlder, PushEffect;
    var event := Bound(original, s.config.maximumPendingBytes);
    var s1 := SupersedeEffects(s, owner, Kind(event));
    SupersedeFrame(s, owner, Kind(event));
    DisplaceFrame(s1, owner, event);
    PushEffectFrame(DisplaceOlder(s1, owner, event), ScheduledEffect(owner, event), now);
  }

  lemma EnqueueRenderFrame(s: Scheduler, batch: RenderBatch, accessibility: nat, now: nat)
    ensures var s' := EnqueueRender(s, batch, accessibility, now);
            && s'.config == s.config && s'.appSync == s.appSync
            && (s'.bypassGeneration == s.bypassGeneration
                || (AcceptsRender(s, batch) && (s.bypassNext || ReplacesGeneration(s, s.bypassGeneration))
                    && s'.bypassGeneration == Some(s.nextGeneration)))
            && (s'.releaseGeneration == s.releaseGeneration
                || (AcceptsRender(s, batch) && ReplacesGeneration(s, s.releaseGeneration)
                    && s'.releaseGeneration == Some(s.nextGeneration)))
  {
    assert SameTokens(s, NotePending(WithdrawUnstartedRender(s.(bypassNext := false), now), now));
  }

  // ----- forward motion of a drain -----

  /** `generation` was reported between the two logs. */
  ghost predicate ReportedSince(log: Log, log': Log, generation: nat) {
    exists i :: |log.receipts| <= i < |log'.receipts| && log'.receipts[i].generation == generation
  }

  function Receipts(renders: seq<TrackedRender>): seq<CompletedRender> {
    seq(|renders|, i requires 0 <= i < |renders| => Receipt(renders[i]))
  }

  ghost predicate LogExtends(log: Log, log': Log) {
    && log'.offers == log.offers && log'.earlierReceipts == log.earlierReceipts
    && log.accepted <= log'.accepted && log.done <= log'.done && log.receipts <= log'.receipts
    && log.flushed <= log'.flushed && log'.failedEpochs == log.failedEpochs
  }

  ghost predicate ReportExtends(t: Turn, t': Turn) {
    && |t'.log.accepted| - |t.log.accepted| == t'.report.bytesWritten - t.report.bytesWritten
    && |t.log.receipts| <= |t'.log.receipts|
    && t'.report.completedRenders == t.report.completedRenders + Receipts(t'.log.receipts[|t.log.receipts|..])
  }

  ghost predicate TokensFollow(t: Turn, t': Turn) {
    && (t.s.bypassGeneration.Some? ==>
          t'.s.bypassGeneration == t.s.bypassGeneration || ReportedSince(t.log, t'.log, t.s.bypassGeneration.value))
    && (t.s.releaseGeneration.Some? ==>
          t'.s.releaseGeneration == t.s.releaseGeneration || ReportedSince(t.log, t'.log, t.s.releaseGeneration.value))
  }

  /** A drain may end an application hold; it never opens, closes or restarts one. */
  ghost predicate SyncFollows(s: Scheduler, s': Scheduler) {
    || s'.appSync == s.appSync
    || (s.appSync.Some? && s.appSync.value.Active? && s'.appSync == Some(IgnoringUntilClose))
  }

  ghost predicate Extends(t: Turn, t': Turn) {
    && SyncFollows(t.s, t'.s)
    && LogExtends(t.log, t'.log)
    && ReportExtends(t, t')
    && TokensFollow(t, t')
    && ControlStream(World(t'.s, t'.log)) == ControlStream(World(t.s, t.log))
    && t'.s.config == t.s.config && t'.s.nextGeneration == t.s.nextGeneration
  }

  lemma ExtendsSelf(t: Turn, t': Turn)
    requires t'.log == t.log && t'.report.bytesWritten == t.report.bytesWritten
    requires t'.report.completedRenders == t.report.completedRenders
    requires SyncFollows(t.s, t'.s)
    requires t'.s.bypassGeneration == t.s.bypassGeneration
    requires t.s.releaseGeneration.Some? ==> t'.s.releaseGeneration == t.s.releaseGeneration
    requires ControlStream(World(t'.s, t'.log)) == ControlStream(World(t.s, t.log))
    requires t'.s.config == t.s.config && t'.s.nextGeneration == t.s.nextGeneration
    ensures Extends(t, t')
  {
    assert Receipts(t'.log.receipts[|t.log.receipts|..]) == [];
  }

  lemma ExtendsTransitive(a: Turn, b: Turn, c: Turn)
    requires Extends(a, b) && Extends(b, c)
    ensures Extends(a, c)
  {
    var first, second := b.log.receipts[|a.log.receipts|..], c.log.receipts[|b.log.receipts|..];
    assert c.log.receipts[|a.log.receipts|..] == first + second;
    assert Receipts(first + second) == Receipts(first) + Receipts(second);
    ReportsChain(a, b, c);
  }

  lemma ReportsChain(a: Turn, b: Turn, c: Turn)
    requires LogExtends(a.log, b.log) && LogExtends(b.log, c.log) && TokensFollow(a, b) && TokensFollow(b, c)
    ensures TokensFollow(a, c)
  {
    forall generation | ReportedSince(a.log, b.log, generation)
      ensures ReportedSince(a.log, c.log, generation)
    {
      var i :| |a.log.receipts| <= i < |b.log.receipts| && b.log.receipts[i].generation == generation;
      assert c.log.receipts[i] == b.log.receipts[i];
    }
    assert forall generation :: ReportedSince(b.log, c.log, generation) ==> ReportedSince(a.log, c.log, generation);
  }

  lemma ReportOldestExtends(t: Turn)
    requires t.s.awaitingRenders != []
    ensures Extends(t, ReportOldest(t))
  {
    var t' := ReportOldest(t);
    var render := t.s.awaitingRenders[0];
    assert t'.log.receipts[|t.log.receipts|] == render;
    assert t'.log.receipts[|t.log.receipts|..] == [render];
    assert Receipts([render]) == [Receipt(render)];
    assert ReportedSince(t.log, t'.log, render.generation);
  }

  lemma {:induction false} CompleteRendersExtends(t: Turn)
    ensures Extends(t, CompleteRenders(t))
    decreases |t.s.awaitingRenders|
  {
    if t.s.awaitingRenders == [] {
      ExtendsSelf(t, t);
    } else {
      ReportOldestExtends(t);
      CompleteRendersExtends(ReportOldest(t));
      ExtendsTransitive(t, ReportOldest(t), CompleteRenders(ReportOldest(t)));
    }
  }

  lemma CompleteAwaitingExtends(t: Turn)
    ensures Extends(t, CompleteAwaiting(t))
  {
    CompleteRendersExtends(t);
    ExtendsSelf(CompleteRenders(t), CompleteAwaiting(t));
    ExtendsTransitive(t, CompleteRenders(t), CompleteAwaiting(t));
  }

  ghost predicate ProgressExtends(t: Turn, p: Progress) {
    if p.Fail? then p.turn.log.offers == t.log.offers && p.turn.s.config == t.s.config else Extends(t, p.turn)
  }

  lemma ProgressChain(a: Turn, b: Turn, p: Progress)
    requires Extends(a, b) && ProgressExtends(b, p)
    ensures ProgressExtends(a, p)
  {
    if !p.Fail? {
      ExtendsTransitive(a, b, p.turn);
    }
  }

  lemma {:induction false} FlushWriterExtends(t: Turn)
    requires t.log.flushed <= |t.log.accepted|
    ensures ProgressExtends(t, FlushWriter(t))
    decreases |t.replies|
  {
    var rest := t.(replies := Later(t.replies));
    ExtendsSelf(t, rest);
    match Next(t.replies)
    case Accept(_) =>
      var flushed := rest.(s := rest.s.(flushRequired := false), log := rest.log.(flushed := |rest.log.accepted|));
      assert Receipts(flushed.log.receipts[|t.log.receipts|..]) == [];
      assert Extends(t, flushed);
      CompleteAwaitingExtends(flushed);
      ExtendsTransitive(t, flushed, CompleteAwaiting(flushed));
    case Interrupted =>
      FlushWriterExtends(rest);
      ProgressChain(t, rest, FlushWriter(rest));
    case WouldBlock =>
      ExtendsSelf(t, Blocked(rest));
    case Failure =>
  }

  lemma ControlDoneSnoc(done: seq<Done>, d: Done)
    ensures ControlDone(done + [d]) == ControlDone(done) + if d.kind == Control then d.bytes else []
  {
    assert (done + [d])[..|done|] == done;
  }

  lemma PopFrontExtends(t: Turn)
    requires t.s.active != []
    ensures Extends(t, PopFront(t))
  {
    var t' := PopFront(t);
    var front := t.s.active[0];
    ControlDoneSnoc(t.log.done, Done(front.kind, front.bytes, front.completedRender));
    assert Receipts(t'.log.receipts[|t.log.receipts|..]) == [];
    var x := if front.kind == Control then front.bytes else [];
    assert ControlDone(t.log.done) + x + ControlActive(t.s.active[1..]) == ControlDone(t.log.done) + ControlActive(t.s.active);
  }

  lemma WroteFrontExtends(t: Turn, written: nat)
    requires t.s.active != [] && written <= |Remaining(t.s.active[0])|
    ensures Extends(t, WroteFront(t, written))
  {
    var t' := WroteFront(t, written);
    assert t'.s.active[1..] == t.s.active[1..];
    assert Receipts(t'.log.receipts[|t.log.receipts|..]) == [];
  }

  ghost predicate ExitExtends(t: Turn, exit: LoopExit) {
    match exit
    case Stopped(turn, _) => Extends(t, turn)
    case Left(progress) => ProgressExtends(t, progress)
  }

  lemma ExitChain(a: Turn, b: Turn, exit: LoopExit)
    requires Extends(a, b) && ExitExtends(b, exit)
    ensures ExitExtends(a, exit)
  {
    match exit
    case Stopped(turn, _) => ExtendsTransitive(a, b, turn);
    case Left(progress) => ProgressChain(a, b, progress);
  }

  lemma {:induction false} WriteLoopExtends(t: Turn, budget: nat, finishStartedOnly: bool)
    ensures ExitExtends(t, WriteLoop(t, budget, finishStartedOnly))
    decreases |t.replies|, |t.s.active|, 1
  {
    hide Extends;
    if t.report.bytesWritten >= budget || t.s.active == [] || (finishStartedOnly && t.s.active[0].offset == 0) {
      ExtendsSelf(t, t);
    } else if Remaining(t.s.active[0]) == [] {
      PopFrontExtends(t);
      if !ReachesBypass(t.s, t.s.active[0]) {
        WriteLoopExtends(PopFront(t), budget, finishStartedOnly);
        ExitChain(t, PopFront(t), WriteLoop(PopFront(t), budget, finishStartedOnly));
      }
    } else {
      WriteAttemptExtends(t, budget, finishStartedOnly);
    }
  }

  lemma {:induction false} WriteAttemptExtends(t: Turn, budget: nat, finishStartedOnly: bool)
    requires t.report.bytesWritten < budget && t.s.active != []
    requires !(finishStartedOnly && t.s.active[0].offset == 0) && Remaining(t.s.active[0]) != []
    ensures ExitExtends(t, WriteLoop(t, budget, finishStartedOnly))
    decreases |t.replies|, |t.s.active|, 0
  {
    hide Extends, LeftOver, TotalLength, EffectBytes;
    var offered := Min(|Remaining(t.s.active[0])|, budget - t.report.bytesWritten);
    var rest := t.(replies := Later(t.replies));
    ExtendsSelf(t, rest);
    match Next(t.replies)
    case Accept(count) =>
      if count != 0 {
        var wrote := WroteFront(rest, Min(count, offered));
        WroteFrontExtends(rest, Min(count, offered));
        ExtendsTransitive(t, rest, wrote);
        WriteLoopExtends(wrote, budget, finishStartedOnly);
        ExitChain(t, wrote, WriteLoop(wrote, budget, finishStartedOnly));
      }
    case Interrupted =>
      WriteLoopExtends(rest, budget, finishStartedOnly);
      ExitChain(t, rest, WriteLoop(rest, budget, finishStartedOnly));
    case WouldBlock => ExtendsSelf(t, Blocked(rest));
    case Failure =>
  }

  lemma {:induction false} PopFinishedExtends(t: Turn, atBypass: bool)
    ensures Extends(t, PopFinished(t, atBypass))
    decreases |t.s.active|
  {
    ExtendsSelf(t, t);
    if !(atBypass || t.s.active == [] || Remaining(t.s.active[0]) != []) {
      PopFrontExtends(t);
      PopFinishedExtends(PopFront(t), ReachesBypass(t.s, t.s.active[0]));
      ExtendsTransitive(t, PopFront(t), PopFinished(t, atBypass));
    }
  }

  lemma ConcludeExtends(t: Turn)
    ensures Extends(t, Conclude(t))
  {
    var c := if t.s.flushRequired then t else CompleteAwaiting(t);
    ExtendsSelf(t, t);
    CompleteAwaitingExtends(t);
    ExtendsSelf(c, Conclude(t));
    ExtendsTransitive(t, c, Conclude(t));
  }

  lemma WriteOutExtends(t: Turn, finishStartedOnly: bool)
    requires TurnInv(t)
    ensures ProgressExtends(t, WriteOut(t, finishStartedOnly))
  {
    var activated := t.(s := ActivatePending(t.s));
    ActivationKeepsControl(World(t.s, t.log));
    ExtendsSelf(t, activated);
    var budget := Max(t.s.config.writeBudgetBytes, 1);
    ActivatePendingKeeps(World(t.s, t.log));
    WriteLoopKeeps(activated, budget, finishStartedOnly);
    WriteLoopExtends(activated, budget, finishStartedOnly);
    match WriteLoop(activated, budget, finishStartedOnly)
    case Left(progress) => ProgressChain(t, activated, progress);
    case Stopped(stopped, atBypass) =>
      var finished := PopFinished(stopped, atBypass);
      PopFinishedExtends(stopped, atBypass);
      PopFinishedKeeps(stopped, atBypass);
      ExtendsTransitive(t, activated, stopped);
      ExtendsTransitive(t, stopped, finished);
      SettleExtends(t, finished);
  }

  lemma SettleExtends(t: Turn, finished: Turn)
    requires Extends(t, finished) && finished.log.flushed <= |finished.log.accepted|
    ensures ProgressExtends(t, Settle(finished))
  {
    ExtendsSelf(finished, finished);
    FlushWriterExtends(finished);
    var fence := FlushIfRequired(finished);
    ProgressChain(t, finished, fence);
    if fence.Continue? {
      ConcludeExtends(fence.turn);
      ExtendsTransitive(t, fence.turn, Conclude(fence.turn));
    }
  }

  lemma ReleaseHoldExtends(t: Turn, now: nat)
    requires TurnInv(t)
    ensures Extends(t, ReleaseHold(t, now))
  {
    ExtendsSelf(t, ReleaseHold(t, now));
  }

  lemma AfterFenceExtends(t: Turn, now: nat, force: bool)
    requires TurnInv(t)
    ensures ProgressExtends(t, AfterFence(t, now, force))
  {
    ExtendsSelf(t, t);
    var released := ReleaseHold(t, now);
    ReleaseHoldKeeps(t, now);
    ReleaseHoldExtends(t, now);
    var holds := Holds(t.s, now, force);
    WriteOutExtends(released, holds);
    ProgressChain(t, released, WriteOut(released, holds));
  }

  lemma FlushIfRequiredExtends(t: Turn)
    requires TurnInv(t)
    ensures ProgressExtends(t, FlushIfRequired(t)) && TurnInv(FlushIfRequired(t).turn)
  {
    ExtendsSelf(t, t);
    FlushWriterExtends(t);
    FlushWriterKeeps(t);
  }

  lemma DrainExtends(w: World, now: nat, force: bool, replies: seq<Reply>)
    requires Inv(w)
    ensures ProgressExtends(Turn(w.s, w.log, replies, EMPTY_REPORT), Drain(w, now, force, replies))
  {
    var start := Turn(w.s, w.log, replies, EMPTY_REPORT);
    var forced := if force then start.(s := start.s.(waitingForWritable := false)) else start;
    ExtendsSelf(start, forced);
    ExtendsSelf(start, start);
    WaitingKeeps(w);
    FlushIfRequiredExtends(forced);
    var fence := FlushIfRequired(forced);
    ProgressChain(start, forced, fence);
    if fence.Continue? {
      AfterFenceExtends(fence.turn, now, force);
      ProgressChain(start, fence.turn, AfterFence(fence.turn, now, force));
    }
  }
}
