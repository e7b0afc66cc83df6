/** What one drain may do: how much it writes, where it stops, what it reports and how long it holds back. */
module SchedulerDrainLaws {
  import opened Common
  import opened SchedulerSteps
  import opened SchedulerInvariant
  import opened SchedulerQueueing
  import opened SchedulerDraining
  import opened SchedulerHistory
  import opened SchedulerTheorems
  import opened SchedulerTimeliness

  // ----- tokens and flags through a drain -----

  /** A token is kept or, once its render is reported, cleared and announced; nothing else is switched. */
  ghost predicate Tracks(t: Turn, t': Turn) {
    && t'.s.appSync == t.s.appSync && t'.s.bypassNext == t.s.bypassNext && t'.s.syncSupported == t.s.syncSupported
    && t'.s.needsReconciliation == t.s.needsReconciliation && t'.s.config == t.s.config
    && t'.s.nextGeneration == t.s.nextGeneration
    && (t'.s.releaseGeneration == t.s.releaseGeneration || t'.s.releaseGeneration.None?)
    && (t'.s.bypassGeneration == t.s.bypassGeneration || t'.s.bypassGeneration.None?)
    && (t'.report.synchronizationTimedOut <==>
          t.report.synchronizationTimedOut || (t.s.releaseGeneration.Some? && t'.s.releaseGeneration.None?))
    && t'.report.bypassCompleted
       == if t.s.bypassGeneration.Some? && t'.s.bypassGeneration.None? then t.s.bypassGeneration else t.report.bypassCompleted
  }

  ghost predicate ProgressTracks(t: Turn, p: Progress) {
    !p.Fail? ==> Tracks(t, p.turn)
  }

  lemma TracksThen(a: Turn, b: Turn, c: Turn)
    requires Tracks(a, b) && Tracks(b, c)
    ensures Tracks(a, c)
  {
  }

  lemma SameIsTracked(t: Turn, t': Turn)
    requires t'.s.appSync == t.s.appSync && t'.s.bypassNext == t.s.bypassNext && t'.s.syncSupported == t.s.syncSupported
    requires t'.s.needsReconciliation == t.s.needsReconciliation && t'.s.config == t.s.config
    requires t'.s.nextGeneration == t.s.nextGeneration
    requires t'.s.releaseGeneration == t.s.releaseGeneration && t'.s.bypassGeneration == t.s.bypassGeneration
    requires t'.report.synchronizationTimedOut == t.report.synchronizationTimedOut
    requires t'.report.bypassCompleted == t.report.bypassCompleted
    ensures Tracks(t, t')
  {
  }

  lemma {:induction false} CompletingTracks(t: Turn)
    ensures Tracks(t, CompleteRenders(t))
    decreases |t.s.awaitingRenders|
  {
    if t.s.awaitingRenders == [] {
      SameIsTracked(t, t);
    } else {
      OldestTracks(t);
      CompletingTracks(ReportOldest(t));
      TracksThen(t, ReportOldest(t), CompleteRenders(t));
    }
  }

  lemma OldestTracks(t: Turn)
    requires t.s.awaitingRenders != []
    ensures Tracks(t, ReportOldest(t))
  {
  }

  lemma CompleteAwaitingTracks(t: Turn)
    ensures Tracks(t, CompleteAwaiting(t))
  {
    hide CompleteRenders;
    CompletingTracks(t);
    SameIsTracked(CompleteRenders(t), CompleteAwaiting(t));
    TracksThen(t, CompleteRenders(t), CompleteAwaiting(t));
  }

  lemma {:induction false} FlushingTracks(t: Turn)
    ensures ProgressTracks(t, FlushWriter(t))
    decreases |t.replies|
  {
    hide CompleteAwaiting, Tracks;
    var rest := t.(replies := Later(t.replies));
    SameIsTracked(t, rest);
    match Next(t.replies)
    case Accept(_) =>
      var flushed := rest.(s := rest.s.(flushRequired := false), log := rest.log.(flushed := |rest.log.accepted|));
      SameIsTracked(t, flushed);
      CompleteAwaitingTracks(flushed);
      TracksThen(t, flushed, CompleteAwaiting(flushed));
    case Interrupted =>
      FlushingTracks(rest);
      if !FlushWriter(rest).Fail? {
        TracksThen(t, rest, FlushWriter(rest).turn);
      }
    case WouldBlock => BlockingTracks(t, rest);
    case Failure =>
  }

  ghost predicate ExitTracks(t: Turn, exit: LoopExit) {
    match exit
    case Stopped(turn, _) => Tracks(t, turn)
    case Left(progress) => ProgressTracks(t, progress)
  }

  lemma ExitTracksThen(a: Turn, b: Turn, exit: LoopExit)
    requires Tracks(a, b) && ExitTracks(b, exit)
    ensures ExitTracks(a, exit)
  {
    hide Tracks;
    match exit
    case Stopped(turn, _) => TracksThen(a, b, turn);
    case Left(progress) =>
      if !progress.Fail? {
        TracksThen(a, b, progress.turn);
      }
  }

  lemma PoppingTracks(t: Turn)
    requires t.s.active != []
    ensures Tracks(t, PopFront(t))
  {
    SameIsTracked(t, PopFront(t));
  }

  lemma {:induction false} LoopTracks(t: Turn, budget: nat, finishStartedOnly: bool)
    ensures ExitTracks(t, WriteLoop(t, budget, finishStartedOnly))
    decreases |t.replies|, |t.s.active|, 1
  {
    hide Tracks;
    SameIsTracked(t, t);
    if t.report.bytesWritten >= budget || t.s.active == [] || (finishStartedOnly && t.s.active[0].offset == 0) {
    } else if Remaining(t.s.active[0]) == [] {
      PoppingTracks(t);
      if !ReachesBypass(t.s, t.s.active[0]) {
        LoopTracks(PopFront(t), budget, finishStartedOnly);
        ExitTracksThen(t, PopFront(t), WriteLoop(PopFront(t), budget, finishStartedOnly));
      }
    } else {
      AttemptTracks(t, budget, finishStartedOnly);
    }
  }

  lemma {:induction false} AttemptTracks(t: Turn, budget: nat, finishStartedOnly: bool)
    requires t.report.bytesWritten < budget && t.s.active != []
    requires !(finishStartedOnly && t.s.active[0].offset == 0) && Remaining(t.s.active[0]) != []
    ensures ExitTracks(t, WriteLoop(t, budget, finishStartedOnly))
    decreases |t.replies|, |t.s.active|, 0
  {
    hide Tracks, FailTurn, Blocked;
    var offered := Min(|Remaining(t.s.active[0])|, budget - t.report.bytesWritten);
    var rest := t.(replies := Later(t.replies));
    AnsweredTracks(t);
    match Next(t.replies)
    case Accept(count) =>
      if count != 0 {
        WritingTracks(t, rest, Min(count, offered));
        LoopTracks(WroteFront(rest, Min(count, offered)), budget, finishStartedOnly);
        ExitTracksThen(t, WroteFront(rest, Min(count, offered)), WriteLoop(WroteFront(rest, Min(count, offered)), budget, finishStartedOnly));
      }
    case Interrupted =>
      LoopTracks(rest, budget, finishStartedOnly);
      ExitTracksThen(t, rest, WriteLoop(rest, budget, finishStartedOnly));
    case WouldBlock => BlockingTracks(t, rest);
    case Failure =>
  }

  lemma AnsweredTracks(t: Turn)
    ensures Tracks(t, t.(replies := Later(t.replies)))
  {
    SameIsTracked(t, t.(replies := Later(t.replies)));
  }

  lemma WritingTracks(t: Turn, rest: Turn, written: nat)
    requires Tracks(t, rest) && rest.s.active != [] && written <= |Remaining(rest.s.active[0])|
    ensures Tracks(t, WroteFront(rest, written))
  {
    SameIsTracked(rest, WroteFront(rest, written));
    TracksThen(t, rest, WroteFront(rest, written));
  }

  lemma BlockingTracks(t: Turn, rest: Turn)
    requires Tracks(t, rest)
    ensures Tracks(t, Blocked(rest))
  {
    SameIsTracked(rest, Blocked(rest));
    TracksThen(t, rest, Blocked(rest));
  }

  lemma {:induction false} RetiringTracks(t: Turn, atBypass: bool)
    ensures Tracks(t, PopFinished(t, atBypass))
    decreases |t.s.active|
  {
    hide Tracks;
    SameIsTracked(t, t);
    if !(atBypass || t.s.active == [] || Remaining(t.s.active[0]) != []) {
      PoppingTracks(t);
      RetiringTracks(PopFront(t), ReachesBypass(t.s, t.s.active[0]));
      TracksThen(t, PopFront(t), PopFinished(t, atBypass));
    }
  }

  lemma SettlingTracks(t: Turn)
    ensures ProgressTracks(t, Settle(t))
  {
    hide Tracks, FlushWriter, CompleteAwaiting;
    SameIsTracked(t, t);
    FlushingTracks(t);
    var fence := FlushIfRequired(t);
    if fence.Continue? {
      ConcludingTracks(fence.turn);
      TracksThen(t, fence.turn, Conclude(fence.turn));
    }
  }

  lemma ConcludingTracks(t: Turn)
    ensures Tracks(t, Conclude(t))
  {
    hide Tracks, CompleteAwaiting;
    var c := if t.s.flushRequired then t else CompleteAwaiting(t);
    SameIsTracked(t, t);
    CompleteAwaitingTracks(t);
    SameIsTracked(c, Conclude(t));
    TracksThen(t, c, Conclude(t));
  }

  lemma WriteOutTracks(t: Turn, finishStartedOnly: bool)
    ensures ProgressTracks(t, WriteOut(t, finishStartedOnly))
  {
    hide Tracks, WriteLoop, PopFinished, Settle, Activated;
    var activated := t.(s := ActivatePending(t.s));
    var budget := Max(t.s.config.writeBudgetBytes, 1);
    SameIsTracked(t, activated);
    LoopTracks(activated, budget, finishStartedOnly);
    var exit := WriteLoop(activated, budget, finishStartedOnly);
    ExitTracksThen(t, activated, exit);
    match exit
    case Left(_) =>
    case Stopped(stopped, atBypass) =>
      var finished := PopFinished(stopped, atBypass);
      RetiringTracks(stopped, atBypass);
      TracksThen(t, stopped, finished);
      SettlingTracks(finished);
      if !Settle(finished).Fail? {
        TracksThen(t, finished, Settle(finished).turn);
      }
  }

  // ----- releasing a hold -----

  /** The two bounds of a hold: a time without activity, and a time since it was opened. */
  predicate HoldOver(sync: ApplicationSync, config: Config, now: nat) {
    sync.Active? && (now >= sync.lastActivityMs + config.synchronizationTimeoutMs
                     || now >= sync.startedMs + config.synchronizationHardTimeoutMs)
  }

  /** A hold that is over is released, to the newest render held; without one the timeout is reported at once. */
  lemma ReleaseTakesTheNewest(t: Turn, now: nat)
    ensures var t', held := ReleaseHold(t, now), Held(t.s.awaitingRenders, t.s.active, t.s.pendingRender);
      if t.s.appSync.Some? && HoldOver(t.s.appSync.value, t.s.config, now) then
        && t'.s.appSync == Some(IgnoringUntilClose)
        && t'.s.releaseGeneration == (if held == [] then None else Some(held[|held| - 1].generation))
        && (t'.report.synchronizationTimedOut <==> t.report.synchronizationTimedOut || held == [])
        && t'.report.bypassCompleted == t.report.bypassCompleted && t'.s.bypassGeneration == t.s.bypassGeneration
      else t' == t
  {
    NewestIsLast(t.s);
  }

  lemma {:induction false} LastActiveIsLast(active: seq<ActiveTransaction>)
    ensures var renders := ActiveRenders(active);
      LastActiveRender(active) == if renders == [] then None else Some(renders[|renders| - 1].generation)
  {
    if active != [] {
      var front, last := active[..|active| - 1], active[|active| - 1];
      LastActiveIsLast(front);
      assert active == front + [last] && [last][1..] == [];
      ActiveRendersAppend(front, [last]);
    }
  }

  lemma NewestIsLast(s: Scheduler)
    ensures var held := Held(s.awaitingRenders, s.active, s.pendingRender);
      NewestRender(s) == if held == [] then None else Some(held[|held| - 1].generation)
  {
    LastActiveIsLast(s.active);
  }

  // ----- the hold lasts -----

  /**
    * A hold lasts. As long as neither of its bounds has passed, an unforced drain without a bypass
    * writes nothing but the rest of a transaction that had begun, starts and activates nothing, and,
    * unless the writer fails, leaves the hold as it was.
    */
  lemma HoldLasts(w: World, startedMs: nat, lastActivityMs: nat, now: nat, replies: seq<Reply>)
    requires Inv(w) && w.s.appSync == Some(Active(startedMs, lastActivityMs)) && w.s.bypassGeneration.None?
    requires now < lastActivityMs + w.s.config.synchronizationTimeoutMs
    requires now < startedMs + w.s.config.synchronizationHardTimeoutMs
    ensures var p := Drain(w, now, false, replies);
            if p.Fail? then FailedWritingOnlyStarted(Turn(w.s, w.log, replies, EMPTY_REPORT), p.turn)
            else p.turn.log.accepted <= w.log.accepted + StartedRest(w.s.active) && SameQueues(w.s, p.turn.s)
                 && p.turn.s.appSync == w.s.appSync
  {
    hide Inv, WriteOut, FlushWriter, Tracks;
    HoldKeepsUnstartedWorkBack(w, now, replies);
    var start := Turn(w.s, w.log, replies, EMPTY_REPORT);
    if !(w.s.needsReconciliation || w.s.waitingForWritable) {
      SameIsTracked(start, start);
      FlushingTracks(start);
      var fence := FlushIfRequired(start);
      if fence.Continue? {
        TrackedSync(start, fence.turn);
        WriteOutTracks(fence.turn, true);
        if !WriteOut(fence.turn, true).Fail? {
          TrackedSync(fence.turn, WriteOut(fence.turn, true).turn);
        }
        HeldDrain(fence.turn, now);
      } else if !fence.Fail? {
        TrackedSync(start, fence.turn);
      }
    }
  }

  lemma TrackedSync(t: Turn, t': Turn)
    requires Tracks(t, t')
    ensures t'.s.appSync == t.s.appSync && t'.s.config == t.s.config
    ensures t.s.bypassGeneration.None? ==> t'.s.bypassGeneration.None?
  {
  }

  lemma HeldDrain(t: Turn, now: nat)
    requires t.s.appSync.Some? && t.s.appSync.value.Active? && !HoldOver(t.s.appSync.value, t.s.config, now)
    requires t.s.bypassGeneration.None?
    ensures AfterFence(t, now, false) == Return(t)
            || (t.s.active != [] && AfterFence(t, now, false) == WriteOut(t, true))
  {
    hide WriteOut;
  }

  /** A drain that passes its flush at or after either bound releases the hold. */
  lemma EitherBoundEndsHold(w: World, step: Step)
    requires Inv(w) && PassesFlush(w, step) && !Fails(w, step)
    requires w.s.appSync.Some? && HoldOver(w.s.appSync.value, w.s.config, step.now)
    ensures Take(w, step).s.appSync == Some(IgnoringUntilClose)
  {
    hide Inv, WriteOut, FlushWriter, Tracks;
    var forced := Turn(if step.force then w.s.(waitingForWritable := false) else w.s, w.log, step.replies, EMPTY_REPORT);
    SameIsTracked(forced, forced);
    FlushingTracks(forced);
    var fenced := FlushIfRequired(forced).turn;
    TrackedSync(forced, fenced);
    ReleaseTakesTheNewest(fenced, step.now);
    var released := ReleaseHold(fenced, step.now);
    WriteOutTracks(released, Holds(fenced.s, step.now, step.force));
    if !WriteOut(released, Holds(fenced.s, step.now, step.force)).Fail? {
      TrackedSync(released, WriteOut(released, Holds(fenced.s, step.now, step.force)).turn);
    }
  }

  // ----- what a drain reports of the tokens -----

  /**
    * A drain announces a completed bypass exactly when it clears that token, and a timeout exactly
    * when it clears a release token, whether set before or by its own release, or releases nothing.
    */
  lemma DrainAnnouncesTokens(w: World, now: nat, force: bool, replies: seq<Reply>)
    requires Inv(w) && !Drain(w, now, force, replies).Fail?
    ensures var t := Drain(w, now, force, replies).turn;
      && t.report.bypassCompleted
         == (if w.s.bypassGeneration.Some? && t.s.bypassGeneration.None? then w.s.bypassGeneration else None)
      && (t.report.synchronizationTimedOut <==>
            (w.s.releaseGeneration.Some? || t.s.appSync != w.s.appSync) && t.s.releaseGeneration.None?)
  {
    hide WriteOut, FlushWriter, ReleaseHold, Holds, TooEarly, Inv, Tracks;
    var forced := Turn(if force then w.s.(waitingForWritable := false) else w.s, w.log, replies, EMPTY_REPORT);
    ReleasedIsIgnoring(w);
    SameIsTracked(forced, forced);
    NothingAnnounced(forced, forced);
    if !(w.s.needsReconciliation || (w.s.waitingForWritable && !force)) {
      FlushingTracks(forced);
      var fence := FlushIfRequired(forced);
      if fence.Return? {
        NothingAnnounced(forced, fence.turn);
      } else if fence.Continue? {
        var released := ReleaseHold(fence.turn, now);
        SameIsTracked(released, released);
        NothingAnnounced(forced, fence.turn);
        TokensAnnounced(forced, fence.turn, now, released);
        var written := WriteOut(released, Holds(fence.turn.s, now, force));
        WriteOutTracks(released, Holds(fence.turn.s, now, force));
        if !written.Fail? {
          TokensAnnounced(forced, fence.turn, now, written.turn);
        }
      }
    }
  }

  lemma ReleasedIsIgnoring(w: World)
    requires Inv(w)
    ensures w.s.releaseGeneration.Some? ==> w.s.appSync == Some(IgnoringUntilClose)
  {
    hide WorldOrder, BudgetInv, WakeInv, HoldsGeneration;
  }

  ghost predicate Announces(s: Scheduler, t: Turn) {
    && t.report.bypassCompleted
       == (if s.bypassGeneration.Some? && t.s.bypassGeneration.None? then s.bypassGeneration else None)
    && (t.report.synchronizationTimedOut <==>
          (s.releaseGeneration.Some? || t.s.appSync != s.appSync) && t.s.releaseGeneration.None?)
  }

  lemma NothingAnnounced(start: Turn, t: Turn)
    requires start.report == EMPTY_REPORT && Tracks(start, t)
    ensures Announces(start.s, t)
  {
  }

  lemma TokensAnnounced(start: Turn, fence: Turn, now: nat, t: Turn)
    requires start.report == EMPTY_REPORT && (start.s.releaseGeneration.Some? ==> start.s.appSync == Some(IgnoringUntilClose))
    requires Tracks(start, fence) && Tracks(ReleaseHold(fence, now), t)
    ensures Announces(start.s, t)
  {
    hide ReleaseHold;
    ReleaseTakesTheNewest(fence, now);
  }

  // ----- observations -----

  /**
    * Output inside an application transaction, seen at `seenMs`, opens a hold or extends it: until the
    * idle time after it, and the hard time after the hold was opened, an unforced drain without a
    * bypass writes nothing that had not begun.
    */
  lemma ObservedHoldLasts(w: World, didOpen: bool, activity: bool, seenMs: nat, now: nat, replies: seq<Reply>)
    requires Inv(w) && w.s.bypassGeneration.None?
    requires match w.s.appSync
             case None => true
             case Some(IgnoringUntilClose) => didOpen
             case Some(Active(_, _)) => activity
    requires now < seenMs + w.s.config.synchronizationTimeoutMs
    requires w.s.appSync.Some? && w.s.appSync.value.Active? ==>
               now < w.s.appSync.value.startedMs + w.s.config.synchronizationHardTimeoutMs
    requires !(w.s.appSync.Some? && w.s.appSync.value.Active?) ==> now < seenMs + w.s.config.synchronizationHardTimeoutMs
    ensures var held := Take(w, DoObserve(true, didOpen, activity, seenMs));
            var p := Drain(held, now, false, replies);
            if p.Fail? then FailedWritingOnlyStarted(Turn(held.s, held.log, replies, EMPTY_REPORT), p.turn)
            else p.turn.log.accepted <= w.log.accepted + StartedRest(w.s.active) && SameQueues(w.s, p.turn.s)
                 && p.turn.s.appSync.Some? && p.turn.s.appSync.value.Active?
  {
    hide Inv, Drain;
    var held := Take(w, DoObserve(true, didOpen, activity, seenMs));
    ObserveKeeps(w, true, didOpen, activity, seenMs);
    ObservationOpens(w.s, didOpen, activity, seenMs);
    HoldLasts(held, held.s.appSync.value.startedMs, held.s.appSync.value.lastActivityMs, now, replies);
  }

  lemma ObservationOpens(s: Scheduler, didOpen: bool, activity: bool, seenMs: nat)
    requires match s.appSync
             case None => true
             case Some(IgnoringUntilClose) => didOpen
             case Some(Active(_, _)) => activity
    ensures var s' := Observe(s, true, didOpen, activity, seenMs);
      && s'.appSync == Some(Active(if s.appSync.Some? && s.appSync.value.Active? then s.appSync.value.startedMs else seenMs, seenMs))
      && SameQueues(s, s') && s'.active == s.active && s'.config == s.config && s'.bypassGeneration == s.bypassGeneration
  {
  }

  /** Without activity nothing is extended, a released hold stays released, and a close ends everything at once. */
  lemma ObservationsThatDoNotExtend(s: Scheduler, didOpen: bool, activity: bool, seenMs: nat)
    ensures s.appSync.Some? && s.appSync.value.Active? && !activity ==> Observe(s, true, didOpen, activity, seenMs) == s
    ensures s.appSync == Some(IgnoringUntilClose) && !didOpen ==> Observe(s, true, didOpen, activity, seenMs) == s
    ensures Observe(s, false, didOpen, activity, seenMs) == s.(appSync := None, bypassNext := false, releaseGeneration := None)
  {
  }

  // ----- where a drain stops -----

  /** The render that had the bypass is out, and it is the last thing that is. */
  ghost predicate BypassOut(t: Turn, t': Turn) {
    && |t.log.done| < |t'.log.done|
    && var last := t'.log.done[|t'.log.done| - 1];
       last.render.Some? && t.s.bypassGeneration == Some(last.render.value.generation)
  }

  /** Among the transactions finished between the two turns, the one with the bypass is the last. */
  ghost predicate BypassIsLast(t: Turn, t': Turn) {
    && t.log.done <= t'.log.done
    && forall i :: |t.log.done| <= i < |t'.log.done| - 1 ==>
         t'.log.done[i].render.Some? ==> t.s.bypassGeneration != Some(t'.log.done[i].render.value.generation)
  }

  ghost predicate StopsForAReason(t: Turn, t': Turn, budget: nat, finishStartedOnly: bool) {
    || BypassOut(t, t')
    || t'.report.bytesWritten >= budget
    || t'.s.active == []
    || (finishStartedOnly && t'.s.active[0].offset == 0)
  }

  ghost predicate ExitLaw(t: Turn, exit: LoopExit, budget: nat, finishStartedOnly: bool) {
    match exit
    case Stopped(turn, atBypass) =>
      && StopsForAReason(t, turn, budget, finishStartedOnly) && BypassIsLast(t, turn)
      && (BypassOut(t, turn) ==> atBypass) && turn.s.bypassGeneration == t.s.bypassGeneration
      && turn.report.bytesWritten <= Max(budget, t.report.bytesWritten)
    case Left(Return(turn)) =>
      && turn.report.blocked && turn.s.waitingForWritable && BypassIsLast(t, turn) && !BypassOut(t, turn)
      && turn.report.bytesWritten <= Max(budget, t.report.bytesWritten)
    case Left(Continue(_)) => false
    case Left(Fail(_)) => true
  }

  /** A step that finishes at most one transaction, not the one with the bypass. */
  lemma ExitLawThen(t: Turn, next: Turn, exit: LoopExit, budget: nat, finishStartedOnly: bool)
    requires ExitLaw(next, exit, budget, finishStartedOnly)
    requires next.s.bypassGeneration == t.s.bypassGeneration && next.report.bytesWritten <= Max(budget, t.report.bytesWritten)
    requires t.log.done <= next.log.done && |next.log.done| <= |t.log.done| + 1 && !BypassOut(t, next)
    ensures ExitLaw(t, exit, budget, finishStartedOnly)
  {
  }

  lemma {:induction false} LoopLaw(t: Turn, budget: nat, finishStartedOnly: bool)
    ensures ExitLaw(t, WriteLoop(t, budget, finishStartedOnly), budget, finishStartedOnly)
    decreases |t.replies|, |t.s.active|, 1
  {
    if t.report.bytesWritten >= budget || t.s.active == [] || (finishStartedOnly && t.s.active[0].offset == 0) {
    } else if Remaining(t.s.active[0]) == [] {
      if !ReachesBypass(t.s, t.s.active[0]) {
        LoopLaw(PopFront(t), budget, finishStartedOnly);
        ExitLawThen(t, PopFront(t), WriteLoop(PopFront(t), budget, finishStartedOnly), budget, finishStartedOnly);
      }
    } else {
      AttemptLaw(t, budget, finishStartedOnly);
    }
  }

  lemma {:induction false} AttemptLaw(t: Turn, budget: nat, finishStartedOnly: bool)
    requires t.report.bytesWritten < budget && t.s.active != []
    requires !(finishStartedOnly && t.s.active[0].offset == 0) && Remaining(t.s.active[0]) != []
    ensures ExitLaw(t, WriteLoop(t, budget, finishStartedOnly), budget, finishStartedOnly)
    decreases |t.replies|, |t.s.active|, 0
  {
    hide ExitLaw, FailTurn;
    var offered := Min(|Remaining(t.s.active[0])|, budget - t.report.bytesWritten);
    var rest := t.(replies := Later(t.replies));
    match Next(t.replies)
    case Accept(count) =>
      if count == 0 {
        LeavingLaw(t, rest, budget, finishStartedOnly);
      } else {
        var wrote := WroteFront(rest, Min(count, offered));
        LoopLaw(wrote, budget, finishStartedOnly);
        ExitLawThen(t, wrote, WriteLoop(wrote, budget, finishStartedOnly), budget, finishStartedOnly);
      }
    case Interrupted =>
      LoopLaw(rest, budget, finishStartedOnly);
      ExitLawThen(t, rest, WriteLoop(rest, budget, finishStartedOnly), budget, finishStartedOnly);
    case WouldBlock => LeavingLaw(t, rest, budget, finishStartedOnly);
    case Failure => LeavingLaw(t, rest, budget, finishStartedOnly);
  }

  lemma LeavingLaw(t: Turn, rest: Turn, budget: nat, finishStartedOnly: bool)
    requires rest == t.(replies := Later(t.replies))
    ensures ExitLaw(t, Left(Return(Blocked(rest))), budget, finishStartedOnly)
    ensures ExitLaw(t, Left(Fail(FailTurn(rest))), budget, finishStartedOnly)
  {
  }

  lemma {:induction false} RetiringLaw(t: Turn, atBypass: bool)
    ensures var t' := PopFinished(t, atBypass);
      && t'.report == t.report && t'.s.bypassGeneration == t.s.bypassGeneration && t.log.done <= t'.log.done
      && (atBypass ==> t' == t) && BypassIsLast(t, t')
      && |t'.s.active| <= |t.s.active| && t'.s.active == t.s.active[|t.s.active| - |t'.s.active|..]
      && (BypassOut(t, t') || t'.s.active == [] || Remaining(t'.s.active[0]) != [] || atBypass)
      && (t.s.active != [] && Remaining(t.s.active[0]) != [] ==> t' == t)
    decreases |t.s.active|
  {
    if !(atBypass || t.s.active == [] || Remaining(t.s.active[0]) != []) {
      RetiringLaw(PopFront(t), ReachesBypass(t.s, t.s.active[0]));
    }
  }

  /** Settling finishes no transaction and writes no byte; unless it is blocked it says whether work is left. */
  lemma SettlingLaw(t: Turn)
    requires !Settle(t).Fail?
    ensures var t' := Settle(t).turn;
      && t'.s.active == t.s.active && t'.log.done == t.log.done && t'.report.bytesWritten == t.report.bytesWritten
      && (|| (t'.report.blocked && t'.s.waitingForWritable)
          || (t'.report.writeBudgetExhausted <==>
                t'.s.active != [] || t'.s.pendingBytes != [] || t'.s.pendingRender.Some? || t'.s.pendingEffects != []
                || t'.s.pendingBells != 0))
  {
    hide FlushWriter, CompleteRenders;
    var fence := FlushIfRequired(t);
    if t.s.flushRequired {
      FlushingFinishesNothing(t);
    }
    if fence.Continue? {
      CompletingFinishesNothing(fence.turn);
    }
  }

  lemma {:induction false} CompletingFinishesNothing(t: Turn)
    ensures var t' := CompleteRenders(t);
      && t'.s.active == t.s.active && t'.log.done == t.log.done && t'.report.bytesWritten == t.report.bytesWritten
      && SameQueues(t.s, t'.s) && t'.log.accepted == t.log.accepted && t'.log.flushed == t.log.flushed
    decreases |t.s.awaitingRenders|
  {
    if t.s.awaitingRenders != [] {
      CompletingFinishesNothing(ReportOldest(t));
    }
  }

  lemma {:induction false} FlushingFinishesNothing(t: Turn)
    requires !FlushWriter(t).Fail?
    ensures var p := FlushWriter(t);
      && p.turn.s.active == t.s.active && p.turn.log.done == t.log.done && p.turn.report.bytesWritten == t.report.bytesWritten
      && (p.Return? ==> p.turn.report.blocked && p.turn.s.waitingForWritable)
    decreases |t.replies|
  {
    hide CompleteRenders;
    var rest := t.(replies := Later(t.replies));
    match Next(t.replies)
    case Accept(_) =>
      CompletingFinishesNothing(rest.(s := rest.s.(flushRequired := false), log := rest.log.(flushed := |rest.log.accepted|)));
    case Interrupted => FlushingFinishesNothing(rest);
    case _ =>
  }

  /** How a write loop that stopped in order goes on to the end of the drain. */
  lemma EndingLaw(t: Turn, stopped: Turn, atBypass: bool, budget: nat, finishStartedOnly: bool)
    requires ExitLaw(t, Stopped(stopped, atBypass), budget, finishStartedOnly) && OnlyFrontStarted(stopped.s.active)
    requires !Settle(PopFinished(stopped, atBypass)).Fail?
    ensures var t' := Settle(PopFinished(stopped, atBypass)).turn;
      && t'.report.bytesWritten <= Max(budget, t.report.bytesWritten) && BypassIsLast(t, t')
      && StopsForAReason(t, t', budget, finishStartedOnly)
  {
    hide PopFinished, Settle;
    var finished := PopFinished(stopped, atBypass);
    RetiringLaw(stopped, atBypass);
    SettlingLaw(finished);
    StoppedThenRetired(t, stopped, finished, atBypass, budget, finishStartedOnly);
  }

  ghost predicate DrainLaw(t: Turn, t': Turn, budget: nat, finishStartedOnly: bool) {
    && t'.report.bytesWritten <= budget && BypassIsLast(t, t')
    && ((t'.report.blocked && t'.s.waitingForWritable) || StopsForAReason(t, t', budget, finishStartedOnly))
  }

  ghost predicate ProgressLaw(t: Turn, p: Progress, budget: nat, finishStartedOnly: bool) {
    !p.Fail? ==> DrainLaw(t, p.turn, budget, finishStartedOnly)
  }

  /** The rest of the drain after the write loop. */
  function Ended(exit: LoopExit): Progress {
    match exit
    case Left(progress) => progress
    case Stopped(stopped, atBypass) => Settle(PopFinished(stopped, atBypass))
  }

  lemma ActivatedLaw(t: Turn, budget: nat, finishStartedOnly: bool)
    requires TurnInv(t) && t.report.bytesWritten == 0
    ensures ProgressLaw(t, Ended(WriteLoop(t, budget, finishStartedOnly)), budget, finishStartedOnly)
  {
    hide WriteLoop, PopFinished, Settle, TokenInv, BudgetInv, WakeInv, OrderInv, MarkInv, DeliveryInv, StopsForAReason, BypassIsLast;
    WriteLoopKeeps(t, budget, finishStartedOnly);
    LoopLaw(t, budget, finishStartedOnly);
    match WriteLoop(t, budget, finishStartedOnly)
    case Left(_) =>
    case Stopped(stopped, atBypass) =>
      if !Settle(PopFinished(stopped, atBypass)).Fail? {
        EndingLaw(t, stopped, atBypass, budget, finishStartedOnly);
      }
  }

  lemma SameStart(t: Turn, activated: Turn, t': Turn, budget: nat, finishStartedOnly: bool)
    requires activated.log == t.log && activated.s.bypassGeneration == t.s.bypassGeneration
    requires DrainLaw(activated, t', budget, finishStartedOnly)
    ensures DrainLaw(t, t', budget, finishStartedOnly)
  {
  }

  /**
    * Writing stops for one of these reasons only: the writer blocks, the budget is used up, nothing is
    * left, the rest is held back, or the render that has the bypass is out; and nothing is finished
    * after that render. It never writes more than the budget.
    */
  lemma WritingStopsForAReason(t: Turn, finishStartedOnly: bool)
    requires TurnInv(t) && !WriteOut(t, finishStartedOnly).Fail? && t.report.bytesWritten == 0
    ensures DrainLaw(t, WriteOut(t, finishStartedOnly).turn, Max(t.s.config.writeBudgetBytes, 1), finishStartedOnly)
  {
    hide WriteLoop, PopFinished, Settle, Activated, Inv, DrainLaw;
    var activated := t.(s := ActivatePending(t.s));
    var budget := Max(t.s.config.writeBudgetBytes, 1);
    ActivatePendingKeeps(World(t.s, t.log));
    ActivatedLaw(activated, budget, finishStartedOnly);
    SameStart(t, activated, WriteOut(t, finishStartedOnly).turn, budget, finishStartedOnly);
  }

  lemma StoppedThenRetired(t: Turn, stopped: Turn, finished: Turn, atBypass: bool, budget: nat, finishStartedOnly: bool)
    requires ExitLaw(t, Stopped(stopped, atBypass), budget, finishStartedOnly)
    requires finished == PopFinished(stopped, atBypass) && (atBypass ==> finished == stopped)
    requires finished.report == stopped.report && stopped.log.done <= finished.log.done && BypassIsLast(stopped, finished)
    requires |finished.s.active| <= |stopped.s.active| && OnlyFrontStarted(stopped.s.active)
    requires finished.s.active == stopped.s.active[|stopped.s.active| - |finished.s.active|..]
    requires BypassOut(stopped, finished) || finished.s.active == [] || Remaining(finished.s.active[0]) != [] || atBypass
    requires stopped.s.active != [] && Remaining(stopped.s.active[0]) != [] ==> finished == stopped
    ensures BypassIsLast(t, finished) && StopsForAReason(t, finished, budget, finishStartedOnly)
  {
    hide PopFinished, Remaining;
  }

  /**
    * A drain within its rights: at most the write budget goes out, and what is left is left because the
    * writer blocks, the budget is used up, an application hold that is not over keeps it back, it is
    * not due, or the render that has the bypass is out and must be flushed first.
    */
  lemma DrainStopsForAReason(t: Turn, now: nat, force: bool)
    requires TurnInv(t) && !AfterFence(t, now, force).Fail? && t.report.bytesWritten == 0
    ensures var t', budget := AfterFence(t, now, force).turn, Max(t.s.config.writeBudgetBytes, 1);
      var holding := !force && t.s.bypassGeneration.None?
                     && t.s.appSync.Some? && t.s.appSync.value.Active? && !HoldOver(t.s.appSync.value, t.s.config, now);
      var early := !force && t.s.active == [] && t.s.pendingSinceMs.Some?
                   && now < t.s.pendingSinceMs.value + t.s.config.latencyBudgetMs;
      && t'.report.bytesWritten <= budget && BypassIsLast(t, t')
      && (|| early || (t'.report.blocked && t'.s.waitingForWritable)
          || StopsForAReason(t, t', budget, holding))
  {
    hide WriteOut, Inv, BypassIsLast;
    var released := ReleaseHold(t, now);
    var holds := Holds(t.s, now, force);
    ReleaseHoldKeeps(t, now);
    ReleaseTakesTheNewest(t, now);
    NothingFinished(t, released);
    if !(holds && !(t.s.active != [] && t.s.active[0].offset > 0)) && !TooEarly(released.s, now, force) {
      WritingStopsForAReason(released, holds);
      SameStart(t, released, WriteOut(released, holds).turn, Max(t.s.config.writeBudgetBytes, 1), holds);
    }
  }

  lemma NothingFinished(t: Turn, t': Turn)
    requires t'.log == t.log
    ensures BypassIsLast(t, t')
  {
  }
}
