/** Draining keeps the invariant, stage by stage, for every sequence of writer replies. */
module SchedulerDraining {
  import opened Common
  import opened TerminalEvents
  import opened SchedulerSteps
  import opened SchedulerInvariant
  import opened SchedulerQueueing

  ghost predicate TurnInv(t: Turn) {
    Inv(World(t.s, t.log))
  }

  // ----- failure -----

  lemma FailKeepsOrder(
    awaiting: seq<TrackedRender>, active: seq<ActiveTransaction>, pending: Option<PendingRender>, log: Log)
    requires OrderInv(awaiting, active, pending, log)
    ensures OrderInv([], [], None, FailLog(log))
  {
    hide Held;
    var held := Held(awaiting, active, pending);
    assert Reported(FailLog(log)) == Reported(log);
    AscendingWithout(Reported(log), held, []);
    assert Reported(log) + held + [] == Reported(log) + held;
    NothingHeld();
    assert Reported(log) + [] == Reported(log);
  }

  lemma NothingHeld()
    ensures Held([], [], None) == []
  {
  }

  lemma FailedSchedulerIsSound(s: Scheduler)
    ensures var failed := FailScheduler(s);
      && TokenInv(failed) && BudgetInv(failed) && WakeInv(failed)
      && failed.active == [] && failed.awaitingRenders == [] && failed.pendingRender.None? && !failed.flushRequired
      && failed.nextGeneration == s.nextGeneration
  {
    hide HoldsGeneration;
  }

  lemma FailKeepsWire(log: Log)
    ensures WireInv([], false, FailLog(log)) && FailLog(log).offers == log.offers
  {
  }

  lemma FailKeepsMarks(w: World)
    requires WorldOrder(w)
    ensures MarkInv([], None, FailLog(w.log))
  {
    hide OrderInv, WireInv, DeliveryInv, WellMarked, IsRenderOf;
  }

  lemma FailKeepsDeliveries(w: World)
    requires WorldOrder(w)
    ensures DeliveryInv([], FailLog(w.log))
  {
    hide OrderInv, WireInv, MarkInv, Delivered, Genuine;
  }

  lemma FailKeepsLog(w: World)
    requires WorldOrder(w)
    ensures var log := FailLog(w.log);
      WireInv([], false, log) && MarkInv([], None, log) && DeliveryInv([], log) && log.offers == w.log.offers
  {
    hide WorldOrder, WireInv, MarkInv, DeliveryInv;
    FailKeepsWire(w.log);
    FailKeepsMarks(w);
    FailKeepsDeliveries(w);
  }

  lemma FailKeeps(t: Turn)
    requires TurnInv(t)
    ensures TurnInv(FailTurn(t))
  {
    hide OrderInv, WireInv, MarkInv, DeliveryInv, TokenInv, BudgetInv, WakeInv, FailScheduler, FailLog;
    FailKeepsOrder(t.s.awaitingRenders, t.s.active, t.s.pendingRender, t.log);
    FailKeepsLog(World(t.s, t.log));
    FailedSchedulerIsSound(t.s);
  }

  // ----- the fence -----

  lemma MoreFlushed(log: Log)
    requires forall r :: r in log.receipts ==> Delivered(log, r, log.flushed)
    requires log.flushed <= |log.accepted|
    ensures var log' := log.(flushed := |log.accepted|);
            forall r :: r in log'.receipts ==> Delivered(log', r, log'.flushed)
  {
    var log' := log.(flushed := |log.accepted|);
    forall r | r in log'.receipts
      ensures Delivered(log', r, log'.flushed)
    {
      assert Delivered(log, r, log.flushed);
      var i :| 0 <= i < |log.done| && log.done[i].render == Some(r) && |DoneBytes(log.done[..i + 1])| <= log.flushed;
      assert log'.done[i].render == Some(r) && |DoneBytes(log'.done[..i + 1])| <= log'.flushed;
    }
  }

  /** The line of generations does not depend on the bytes written or flushed. */
  lemma OrderFollowsRenders(
    awaiting: seq<TrackedRender>, active: seq<ActiveTransaction>, active': seq<ActiveTransaction>,
    pending: Option<PendingRender>, log: Log, log': Log)
    requires OrderInv(awaiting, active, pending, log)
    requires Held(awaiting, active', pending) == Held(awaiting, active, pending)
    requires Reported(log') == Reported(log) && log'.offers == log.offers
    ensures OrderInv(awaiting, active', pending, log')
  {
  }

  lemma FlushedDelivery(awaiting: seq<TrackedRender>, log: Log)
    requires DeliveryInv(awaiting, log) && log.flushed <= |log.accepted|
    ensures DeliveryInv(awaiting, log.(flushed := |log.accepted|))
  {
    MoreFlushed(log);
    var log' := log.(flushed := |log.accepted|);
    assert forall r, limit :: Delivered(log, r, limit) ==> Delivered(log', r, limit);
  }

  lemma FlushedKeeps(t: Turn)
    requires TurnInv(t)
    ensures TurnInv(t.(s := t.s.(flushRequired := false), log := t.log.(flushed := |t.log.accepted|)))
  {
    hide OrderInv, DeliveryInv, HoldsGeneration;
    var s, log, log' := t.s, t.log, t.log.(flushed := |t.log.accepted|);
    FlushedDelivery(s.awaitingRenders, log);
    OrderFollowsRenders(s.awaitingRenders, s.active, s.active, s.pendingRender, log, log');
  }

  /** Moving the oldest awaiting render to the receipts keeps the line of generations. */
  lemma ReceiptKeepsOrder(
    awaiting: seq<TrackedRender>, active: seq<ActiveTransaction>, pending: Option<PendingRender>, log: Log)
    requires awaiting != []
    requires OrderInv(awaiting, active, pending, log) && DeliveryInv(awaiting, log)
    requires log.flushed == |log.accepted|
    ensures var log' := log.(receipts := log.receipts + [awaiting[0]]);
            && OrderInv(awaiting[1..], active, pending, log')
            && DeliveryInv(awaiting[1..], log')
  {
    var log' := log.(receipts := log.receipts + [awaiting[0]]);
    assert awaiting == [awaiting[0]] + awaiting[1..];
    assert Reported(log') + Held(awaiting[1..], active, pending) == Reported(log) + Held(awaiting, active, pending);
    forall r | r in Reported(log') || r in Held(awaiting[1..], active, pending)
      ensures Genuine(log.offers, r)
    {
      assert r in Reported(log) || r in Held(awaiting, active, pending);
    }
    assert forall r, limit :: Delivered(log, r, limit) ==> Delivered(log', r, limit);
  }

  lemma TokenBeyondReceipt(
    awaiting: seq<TrackedRender>, active: seq<ActiveTransaction>, pending: Option<PendingRender>, generation: nat)
    requires awaiting != [] && awaiting[0].generation != generation
    requires HoldsGeneration(awaiting, active, pending, generation)
    ensures HoldsGeneration(awaiting[1..], active, pending, generation)
  {
    var r :| r in Held(awaiting, active, pending) && r.generation == generation;
    assert awaiting == [awaiting[0]] + awaiting[1..];
    assert r in Held(awaiting[1..], active, pending);
  }

  lemma ReportOldestTokens(s: Scheduler, s': Scheduler)
    requires TokenInv(s) && s.awaitingRenders != []
    requires s'.awaitingRenders == s.awaitingRenders[1..] && s'.active == s.active && s'.pendingRender == s.pendingRender
    requires s'.appSync == s.appSync
    requires s'.bypassGeneration
             == if s.bypassGeneration == Some(s.awaitingRenders[0].generation) then None else s.bypassGeneration
    requires s'.releaseGeneration
             == if s.releaseGeneration == Some(s.awaitingRenders[0].generation) then None else s.releaseGeneration
    ensures TokenInv(s')
  {
    if s'.bypassGeneration.Some? {
      TokenBeyondReceipt(s.awaitingRenders, s.active, s.pendingRender, s.bypassGeneration.value);
    }
    if s'.releaseGeneration.Some? {
      TokenBeyondReceipt(s.awaitingRenders, s.active, s.pendingRender, s.releaseGeneration.value);
    }
  }

  lemma ReportOldestKeeps(t: Turn)
    requires TurnInv(t) && t.s.awaitingRenders != [] && t.log.flushed == |t.log.accepted|
    ensures TurnInv(ReportOldest(t))
  {
    ReceiptKeepsOrder(t.s.awaitingRenders, t.s.active, t.s.pendingRender, t.log);
    ReportOldestTokens(t.s, ReportOldest(t).s);
  }

  lemma {:induction false} CompleteRendersKeeps(t: Turn)
    requires TurnInv(t) && t.log.flushed == |t.log.accepted|
    ensures TurnInv(CompleteRenders(t))
    decreases |t.s.awaitingRenders|
  {
    if t.s.awaitingRenders != [] {
      ReportOldestKeeps(t);
      CompleteRendersKeeps(ReportOldest(t));
    }
  }

  lemma CompleteAwaitingKeeps(t: Turn)
    requires TurnInv(t) && t.log.flushed == |t.log.accepted|
    ensures TurnInv(CompleteAwaiting(t))
  {
    hide CompleteRenders, WorldOrder, BudgetInv, WakeInv, HoldsGeneration;
    CompleteRendersKeeps(t);
    var c := CompleteRenders(t);
    SameRendersKeepTokens(c.s, c.s.(awaitingEffects := []));
    SameWorkKeeps(World(c.s, c.log), c.s.(awaitingEffects := []));
  }

  lemma BlockedKeeps(t: Turn)
    requires TurnInv(t)
    ensures TurnInv(Blocked(t))
  {
    OrderUnchanged(World(t.s, t.log), t.s.(waitingForWritable := true));
  }

  lemma {:induction false} FlushWriterKeeps(t: Turn)
    requires TurnInv(t)
    ensures TurnInv(FlushWriter(t).turn)
    decreases |t.replies|
  {
    var rest := t.(replies := Later(t.replies));
    match Next(t.replies)
    case Accept(_) =>
      FlushedKeeps(rest);
      CompleteAwaitingKeeps(rest.(s := rest.s.(flushRequired := false), log := rest.log.(flushed := |rest.log.accepted|)));
    case Interrupted => FlushWriterKeeps(rest);
    case WouldBlock => BlockedKeeps(rest);
    case Failure => FailKeeps(rest);
  }

  // ----- the hold -----

  lemma {:induction false} LastActiveRenderHeld(active: seq<ActiveTransaction>)
    ensures LastActiveRender(active).Some? ==>
              exists t :: t in active && t.completedRender.Some? && t.completedRender.value.generation == LastActiveRender(active).value
  {
    if active != [] {
      var last := active[|active| - 1];
      if last.completedRender.Some? {
        assert last in active;
      } else {
        LastActiveRenderHeld(active[..|active| - 1]);
      }
    }
  }

  lemma NewestRenderHeld(s: Scheduler)
    ensures NewestRender(s).Some? ==> HoldsGeneration(s.awaitingRenders, s.active, s.pendingRender, NewestRender(s).value)
  {
    LastActiveRenderHeld(s.active);
    if s.pendingRender.Some? {
      TokenRenderIsHeld(s.awaitingRenders, s.active, s.pendingRender, Track(s.pendingRender.value));
    } else if LastActiveRender(s.active).Some? {
      var t :| t in s.active && t.completedRender.Some? && t.completedRender.value.generation == LastActiveRender(s.active).value;
      ActiveRenderMember(s.active, t);
      TokenRenderIsHeld(s.awaitingRenders, s.active, s.pendingRender, t.completedRender.value);
    } else if s.awaitingRenders != [] {
      TokenRenderIsHeld(s.awaitingRenders, s.active, s.pendingRender, s.awaitingRenders[|s.awaitingRenders| - 1]);
    }
  }

  lemma ReleaseHoldKeeps(t: Turn, now: nat)
    requires TurnInv(t)
    ensures TurnInv(ReleaseHold(t, now))
  {
    hide WorldOrder, BudgetInv, WakeInv, HoldsGeneration, NewestRender;
    if TimedOut(t.s, now) {
      NewestRenderHeld(t.s);
      SameWorkKeeps(World(t.s, t.log), ReleaseHold(t, now).s);
    }
  }

  // ----- activation -----

  lemma {:induction false} ControlsActivated(pending: seq<Bytes>)
    ensures var a := ActivateControls(pending);
            && ActiveRenders(a) == [] && LeftOver(a) == TotalLength(pending) && ControlLeftOver(a) == TotalLength(pending)
            && (forall t :: t in a ==> t.offset == 0 && t.kind == Control && t.completedRender == None)
  {
    if pending != [] {
      ControlsActivated(pending[1..]);
      var head, tail := [Unstarted(Control, pending[0])], ActivateControls(pending[1..]);
      assert (head + tail)[1..] == tail;
    }
  }

  lemma {:induction false} EffectsActivated(effects: seq<ScheduledEffect>)
    ensures var a := ActivateEffects(effects);
            && ActiveRenders(a) == [] && LeftOver(a) <= EffectBytes(effects) && ControlLeftOver(a) == 0
            && (forall t :: t in a ==> t.offset == 0 && t.kind == Effect && t.completedRender == None)
  {
    if effects != [] {
      EffectsActivated(effects[1..]);
      EncodedEffectFits(effects[0].event);
      var head, tail := [ActivateEffect(effects[0])], ActivateEffects(effects[1..]);
      assert (head + tail)[1..] == tail;
    }
  }

  lemma RenderActivated(render: Option<PendingRender>, syncSupported: bool)
    ensures var a := ActivateRender(render, syncSupported);
            && ActiveRenders(a) == PendingRenders(render) && ControlLeftOver(a) == 0
            && (render.Some? ==> LeftOver(a) <= BatchBytes(render.value.batch, syncSupported))
            && (render.None? ==> a == [])
  {
    if render.Some? {
      var a := ActivateRender(render, syncSupported);
      assert a[1..] == [];
      assert LeftOver(a) == |RenderBytes(render.value.batch, syncSupported)|;
    }
  }

  lemma BellsActivated(count: nat)
    ensures var a := ActivateBells(count); ActiveRenders(a) == [] && LeftOver(a) == count && ControlLeftOver(a) == 0
  {
    if count > 0 {
      assert ActivateBells(count)[1..] == [];
    }
  }

  lemma ActivationSizes(s: Scheduler)
    requires BudgetInv(s)
    ensures LeftOver(Activated(s)) <= PendingTotal(s.(active := []))
    ensures ControlLeftOver(Activated(s)) == TotalLength(s.pendingBytes)
    ensures ActiveRenders(Activated(s)) == PendingRenders(s.pendingRender)
  {
    var controls, effects := ActivateControls(s.pendingBytes), ActivateEffects(s.pendingEffects);
    var render, bells := ActivateRender(s.pendingRender, s.syncSupported), ActivateBells(s.pendingBells);
    ControlsActivated(s.pendingBytes);
    EffectsActivated(s.pendingEffects);
    RenderActivated(s.pendingRender, s.syncSupported);
    BellsActivated(s.pendingBells);
    LeftOverAppend(controls, effects);
    LeftOverAppend(controls + effects, render);
    LeftOverAppend(controls + effects + render, bells);
    ActiveRendersAppend(controls, effects);
    ActiveRendersAppend(controls + effects, render);
    ActiveRendersAppend(controls + effects + render, bells);
    assert LeftOver([]) == 0;
  }

  lemma ActivationMarks(s: Scheduler, log: Log)
    requires MarkInv(s.active, s.pendingRender, log)
    ensures forall t :: t in Activated(s) ==> t.offset == 0 && WellMarked(log.offers, t)
  {
    ControlsActivated(s.pendingBytes);
    EffectsActivated(s.pendingEffects);
    forall t | t in Activated(s)
      ensures t.offset == 0 && WellMarked(log.offers, t)
    {
      assert t in ActivateControls(s.pendingBytes) || t in ActivateEffects(s.pendingEffects)
          || t in ActivateRender(s.pendingRender, s.syncSupported) || t in ActivateBells(s.pendingBells);
    }
  }

  lemma UnstartedWire(active: seq<ActiveTransaction>, flushRequired: bool, log: Log)
    requires WireInv([], flushRequired, log)
    requires forall t :: t in active ==> t.offset == 0
    ensures WireInv(active, flushRequired, log)
  {
    assert forall i :: 0 <= i < |active| ==> active[i] in active;
    assert StartedPrefix(active) == [];
  }

  lemma ActivatedOrder(w: World)
    requires WorldOrder(w) && w.s.active == []
    requires ActiveRenders(Activated(w.s)) == PendingRenders(w.s.pendingRender)
    ensures WorldOrder(World(ActivatePending(w.s), w.log))
  {
    ActivationMarks(w.s, w.log);
    UnstartedWire(Activated(w.s), w.s.flushRequired, w.log);
    SameHeldOrder(w.s.awaitingRenders, Activated(w.s), w.s.pendingRender, w.log);
  }

  lemma SameHeldOrder(
    awaiting: seq<TrackedRender>, active: seq<ActiveTransaction>, pending: Option<PendingRender>, log: Log)
    requires OrderInv(awaiting, [], pending, log) && ActiveRenders(active) == PendingRenders(pending)
    ensures OrderInv(awaiting, active, None, log)
  {
    assert Held(awaiting, active, None) == Held(awaiting, [], pending);
  }

  lemma ActivatePendingKeeps(w: World)
    requires Inv(w)
    ensures Inv(World(ActivatePending(w.s), w.log))
    ensures PendingTotal(ActivatePending(w.s)) <= PendingTotal(w.s)
  {
    hide WorldOrder, Activated;
    if w.s.active == [] {
      var s' := ActivatePending(w.s);
      ActivationSizes(w.s);
      ActivatedOrder(w);
      assert w.s.(active := []) == w.s;
      assert Held(w.s.awaitingRenders, s'.active, None) == Held(w.s.awaitingRenders, [], w.s.pendingRender);
      assert TokenInv(s');
    }
  }

  // ----- writing -----

  lemma DoneBytesSnoc(done: seq<Done>, d: Done)
    ensures DoneBytes(done + [d]) == DoneBytes(done) + d.bytes
  {
    assert (done + [d])[..|done|] == done;
  }

  lemma LaterDone(log: Log, d: Done)
    ensures forall r, limit :: Delivered(log, r, limit) ==> Delivered(log.(done := log.done + [d]), r, limit)
  {
    var log' := log.(done := log.done + [d]);
    forall r, limit | Delivered(log, r, limit)
      ensures Delivered(log', r, limit)
    {
      var i :| 0 <= i < |log.done| && log.done[i].render == Some(r) && |DoneBytes(log.done[..i + 1])| <= limit;
      assert log'.done[..i + 1] == log.done[..i + 1] && log'.done[i] == log.done[i];
    }
  }

  lemma PopFrontHeld(awaiting: seq<TrackedRender>, active: seq<ActiveTransaction>, pending: Option<PendingRender>)
    requires active != []
    ensures Held(awaiting + (if active[0].completedRender.Some? then [active[0].completedRender.value] else []), active[1..], pending)
         == Held(awaiting, active, pending)
  {
  }

  lemma NewestDelivered(log: Log, d: Done, render: TrackedRender)
    requires d.render == Some(render) && DoneBytes(log.done) + d.bytes == log.accepted
    ensures Delivered(log.(done := log.done + [d]), render, |log.accepted|)
  {
    var log' := log.(done := log.done + [d]);
    DoneBytesSnoc(log.done, d);
    assert log'.done[..|log'.done|] == log'.done;
    assert log'.done[|log.done|].render == d.render;
  }

  lemma PopFrontDelivery(awaiting: seq<TrackedRender>, log: Log, d: Done)
    requires DeliveryInv(awaiting, log) && DoneBytes(log.done) + d.bytes == log.accepted
    ensures DeliveryInv(awaiting + (if d.render.Some? then [d.render.value] else []), log.(done := log.done + [d]))
  {
    hide Delivered, DoneBytes;
    LaterDone(log, d);
    if d.render.Some? {
      NewestDelivered(log, d, d.render.value);
    }
  }

  lemma PopFrontWire(active: seq<ActiveTransaction>, flushRequired: bool, log: Log)
    requires WireInv(active, flushRequired, log) && active != [] && Remaining(active[0]) == []
    ensures DoneBytes(log.done) + active[0].bytes == log.accepted
    ensures WireInv(active[1..], flushRequired, log.(done := log.done + [Done(active[0].kind, active[0].bytes, active[0].completedRender)]))
  {
    var front := active[0];
    assert front.offset == |front.bytes| && front.bytes[..front.offset] == front.bytes;
    DoneBytesSnoc(log.done, Done(front.kind, front.bytes, front.completedRender));
    assert StartedPrefix(active[1..]) == [];
  }

  lemma PopFrontOrder(t: Turn)
    requires WorldOrder(World(t.s, t.log)) && t.s.active != [] && Remaining(t.s.active[0]) == []
    ensures WorldOrder(World(PopFront(t).s, PopFront(t).log))
  {
    var front := t.s.active[0];
    var d := Done(front.kind, front.bytes, front.completedRender);
    assert front in t.s.active;
    PopFrontWire(t.s.active, t.s.flushRequired, t.log);
    PopFrontDelivery(t.s.awaitingRenders, t.log, d);
    PopFrontHeld(t.s.awaitingRenders, t.s.active, t.s.pendingRender);
  }

  lemma PopFrontKeeps(t: Turn)
    requires TurnInv(t) && t.s.active != [] && Remaining(t.s.active[0]) == []
    ensures TurnInv(PopFront(t))
  {
    PopFrontOrder(t);
    PopFrontHeld(t.s.awaitingRenders, t.s.active, t.s.pendingRender);
    assert TokenInv(PopFront(t).s);
    assert t.s.active[0].Left() == 0;
    assert BudgetInv(PopFront(t).s);
  }

  lemma AdvancedFront(active: seq<ActiveTransaction>, written: nat, offers: seq<Offer>)
    requires active != [] && 0 < written <= |Remaining(active[0])| && OnlyFrontStarted(active)
    requires forall t :: t in active ==> WellMarked(offers, t)
    ensures var active' := active[0 := active[0].(offset := active[0].offset + written)];
            && OnlyFrontStarted(active') && StartedPrefix(active') == StartedPrefix(active) + Remaining(active[0])[..written]
            && ActiveRenders(active') == ActiveRenders(active)
            && (forall t :: t in active' ==> WellMarked(offers, t))
            && LeftOver(active') <= LeftOver(active) && ControlLeftOver(active') <= ControlLeftOver(active)
  {
    var front := active[0];
    var front' := front.(offset := front.offset + written);
    var active' := active[0 := front'];
    assert front in active;
    assert active' == [front'] + active[1..];
    assert front.bytes[..front'.offset] == front.bytes[..front.offset] + Remaining(front)[..written];
    assert forall t :: t in active' ==> t == front' || t in active;
  }

  lemma WroteFrontOrder(t: Turn, written: nat)
    requires WorldOrder(World(t.s, t.log)) && t.s.active != [] && 0 < written <= |Remaining(t.s.active[0])|
    ensures WorldOrder(World(WroteFront(t, written).s, WroteFront(t, written).log))
  {
    hide OrderInv, DeliveryInv, WellMarked, Genuine, LeftOver, ControlLeftOver, ActiveRenders, Remaining, StartedPrefix,
         OnlyFrontStarted, DoneBytes;
    var t' := WroteFront(t, written);
    AdvancedFront(t.s.active, written, t.log.offers);
    LongerAccepted(t.s.awaitingRenders, t.log, Remaining(t.s.active[0])[..written]);
    OrderFollowsRenders(t.s.awaitingRenders, t.s.active, t'.s.active, t.s.pendingRender, t.log, t'.log);
    Reassociate(DoneBytes(t.log.done), StartedPrefix(t.s.active), Remaining(t.s.active[0])[..written]);
  }

  lemma LongerAccepted(awaiting: seq<TrackedRender>, log: Log, more: Bytes)
    requires DeliveryInv(awaiting, log)
    ensures DeliveryInv(awaiting, log.(accepted := log.accepted + more))
  {
    var log' := log.(accepted := log.accepted + more);
    forall r, limit: nat, limit': nat | Delivered(log, r, limit) && limit <= limit'
      ensures Delivered(log', r, limit')
    {
      var i :| 0 <= i < |log.done| && log.done[i].render == Some(r) && |DoneBytes(log.done[..i + 1])| <= limit;
      assert log'.done[i].render == Some(r) && |DoneBytes(log'.done[..i + 1])| <= limit';
    }
    assert |log.accepted| <= |log'.accepted|;
  }

  lemma WroteFrontKeeps(t: Turn, written: nat)
    requires TurnInv(t) && t.s.active != [] && 0 < written <= |Remaining(t.s.active[0])|
    ensures TurnInv(WroteFront(t, written))
  {
    WroteFrontOrder(t, written);
    AdvancedFront(t.s.active, written, t.log.offers);
    var s' := WroteFront(t, written).s;
    assert Held(t.s.awaitingRenders, s'.active, t.s.pendingRender) == Held(t.s.awaitingRenders, t.s.active, t.s.pendingRender);
    assert TokenInv(s');
    assert BudgetInv(s');
  }

  ghost predicate ExitInv(exit: LoopExit) {
    match exit
    case Stopped(turn, _) => TurnInv(turn)
    case Left(progress) => TurnInv(progress.turn)
  }

  lemma {:induction false} WriteLoopKeeps(t: Turn, budget: nat, finishStartedOnly: bool)
    requires TurnInv(t)
    ensures ExitInv(WriteLoop(t, budget, finishStartedOnly))
    decreases |t.replies|, |t.s.active|, 1
  {
    if t.report.bytesWritten >= budget || t.s.active == [] || (finishStartedOnly && t.s.active[0].offset == 0) {
    } else if Remaining(t.s.active[0]) == [] {
      PopFrontKeeps(t);
      if !ReachesBypass(t.s, t.s.active[0]) {
        WriteLoopKeeps(PopFront(t), budget, finishStartedOnly);
      }
    } else {
      WriteAttemptKeeps(t, budget, finishStartedOnly);
    }
  }

  lemma {:induction false} WriteAttemptKeeps(t: Turn, budget: nat, finishStartedOnly: bool)
    requires TurnInv(t) && t.report.bytesWritten < budget && t.s.active != []
    requires !(finishStartedOnly && t.s.active[0].offset == 0) && Remaining(t.s.active[0]) != []
    ensures ExitInv(WriteLoop(t, budget, finishStartedOnly))
    decreases |t.replies|, |t.s.active|, 0
  {
    hide Inv;
    var offered := Min(|Remaining(t.s.active[0])|, budget - t.report.bytesWritten);
    var rest := t.(replies := Later(t.replies));
    match Next(t.replies)
    case Accept(count) =>
      if count == 0 {
        FailKeeps(rest);
      } else {
        WroteFrontKeeps(rest, Min(count, offered));
        WriteLoopKeeps(WroteFront(rest, Min(count, offered)), budget, finishStartedOnly);
      }
    case Interrupted => WriteLoopKeeps(rest, budget, finishStartedOnly);
    case WouldBlock => BlockedKeeps(rest);
    case Failure => FailKeeps(rest);
  }

  lemma {:induction false} PopFinishedKeeps(t: Turn, atBypass: bool)
    requires TurnInv(t)
    ensures TurnInv(PopFinished(t, atBypass))
    decreases |t.s.active|
  {
    if !(atBypass || t.s.active == [] || Remaining(t.s.active[0]) != []) {
      PopFrontKeeps(t);
      PopFinishedKeeps(PopFront(t), ReachesBypass(t.s, t.s.active[0]));
    }
  }

  lemma ConcludeKeeps(t: Turn)
    requires TurnInv(t)
    ensures TurnInv(Conclude(t))
  {
    if !t.s.flushRequired {
      CompleteAwaitingKeeps(t);
    }
  }

  lemma WriteOutKeeps(t: Turn, finishStartedOnly: bool)
    requires TurnInv(t)
    ensures TurnInv(WriteOut(t, finishStartedOnly).turn)
  {
    var activated := t.(s := ActivatePending(t.s));
    ActivatePendingKeeps(World(t.s, t.log));
    var budget := Max(t.s.config.writeBudgetBytes, 1);
    WriteLoopKeeps(activated, budget, finishStartedOnly);
    match WriteLoop(activated, budget, finishStartedOnly)
    case Left(_) =>
    case Stopped(stopped, atBypass) =>
      PopFinishedKeeps(stopped, atBypass);
      var finished := PopFinished(stopped, atBypass);
      if finished.s.flushRequired {
        FlushWriterKeeps(finished);
      }
      if FlushIfRequired(finished).Continue? {
        ConcludeKeeps(FlushIfRequired(finished).turn);
      }
  }

  lemma WaitingKeeps(w: World)
    requires Inv(w)
    ensures Inv(World(w.s.(waitingForWritable := false), w.log))
  {
    hide WorldOrder, BudgetInv, WakeInv, HoldsGeneration;
    SameRendersKeepTokens(w.s, w.s.(waitingForWritable := false));
    SameWorkKeeps(w, w.s.(waitingForWritable := false));
  }

  lemma DrainKeeps(w: World, now: nat, force: bool, replies: seq<Reply>)
    requires Inv(w)
    ensures TurnInv(Drain(w, now, force, replies).turn)
  {
    hide WorldOrder, TokenInv, BudgetInv, WakeInv, ReleaseHold, WriteOut, Holds, FlushWriter;
    var forced := Turn(if force then w.s.(waitingForWritable := false) else w.s, w.log, replies, EMPTY_REPORT);
    WaitingKeeps(w);
    assert TurnInv(forced);
    if forced.s.flushRequired {
      FlushWriterKeeps(forced);
    }
    var fence := FlushIfRequired(forced);
    if fence.Continue? {
      ReleaseHoldKeeps(fence.turn, now);
      WriteOutKeeps(ReleaseHold(fence.turn, now), Holds(fence.turn.s, now, force));
    }
  }
}
