/** What becomes of a terminal effect: reported, waiting, superseded by a later one of its owner, and nothing else. */
module EffectHistory {
  import opened Common
  import opened TerminalEvents
  import opened SchedulerSteps
  import opened SchedulerInvariant
  import opened SchedulerQueueing
  import opened SchedulerTheorems
  import opened SchedulerLimits

  type Effects = seq<ScheduledEffect>

  // ----- the effects a scheduler holds -----

  function ActiveEffects(active: seq<ActiveTransaction>): Effects {
    if active == [] then [] else active[0].completedEffects + ActiveEffects(active[1..])
  }

  /** Written, in transactions, or still queued; oldest first. */
  function HeldEffects(s: Scheduler): Effects {
    s.awaitingEffects + (ActiveEffects(s.active) + s.pendingEffects)
  }

  /** Effect transactions carry one effect each, other transactions none. */
  predicate OneEffectEach(active: seq<ActiveTransaction>) {
    forall t :: t in active ==> if t.kind == Effect then |t.completedEffects| == 1 else t.completedEffects == []
  }

  lemma {:induction false} ActiveEffectsAppend(a: seq<ActiveTransaction>, b: seq<ActiveTransaction>)
    ensures ActiveEffects(a + b) == ActiveEffects(a) + ActiveEffects(b)
  {
    if a == [] {
      assert a + b == b;
    } else {
      assert (a + b)[1..] == a[1..] + b;
      ActiveEffectsAppend(a[1..], b);
      Reassociate(a[0].completedEffects, ActiveEffects(a[1..]), ActiveEffects(b));
    }
  }

  lemma {:induction false} ActiveEffectsKept(active: seq<ActiveTransaction>, keep: ActiveTransaction -> bool)
    requires forall t :: t in active && !keep(t) ==> t.completedEffects == []
    ensures ActiveEffects(Filter(active, keep)) == ActiveEffects(active)
  {
    if active != [] {
      ActiveEffectsKept(active[1..], keep);
      if keep(active[0]) {
        var rest := Filter(active[1..], keep);
        assert ([active[0]] + rest)[1..] == rest;
      }
    }
  }

  lemma {:induction false} FilterKeepsOneEach(active: seq<ActiveTransaction>, keep: ActiveTransaction -> bool)
    requires OneEffectEach(active)
    ensures OneEffectEach(Filter(active, keep))
  {
    if active != [] {
      FilterKeepsOneEach(active[1..], keep);
    }
  }

  // ----- a drain loses and invents none -----

  /** Everything reported in this drain and everything still held. */
  function AllEffects(t: Turn): Effects {
    t.report.completedEffects + HeldEffects(t.s)
  }

  lemma {:induction false} CompletingKeepsEffects(t: Turn)
    ensures var c := CompleteRenders(t);
      && c.report.completedEffects == t.report.completedEffects && c.s.awaitingEffects == t.s.awaitingEffects
      && c.s.active == t.s.active && c.s.pendingEffects == t.s.pendingEffects
    decreases |t.s.awaitingRenders|
  {
    if t.s.awaitingRenders != [] {
      CompletingKeepsEffects(ReportOldest(t));
    }
  }

  lemma CompleteAwaitingKeepsEffects(t: Turn)
    ensures var c := CompleteAwaiting(t);
      && AllEffects(c) == AllEffects(t) && c.s.active == t.s.active && c.s.pendingEffects == t.s.pendingEffects
      && c.s.awaitingEffects == []
  {
    CompletingKeepsEffects(t);
    var rest := ActiveEffects(t.s.active) + t.s.pendingEffects;
    assert CompleteAwaiting(t).s.awaitingEffects + rest == rest;
    Reassociate(t.report.completedEffects, t.s.awaitingEffects, rest);
  }

  lemma {:induction false} FlushingKeepsEffects(t: Turn)
    requires !FlushWriter(t).Fail?
    ensures var t' := FlushWriter(t).turn;
      AllEffects(t') == AllEffects(t) && t'.s.active == t.s.active && t'.s.pendingEffects == t.s.pendingEffects
    decreases |t.replies|
  {
    hide CompleteAwaiting;
    var rest := t.(replies := Later(t.replies));
    match Next(t.replies)
    case Accept(_) =>
      CompleteAwaitingKeepsEffects(rest.(s := rest.s.(flushRequired := false), log := rest.log.(flushed := |rest.log.accepted|)));
    case Interrupted => FlushingKeepsEffects(rest);
    case _ =>
  }

  lemma PoppingKeepsEffects(t: Turn)
    requires t.s.active != []
    ensures AllEffects(PopFront(t)) == AllEffects(t)
    ensures OneEffectEach(t.s.active) ==> OneEffectEach(PopFront(t).s.active)
  {
    var front, rest := t.s.active[0], t.s.active[1..];
    Reassociate(t.s.awaitingEffects, front.completedEffects, ActiveEffects(rest) + t.s.pendingEffects);
    Reassociate(front.completedEffects, ActiveEffects(rest), t.s.pendingEffects);
  }

  lemma WritingKeepsEffects(t: Turn, written: nat)
    requires t.s.active != [] && written <= |Remaining(t.s.active[0])|
    ensures AllEffects(WroteFront(t, written)) == AllEffects(t)
    ensures OneEffectEach(t.s.active) ==> OneEffectEach(WroteFront(t, written).s.active)
  {
    var active, written' := t.s.active, WroteFront(t, written).s.active;
    assert written'[1..] == active[1..];
    forall x | x in written' && OneEffectEach(active)
      ensures if x.kind == Effect then |x.completedEffects| == 1 else x.completedEffects == []
    {
      assert active[0] in active;
      assert x == written'[0] || x in active[1..];
    }
  }

  ghost predicate KeepsEffects(t: Turn, t': Turn) {
    AllEffects(t') == AllEffects(t) && (OneEffectEach(t.s.active) ==> OneEffectEach(t'.s.active))
  }

  ghost predicate ExitKeepsEffects(t: Turn, exit: LoopExit) {
    match exit
    case Stopped(turn, _) => KeepsEffects(t, turn)
    case Left(progress) => !progress.Fail? ==> KeepsEffects(t, progress.turn)
  }

  lemma ExitKeepsChain(a: Turn, b: Turn, exit: LoopExit)
    requires KeepsEffects(a, b) && ExitKeepsEffects(b, exit)
    ensures ExitKeepsEffects(a, exit)
  {
    hide AllEffects, OneEffectEach;
  }

  lemma {:induction false} LoopKeepsEffects(t: Turn, budget: nat, finishStartedOnly: bool)
    ensures ExitKeepsEffects(t, WriteLoop(t, budget, finishStartedOnly))
    decreases |t.replies|, |t.s.active|, 1
  {
    hide AllEffects, OneEffectEach;
    if t.report.bytesWritten >= budget || t.s.active == [] || (finishStartedOnly && t.s.active[0].offset == 0) {
    } else if Remaining(t.s.active[0]) == [] {
      PoppingKeepsEffects(t);
      if !ReachesBypass(t.s, t.s.active[0]) {
        LoopKeepsEffects(PopFront(t), budget, finishStartedOnly);
      }
    } else {
      AttemptKeepsEffects(t, budget, finishStartedOnly);
    }
  }

  lemma {:induction false} AttemptKeepsEffects(t: Turn, budget: nat, finishStartedOnly: bool)
    requires t.report.bytesWritten < budget && t.s.active != []
    requires !(finishStartedOnly && t.s.active[0].offset == 0) && Remaining(t.s.active[0]) != []
    ensures ExitKeepsEffects(t, WriteLoop(t, budget, finishStartedOnly))
    decreases |t.replies|, |t.s.active|, 0
  {
    hide KeepsEffects, FailTurn;
    var offered := Min(|Remaining(t.s.active[0])|, budget - t.report.bytesWritten);
    var rest := t.(replies := Later(t.replies));
    SameEffects(t, rest);
    match Next(t.replies)
    case Accept(count) =>
      if count != 0 {
        var wrote := WroteFront(rest, Min(count, offered));
        WritingKeepsEffects(rest, Min(count, offered));
        WroteKeepsEffects(t, rest, wrote);
        LoopKeepsEffects(wrote, budget, finishStartedOnly);
        ExitKeepsChain(t, wrote, WriteLoop(wrote, budget, finishStartedOnly));
      }
    case Interrupted =>
      LoopKeepsEffects(rest, budget, finishStartedOnly);
      ExitKeepsChain(t, rest, WriteLoop(rest, budget, finishStartedOnly));
    case WouldBlock => SameEffects(t, Blocked(rest));
    case Failure =>
  }

  lemma WroteKeepsEffects(t: Turn, rest: Turn, wrote: Turn)
    requires KeepsEffects(t, rest) && AllEffects(wrote) == AllEffects(rest)
    requires OneEffectEach(rest.s.active) ==> OneEffectEach(wrote.s.active)
    ensures KeepsEffects(t, wrote)
  {
    hide AllEffects, OneEffectEach;
  }

  lemma SameEffects(t: Turn, t': Turn)
    requires t'.report.completedEffects == t.report.completedEffects && t'.s.active == t.s.active
    requires t'.s.awaitingEffects == t.s.awaitingEffects && t'.s.pendingEffects == t.s.pendingEffects
    ensures KeepsEffects(t, t')
  {
  }

  lemma {:induction false} RetiringKeepsEffects(t: Turn, atBypass: bool)
    ensures KeepsEffects(t, PopFinished(t, atBypass))
    decreases |t.s.active|
  {
    hide AllEffects, OneEffectEach;
    if !(atBypass || t.s.active == [] || Remaining(t.s.active[0]) != []) {
      PoppingKeepsEffects(t);
      RetiringKeepsEffects(PopFront(t), ReachesBypass(t.s, t.s.active[0]));
    }
  }

  lemma {:induction false} EffectsActivated(effects: Effects)
    ensures ActiveEffects(ActivateEffects(effects)) == effects
    ensures OneEffectEach(ActivateEffects(effects))
  {
    if effects != [] {
      EffectsActivated(effects[1..]);
      var head, tail := [ActivateEffect(effects[0])], ActivateEffects(effects[1..]);
      assert (head + tail)[1..] == tail && [effects[0]] + effects[1..] == effects;
    }
  }

  lemma {:induction false} ControlsCarryNone(pending: seq<Bytes>)
    ensures ActiveEffects(ActivateControls(pending)) == [] && OneEffectEach(ActivateControls(pending))
  {
    if pending != [] {
      ControlsCarryNone(pending[1..]);
      var head, tail := [Unstarted(Control, pending[0])], ActivateControls(pending[1..]);
      assert (head + tail)[1..] == tail;
    }
  }

  lemma OthersCarryNone(s: Scheduler)
    ensures var others := ActivateRender(s.pendingRender, s.syncSupported) + ActivateBells(s.pendingBells);
      ActiveEffects(others) == [] && OneEffectEach(others)
  {
    hide RenderBytes;
    var renders, bells := ActivateRender(s.pendingRender, s.syncSupported), ActivateBells(s.pendingBells);
    ActiveEffectsAppend(renders, bells);
    assert renders != [] ==> renders[1..] == [];
    assert bells != [] ==> bells[1..] == [];
  }

  lemma ActivationKeepsEffects(s: Scheduler)
    ensures HeldEffects(ActivatePending(s)) == HeldEffects(s)
    ensures OneEffectEach(s.active) ==> OneEffectEach(ActivatePending(s).active)
  {
    hide ActivateControls, ActivateEffects, ActivateRender, ActivateBells;
    if s.active == [] {
      var controls, effects := ActivateControls(s.pendingBytes), ActivateEffects(s.pendingEffects);
      var others := ActivateRender(s.pendingRender, s.syncSupported) + ActivateBells(s.pendingBells);
      ControlsCarryNone(s.pendingBytes);
      EffectsActivated(s.pendingEffects);
      OthersCarryNone(s);
      ActiveEffectsAppend(controls + effects, others);
      ActiveEffectsAppend(controls, effects);
      assert Activated(s) == controls + effects + others;
      assert ActiveEffects(Activated(s)) == s.pendingEffects;
    }
  }

  lemma SettlingKeepsEffects(t: Turn)
    requires !Settle(t).Fail?
    ensures KeepsEffects(t, Settle(t).turn)
  {
    hide FlushWriter, CompleteAwaiting, HeldEffects, OneEffectEach;
    var fence := FlushIfRequired(t);
    if t.s.flushRequired {
      FlushingKeepsEffects(t);
    }
    if fence.Continue? {
      CompleteAwaitingKeepsEffects(fence.turn);
      ConcludingKeepsEffects(fence.turn);
    }
  }

  lemma ConcludingKeepsEffects(t: Turn)
    ensures KeepsEffects(t, Conclude(t))
  {
    hide CompleteAwaiting, HeldEffects, OneEffectEach;
    CompleteAwaitingKeepsEffects(t);
  }

  lemma WriteOutKeepsEffects(t: Turn, finishStartedOnly: bool)
    requires !WriteOut(t, finishStartedOnly).Fail?
    ensures KeepsEffects(t, WriteOut(t, finishStartedOnly).turn)
  {
    hide WriteLoop, PopFinished, Settle, ActivatePending, HeldEffects, OneEffectEach;
    var activated := t.(s := ActivatePending(t.s));
    var budget := Max(t.s.config.writeBudgetBytes, 1);
    ActivationKeepsEffects(t.s);
    LoopKeepsEffects(activated, budget, finishStartedOnly);
    match WriteLoop(activated, budget, finishStartedOnly)
    case Left(_) =>
    case Stopped(stopped, atBypass) =>
      RetiringKeepsEffects(stopped, atBypass);
      SettlingKeepsEffects(PopFinished(stopped, atBypass));
  }

  lemma ReleasingKeepsEffects(t: Turn, now: nat)
    ensures KeepsEffects(t, ReleaseHold(t, now))
  {
    hide NewestRender, TimedOut;
    SameEffects(t, ReleaseHold(t, now));
  }

  /** What a drain reports, followed by what it leaves, is what there was. */
  lemma DrainKeepsEffects(w: World, now: nat, force: bool, replies: seq<Reply>)
    requires !Drain(w, now, force, replies).Fail?
    ensures var t := Drain(w, now, force, replies).turn;
      && t.report.completedEffects + HeldEffects(t.s) == HeldEffects(w.s)
      && (OneEffectEach(w.s.active) ==> OneEffectEach(t.s.active))
  {
    hide WriteOut, FlushWriter, ReleaseHold, HeldEffects, OneEffectEach, Holds, TooEarly;
    var start := Turn(w.s, w.log, replies, EMPTY_REPORT);
    assert AllEffects(start) == HeldEffects(w.s);
    var forced := Turn(if force then w.s.(waitingForWritable := false) else w.s, w.log, replies, EMPTY_REPORT);
    SameEffects(start, forced);
    if !(w.s.needsReconciliation || (w.s.waitingForWritable && !force)) {
      var fence := FlushIfRequired(forced);
      if forced.s.flushRequired {
        FlushingKeepsEffects(forced);
      }
      if fence.Continue? {
        var released := ReleaseHold(fence.turn, now);
        ReleasingKeepsEffects(fence.turn, now);
        if Drain(w, now, force, replies) == WriteOut(released, Holds(fence.turn.s, now, force)) {
          WriteOutKeepsEffects(released, Holds(fence.turn.s, now, force));
        }
      }
    }
  }

  // ----- one kind of one owner -----

  predicate BelongsTo(e: ScheduledEffect, owner: nat, kind: EventKind) {
    e.owner == owner && Kind(e.event) == kind
  }

  function Own(effects: Effects, owner: nat, kind: EventKind): Effects {
    Filter(effects, (e: ScheduledEffect) => BelongsTo(e, owner, kind))
  }

  function Others(effects: Effects, owner: nat, kind: EventKind): Effects {
    Filter(effects, (e: ScheduledEffect) => !BelongsTo(e, owner, kind))
  }

  lemma {:induction false} FilterAppend<T>(a: seq<T>, b: seq<T>, keep: T -> bool)
    ensures Filter(a + b, keep) == Filter(a, keep) + Filter(b, keep)
  {
    if a == [] {
      assert a + b == b;
    } else {
      assert (a + b)[1..] == a[1..] + b;
      FilterAppend(a[1..], b, keep);
    }
  }

  lemma OwnAppend(a: Effects, b: Effects, owner: nat, kind: EventKind)
    ensures Own(a + b, owner, kind) == Own(a, owner, kind) + Own(b, owner, kind)
    ensures Others(a + b, owner, kind) == Others(a, owner, kind) + Others(b, owner, kind)
  {
    FilterAppend(a, b, (e: ScheduledEffect) => BelongsTo(e, owner, kind));
    FilterAppend(a, b, (e: ScheduledEffect) => !BelongsTo(e, owner, kind));
  }

  /** Title and directory describe the present; of these only the newest value matters. */
  predicate DescribesPresent(kind: EventKind) {
    kind == TitleKind || kind == WorkingDirectoryKind
  }

  /** What supersession removes from a queue of effects. */
  lemma {:induction false} SupersededQueue(effects: Effects, owner: nat, kind: EventKind)
    ensures var kept := Filter(effects, (e: ScheduledEffect) => !SameEffect(e, owner, kind));
      Own(kept, owner, kind) == [] && Others(kept, owner, kind) == Others(effects, owner, kind)
  {
    if effects != [] {
      SupersededQueue(effects[1..], owner, kind);
    }
  }

  /** The effects of transactions that have begun. */
  function StartedEffects(active: seq<ActiveTransaction>): Effects {
    ActiveEffects(Filter(active, (t: ActiveTransaction) => t.offset != 0))
  }

  predicate StaysActive(t: ActiveTransaction, owner: nat, kind: EventKind) {
    t.offset != 0 || t.kind != Effect || !CarriesEffect(t, owner, kind)
  }

  lemma SingleEffect(t: ActiveTransaction, owner: nat, kind: EventKind)
    requires OneEffectEach([t])
    ensures !StaysActive(t, owner, kind) ==>
              t.offset == 0 && Own(t.completedEffects, owner, kind) == t.completedEffects && Others(t.completedEffects, owner, kind) == []
    ensures StaysActive(t, owner, kind) && t.offset == 0 ==> Own(t.completedEffects, owner, kind) == []
  {
    assert t in [t];
    if t.kind == Effect {
      var e := t.completedEffects[0];
      assert t.completedEffects == [e] && t.completedEffects[1..] == [];
      assert SameEffect(e, owner, kind) ==> CarriesEffect(t, owner, kind);
    }
  }

  /** What supersession removes from the active transactions: every unstarted effect of this owner and kind. */
  lemma {:induction false} SupersededActive(active: seq<ActiveTransaction>, owner: nat, kind: EventKind)
    requires OneEffectEach(active)
    ensures var kept := Filter(active, (t: ActiveTransaction) => t.offset != 0 || t.kind != Effect || !CarriesEffect(t, owner, kind));
      && Own(ActiveEffects(kept), owner, kind) == Own(StartedEffects(active), owner, kind)
      && Others(ActiveEffects(kept), owner, kind) == Others(ActiveEffects(active), owner, kind)
      && OneEffectEach(kept)
  {
    var keep := (t: ActiveTransaction) => t.offset != 0 || t.kind != Effect || !CarriesEffect(t, owner, kind);
    FilterKeepsOneEach(active, keep);
    if active != [] {
      var t, rest := active[0], active[1..];
      assert OneEffectEach([t]) && keep(t) == StaysActive(t, owner, kind);
      SingleEffect(t, owner, kind);
      SupersededActive(rest, owner, kind);
      var keptRest := Filter(rest, keep);
      OwnAppend(t.completedEffects, ActiveEffects(rest), owner, kind);
      OwnAppend(t.completedEffects, ActiveEffects(keptRest), owner, kind);
      OwnAppend(t.completedEffects, StartedEffects(rest), owner, kind);
      StartedCons(t, rest, active);
      assert keep(t) ==> ([t] + keptRest)[1..] == keptRest;
    }
  }

  lemma StartedCons(t: ActiveTransaction, rest: seq<ActiveTransaction>, active: seq<ActiveTransaction>)
    requires active != [] && active[0] == t && active[1..] == rest
    ensures StartedEffects(active) == (if t.offset != 0 then t.completedEffects else []) + StartedEffects(rest)
  {
    var started := Filter(rest, (x: ActiveTransaction) => x.offset != 0);
    assert ([t] + started)[1..] == started;
  }

  // ----- one enqueued effect -----

  lemma {:induction false} WithoutFirstOwn(effects: Effects, owner: nat, kind: EventKind)
    ensures var rest, own := WithoutFirst(effects, owner, kind), Own(effects, owner, kind);
      && Own(rest, owner, kind) == (if own == [] then [] else own[1..])
      && Others(rest, owner, kind) == Others(effects, owner, kind)
      && (if own == [] then rest == effects else EffectBytes(rest) == EffectBytes(effects) - RetainedBytes(own[0].event))
  {
    if effects != [] {
      var rest := WithoutFirst(effects[1..], owner, kind);
      WithoutFirstOwn(effects[1..], owner, kind);
      assert ([effects[0]] + rest)[1..] == rest;
    }
  }

  lemma SupersedingLaw(s: Scheduler, owner: nat, kind: EventKind)
    requires OneEffectEach(s.active)
    ensures var s1 := SupersedeEffects(s, owner, kind);
      && s1.awaitingEffects == s.awaitingEffects && OneEffectEach(s1.active)
      && Others(HeldEffects(s1), owner, kind) == Others(HeldEffects(s), owner, kind)
      && (if DescribesPresent(kind) then
            && Own(s1.pendingEffects, owner, kind) == []
            && Own(HeldEffects(s1), owner, kind) == Own(s.awaitingEffects + StartedEffects(s.active), owner, kind)
          else s1 == s)
  {
    hide Own, Others, StartedEffects, ActiveEffects, CarriesEffect, Filter;
    if DescribesPresent(kind) {
      var s1 := SupersedeEffects(s, owner, kind);
      SupersededQueue(s.pendingEffects, owner, kind);
      SupersededActive(s.active, owner, kind);
      OwnAppend(s.awaitingEffects, ActiveEffects(s1.active) + s1.pendingEffects, owner, kind);
      OwnAppend(ActiveEffects(s1.active), s1.pendingEffects, owner, kind);
      OwnAppend(s.awaitingEffects, ActiveEffects(s.active) + s.pendingEffects, owner, kind);
      OwnAppend(ActiveEffects(s.active), s.pendingEffects, owner, kind);
      OwnAppend(s.awaitingEffects, StartedEffects(s.active), owner, kind);
      assert Own(s1.pendingEffects, owner, kind) == [];
      assert Own(ActiveEffects(s1.active), owner, kind) + [] == Own(ActiveEffects(s1.active), owner, kind);
    }
  }

  lemma PendingReplaced(s: Scheduler, s': Scheduler, owner: nat, kind: EventKind)
    requires s'.awaitingEffects == s.awaitingEffects && s'.active == s.active
    ensures Own(HeldEffects(s'), owner, kind)
         == Own(s.awaitingEffects + ActiveEffects(s.active), owner, kind) + Own(s'.pendingEffects, owner, kind)
    ensures Others(HeldEffects(s'), owner, kind)
         == Others(s.awaitingEffects + ActiveEffects(s.active), owner, kind) + Others(s'.pendingEffects, owner, kind)
  {
    hide Own, Others, ActiveEffects;
    Reassociate(s.awaitingEffects, ActiveEffects(s.active), s'.pendingEffects);
    OwnAppend(s.awaitingEffects + ActiveEffects(s.active), s'.pendingEffects, owner, kind);
  }

  lemma OwnLast(effects: Effects, e: ScheduledEffect)
    ensures Own(effects + [e], e.owner, Kind(e.event)) == Own(effects, e.owner, Kind(e.event)) + [e]
    ensures Others(effects + [e], e.owner, Kind(e.event)) == Others(effects, e.owner, Kind(e.event))
  {
    OwnAppend(effects, [e], e.owner, Kind(e.event));
    assert [e][1..] == [];
    assert Others(effects, e.owner, Kind(e.event)) + [] == Others(effects, e.owner, Kind(e.event));
  }

  /** Over the effect budget the oldest queued effect of the owner and kind makes way, and no other. */
  lemma DisplacingLaw(s: Scheduler, owner: nat, event: TerminalEvent)
    ensures var kind := Kind(event);
      var s2 := DisplaceOlder(s, owner, event);
      var own := Own(s.pendingEffects, owner, kind);
      var over := RetainedEffectBytes(s) + RetainedBytes(event) > s.config.maximumPendingBytes && own != [];
      && s2 == s.(pendingEffects := s2.pendingEffects)
      && Own(s2.pendingEffects, owner, kind) == (if over then own[1..] else own)
      && Others(s2.pendingEffects, owner, kind) == Others(s.pendingEffects, owner, kind)
      && PendingTotal(s) == PendingTotal(s2) + if over then RetainedBytes(own[0].event) else 0
  {
    hide Own, Others, RetainedEffectBytes, LeftOver, TotalLength, WithoutFirst;
    WithoutFirstOwn(s.pendingEffects, owner, Kind(event));
  }

  lemma PushingLaw(s: Scheduler, effect: ScheduledEffect, now: nat)
    ensures var s' := PushEffect(s, effect, now);
      && s'.awaitingEffects == s.awaitingEffects && s'.active == s.active && s'.config == s.config
      && s'.pendingEffects == s.pendingEffects
         + if PendingTotal(s) + RetainedBytes(effect.event) <= s.config.maximumPendingBytes then [effect] else []
  {
    hide PendingTotal;
  }

  /** Displacing and queueing touch no other effect; the new one is queued last when it fits. */
  lemma QueueingLaw(s: Scheduler, effect: ScheduledEffect, now: nat)
    ensures var owner, kind, cost := effect.owner, Kind(effect.event), RetainedBytes(effect.event);
      var s' := PushEffect(DisplaceOlder(s, owner, effect.event), effect, now);
      var own := Own(s.pendingEffects, owner, kind);
      var over := RetainedEffectBytes(s) + cost > s.config.maximumPendingBytes && own != [];
      var left := PendingTotal(s) - if over then RetainedBytes(own[0].event) else 0;
      && s'.awaitingEffects == s.awaitingEffects && s'.active == s.active
      && Others(s'.pendingEffects, owner, kind) == Others(s.pendingEffects, owner, kind)
      && (if left + cost <= s.config.maximumPendingBytes then
            && Own(s'.pendingEffects, owner, kind) == (if over then own[1..] else own) + [effect]
            && s'.pendingEffects != [] && s'.pendingEffects[|s'.pendingEffects| - 1] == effect
          else Own(s'.pendingEffects, owner, kind) == if over then own[1..] else own)
  {
    hide Own, Others, RetainedEffectBytes, PendingTotal, DisplaceOlder, PushEffect;
    var s2 := DisplaceOlder(s, effect.owner, effect.event);
    DisplacingLaw(s, effect.owner, effect.event);
    PushingLaw(s2, effect, now);
    OwnLast(s2.pendingEffects, effect);
    assert s2.pendingEffects + [] == s2.pendingEffects;
  }

  lemma SupersedingFrees(s: Scheduler, owner: nat, kind: EventKind)
    ensures var s1 := SupersedeEffects(s, owner, kind);
      && RetainedEffectBytes(s1) <= RetainedEffectBytes(s) && PendingTotal(s1) <= PendingTotal(s)
      && s1.config == s.config
  {
    hide Filter, LeftOver, TotalLength, CarriesEffect;
    FilterEffectBytes(s.pendingEffects, (e: ScheduledEffect) => !SameEffect(e, owner, kind));
    FilterActiveBytes(s.active, (t: ActiveTransaction) => t.offset != 0 || t.kind != Effect || !CarriesEffect(t, owner, kind));
  }

  lemma {:induction false} FilterActiveBytes(active: seq<ActiveTransaction>, keep: ActiveTransaction -> bool)
    ensures LeftOver(Filter(active, keep)) <= LeftOver(active)
    ensures ActiveEffectBytes(Filter(active, keep)) <= ActiveEffectBytes(active)
  {
    if active != [] {
      FilterActiveBytes(active[1..], keep);
      if keep(active[0]) {
        var rest := Filter(active[1..], keep);
        assert ([active[0]] + rest)[1..] == rest;
      }
    }
  }

  /** The effect a call asks for, cut down to what can be retained. */
  function Asked(s: Scheduler, owner: nat, original: TerminalEvent): ScheduledEffect {
    ScheduledEffect(owner, Bound(original, s.config.maximumPendingBytes))
  }

  /** There is room for the effect without displacing or refusing anything. */
  predicate HasRoom(s: Scheduler, effect: ScheduledEffect) {
    && RetainedEffectBytes(s) + RetainedBytes(effect.event) <= s.config.maximumPendingBytes
    && PendingTotal(s) + RetainedBytes(effect.event) <= s.config.maximumPendingBytes
  }

  /**
    * Asking for an effect never touches an effect of another owner or another kind. With room, the
    * new effect is queued last; of its own owner and kind nothing is lost, except that a title or a
    * directory replaces every earlier one that has not begun to be written.
    */
  lemma EnqueuedEffectLaw(s: Scheduler, owner: nat, original: TerminalEvent, now: nat)
    requires OneEffectEach(s.active)
    ensures var s', effect, kind := EnqueueEffect(s, owner, original, now), Asked(s, owner, original), Kind(original);
      && OneEffectEach(s'.active) && s'.awaitingEffects == s.awaitingEffects
      && Others(HeldEffects(s'), owner, kind) == Others(HeldEffects(s), owner, kind)
      && (HasRoom(s, effect) ==>
            && s'.pendingEffects != [] && s'.pendingEffects[|s'.pendingEffects| - 1] == effect
            && Own(HeldEffects(s'), owner, kind)
               == (if DescribesPresent(kind) then Own(s.awaitingEffects + StartedEffects(s.active), owner, kind)
                   else Own(HeldEffects(s), owner, kind)) + [effect])
  {
    hide Own, Others, RetainedEffectBytes, PendingTotal, SupersedeEffects, DisplaceOlder, PushEffect, HeldEffects, OneEffectEach,
         StartedEffects;
    var effect, kind := Asked(s, owner, original), Kind(original);
    var s1 := SupersedeEffects(s, owner, kind);
    var s' := EnqueueEffect(s, owner, original, now);
    SupersedingLaw(s, owner, kind);
    SupersedingFrees(s, owner, kind);
    QueueingLaw(s1, effect, now);
    PendingReplaced(s1, s', owner, kind);
    PendingReplaced(s1, s1, owner, kind);
    if HasRoom(s, effect) {
      Reassociate(Own(s1.awaitingEffects + ActiveEffects(s1.active), owner, kind), Own(s1.pendingEffects, owner, kind), [effect]);
    }
  }

  /** Without room, at most the oldest queued effect of the same owner and kind makes way. */
  lemma DisplacedEffectLaw(s: Scheduler, owner: nat, original: TerminalEvent, now: nat)
    requires !DescribesPresent(Kind(original))
    ensures var s', effect, kind := EnqueueEffect(s, owner, original, now), Asked(s, owner, original), Kind(original);
      var own, cost := Own(s.pendingEffects, owner, kind), RetainedBytes(effect.event);
      var over := RetainedEffectBytes(s) + cost > s.config.maximumPendingBytes && own != [];
      var left := PendingTotal(s) - if over then RetainedBytes(own[0].event) else 0;
      && s'.active == s.active && s'.awaitingEffects == s.awaitingEffects
      && Own(s'.pendingEffects, owner, kind)
         == (if over then own[1..] else own) + if left + cost <= s.config.maximumPendingBytes then [effect] else []
  {
    hide Own, Others, RetainedEffectBytes, PendingTotal, DisplaceOlder, PushEffect;
    QueueingLaw(s, Asked(s, owner, original), now);
  }

  // ----- the other operations -----

  lemma {:induction false} StartedAreKept(active: seq<ActiveTransaction>, keep: ActiveTransaction -> bool)
    requires OneEffectEach(active)
    requires forall t :: t in active && t.kind == Effect ==> (keep(t) <==> t.offset > 0)
    ensures ActiveEffects(Filter(active, keep)) == StartedEffects(active)
  {
    if active != [] {
      var t, rest := active[0], active[1..];
      StartedAreKept(rest, keep);
      StartedCons(t, rest, active);
      assert t in active;
      if keep(t) {
        var kept := Filter(rest, keep);
        assert ([t] + kept)[1..] == kept;
      }
    }
  }

  /** Eviction and cleanup spare exactly the effects that have begun to be written. */
  lemma EvictionSparesStartedEffects(s: Scheduler)
    requires OneEffectEach(s.active) && forall t :: t in s.active && t.kind == Effect ==> t.completedRender.None?
    ensures HeldEffects(Evict(s)) == s.awaitingEffects + StartedEffects(s.active) && OneEffectEach(Evict(s).active)
    ensures HeldEffects(PrepareForLifecycleCleanup(s)) == s.awaitingEffects + StartedEffects(s.active)
    ensures OneEffectEach(PrepareForLifecycleCleanup(s).active)
  {
    hide StartedEffects, OneEffectEach, Filter;
    StartedAreKept(s.active, (t: ActiveTransaction) => SurvivesEviction(s, t));
    StartedAreKept(s.active, (t: ActiveTransaction) => t.offset > 0);
    FilterKeepsOneEach(s.active, (t: ActiveTransaction) => SurvivesEviction(s, t));
    FilterKeepsOneEach(s.active, (t: ActiveTransaction) => t.offset > 0);
    assert StartedEffects(s.active) + [] == StartedEffects(s.active);
  }

  /** Taking one transaction without effects and the unstarted bells out changes no effect. */
  lemma SplicingKeepsEffects(active: seq<ActiveTransaction>, index: nat)
    requires OneEffectEach(active) && index < |active| && active[index].kind != Effect
    ensures var rest := active[..index] + active[index + 1..];
      && ActiveEffects(WithoutUnstartedBells(rest)) == ActiveEffects(active) && OneEffectEach(WithoutUnstartedBells(rest))
  {
    hide ActiveEffects, Filter;
    var head, one, tail := active[..index], [active[index]], active[index + 1..];
    assert active == head + (one + tail) && active[index] in active;
    ActiveEffectsAppend(head, one + tail);
    ActiveEffectsAppend(one, tail);
    ActiveEffectsAppend(head, tail);
    CarriesNone(active[index]);
    assert [] + ActiveEffects(tail) == ActiveEffects(tail);
    assert OneEffectEach(head + tail);
    ActiveEffectsKept(head + tail, (t: ActiveTransaction) => !IsUnstartedBell(t));
    FilterKeepsOneEach(head + tail, (t: ActiveTransaction) => !IsUnstartedBell(t));
  }

  lemma CarriesNone(t: ActiveTransaction)
    requires t.completedEffects == []
    ensures ActiveEffects([t]) == []
  {
    assert [t][1..] == [];
  }

  lemma WithdrawKeepsEffects(s: Scheduler, now: nat)
    requires OneEffectEach(s.active)
    ensures HeldEffects(WithdrawUnstartedRender(s, now)) == HeldEffects(s)
    ensures OneEffectEach(WithdrawUnstartedRender(s, now).active)
  {
    hide UnstartedRenderIndex, UnstartedBellBytes, WithoutUnstartedBells, ActiveEffects, OneEffectEach;
    UnstartedRenderIndexIs(s.active);
    if UnstartedRenderIndex(s.active) < |s.active| {
      SplicingKeepsEffects(s.active, UnstartedRenderIndex(s.active));
    }
  }

  lemma UnstartedRenderIndexIs(active: seq<ActiveTransaction>)
    ensures var r := UnstartedRenderIndex(active); r <= |active| && (r < |active| ==> IsUnstartedRender(active[r]))
  {
  }

  lemma RenderKeepsEffects(s: Scheduler, batch: RenderBatch, accessibility: nat, now: nat)
    requires OneEffectEach(s.active)
    ensures var s' := EnqueueRender(s, batch, accessibility, now);
      HeldEffects(s') == HeldEffects(s) && OneEffectEach(s'.active)
  {
    hide WithdrawUnstartedRender, AcceptsRender, ReplacesGeneration, BatchBytes, OneEffectEach, ActiveEffects;
    WithdrawKeepsEffects(s.(bypassNext := false), now);
  }

  lemma OtherStepKeepsEffects(w: World, step: Step)
    requires OneEffectEach(w.s.active)
    requires !step.DoDrain? && !step.DoEnqueueEffect? && !step.DoCleanup?
    requires step.DoEnqueueBytes? ==> !Evicts(w.s, step.bytes)
    ensures HeldEffects(Take(w, step).s) == HeldEffects(w.s) && OneEffectEach(Take(w, step).s.active)
  {
    hide EnqueueRender, OneEffectEach, ActiveEffects, EnqueueBytes, Observe, EnqueueBell, Evicts;
    match step
    case DoEnqueueRender(batch, accessibility, now) => RenderKeepsEffects(w.s, batch, accessibility, now);
    case DoEnqueueBytes(bytes, now) => BytesKeepEffects(w.s, bytes, now);
    case DoObserve(synchronized, didOpen, activity, now) => ObservingKeepsEffects(w.s, synchronized, didOpen, activity, now);
    case DoEnqueueBell(count, now) => BellKeepsEffects(w.s, count, now);
    case _ =>
  }

  lemma BytesKeepEffects(s: Scheduler, bytes: Bytes, now: nat)
    requires !Evicts(s, bytes)
    ensures var s' := EnqueueBytes(s, bytes, now);
      s'.active == s.active && s'.pendingEffects == s.pendingEffects && s'.awaitingEffects == s.awaitingEffects
  {
    hide PendingTotal, ControlFits, PushControl;
  }

  lemma ObservingKeepsEffects(s: Scheduler, synchronized: bool, didOpen: bool, activity: bool, now: nat)
    ensures var s' := Observe(s, synchronized, didOpen, activity, now);
      s'.active == s.active && s'.pendingEffects == s.pendingEffects && s'.awaitingEffects == s.awaitingEffects
  {
  }

  lemma BellKeepsEffects(s: Scheduler, count: nat, now: nat)
    ensures var s' := EnqueueBell(s, count, now);
      s'.active == s.active && s'.pendingEffects == s.pendingEffects && s'.awaitingEffects == s.awaitingEffects
  {
    hide PendingTotal;
  }

  // ----- whole runs -----

  /** The effects that the drains of a run report. */
  function ReportedEffects(w: World, steps: seq<Step>): Effects
    decreases |steps|
  {
    if steps == [] then []
    else
      (if steps[0].DoDrain? then Drain(w, steps[0].now, steps[0].force, steps[0].replies).turn.report.completedEffects else [])
      + ReportedEffects(Take(w, steps[0]), steps[1..])
  }

  /** The effects that the calls of a run ask for, as far as they can be retained. */
  function AskedEffects(w: World, steps: seq<Step>): Effects
    decreases |steps|
  {
    if steps == [] then []
    else
      (if steps[0].DoEnqueueEffect? then [Asked(w.s, steps[0].owner, steps[0].event)] else [])
      + AskedEffects(Take(w, steps[0]), steps[1..])
  }

  /** No write failure, no cleanup, no eviction and no lack of room disturbs the effects. */
  predicate EffectsUndisturbed(w: World, steps: seq<Step>)
    decreases |steps|
  {
    steps == []
    || (&& !Fails(w, steps[0]) && !steps[0].DoCleanup?
        && (steps[0].DoEnqueueBytes? ==> !Evicts(w.s, steps[0].bytes))
        && (steps[0].DoEnqueueEffect? ==> HasRoom(w.s, Asked(w.s, steps[0].owner, steps[0].event)))
        && EffectsUndisturbed(Take(w, steps[0]), steps[1..]))
  }

  /** One undisturbed step, seen from one owner and kind. */
  lemma StepKeepsOwn(w: World, step: Step, owner: nat, kind: EventKind)
    requires OneEffectEach(w.s.active) && EffectsUndisturbed(w, [step])
    ensures OneEffectEach(Take(w, step).s.active)
    ensures var reported := if step.DoDrain? then Drain(w, step.now, step.force, step.replies).turn.report.completedEffects else [];
      var asked := if step.DoEnqueueEffect? then [Asked(w.s, step.owner, step.event)] else [];
      var before, after := HeldEffects(w.s), reported + HeldEffects(Take(w, step).s);
      || Own(after, owner, kind) == Own(before, owner, kind) + Own(asked, owner, kind)
      || (DescribesPresent(kind) && asked != [] && Own(asked, owner, kind) == asked
          && Own(after, owner, kind) == Own(w.s.awaitingEffects + StartedEffects(w.s.active), owner, kind) + asked)
  {
    hide Own, HeldEffects, OneEffectEach, StartedEffects, EnqueueEffect, Drain, HasRoom, Evicts, EnqueueBytes, EnqueueRender,
         EnqueueBell, Observe, PrepareForLifecycleCleanup, SetSyncSupported;
    NoOwn(owner, kind);
    if step.DoDrain? {
      DrainKeepsEffects(w, step.now, step.force, step.replies);
    } else if step.DoEnqueueEffect? {
      EnqueuedEffectLaw(w.s, step.owner, step.event, step.now);
      NothingInFront(HeldEffects(Take(w, step).s));
      AskedSeen(w.s, Take(w, step).s, step.owner, step.event, owner, kind);
    } else {
      OtherStepKeepsEffects(w, step);
      NothingInFront(HeldEffects(w.s));
    }
  }

  lemma NothingInFront(effects: Effects)
    ensures [] + effects == effects
  {
  }

  lemma NoOwn(owner: nat, kind: EventKind)
    ensures Own([], owner, kind) == []
  {
  }

  /** What an enqueued effect means for the effects of any owner and kind. */
  lemma AskedSeen(s: Scheduler, s': Scheduler, asking: nat, original: TerminalEvent, owner: nat, kind: EventKind)
    requires Others(HeldEffects(s'), asking, Kind(original)) == Others(HeldEffects(s), asking, Kind(original))
    ensures var asked := [Asked(s, asking, original)];
      if owner == asking && kind == Kind(original) then Own(asked, owner, kind) == asked
      else Own(asked, owner, kind) == [] && Own(HeldEffects(s'), owner, kind) == Own(HeldEffects(s), owner, kind)
  {
    hide HeldEffects;
    assert [Asked(s, asking, original)][1..] == [];
    if !(owner == asking && kind == Kind(original)) {
      OwnAmongOthers(HeldEffects(s'), asking, Kind(original), owner, kind);
      OwnAmongOthers(HeldEffects(s), asking, Kind(original), owner, kind);
    }
  }

  lemma {:induction false} OwnAmongOthers(effects: Effects, asking: nat, asked: EventKind, owner: nat, kind: EventKind)
    requires owner != asking || kind != asked
    ensures Own(Others(effects, asking, asked), owner, kind) == Own(effects, owner, kind)
  {
    if effects != [] {
      OwnAmongOthers(effects[1..], asking, asked, owner, kind);
      var rest := Others(effects[1..], asking, asked);
      assert ([effects[0]] + rest)[1..] == rest;
    }
  }

  lemma StepKeepsOneEach(w: World, step: Step)
    requires OneEffectEach(w.s.active)
    ensures OneEffectEach(Take(w, step).s.active)
  {
    hide EnqueueRender, OneEffectEach, EnqueueBytes, Observe, EnqueueBell, EnqueueEffect, Drain;
    match step
    case DoDrain(now, force, replies) => DrainKeepsOneEach(w, now, force, replies);
    case DoEnqueueEffect(owner, event, now) => EnqueuedEffectLaw(w.s, owner, event, now);
    case DoEnqueueRender(batch, accessibility, now) => RenderKeepsEffects(w.s, batch, accessibility, now);
    case DoEnqueueBytes(bytes, now) => BytesKeepOneEach(w.s, bytes, now);
    case DoObserve(synchronized, didOpen, activity, now) => ObservingKeepsEffects(w.s, synchronized, didOpen, activity, now);
    case DoEnqueueBell(count, now) => BellKeepsEffects(w.s, count, now);
    case DoCleanup => FilterKeepsOneEach(w.s.active, (t: ActiveTransaction) => t.offset > 0);
    case _ =>
  }

  lemma BytesKeepOneEach(s: Scheduler, bytes: Bytes, now: nat)
    requires OneEffectEach(s.active)
    ensures OneEffectEach(EnqueueBytes(s, bytes, now).active)
  {
    hide PendingTotal, ControlFits, PushControl, OneEffectEach, Filter;
    FilterKeepsOneEach(s.active, (t: ActiveTransaction) => SurvivesEviction(s, t));
  }

  lemma DrainKeepsOneEach(w: World, now: nat, force: bool, replies: seq<Reply>)
    requires OneEffectEach(w.s.active)
    ensures OneEffectEach(Drain(w, now, force, replies).turn.s.active)
  {
    hide Drain;
    if Drain(w, now, force, replies).Fail? {
      FailureEmpties(w, now, force, replies);
    } else {
      DrainKeepsEffects(w, now, force, replies);
    }
  }

  lemma FailureEmpties(w: World, now: nat, force: bool, replies: seq<Reply>)
    requires Drain(w, now, force, replies).Fail?
    ensures Drain(w, now, force, replies).turn.s.active == []
  {
    hide FlushWriter, WriteLoop, ReleaseHold, ActivatePending, PopFinished, Holds, TooEarly;
    var forced := Turn(if force then w.s.(waitingForWritable := false) else w.s, w.log, replies, EMPTY_REPORT);
    FlushFailureEmpties(forced);
    var fence := FlushIfRequired(forced);
    if fence.Continue? {
      var released := ReleaseHold(fence.turn, now);
      var finish := Holds(fence.turn.s, now, force);
      var activated := released.(s := ActivatePending(released.s));
      var budget := Max(released.s.config.writeBudgetBytes, 1);
      LoopFailureEmpties(activated, budget, finish);
      match WriteLoop(activated, budget, finish)
      case Left(_) =>
      case Stopped(stopped, atBypass) => FlushFailureEmpties(PopFinished(stopped, atBypass));
    }
  }

  lemma {:induction false} FlushFailureEmpties(t: Turn)
    ensures FlushWriter(t).Fail? ==> FlushWriter(t).turn.s.active == []
    decreases |t.replies|
  {
    if Next(t.replies).Interrupted? {
      FlushFailureEmpties(t.(replies := Later(t.replies)));
    }
  }

  lemma {:induction false} LoopFailureEmpties(t: Turn, budget: nat, finishStartedOnly: bool)
    ensures var exit := WriteLoop(t, budget, finishStartedOnly);
      exit.Left? && exit.progress.Fail? ==> exit.progress.turn.s.active == []
    decreases |t.replies|, |t.s.active|
  {
    if t.report.bytesWritten >= budget || t.s.active == [] || (finishStartedOnly && t.s.active[0].offset == 0) {
    } else if Remaining(t.s.active[0]) == [] {
      LoopFailureEmpties(PopFront(t), budget, finishStartedOnly);
    } else {
      var rest := t.(replies := Later(t.replies));
      match Next(t.replies)
      case Accept(count) =>
        if count != 0 {
          var offered := Min(|Remaining(t.s.active[0])|, budget - t.report.bytesWritten);
          LoopFailureEmpties(WroteFront(rest, Min(count, offered)), budget, finishStartedOnly);
        }
      case Interrupted => LoopFailureEmpties(rest, budget, finishStartedOnly);
      case _ =>
    }
  }

  /** In every reachable state an effect transaction carries one effect and no other transaction carries any. */
  lemma {:induction false} EffectsTravelAlone(w: World, steps: seq<Step>)
    requires OneEffectEach(w.s.active)
    ensures OneEffectEach(Run(w, steps).s.active)
    decreases |steps|
  {
    hide Take, OneEffectEach;
    if steps != [] {
      StepKeepsOneEach(w, steps[0]);
      EffectsTravelAlone(Take(w, steps[0]), steps[1..]);
    }
  }

  // ----- nothing is lost over a run -----

  /** `a` is `b` with some elements left out. */
  ghost predicate Thins(a: Effects, b: Effects)
    decreases |b|
  {
    if b == [] then a == []
    else (a != [] && a[0] == b[0] && Thins(a[1..], b[1..])) || Thins(a, b[1..])
  }

  lemma {:induction false} NothingThins(b: Effects)
    ensures Thins([], b)
  {
    if b != [] {
      NothingThins(b[1..]);
    }
  }

  lemma {:induction false} ThinsSelf(a: Effects)
    ensures Thins(a, a)
  {
    if a != [] {
      ThinsSelf(a[1..]);
    }
  }

  lemma {:induction false} ThinsBehind(front: Effects, a: Effects, b: Effects)
    requires Thins(a, b)
    ensures Thins(front + a, front + b)
  {
    if front == [] {
      assert front + a == a && front + b == b;
    } else {
      assert (front + a)[1..] == front[1..] + a && (front + b)[1..] == front[1..] + b;
      ThinsBehind(front[1..], a, b);
    }
  }

  lemma {:induction false} ThinsAppend(a: Effects, b: Effects, c: Effects, d: Effects)
    requires Thins(a, b) && Thins(c, d)
    ensures Thins(a + c, b + d)
    decreases |b|
  {
    if b == [] {
      assert a + c == c && b + d == d;
    } else {
      assert (b + d)[1..] == b[1..] + d;
      if a != [] && a[0] == b[0] && Thins(a[1..], b[1..]) {
        assert (a + c)[1..] == a[1..] + c;
        ThinsAppend(a[1..], b[1..], c, d);
      } else {
        ThinsAppend(a, b[1..], c, d);
      }
    }
  }

  lemma {:induction false} ThinsTransitive(a: Effects, b: Effects, c: Effects)
    requires Thins(a, b) && Thins(b, c)
    ensures Thins(a, c)
    decreases |c|
  {
    if c != [] {
      if b != [] && b[0] == c[0] && Thins(b[1..], c[1..]) {
        if a != [] && a[0] == b[0] && Thins(a[1..], b[1..]) {
          ThinsTransitive(a[1..], b[1..], c[1..]);
        } else {
          ThinsTransitive(a, b[1..], c[1..]);
        }
      } else {
        ThinsTransitive(a, b, c[1..]);
      }
    }
  }

  lemma {:induction false} FilteringThins(effects: Effects, keep: ScheduledEffect -> bool)
    ensures Thins(Filter(effects, keep), effects)
  {
    if effects != [] {
      FilteringThins(effects[1..], keep);
      if keep(effects[0]) {
        var rest := Filter(effects[1..], keep);
        assert ([effects[0]] + rest)[1..] == rest;
      }
    }
  }

  lemma {:induction false} StartedThin(active: seq<ActiveTransaction>, owner: nat, kind: EventKind)
    ensures Thins(Own(StartedEffects(active), owner, kind), Own(ActiveEffects(active), owner, kind))
  {
    if active != [] {
      var t, rest := active[0], active[1..];
      StartedThin(rest, owner, kind);
      StartedCons(t, rest, active);
      OwnAppend(t.completedEffects, ActiveEffects(rest), owner, kind);
      OwnAppend(t.completedEffects, StartedEffects(rest), owner, kind);
      OwnAppend([], StartedEffects(rest), owner, kind);
      NoOwn(owner, kind);
      NothingThins(Own(t.completedEffects, owner, kind));
      ThinsSelf(Own(t.completedEffects, owner, kind));
      ThinsAppend(if t.offset != 0 then Own(t.completedEffects, owner, kind) else [], Own(t.completedEffects, owner, kind),
                  Own(StartedEffects(rest), owner, kind), Own(ActiveEffects(rest), owner, kind));
    }
  }

  /** What supersession leaves of the effects of one owner and kind. */
  lemma CommittedThin(s: Scheduler, owner: nat, kind: EventKind)
    ensures Thins(Own(s.awaitingEffects + StartedEffects(s.active), owner, kind), Own(HeldEffects(s), owner, kind))
  {
    hide Own, StartedEffects, ActiveEffects, Thins;
    var committed, started := Own(s.awaitingEffects, owner, kind), Own(StartedEffects(s.active), owner, kind);
    OwnAppend(s.awaitingEffects, StartedEffects(s.active), owner, kind);
    OwnAppend(s.awaitingEffects, ActiveEffects(s.active) + s.pendingEffects, owner, kind);
    OwnAppend(ActiveEffects(s.active), s.pendingEffects, owner, kind);
    StartedThin(s.active, owner, kind);
    NothingThins(Own(s.pendingEffects, owner, kind));
    ThinsAppend(started, Own(ActiveEffects(s.active), owner, kind), [], Own(s.pendingEffects, owner, kind));
    assert started + [] == started;
    ThinsBehind(committed, started, Own(ActiveEffects(s.active), owner, kind) + Own(s.pendingEffects, owner, kind));
  }

  /** `kept` is `all` with some elements left out, but never the last one. */
  ghost predicate KeepsTheLatest(kept: Effects, all: Effects) {
    Thins(kept, all) && (all != [] ==> kept != [] && kept[|kept| - 1] == all[|all| - 1])
  }

  lemma NothingOfNothing(a: Effects)
    requires Thins(a, [])
    ensures a == []
  {
  }

  lemma LatestChains(reported: Effects, held1: Effects, more: Effects, final: Effects, before: Effects, asked: Effects)
    requires KeepsTheLatest(final, held1 + more) && KeepsTheLatest(reported + held1, before + asked)
    ensures KeepsTheLatest(reported + final, before + asked + more)
  {
    hide Thins;
    var kept, all := reported + final, before + asked + more;
    assert Thins(kept, all) by {
      Reassociate(reported, held1, more);
      ThinsBehind(reported, final, held1 + more);
      ThinsSelf(more);
      ThinsAppend(reported + held1, before + asked, more, more);
      ThinsTransitive(kept, reported + held1 + more, all);
    }
    if more != [] {
      assert all[|all| - 1] == more[|more| - 1] == (held1 + more)[|held1 + more| - 1];
    } else {
      assert held1 + more == held1 && all == before + asked;
      if held1 == [] {
        NothingOfNothing(final);
        assert kept == reported + held1;
      } else {
        assert (reported + held1)[|reported + held1| - 1] == held1[|held1| - 1];
      }
    }
  }

  /**
    * Over any run without write failures, cleanup, evictions or lack of room, seen from one owner and
    * one kind of effect: what was held before and asked for since is reported or still held, once each
    * and in order. Of a title or a directory only earlier values may be missing, never the latest.
    */
  lemma {:induction false} EffectsAreAccountedFor(w: World, steps: seq<Step>, owner: nat, kind: EventKind)
    requires OneEffectEach(w.s.active) && EffectsUndisturbed(w, steps)
    ensures var kept := Own(ReportedEffects(w, steps) + HeldEffects(Run(w, steps).s), owner, kind);
      var all := Own(HeldEffects(w.s), owner, kind) + Own(AskedEffects(w, steps), owner, kind);
      if DescribesPresent(kind) then KeepsTheLatest(kept, all) else kept == all
    decreases |steps|
  {
    hide Own, HeldEffects, OneEffectEach, Take, KeepsTheLatest, HasRoom, Evicts;
    if steps == [] {
      NothingHappened(w, owner, kind);
    } else {
      var step, rest, w1 := steps[0], steps[1..], Take(w, steps[0]);
      var reported := if step.DoDrain? then Drain(w, step.now, step.force, step.replies).turn.report.completedEffects else [];
      var asked := if step.DoEnqueueEffect? then [Asked(w.s, step.owner, step.event)] else [];
      assert EffectsUndisturbed(w, [step]);
      StepKeepsOwn(w, step, owner, kind);
      EffectsAreAccountedFor(w1, rest, owner, kind);
      var more, final := Own(AskedEffects(w1, rest), owner, kind), Own(ReportedEffects(w1, rest) + HeldEffects(Run(w1, rest).s), owner, kind);
      OwnAppend(asked, AskedEffects(w1, rest), owner, kind);
      OwnAppend(reported, HeldEffects(w1.s), owner, kind);
      OwnAppend(reported, ReportedEffects(w1, rest) + HeldEffects(Run(w1, rest).s), owner, kind);
      Reassociate(reported, ReportedEffects(w1, rest), HeldEffects(Run(w1, rest).s));
      Reassociate(Own(HeldEffects(w.s), owner, kind), Own(asked, owner, kind), more);
      Reassociate(Own(reported, owner, kind), Own(HeldEffects(w1.s), owner, kind), more);
      if DescribesPresent(kind) {
        StepKeepsTheLatest(w, reported, w1.s, asked, owner, kind);
        LatestChains(Own(reported, owner, kind), Own(HeldEffects(w1.s), owner, kind), more, final,
                     Own(HeldEffects(w.s), owner, kind), Own(asked, owner, kind));
      }
    }
  }

  lemma NothingHappened(w: World, owner: nat, kind: EventKind)
    ensures var all := Own(HeldEffects(w.s), owner, kind) + Own([], owner, kind);
      Own([] + HeldEffects(w.s), owner, kind) == all && KeepsTheLatest(all, all)
  {
    hide HeldEffects, Own;
    NoOwn(owner, kind);
    NothingInFront(HeldEffects(w.s));
    ThinsSelf(Own(HeldEffects(w.s), owner, kind) + Own([], owner, kind));
    assert Own(HeldEffects(w.s), owner, kind) + [] == Own(HeldEffects(w.s), owner, kind);
  }

  lemma StepKeepsTheLatest(w: World, reported: Effects, after: Scheduler, asked: Effects, owner: nat, kind: EventKind)
    requires var before, kept := Own(HeldEffects(w.s), owner, kind), Own(reported + HeldEffects(after), owner, kind);
      || kept == before + Own(asked, owner, kind)
      || (asked != [] && Own(asked, owner, kind) == asked
          && kept == Own(w.s.awaitingEffects + StartedEffects(w.s.active), owner, kind) + asked)
    ensures KeepsTheLatest(Own(reported + HeldEffects(after), owner, kind),
                           Own(HeldEffects(w.s), owner, kind) + Own(asked, owner, kind))
  {
    hide Own, HeldEffects, StartedEffects, Thins;
    var before, committed := Own(HeldEffects(w.s), owner, kind), Own(w.s.awaitingEffects + StartedEffects(w.s.active), owner, kind);
    var kept := Own(reported + HeldEffects(after), owner, kind);
    if kept == before + Own(asked, owner, kind) {
      ThinsSelf(kept);
    } else {
      CommittedThin(w.s, owner, kind);
      ThinsSelf(asked);
      ThinsAppend(committed, before, asked, asked);
      assert (committed + asked)[|committed| + |asked| - 1] == asked[|asked| - 1] == (before + asked)[|before| + |asked| - 1];
    }
  }
}
