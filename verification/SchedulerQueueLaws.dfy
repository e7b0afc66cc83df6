/** What the queueing operations admit, replace, evict and arm, in terms of what the scheduler holds. */
module SchedulerQueueLaws {
  import opened Common
  import opened TerminalEvents
  import opened SchedulerSteps
  import opened SchedulerInvariant
  import opened SchedulerQueueing

  // ----- renders -----

  /** The scheduler without the renders that a newer one replaces: the queued one and the first unstarted one. */
  function WithoutReplaced(s: Scheduler): Scheduler {
    var index := UnstartedRenderIndex(s.active);
    s.(pendingRender := None,
       active := if index < |s.active| then s.active[..index] + s.active[index + 1..] else s.active)
  }

  lemma {:induction false} LeftOverAppend(a: seq<ActiveTransaction>, b: seq<ActiveTransaction>)
    ensures LeftOver(a + b) == LeftOver(a) + LeftOver(b)
  {
    if a == [] {
      assert a + b == b;
    } else {
      assert (a + b)[1..] == a[1..] + b;
      LeftOverAppend(a[1..], b);
    }
  }

  lemma LeftOverOne(t: ActiveTransaction)
    ensures LeftOver([t]) == t.Left()
  {
    assert [t][1..] == [];
  }

  lemma SplicedSize(active: seq<ActiveTransaction>, index: nat)
    requires index < |active|
    ensures LeftOver(active) == LeftOver(active[..index] + active[index + 1..]) + active[index].Left()
  {
    hide LeftOver;
    var head, one, tail := active[..index], [active[index]], active[index + 1..];
    assert active == head + (one + tail);
    LeftOverOne(active[index]);
    LeftOverAppend(head, one + tail);
    LeftOverAppend(one, tail);
    LeftOverAppend(head, tail);
  }

  lemma ReplacedSize(s: Scheduler)
    ensures PendingTotal(WithoutReplaced(s)) == PendingTotal(s) - ReplaceableBytes(s)
  {
    hide LeftOver, TotalLength, EffectBytes;
    var index := UnstartedRenderIndex(s.active);
    if index < |s.active| {
      SplicedSize(s.active, index);
    }
  }

  /** A render is admitted exactly when it fits in place of what it replaces, its wrapper included. */
  lemma RenderIsAdmittedIffItFits(s: Scheduler, batch: RenderBatch)
    ensures var size := TotalLength(batch.transactions) + if s.syncSupported then 16 else 0;
      AcceptsRender(s, batch) <==> PendingTotal(WithoutReplaced(s)) + size <= s.config.maximumPendingBytes
  {
    hide PendingTotal, ReplaceableBytes, WithoutReplaced;
    ReplacedSize(s);
  }

  /** A render that has not begun and that a newer one replaces. */
  predicate IsReplaced(s: Scheduler, generation: Option<nat>) {
    var index := UnstartedRenderIndex(s.active);
    generation.Some?
    && (|| (s.pendingRender.Some? && s.pendingRender.value.generation == generation.value)
        || (index < |s.active| && s.active[index].completedRender.Some?
            && s.active[index].completedRender.value.generation == generation.value))
  }

  /**
    * An admitted render takes the place of what it replaces and changes nothing else but the bells it
    * takes back into the queue; it inherits the tokens of what it replaces, and an armed bypass.
    */
  lemma AdmittedRenderLaw(s: Scheduler, batch: RenderBatch, accessibility: nat, now: nat)
    requires AcceptsRender(s, batch)
    ensures var s', size := EnqueueRender(s, batch, accessibility, now), BatchBytes(batch, s.syncSupported);
      && s'.pendingRender == Some(PendingRender(batch, size, s.nextGeneration, accessibility))
      && s'.pendingBytes == s.pendingBytes && s'.pendingEffects == s.pendingEffects
      && s'.awaitingRenders == s.awaitingRenders && s'.awaitingEffects == s.awaitingEffects
      && s'.appSync == s.appSync && !s'.bypassNext
      && (if exists t :: t in s.active && IsUnstartedRender(t)
          then s'.active == WithoutUnstartedBells(WithoutReplaced(s).active) else s'.active == s.active)
      && s'.bypassGeneration
         == (if s.bypassNext || IsReplaced(s, s.bypassGeneration) then Some(s.nextGeneration) else s.bypassGeneration)
      && s'.releaseGeneration
         == (if IsReplaced(s, s.releaseGeneration) then Some(s.nextGeneration) else s.releaseGeneration)
  {
    hide AcceptsRender, BatchBytes, WithoutUnstartedBells, UnstartedBellBytes;
    UnstartedRenderExists(s.active);
  }

  lemma UnstartedRenderExists(active: seq<ActiveTransaction>)
    ensures UnstartedRenderIndex(active) < |active| <==> exists t :: t in active && IsUnstartedRender(t)
  {
    var index := UnstartedRenderIndex(active);
    if index < |active| {
      assert active[index] in active;
    }
  }

  /** A refused render only disarms the bypass; the outcome says what happened. */
  lemma RenderOutcomeLaw(s: Scheduler, batch: RenderBatch, accessibility: nat, now: nat)
    ensures match RenderOutcome(s, batch)
            case DroppedForCapacity =>
              PendingTotal(WithoutReplaced(s)) + BatchBytes(batch, s.syncSupported) > s.config.maximumPendingBytes
              && EnqueueRender(s, batch, accessibility, now) == s.(bypassNext := false)
            case ReplacedObsoleteRender =>
              AcceptsRender(s, batch) && (s.pendingRender.Some? || exists t :: t in s.active && IsUnstartedRender(t))
            case Queued =>
              AcceptsRender(s, batch) && s.pendingRender.None? && forall t :: t in s.active ==> !IsUnstartedRender(t)
  {
    hide PendingTotal, ReplaceableBytes, WithoutReplaced, IsUnstartedRender, WithdrawUnstartedRender;
    ReplacedSize(s);
    UnstartedRenderExists(s.active);
  }

  /** The bypass is armed only inside an application transaction, and only for the next render offered. */
  lemma BypassIsForTheNextRender(s: Scheduler, batch: RenderBatch, accessibility: nat, now: nat)
    ensures var armed := SetBypassed(s, true);
      var s' := EnqueueRender(armed, batch, accessibility, now);
      && !s'.bypassNext && !SetBypassed(s, false).bypassNext
      && (s.appSync.Some? && AcceptsRender(s, batch) ==>
            s'.bypassGeneration == Some(s.nextGeneration) && s'.pendingRender.Some?
            && s'.pendingRender.value.generation == s.nextGeneration)
      && (s.appSync.None? ==> s' == EnqueueRender(SetBypassed(s, false), batch, accessibility, now))
  {
    hide ReplacesGeneration, UnstartedRenderIndex, AcceptsRender, UnstartedBellBytes, WithoutUnstartedBells, BatchBytes;
    SameAdmission(s, SetBypassed(s, true), batch);
    if s.appSync.None? {
      assert SetBypassed(s, true) == SetBypassed(s, false);
    }
  }

  lemma SameAdmission(s: Scheduler, s': Scheduler, batch: RenderBatch)
    requires s'.active == s.active && s'.pendingRender == s.pendingRender && s'.pendingBytes == s.pendingBytes
    requires s'.pendingEffects == s.pendingEffects && s'.pendingBells == s.pendingBells
    requires s'.config == s.config && s'.syncSupported == s.syncSupported
    ensures AcceptsRender(s', batch) == AcceptsRender(s, batch)
  {
  }

  // ----- control bytes -----

  lemma {:induction false} FilterMembers(active: seq<ActiveTransaction>, keep: ActiveTransaction -> bool, t: ActiveTransaction)
    ensures t in Filter(active, keep) <==> t in active && keep(t)
  {
    if active != [] {
      FilterMembers(active[1..], keep, t);
    }
  }

  /**
    * Eviction spares, in order, what has begun, control bytes, and the renders that hold a token; all
    * other visual work goes.
    */
  lemma EvictionIsExact(s: Scheduler, t: ActiveTransaction)
    ensures var evicted := Evict(s);
      && (t in evicted.active <==>
            && t in s.active
            && (|| t.offset > 0 || t.kind == Control
                || (t.completedRender.Some? && s.releaseGeneration == Some(t.completedRender.value.generation))
                || (t.completedRender.Some? && s.bypassGeneration == Some(t.completedRender.value.generation))))
      && Prunes(evicted.active, s.active)
      && evicted.pendingBytes == s.pendingBytes && evicted.pendingEffects == [] && evicted.pendingBells == 0
      && evicted.pendingRender
         == (if s.pendingRender.Some? && (s.releaseGeneration == Some(s.pendingRender.value.generation)
                                          || s.bypassGeneration == Some(s.pendingRender.value.generation))
             then s.pendingRender else None)
  {
    hide Prunes, Filter;
    FilterMembers(s.active, (x: ActiveTransaction) => SurvivesEviction(s, x), t);
    FilterPrunes(s.active, (x: ActiveTransaction) => SurvivesEviction(s, x));
  }

  /** Control bytes evict only when they do not fit otherwise, and are queued exactly when they fit then. */
  lemma ControlIsAdmittedIffItFits(s: Scheduler, bytes: Bytes, now: nat)
    ensures var s', max := EnqueueBytes(s, bytes, now), s.config.maximumPendingBytes;
      var within := bytes != [] && ControlTotal(s) + |bytes| <= 65536;
      var roomy := if PendingTotal(s) + |bytes| <= max then s else Evict(s);
      && (within && PendingTotal(roomy) + |bytes| <= max ==>
            Concat(s'.pendingBytes) == Concat(s.pendingBytes) + bytes && s'.active == roomy.active
            && s'.pendingRender == roomy.pendingRender && s'.pendingEffects == roomy.pendingEffects
            && s'.pendingBells == roomy.pendingBells)
      && (within && PendingTotal(roomy) + |bytes| > max ==> s' == roomy)
      && (!within ==> s' == s)
  {
    hide PendingTotal, ControlTotal, Evict, PushControl, Concat;
    var roomy := MakeRoom(s, bytes);
    EvictionKeepsConfig(s);
    PushControlBytes(roomy.pendingBytes, bytes, s.config.maximumPendingBytes);
  }

  lemma EvictionKeepsConfig(s: Scheduler)
    ensures Evict(s).config == s.config && Evict(s).pendingBytes == s.pendingBytes
  {
    hide Filter, SurvivesEviction;
  }

  /** Neighbouring chunks of the control queue would not fit in one. */
  predicate Coalesced(queue: seq<Bytes>, maximum: nat) {
    forall i :: 0 <= i < |queue| - 1 ==> |queue[i]| + |queue[i + 1]| > maximum
  }

  lemma PushingCoalesces(queue: seq<Bytes>, bytes: Bytes, maximum: nat)
    requires Coalesced(queue, maximum)
    ensures Coalesced(PushControl(queue, bytes, maximum), maximum)
    ensures (forall c :: c in queue ==> |c| <= maximum) && |bytes| <= maximum ==>
              forall c :: c in PushControl(queue, bytes, maximum) ==> |c| <= maximum
  {
    var pushed := PushControl(queue, bytes, maximum);
    forall i | 0 <= i < |pushed| - 1
      ensures |pushed[i]| + |pushed[i + 1]| > maximum
    {
      if i < |queue| - 1 {
        assert |queue[i]| + |queue[i + 1]| > maximum;
      }
    }
  }

  // ----- cleanup and bells -----

  /** Cleanup leaves the transaction that has begun, and what is written or being flushed, and nothing else. */
  lemma CleanupKeepsWhatHasBegun(s: Scheduler)
    requires OnlyFrontStarted(s.active)
    ensures var s' := PrepareForLifecycleCleanup(s);
      && s'.active == (if s.active != [] && s.active[0].offset > 0 then [s.active[0]] else [])
      && s'.pendingBytes == [] && s'.pendingRender.None? && s'.pendingEffects == [] && s'.pendingBells == 0
      && s'.awaitingRenders == [] && s'.awaitingEffects == s.awaitingEffects
      && s'.appSync.None? && !s'.bypassNext && s'.bypassGeneration.None? && s'.releaseGeneration.None?
      && s'.flushRequired == s.flushRequired && s'.waitingForWritable == s.waitingForWritable
      && s'.needsReconciliation == s.needsReconciliation && s'.nextGeneration == s.nextGeneration
  {
    if s.active != [] {
      NoneStarted(s.active[1..]);
    }
  }

  lemma {:induction false} NoneStarted(active: seq<ActiveTransaction>)
    requires forall i :: 0 <= i < |active| ==> active[i].offset == 0
    ensures Filter(active, (t: ActiveTransaction) => t.offset > 0) == []
  {
    if active != [] {
      NoneStarted(active[1..]);
    }
  }

  /** As many bells are kept as there is room for, and nothing else changes. */
  lemma BellsFillTheRoom(s: Scheduler, count: nat, now: nat)
    ensures var s' := EnqueueBell(s, count, now);
      var room := if PendingTotal(s) <= s.config.maximumPendingBytes then s.config.maximumPendingBytes - PendingTotal(s) else 0;
      && s'.pendingBells == s.pendingBells + Min(count, room)
      && s' == s.(pendingBells := s'.pendingBells, pendingSinceMs := s'.pendingSinceMs)
  {
    hide PendingTotal;
  }

  // ----- activation -----

  function KindRank(kind: TransactionKind): nat {
    match kind
    case Control => 0
    case Effect => 1
    case Render => 2
    case BellRing => 3
  }

  lemma {:induction false} ActivatedControls(pending: seq<Bytes>)
    ensures var active := ActivateControls(pending);
      |active| == |pending| && forall i :: 0 <= i < |pending| ==> active[i] == ActiveTransaction(Control, pending[i], 0, None, [])
  {
    if pending != [] {
      ActivatedControls(pending[1..]);
    }
  }

  lemma {:induction false} ActivatedEffects(effects: seq<ScheduledEffect>)
    ensures var active := ActivateEffects(effects);
      && |active| == |effects|
      && forall i :: 0 <= i < |effects| ==>
           active[i] == ActiveTransaction(Effect, Encode(effects[i].event), 0, None, [effects[i]])
  {
    if effects != [] {
      ActivatedEffects(effects[1..]);
    }
  }

  /**
    * What is activated goes out in this order: the control chunks, the effects, the render, the bells,
    * each queue in its own order, and no queue is left.
    */
  lemma ActivationOrder(s: Scheduler)
    requires s.active == []
    ensures var active := ActivatePending(s).active;
      var (controls, effects) := (|s.pendingBytes|, |s.pendingEffects|);
      var renders := if s.pendingRender.Some? then 1 else 0;
      var bells := if s.pendingBells > 0 then 1 else 0;
      && |active| == controls + effects + renders + bells
      && (forall i :: 0 <= i < controls ==> active[i] == ActiveTransaction(Control, s.pendingBytes[i], 0, None, []))
      && (forall i :: 0 <= i < effects ==>
            active[controls + i]
            == ActiveTransaction(Effect, Encode(s.pendingEffects[i].event), 0, None, [s.pendingEffects[i]]))
      && (s.pendingRender.Some? ==>
            var render := s.pendingRender.value;
            active[controls + effects]
            == ActiveTransaction(Render, RenderBytes(render.batch, s.syncSupported), 0,
                                 Some(TrackedRender(render.batch.predicted, render.generation, render.accessibility)), []))
      && (s.pendingBells > 0 ==>
            active[|active| - 1] == ActiveTransaction(BellRing, seq(s.pendingBells, _ => 0x07), 0, None, []))
    ensures var s' := ActivatePending(s);
      s'.pendingBytes == [] && s'.pendingEffects == [] && s'.pendingRender.None? && s'.pendingBells == 0 && s'.pendingSinceMs.None?
  {
    hide RenderBytes, ActivateControls, ActivateEffects;
    ActivatedControls(s.pendingBytes);
    ActivatedEffects(s.pendingEffects);
  }
}
