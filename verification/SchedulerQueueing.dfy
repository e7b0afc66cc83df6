/** The queueing operations of the scheduler keep the invariant. */
module SchedulerQueueing {
  import opened Common
  import opened TerminalEvents
  import opened SchedulerSteps
  import opened SchedulerInvariant

  // ----- order and lineage -----

  lemma PruneKeepsOrder(
    awaiting: seq<TrackedRender>, active: seq<ActiveTransaction>, pending: Option<PendingRender>, log: Log,
    awaiting': seq<TrackedRender>, active': seq<ActiveTransaction>, pending': Option<PendingRender>)
    requires OrderInv(awaiting, active, pending, log)
    requires Prunes(active', active)
    requires awaiting' == awaiting || awaiting' == []
    requires pending' == pending || pending' == None
    ensures OrderInv(awaiting', active', pending', log)
  {
    var reported := Reported(log);
    var last := PendingRenders(pending);
    PruneKeepsAscent(reported, awaiting, active, last, awaiting', active', PendingRenders(pending'));
    PrunedRendersMembers(active', active);
    forall r | r in reported || r in Held(awaiting', active', pending')
      ensures Genuine(log.offers, r)
    {
      assert r in reported || r in Held(awaiting, active, pending);
    }
  }

  lemma PruneKeepsAscent(
    reported: seq<TrackedRender>, awaiting: seq<TrackedRender>, active: seq<ActiveTransaction>, last: seq<TrackedRender>,
    awaiting': seq<TrackedRender>, active': seq<ActiveTransaction>, last': seq<TrackedRender>)
    requires Ascending(reported + (awaiting + ActiveRenders(active) + last))
    requires Prunes(active', active)
    requires awaiting' == awaiting || awaiting' == []
    requires last' == last || last' == []
    ensures Ascending(reported + (awaiting' + ActiveRenders(active') + last'))
  {
    hide Ascending, ActiveRenders;
    var kept := ActiveRenders(active');
    assert reported + (awaiting + ActiveRenders(active) + last) == (reported + awaiting) + ActiveRenders(active) + last;
    PrunedRendersAscend(reported + awaiting, active', active, last);
    assert (reported + awaiting) + kept + last == reported + awaiting + (kept + last);
    AscendingWithout(reported, awaiting, kept + last);
    assert reported + (kept + last) == reported + [] + kept + last;
    assert Ascending(reported + awaiting' + kept + last) by {
      assert reported + awaiting + (kept + last) == reported + awaiting + kept + last;
    }
    assert reported + awaiting' + kept + last == (reported + awaiting' + kept) + last + [];
    AscendingWithout(reported + awaiting' + kept, last, []);
    if last' == [] {
      assert reported + (awaiting' + kept + last') == (reported + awaiting' + kept) + [];
    } else {
      assert reported + (awaiting' + kept + last') == reported + awaiting' + kept + last;
    }
  }

  /** Dropping unstarted transactions, unflushed receipts or the pending render disturbs no order. */
  lemma PruneKeeps(w: World, s: Scheduler)
    requires WorldOrder(w)
    requires Prunes(s.active, w.s.active)
    requires s.awaitingRenders == w.s.awaitingRenders || s.awaitingRenders == []
    requires s.pendingRender == w.s.pendingRender || s.pendingRender == None
    requires s.flushRequired == w.s.flushRequired && s.nextGeneration == w.s.nextGeneration
    ensures WorldOrder(World(s, w.log))
  {
    PrunedFront(s.active, w.s.active);
    PrunedMembers(s.active, w.s.active);
    PruneKeepsOrder(w.s.awaitingRenders, w.s.active, w.s.pendingRender, w.log,
                    s.awaitingRenders, s.active, s.pendingRender);
  }

  /** Operations that leave renders, transactions and fence alone leave the order alone. */
  lemma OrderUnchanged(w: World, s: Scheduler)
    requires WorldOrder(w)
    requires s.active == w.s.active && s.awaitingRenders == w.s.awaitingRenders && s.pendingRender == w.s.pendingRender
    requires s.flushRequired == w.s.flushRequired && s.nextGeneration == w.s.nextGeneration
    ensures WorldOrder(World(s, w.log))
  {
  }

  ghost predicate SameWork(s: Scheduler, s': Scheduler) {
    && s'.active == s.active && s'.awaitingRenders == s.awaitingRenders && s'.pendingRender == s.pendingRender
    && s'.flushRequired == s.flushRequired && s'.nextGeneration == s.nextGeneration
    && s'.pendingBytes == s.pendingBytes && s'.pendingEffects == s.pendingEffects && s'.pendingBells == s.pendingBells
    && s'.pendingSinceMs == s.pendingSinceMs && s'.config == s.config && s'.syncSupported == s.syncSupported
  }

  /** Tokens stay owned when the held renders stay; a token may also be dropped. */
  lemma SameRendersKeepTokens(s: Scheduler, s': Scheduler)
    requires TokenInv(s) && SameWork(s, s')
    requires s'.bypassGeneration == s.bypassGeneration || s'.bypassGeneration == None
    requires s'.releaseGeneration == s.releaseGeneration || s'.releaseGeneration == None
    requires s'.releaseGeneration.Some? ==> s'.appSync == Some(IgnoringUntilClose)
    ensures TokenInv(s')
  {
    hide HoldsGeneration;
  }

  /** Fields outside the queues do not enter the order, the budget or the wake-up. */
  lemma SameWorkKeeps(w: World, s: Scheduler)
    requires Inv(w) && SameWork(w.s, s) && TokenInv(s)
    ensures Inv(World(s, w.log))
  {
    hide WorldOrder, TokenInv;
    OrderUnchanged(w, s);
  }

  lemma TokenRenderIsHeld(
    awaiting: seq<TrackedRender>, active: seq<ActiveTransaction>, pending: Option<PendingRender>, r: TrackedRender)
    requires r in awaiting || r in ActiveRenders(active) || r in PendingRenders(pending)
    ensures HoldsGeneration(awaiting, active, pending, r.generation)
  {
    assert r in Held(awaiting, active, pending);
  }

  /** Every generation that `keep` protects is still held when the others are dropped. */
  lemma ProtectedGenerationStays(
    awaiting: seq<TrackedRender>, active: seq<ActiveTransaction>, keep: ActiveTransaction -> bool,
    pending: Option<PendingRender>, pending': Option<PendingRender>, generation: nat)
    requires HoldsGeneration(awaiting, active, pending, generation)
    requires forall t :: t in active && t.Tracks(Some(generation)) ==> keep(t)
    requires pending.Some? && pending.value.generation == generation ==> pending' == pending
    ensures HoldsGeneration(awaiting, Filter(active, keep), pending', generation)
  {
    var r :| r in Held(awaiting, active, pending) && r.generation == generation;
    if r in ActiveRenders(active) {
      var t := ActiveRenderSource(active, r);
      FilterKeeps(active, keep, t);
      ActiveRenderMember(Filter(active, keep), t);
    }
    TokenRenderIsHeld(awaiting, Filter(active, keep), pending', r);
  }

  lemma EvictKeeps(w: World)
    requires Inv(w)
    ensures Inv(World(Evict(w.s), w.log))
    ensures PendingTotal(Evict(w.s)) <= PendingTotal(w.s)
  {
    var s := w.s;
    var s' := Evict(s);
    var keep := (t: ActiveTransaction) => SurvivesEviction(s, t);
    assert s'.active == Filter(s.active, keep);
    FilterPrunes(s.active, keep);
    PrunedSizes(s'.active, s.active);
    PruneKeeps(w, s');
    if s.bypassGeneration.Some? {
      ProtectedGenerationStays(s.awaitingRenders, s.active, keep, s.pendingRender, s'.pendingRender, s.bypassGeneration.value);
    }
    if s.releaseGeneration.Some? {
      ProtectedGenerationStays(s.awaitingRenders, s.active, keep, s.pendingRender, s'.pendingRender, s.releaseGeneration.value);
    }
  }

  lemma MakeRoomKeeps(w: World, bytes: Bytes)
    requires Inv(w)
    ensures Inv(World(MakeRoom(w.s, bytes), w.log))
    ensures ControlTotal(MakeRoom(w.s, bytes)) <= ControlTotal(w.s)
  {
    EvictKeeps(w);
    var keep := (t: ActiveTransaction) => SurvivesEviction(w.s, t);
    FilterPrunes(w.s.active, keep);
    PrunedSizes(Filter(w.s.active, keep), w.s.active);
  }

  lemma PushControlBytes(queue: seq<Bytes>, bytes: Bytes, maximum: nat)
    ensures Concat(PushControl(queue, bytes, maximum)) == Concat(queue) + bytes
    ensures TotalLength(PushControl(queue, bytes, maximum)) == TotalLength(queue) + |bytes|
  {
    var pushed := PushControl(queue, bytes, maximum);
    if queue != [] && |queue[|queue| - 1]| + |bytes| <= maximum {
      var front, last := queue[..|queue| - 1], queue[|queue| - 1];
      assert queue == front + [last] && pushed == front + [last + bytes];
      ConcatAppend(front, [last]);
      ConcatAppend(front, [last + bytes]);
      TotalLengthAppend(front, [last]);
      TotalLengthAppend(front, [last + bytes]);
      assert Concat([last + bytes]) == last + bytes && Concat([last]) == last;
      assert Concat(front) + (last + bytes) == Concat(front) + last + bytes;
    } else {
      ConcatAppend(queue, [bytes]);
      TotalLengthAppend(queue, [bytes]);
      assert Concat([bytes]) == bytes;
    }
  }

  lemma TokensUnchanged(s: Scheduler, s': Scheduler)
    requires TokenInv(s)
    requires s'.active == s.active && s'.awaitingRenders == s.awaitingRenders && s'.pendingRender == s.pendingRender
    requires s'.bypassGeneration == s.bypassGeneration && s'.releaseGeneration == s.releaseGeneration && s'.appSync == s.appSync
    ensures TokenInv(s')
  {
  }

  /** The scheduler with admitted control bytes queued. */
  function Pushed(s: Scheduler, bytes: Bytes, now: nat): Scheduler {
    NotePending(s, now).(pendingBytes := PushControl(s.pendingBytes, bytes, s.config.maximumPendingBytes))
  }

  lemma PushedBudget(s: Scheduler, bytes: Bytes, now: nat)
    requires BudgetInv(s) && WakeInv(s)
    requires ControlTotal(s) + |bytes| <= CONTROL_BACKLOG_LIMIT_BYTES
    requires PendingTotal(s) + |bytes| <= s.config.maximumPendingBytes
    ensures BudgetInv(Pushed(s, bytes, now)) && WakeInv(Pushed(s, bytes, now))
  {
    hide LeftOver, ControlLeftOver, TotalLength, EffectBytes, PushControl, BatchBytes;
    PushControlBytes(s.pendingBytes, bytes, s.config.maximumPendingBytes);
  }

  lemma ControlPushed(w: World, bytes: Bytes, now: nat)
    requires Inv(w)
    requires ControlTotal(w.s) + |bytes| <= CONTROL_BACKLOG_LIMIT_BYTES
    requires PendingTotal(w.s) + |bytes| <= w.s.config.maximumPendingBytes
    ensures Inv(World(Pushed(w.s, bytes, now), w.log))
  {
    hide WorldOrder, TokenInv, BudgetInv, WakeInv, PushControl, PendingTotal, ControlTotal;
    var pushed := Pushed(w.s, bytes, now);
    OrderUnchanged(w, pushed);
    TokensUnchanged(w.s, pushed);
    PushedBudget(w.s, bytes, now);
  }

  lemma EnqueueBytesKeeps(w: World, bytes: Bytes, now: nat)
    requires Inv(w)
    ensures Inv(World(EnqueueBytes(w.s, bytes, now), w.log))
  {
    MakeRoomKeeps(w, bytes);
    hide MakeRoom;
    if AcceptsControl(w.s, bytes) {
      MakeRoomConfig(w.s, bytes);
      ControlPushed(World(MakeRoom(w.s, bytes), w.log), bytes, now);
    }
  }

  lemma MakeRoomConfig(s: Scheduler, bytes: Bytes)
    ensures MakeRoom(s, bytes).config == s.config
  {
  }

  lemma CleanupKeeps(w: World)
    requires Inv(w)
    ensures Inv(World(PrepareForLifecycleCleanup(w.s), w.log))
  {
    var s' := PrepareForLifecycleCleanup(w.s);
    var keep := (t: ActiveTransaction) => t.offset > 0;
    assert s'.active == Filter(w.s.active, keep);
    FilterPrunes(w.s.active, keep);
    PrunedSizes(s'.active, w.s.active);
    PruneKeeps(w, s');
  }

  // ----- offering a render -----

  lemma {:induction false} LeftOverAppend(a: seq<ActiveTransaction>, b: seq<ActiveTransaction>)
    ensures LeftOver(a + b) == LeftOver(a) + LeftOver(b)
    ensures ControlLeftOver(a + b) == ControlLeftOver(a) + ControlLeftOver(b)
  {
    if a == [] {
      assert a + b == b;
    } else {
      assert (a + b)[1..] == a[1..] + b;
      LeftOverAppend(a[1..], b);
    }
  }

  lemma {:induction false} BellsAreConserved(active: seq<ActiveTransaction>)
    ensures LeftOver(WithoutUnstartedBells(active)) + UnstartedBellBytes(active) == LeftOver(active)
  {
    if active != [] {
      BellsAreConserved(active[1..]);
      var rest := WithoutUnstartedBells(active[1..]);
      if !IsUnstartedBell(active[0]) {
        assert ([active[0]] + rest)[1..] == rest;
      }
    }
  }

  lemma WithdrawPrunes(s: Scheduler, now: nat)
    ensures var s' := WithdrawUnstartedRender(s, now);
            && Prunes(s'.active, s.active)
            && LeftOver(s'.active) + s'.pendingBells
               + (if UnstartedRenderIndex(s.active) < |s.active| then |s.active[UnstartedRenderIndex(s.active)].bytes| else 0)
               == LeftOver(s.active) + s.pendingBells
  {
    var index := UnstartedRenderIndex(s.active);
    if index == |s.active| {
      PrunesSelf(s.active);
    } else {
      var rest := s.active[..index] + s.active[index + 1..];
      var keep := (t: ActiveTransaction) => !IsUnstartedBell(t);
      RemovalPrunes(s.active, index);
      FilterPrunes(rest, keep);
      PrunesTransitive(Filter(rest, keep), rest, s.active);
      BellsAreConserved(rest);
      assert s.active == s.active[..index] + ([s.active[index]] + s.active[index + 1..]);
      LeftOverAppend(s.active[..index], [s.active[index]] + s.active[index + 1..]);
      LeftOverAppend([s.active[index]], s.active[index + 1..]);
      LeftOverAppend(s.active[..index], s.active[index + 1..]);
      assert LeftOver([s.active[index]]) == |s.active[index].bytes|;
    }
  }

  /** A generation that is neither pending nor on the withdrawn render stays held. */
  lemma UnreplacedGenerationStays(s: Scheduler, now: nat, pending: Option<PendingRender>, generation: nat)
    requires HoldsGeneration(s.awaitingRenders, s.active, s.pendingRender, generation)
    requires !ReplacesGeneration(s, Some(generation))
    requires forall t :: t in s.active && t.completedRender.Some? ==> t.kind == Render
    ensures HoldsGeneration(s.awaitingRenders, WithdrawUnstartedRender(s, now).active, pending, generation)
  {
    var active' := WithdrawUnstartedRender(s, now).active;
    var r :| r in Held(s.awaitingRenders, s.active, s.pendingRender) && r.generation == generation;
    assert r !in PendingRenders(s.pendingRender);
    if r in ActiveRenders(s.active) {
      var t := ActiveRenderSource(s.active, r);
      OtherTransactionStays(s, now, t);
      ActiveRenderMember(active', t);
    }
    TokenRenderIsHeld(s.awaitingRenders, active', pending, r);
  }

  lemma OtherTransactionStays(s: Scheduler, now: nat, t: ActiveTransaction)
    requires t in s.active && t.kind != BellRing
    requires var index := UnstartedRenderIndex(s.active); index < |s.active| ==> s.active[index] != t
    ensures t in WithdrawUnstartedRender(s, now).active
  {
    var index := UnstartedRenderIndex(s.active);
    if index < |s.active| {
      var rest := s.active[..index] + s.active[index + 1..];
      var k :| 0 <= k < |s.active| && s.active[k] == t;
      assert t == rest[if k < index then k else k - 1];
      FilterKeeps(rest, (t: ActiveTransaction) => !IsUnstartedBell(t), t);
    }
  }

  lemma AscendingSnoc(renders: seq<TrackedRender>, last: TrackedRender)
    requires Ascending(renders)
    requires forall r :: r in renders ==> r.generation < last.generation
    ensures Ascending(renders + [last])
  {
    forall i, j | 0 <= i < j < |renders + [last]|
      ensures (renders + [last])[i].generation < (renders + [last])[j].generation
    {
      if j == |renders| {
        assert renders[i] in renders;
      }
    }
  }

  lemma MoreOffers(offers: seq<Offer>, offer: Offer)
    ensures forall r :: Genuine(offers, r) ==> Genuine(offers + [offer], r)
    ensures forall bytes, r :: IsRenderOf(offers, bytes, r) ==> IsRenderOf(offers + [offer], bytes, r)
  {
  }

  lemma NewRenderOrder(
    awaiting: seq<TrackedRender>, active: seq<ActiveTransaction>, render: PendingRender, log: Log, offer: Offer)
    requires OrderInv(awaiting, active, None, log)
    requires render.generation == |log.offers| + 1
    requires offer == Offer(render.batch, render.accessibility)
    ensures OrderInv(awaiting, active, Some(render), log.(offers := log.offers + [offer]))
  {
    var log' := log.(offers := log.offers + [offer]);
    var line := Reported(log) + Held(awaiting, active, None);
    AscendingSnoc(line, Track(render));
    assert Reported(log') + Held(awaiting, active, Some(render)) == line + [Track(render)];
    MoreOffers(log.offers, offer);
    forall r | r in Reported(log') || r in Held(awaiting, active, Some(render))
      ensures Genuine(log'.offers, r)
    {
      if r != Track(render) {
        assert r in Reported(log) || r in Held(awaiting, active, None);
      }
    }
  }

  lemma NewRenderMarks(
    awaiting: seq<TrackedRender>, active: seq<ActiveTransaction>, render: PendingRender, log: Log, offer: Offer)
    requires MarkInv(active, None, log) && DeliveryInv(awaiting, log)
    requires render.generation == |log.offers| + 1
    requires offer == Offer(render.batch, render.accessibility)
    ensures MarkInv(active, Some(render), log.(offers := log.offers + [offer]))
    ensures DeliveryInv(awaiting, log.(offers := log.offers + [offer]))
  {
    var log' := log.(offers := log.offers + [offer]);
    MoreOffers(log.offers, offer);
    assert forall r, limit :: Delivered(log, r, limit) ==> Delivered(log', r, limit);
  }

  /** A render joins a scheduler that has no pending render. */
  lemma RenderJoins(w: World, s: Scheduler, log: Log, render: PendingRender)
    requires WorldOrder(w) && w.s.pendingRender == None
    requires log == w.log.(offers := w.log.offers + [Offer(render.batch, render.accessibility)])
    requires render.generation == w.s.nextGeneration
    requires s.active == w.s.active && s.awaitingRenders == w.s.awaitingRenders && s.flushRequired == w.s.flushRequired
    requires s.pendingRender == Some(render) && s.nextGeneration == w.s.nextGeneration + 1
    ensures WorldOrder(World(s, log))
  {
    var offer := Offer(render.batch, render.accessibility);
    NewRenderOrder(w.s.awaitingRenders, w.s.active, render, w.log, offer);
    NewRenderMarks(w.s.awaitingRenders, w.s.active, render, w.log, offer);
  }

  lemma WithdrawKeepsOrder(w: World, now: nat)
    requires WorldOrder(w)
    ensures WorldOrder(World(WithdrawUnstartedRender(w.s, now).(pendingRender := None), w.log))
  {
    WithdrawPrunes(w.s, now);
    PruneKeeps(w, WithdrawUnstartedRender(w.s, now).(pendingRender := None));
  }

  lemma WithdrawDisarmed(w: World, now: nat)
    requires WorldOrder(w)
    ensures WorldOrder(World(WithdrawUnstartedRender(w.s.(bypassNext := false), now).(pendingRender := None), w.log))
  {
    OrderUnchanged(w, w.s.(bypassNext := false));
    WithdrawKeepsOrder(World(w.s.(bypassNext := false), w.log), now);
  }

  lemma EnqueueRenderOrder(w: World, batch: RenderBatch, accessibility: nat, now: nat)
    requires WorldOrder(w) && AcceptsRender(w.s, batch)
    requires |w.log.offers| + 1 < MAX_GENERATION
    ensures WorldOrder(World(EnqueueRender(w.s, batch, accessibility, now),
                             w.log.(offers := w.log.offers + [Offer(batch, accessibility)])))
  {
    WithdrawDisarmed(w, now);
    var withdrawn := WithdrawUnstartedRender(w.s.(bypassNext := false), now).(pendingRender := None);
    var s' := EnqueueRender(w.s, batch, accessibility, now);
    RenderJoins(World(withdrawn, w.log), s', w.log.(offers := w.log.offers + [Offer(batch, accessibility)]), s'.pendingRender.value);
  }

  lemma TokenAfterReplacement(s: Scheduler, s': Scheduler, now: nat, token: Option<nat>, token': Option<nat>)
    requires s'.pendingRender.Some? && s'.awaitingRenders == s.awaitingRenders
    requires s'.active == WithdrawUnstartedRender(s, now).active
    requires token'.Some? ==> token' == Some(s'.pendingRender.value.generation) || (token' == token && !ReplacesGeneration(s, token))
    requires token.Some? ==> HoldsGeneration(s.awaitingRenders, s.active, s.pendingRender, token.value)
    requires forall t :: t in s.active && t.completedRender.Some? ==> t.kind == Render
    ensures token'.Some? ==> HoldsGeneration(s'.awaitingRenders, s'.active, s'.pendingRender, token'.value)
  {
    TokenRenderIsHeld(s'.awaitingRenders, s'.active, s'.pendingRender, Track(s'.pendingRender.value));
    if token'.Some? && token' != Some(s'.pendingRender.value.generation) {
      UnreplacedGenerationStays(s, now, s'.pendingRender, token.value);
    }
  }

  lemma OnlyRendersAreTracked(w: World)
    requires WorldOrder(w)
    ensures forall t :: t in w.s.active && t.completedRender.Some? ==> t.kind == Render
  {
  }

  lemma EnqueueRenderTokens(w: World, batch: RenderBatch, accessibility: nat, now: nat)
    requires Inv(w) && AcceptsRender(w.s, batch)
    ensures TokenInv(EnqueueRender(w.s, batch, accessibility, now))
  {
    hide WorldOrder, BudgetInv, WakeInv, HoldsGeneration, AcceptsRender, BatchBytes;
    OnlyRendersAreTracked(w);
    var disarmed := w.s.(bypassNext := false);
    var s' := EnqueueRender(w.s, batch, accessibility, now);
    TokenAfterReplacement(disarmed, s', now, w.s.bypassGeneration, s'.bypassGeneration);
    TokenAfterReplacement(disarmed, s', now, w.s.releaseGeneration, s'.releaseGeneration);
  }

  lemma EnqueueRenderBudget(s: Scheduler, batch: RenderBatch, accessibility: nat, now: nat)
    requires BudgetInv(s) && AcceptsRender(s, batch)
    ensures var s' := EnqueueRender(s, batch, accessibility, now);
            BudgetInv(s') && WakeInv(s') && PendingTotal(s') <= s.config.maximumPendingBytes
  {
    var disarmed := s.(bypassNext := false);
    var withdrawn := WithdrawUnstartedRender(disarmed, now);
    WithdrawPrunes(disarmed, now);
    PrunedSizes(withdrawn.active, s.active);
    RenderTotal(s, withdrawn, EnqueueRender(s, batch, accessibility, now), batch);
  }

  lemma RenderTotal(s: Scheduler, withdrawn: Scheduler, s': Scheduler, batch: RenderBatch)
    requires BudgetInv(s) && AcceptsRender(s, batch)
    requires LeftOver(withdrawn.active) + withdrawn.pendingBells + ReplaceableBytes(s) - RenderBytesHeld(s.pendingRender)
             == LeftOver(s.active) + s.pendingBells
    requires ControlLeftOver(withdrawn.active) <= ControlLeftOver(s.active)
    requires s'.active == withdrawn.active && s'.pendingBells == withdrawn.pendingBells
    requires s'.pendingBytes == s.pendingBytes && s'.pendingEffects == s.pendingEffects
    requires s'.pendingRender.Some? && s'.pendingRender.value.byteLen == BatchBytes(batch, s.syncSupported)
    requires s'.pendingRender.value.batch == batch && s'.config == s.config && s'.syncSupported == s.syncSupported
    ensures BudgetInv(s') && PendingTotal(s') <= s.config.maximumPendingBytes
  {
  }

  lemma EnqueueRenderKeeps(w: World, batch: RenderBatch, accessibility: nat, now: nat)
    requires Inv(w) && |w.log.offers| + 1 < MAX_GENERATION
    ensures Inv(Take(w, DoEnqueueRender(batch, accessibility, now)))
  {
    if AcceptsRender(w.s, batch) {
      EnqueueRenderOrder(w, batch, accessibility, now);
      EnqueueRenderTokens(w, batch, accessibility, now);
      EnqueueRenderBudget(w.s, batch, accessibility, now);
    } else {
    }
  }

  // ----- the smaller operations -----

  lemma {:induction false} FilterEffectBytes(effects: seq<ScheduledEffect>, keep: ScheduledEffect -> bool)
    ensures EffectBytes(Filter(effects, keep)) <= EffectBytes(effects)
  {
    if effects != [] {
      FilterEffectBytes(effects[1..], keep);
      if keep(effects[0]) {
        assert ([effects[0]] + Filter(effects[1..], keep))[1..] == Filter(effects[1..], keep);
      }
    }
  }

  lemma {:induction false} WithoutFirstBytes(effects: seq<ScheduledEffect>, owner: nat, kind: EventKind)
    ensures EffectBytes(WithoutFirst(effects, owner, kind)) <= EffectBytes(effects)
    ensures effects == [] ==> WithoutFirst(effects, owner, kind) == []
  {
    if effects != [] && !SameEffect(effects[0], owner, kind) {
      WithoutFirstBytes(effects[1..], owner, kind);
      var rest := WithoutFirst(effects[1..], owner, kind);
      assert ([effects[0]] + rest)[1..] == rest;
    }
  }

  lemma {:induction false} EffectBytesAppend(a: seq<ScheduledEffect>, b: seq<ScheduledEffect>)
    ensures EffectBytes(a + b) == EffectBytes(a) + EffectBytes(b)
  {
    if a == [] {
      assert a + b == b;
    } else {
      assert (a + b)[1..] == a[1..] + b;
      EffectBytesAppend(a[1..], b);
    }
  }

  lemma SupersedeKeeps(w: World, owner: nat, kind: EventKind)
    requires Inv(w)
    ensures Inv(World(SupersedeEffects(w.s, owner, kind), w.log))
  {
    var s := w.s;
    var s' := SupersedeEffects(s, owner, kind);
    if kind == TitleKind || kind == WorkingDirectoryKind {
      var keep := (t: ActiveTransaction) => t.offset != 0 || t.kind != Effect || !CarriesEffect(t, owner, kind);
      assert s'.active == Filter(s.active, keep);
      FilterPrunes(s.active, keep);
      PrunedSizes(s'.active, s.active);
      FilterEffectBytes(s.pendingEffects, (e: ScheduledEffect) => !SameEffect(e, owner, kind));
      PruneKeeps(w, s');
      if s.bypassGeneration.Some? {
        ProtectedGenerationStays(s.awaitingRenders, s.active, keep, s.pendingRender, s'.pendingRender, s.bypassGeneration.value);
      }
      if s.releaseGeneration.Some? {
        ProtectedGenerationStays(s.awaitingRenders, s.active, keep, s.pendingRender, s'.pendingRender, s.releaseGeneration.value);
      }
    }
  }

  /** Replacing the pending effects by ones that cost no more than the budget allows. */
  lemma EffectsReplaced(w: World, s: Scheduler)
    requires Inv(w)
    requires s == w.s.(pendingEffects := s.pendingEffects, pendingSinceMs := s.pendingSinceMs)
    requires s.pendingEffects != [] || w.s.pendingSinceMs.Some? ==> s.pendingSinceMs.Some?
    requires PendingTotal(s) <= Max(PendingTotal(w.s), s.config.maximumPendingBytes)
    ensures Inv(World(s, w.log))
  {
    OrderUnchanged(w, s);
    assert TokenInv(s);
  }

  lemma PushEffectKeeps(w: World, effect: ScheduledEffect, now: nat)
    requires Inv(w)
    ensures Inv(World(PushEffect(w.s, effect, now), w.log))
  {
    hide WorldOrder, TokenInv, BudgetInv, LeftOver, ControlLeftOver, TotalLength;
    assert EffectBytes([effect]) == RetainedBytes(effect.event);
    EffectBytesAppend(w.s.pendingEffects, [effect]);
    EffectsReplaced(w, PushEffect(w.s, effect, now));
  }

  lemma DisplaceOlderKeeps(w: World, owner: nat, event: TerminalEvent)
    requires Inv(w)
    ensures Inv(World(DisplaceOlder(w.s, owner, event), w.log))
  {
    hide WorldOrder, TokenInv, BudgetInv, DisplaceOlder, PendingTotal;
    DisplacedEffects(w.s, owner, event);
    EffectsReplaced(w, DisplaceOlder(w.s, owner, event));
  }

  lemma DisplacedEffects(s: Scheduler, owner: nat, event: TerminalEvent)
    ensures var displaced := DisplaceOlder(s, owner, event);
      && displaced == s.(pendingEffects := displaced.pendingEffects)
      && (displaced.pendingEffects != [] ==> s.pendingEffects != [])
      && PendingTotal(displaced) <= PendingTotal(s)
  {
    hide LeftOver, TotalLength, EffectBytes, RetainedEffectBytes;
    WithoutFirstBytes(s.pendingEffects, owner, Kind(event));
  }

  lemma EnqueueEffectKeeps(w: World, owner: nat, original: TerminalEvent, now: nat)
    requires Inv(w)
    ensures Inv(World(EnqueueEffect(w.s, owner, original, now), w.log))
  {
    var event := Bound(original, w.s.config.maximumPendingBytes);
    var s1 := SupersedeEffects(w.s, owner, Kind(event));
    SupersedeKeeps(w, owner, Kind(event));
    DisplaceOlderKeeps(World(s1, w.log), owner, event);
    PushEffectKeeps(World(DisplaceOlder(s1, owner, event), w.log), ScheduledEffect(owner, event), now);
  }

  lemma SetSyncSupportedKeeps(w: World, supported: bool)
    requires Inv(w)
    ensures Inv(World(SetSyncSupported(w.s, supported), w.log))
  {
  }

  lemma EnqueueBellKeeps(w: World, count: nat, now: nat)
    requires Inv(w)
    ensures Inv(World(EnqueueBell(w.s, count, now), w.log))
  {
    hide WireInv, OrderInv, MarkInv, DeliveryInv, HoldsGeneration, EffectBytes, TotalLength, LeftOver, ControlLeftOver;
    OrderUnchanged(w, EnqueueBell(w.s, count, now));
  }

  lemma ObserveKeeps(w: World, synchronized: bool, didOpen: bool, activity: bool, now: nat)
    requires Inv(w)
    ensures Inv(World(Observe(w.s, synchronized, didOpen, activity, now), w.log))
  {
    hide WorldOrder, BudgetInv, WakeInv, TokenInv, Observe;
    ObservingKeepsTokens(w.s, synchronized, didOpen, activity, now);
    SameWorkKeeps(w, Observe(w.s, synchronized, didOpen, activity, now));
  }

  lemma ObservingKeepsTokens(s: Scheduler, synchronized: bool, didOpen: bool, activity: bool, now: nat)
    requires TokenInv(s)
    ensures var s' := Observe(s, synchronized, didOpen, activity, now);
      SameWork(s, s') && TokenInv(s')
  {
    hide HoldsGeneration, Observe, SameWork;
    ObserveFrame(s, synchronized, didOpen, activity, now);
    SameRendersKeepTokens(s, Observe(s, synchronized, didOpen, activity, now));
  }

  lemma ObserveFrame(s: Scheduler, synchronized: bool, didOpen: bool, activity: bool, now: nat)
    ensures var s' := Observe(s, synchronized, didOpen, activity, now);
      && SameWork(s, s') && s'.bypassGeneration == s.bypassGeneration
      && (s'.releaseGeneration == s.releaseGeneration || s'.releaseGeneration == None)
      && (s'.releaseGeneration.Some? ==> s'.appSync == s.appSync || s.appSync != Some(IgnoringUntilClose))
  {
    if synchronized {
      match s.appSync
      case Some(IgnoringUntilClose) =>
      case Some(Active(_, _)) =>
      case None =>
    }
  }

  lemma FlagsKeep(w: World, bypassed: bool)
    requires Inv(w)
    ensures Inv(World(SetBypassed(w.s, bypassed), w.log))
    ensures Inv(World(Recover(w.s), w.log))
    ensures Inv(World(NotifyWritable(w.s), w.log))
  {
  }
}
