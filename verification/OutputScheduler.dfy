/** The output scheduler in its own form: one object whose methods update its queues in place. */
module OutputSchedulers {
  import opened Common
  import opened TerminalEvents
  import opened SchedulerSteps
  import opened MarkerStripping

  // ----- the physical writer -----

  /** A nonblocking writer: any finite list of replies, and everything it has accepted. */
  class Writer {
    var replies: seq<Reply>
    ghost var wire: Bytes

    constructor (replies: seq<Reply>)
      ensures this.replies == replies && wire == []
    {
      this.replies := replies;
      wire := [];
    }

    method Write(bytes: Bytes) returns (reply: Reply, written: nat)
      modifies this
      ensures reply == Next(old(replies)) && replies == Later(old(replies))
      ensures written == if reply.Accept? then Min(reply.count, |bytes|) else 0
      ensures wire == old(wire) + bytes[..written]
    {
      reply := Answer();
      written := if reply.Accept? then Min(reply.count, |bytes|) else 0;
      wire := wire + bytes[..written];
    }

    method Flush() returns (reply: Reply)
      modifies this`replies
      ensures reply == Next(old(replies)) && replies == Later(old(replies))
    {
      reply := Answer();
    }

    method Answer() returns (reply: Reply)
      modifies this`replies
      ensures reply == Next(old(replies)) && replies == Later(old(replies))
    {
      if replies == [] {
        reply := WouldBlock;
      } else {
        reply := replies[0];
        replies := replies[1..];
      }
    }
  }

  // ----- marker stripping -----

  /** The bytes one step of the scan emits at an escape, and where it goes on. */
  lemma EscapeStep(source: Bytes, escape: nat)
    requires escape < |source|
    ensures var length := MarkerLength(source[escape..]);
            if length > 0 then StripMarkers(source[escape..]) == StripMarkers(source[escape + length..])
            else StripMarkers(source[escape..]) == [source[escape]] + StripMarkers(source[escape + 1..])
  {
    var rest := source[escape..];
    var length := MarkerLength(rest);
    assert rest[length..] == source[escape + length..] && rest[1..] == source[escape + 1..];
  }

  method EscapeAtOrAfter(source: Bytes, from: nat) returns (escape: nat)
    requires from <= |source|
    ensures from <= escape <= |source|
    ensures forall k :: from <= k < escape ==> source[k] != ESC
    ensures escape < |source| ==> source[escape] == ESC
  {
    escape := from;
    while escape < |source| && source[escape] != ESC
      invariant from <= escape <= |source|
      invariant forall k :: from <= k < escape ==> source[k] != ESC
    {
      escape := escape + 1;
    }
  }

  method AppendWithoutSynchronizationMarkers(target: Bytes, source: Bytes) returns (r: Bytes)
    ensures r == target + StripMarkers(source)
  {
    hide MarkerLength, StripMarkers;
    r := target;
    var offset := 0;
    assert source[0..] == source;
    ghost var rest := StripMarkers(source);
    while offset < |source|
      invariant offset <= |source| && rest == StripMarkers(source[offset..])
      invariant r + rest == target + StripMarkers(source)
    {
      var escape := EscapeAtOrAfter(source, offset);
      PlainBytesPass(source, offset, escape);
      var plain := source[offset..escape];
      Reassociate(r, plain, StripMarkers(source[escape..]));
      r, rest := r + plain, StripMarkers(source[escape..]);
      if escape == |source| {
        break;
      }
      EscapeStep(source, escape);
      var length := MarkerLength(source[escape..]);
      if length > 0 {
        offset := escape + length;
      } else {
        offset := escape + 1;
        Reassociate(r, [source[escape]], StripMarkers(source[offset..]));
        r := r + [source[escape]];
      }
      rest := StripMarkers(source[offset..]);
    }
  }

  // ----- facts about the queue functions, one element at a time -----

  lemma {:induction false} ActivateControlsSnoc(pending: seq<Bytes>, bytes: Bytes)
    ensures ActivateControls(pending + [bytes]) == ActivateControls(pending) + [Unstarted(Control, bytes)]
  {
    if pending == [] {
      assert [] + [bytes] == [bytes];
    } else {
      assert (pending + [bytes])[1..] == pending[1..] + [bytes];
      ActivateControlsSnoc(pending[1..], bytes);
    }
  }

  lemma {:induction false} ActivateEffectsSnoc(effects: seq<ScheduledEffect>, effect: ScheduledEffect)
    ensures ActivateEffects(effects + [effect]) == ActivateEffects(effects) + [ActivateEffect(effect)]
  {
    if effects == [] {
      assert [] + [effect] == [effect];
    } else {
      assert (effects + [effect])[1..] == effects[1..] + [effect];
      ActivateEffectsSnoc(effects[1..], effect);
    }
  }

  lemma {:induction false} UnstartedBellBytesSnoc(active: seq<ActiveTransaction>, t: ActiveTransaction)
    ensures UnstartedBellBytes(active + [t]) == UnstartedBellBytes(active) + if IsUnstartedBell(t) then |t.bytes| else 0
  {
    if active == [] {
      assert [] + [t] == [t];
    } else {
      assert (active + [t])[1..] == active[1..] + [t];
      UnstartedBellBytesSnoc(active[1..], t);
    }
  }

  lemma {:induction false} StripAllSnoc(transactions: seq<Bytes>, bytes: Bytes)
    ensures StripAll(transactions + [bytes]) == StripAll(transactions) + StripMarkers(bytes)
  {
    if transactions == [] {
      assert [] + [bytes] == [bytes];
    } else {
      assert (transactions + [bytes])[1..] == transactions[1..] + [bytes];
      StripAllSnoc(transactions[1..], bytes);
    }
  }

  lemma StripAllSmall(transactions: seq<Bytes>)
    ensures StripAll(transactions[..0]) == []
    ensures |transactions| == 1 ==> StripAll(transactions) == StripMarkers(transactions[0])
  {
  }

  /** The bytes a pending render becomes: a one-transaction frame is moved when it has no marker. */
  method EncodeRender(batch: RenderBatch, syncSupported: bool) returns (bytes: Bytes)
    ensures bytes == RenderBytes(batch, syncSupported)
  {
    hide MarkerLength, StripMarkers, StripAll, SyncStart, SyncEnd;
    var transactions := batch.transactions;
    StripAllSmall(transactions);
    if !syncSupported && |transactions| == 1 {
      if ContainsMarker(transactions[0]) {
        bytes := AppendWithoutSynchronizationMarkers([], transactions[0]);
      } else {
        NothingToStrip(transactions[0]);
        bytes := transactions[0];
      }
    } else {
      var head := if syncSupported then SyncStart() else [];
      bytes := head;
      for i := 0 to |transactions|
        invariant bytes == head + StripAll(transactions[..i])
      {
        assert transactions[..i + 1] == transactions[..i] + [transactions[i]];
        StripAllSnoc(transactions[..i], transactions[i]);
        Reassociate(head, StripAll(transactions[..i]), StripMarkers(transactions[i]));
        bytes := AppendWithoutSynchronizationMarkers(bytes, transactions[i]);
      }
      assert transactions[..|transactions|] == transactions;
      if syncSupported {
        bytes := bytes + SyncEnd();
      }
    }
  }

  // ----- the scheduler -----

  datatype WriteOutcome = StoppedInOrder | StoppedAtBypass | WriteBlocked | WriteFailed

  ghost predicate IsOutcome(exit: LoopExit, outcome: WriteOutcome, t: Turn) {
    match outcome
    case StoppedInOrder => exit == Stopped(t, false)
    case StoppedAtBypass => exit == Stopped(t, true)
    case WriteBlocked => exit == LoopExit.Left(Return(t))
    case WriteFailed => exit == LoopExit.Left(Progress.Fail(t))
  }

  /** The bytes that went down the wire are those the history gained, in the epoch that failed or the current one. */
  ghost predicate WentDown(before: Log, after: Log, failed: bool, wireBefore: Bytes, wireAfter: Bytes) {
    if failed then
      exists out: Bytes ::
        && after.failedEpochs == before.failedEpochs + [out]
        && before.accepted <= out && wireAfter == wireBefore + out[|before.accepted|..]
    else
      && after.failedEpochs == before.failedEpochs
      && before.accepted <= after.accepted && wireAfter == wireBefore + after.accepted[|before.accepted|..]
  }

  lemma WentDownNothing(log: Log, wire: Bytes)
    ensures WentDown(log, log, false, wire, wire)
  {
    assert wire == wire + log.accepted[|log.accepted|..];
  }

  lemma WentDownThen(a: Log, b: Log, c: Log, failed: bool, wireA: Bytes, wireB: Bytes, wireC: Bytes)
    requires WentDown(a, b, false, wireA, wireB) && WentDown(b, c, failed, wireB, wireC)
    ensures WentDown(a, c, failed, wireA, wireC)
  {
    if failed {
      var out: Bytes :| c.failedEpochs == b.failedEpochs + [out] && b.accepted <= out && wireC == wireB + out[|b.accepted|..];
      assert out[|a.accepted|..] == b.accepted[|a.accepted|..] + out[|b.accepted|..];
      assert wireC == wireA + out[|a.accepted|..];
    } else {
      assert c.accepted[|a.accepted|..] == b.accepted[|a.accepted|..] + c.accepted[|b.accepted|..];
      assert wireC == wireA + c.accepted[|a.accepted|..];
    }
  }

  datatype FlushOutcome = Flushed | FlushBlocked | FlushFailed

  /**
    * The object the event loop owns. Its mutable fields are the fields of the record `s`; `log` is
    * the history beside it. Every method states which step of `SchedulerSteps` it performs.
    */
  class OutputScheduler {
    var s: Scheduler
    ghost var log: Log

    ghost function State(): World
      reads this
    {
      World(s, log)
    }

    constructor (config: Config, syncSupported: bool)
      ensures State() == Start(config, syncSupported)
    {
      s := NewScheduler(config, syncSupported);
      log := EMPTY_LOG;
    }

    // ----- queueing -----

    /** The transactions that outlive an eviction. */
    static method RetainUnevicted(queue: seq<ActiveTransaction>, release: Option<nat>, bypass: Option<nat>, ghost s: Scheduler)
      returns (kept: seq<ActiveTransaction>)
      requires release == s.releaseGeneration && bypass == s.bypassGeneration
      ensures kept == Filter(queue, (t: ActiveTransaction) => SurvivesEviction(s, t))
    {
      kept := [];
      for i := 0 to |queue|
        invariant kept == Filter(queue[..i], (t: ActiveTransaction) => SurvivesEviction(s, t))
      {
        var t := queue[i];
        assert queue[..i + 1] == queue[..i] + [t];
        FilterSnoc(queue[..i], t, (t: ActiveTransaction) => SurvivesEviction(s, t));
        if t.offset > 0 || t.kind == Control || (t.completedRender.Some?
             && (release == Some(t.completedRender.value.generation) || bypass == Some(t.completedRender.value.generation))) {
          kept := kept + [t];
        }
      }
      assert queue[..|queue|] == queue;
    }

    method EvictUnstarted()
      modifies this`s
      ensures s == Evict(old(s))
    {
      var kept := RetainUnevicted(s.active, s.releaseGeneration, s.bypassGeneration, s);
      if s.pendingRender.Some? {
        var generation := s.pendingRender.value.generation;
        if !(s.releaseGeneration == Some(generation) || s.bypassGeneration == Some(generation)) {
          s := s.(pendingRender := None);
        }
      }
      s := s.(pendingEffects := [], pendingBells := 0, active := kept);
    }

    method EnqueueControl(bytes: Bytes, now: nat)
      modifies this
      ensures State() == Take(old(State()), DoEnqueueBytes(bytes, now))
    {
      if bytes == [] {
        return;
      }
      if |bytes| > CONTROL_BACKLOG_LIMIT_BYTES || ControlTotal(s) + |bytes| > CONTROL_BACKLOG_LIMIT_BYTES {
        return;
      }
      if PendingTotal(s) + |bytes| > s.config.maximumPendingBytes {
        EvictUnstarted();
        if PendingTotal(s) + |bytes| > s.config.maximumPendingBytes {
          return;
        }
      }
      s := NotePending(s, now);
      var queue := s.pendingBytes;
      if queue != [] && |queue[|queue| - 1]| + |bytes| <= s.config.maximumPendingBytes {
        s := s.(pendingBytes := queue[|queue| - 1 := queue[|queue| - 1] + bytes]);
      } else {
        s := s.(pendingBytes := queue + [bytes]);
      }
    }

    method PrepareCleanup()
      modifies this
      ensures State() == Take(old(State()), DoCleanup)
    {
      s := s.(pendingBytes := [], pendingRender := None, pendingEffects := [], pendingBells := 0);
      s := s.(active := Filter(s.active, (t: ActiveTransaction) => t.offset > 0));
      s := s.(awaitingRenders := [], appSync := None, bypassNext := false);
      s := s.(bypassGeneration := None, releaseGeneration := None);
      if s.active == [] && s.awaitingRenders == [] && s.awaitingEffects == [] {
        s := s.(pendingSinceMs := None);
      }
    }

    /** Takes the unstarted bells out of a queue and counts their bytes. */
    static method ReclaimBells(queue: seq<ActiveTransaction>) returns (kept: seq<ActiveTransaction>, bells: nat)
      ensures kept == WithoutUnstartedBells(queue)
      ensures bells == UnstartedBellBytes(queue)
    {
      hide WithoutUnstartedBells, UnstartedBellBytes;
      kept, bells := queue, 0;
      ghost var seen, passed := 0, [];
      NoBells(queue);
      var index := 0;
      while index < |kept|
        invariant seen <= |queue| && index == |passed|
        invariant passed == WithoutUnstartedBells(queue[..seen])
        invariant kept == passed + queue[seen..]
        invariant bells == UnstartedBellBytes(queue[..seen])
        decreases |queue| - seen
      {
        var t := kept[index];
        BellStep(queue, seen);
        SpliceAt(passed, queue[seen..]);
        assert queue[seen..][0] == queue[seen] && queue[seen..][1..] == queue[seen + 1..];
        if t.kind == BellRing && t.offset == 0 {
          kept := kept[..index] + kept[index + 1..];
          bells := bells + |t.bytes|;
        } else {
          passed := passed + [t];
          index := index + 1;
        }
        seen := seen + 1;
      }
      assert queue[seen..] == [] && queue[..seen] == queue;
    }

    /** Drops the unstarted active render; says which tokens it carried. */
    method WithdrawActive(index: nat, now: nat) returns (release: bool, bypass: bool)
      requires index == UnstartedRenderIndex(s.active) < |s.active|
      modifies this`s
      ensures s == WithdrawUnstartedRender(old(s), now)
      ensures release == old(s.active[index].Tracks(s.releaseGeneration))
      ensures bypass == old(s.active[index].Tracks(s.bypassGeneration))
    {
      var replaced := s.active[index];
      release, bypass := replaced.Tracks(s.releaseGeneration), replaced.Tracks(s.bypassGeneration);
      var kept, bells := ReclaimBells(s.active[..index] + s.active[index + 1..]);
      s := s.(active := kept, pendingBells := s.pendingBells + bells);
      s := s.(pendingSinceMs := Some(Sub(now, s.config.latencyBudgetMs)));
    }

    /** Drops what a new render replaces; says whose tokens the new render takes over. */
    method WithdrawReplaced(now: nat) returns (replacesRelease: bool, replacesBypass: bool)
      modifies this`s
      ensures s == WithdrawUnstartedRender(old(s), now)
      ensures replacesRelease == ReplacesGeneration(old(s), old(s).releaseGeneration)
      ensures replacesBypass == ReplacesGeneration(old(s), old(s).bypassGeneration)
    {
      var index := UnstartedRenderIndex(s.active);
      replacesRelease, replacesBypass := false, false;
      if s.pendingRender.Some? {
        var replaced := Some(s.pendingRender.value.generation);
        replacesRelease, replacesBypass := s.releaseGeneration == replaced, s.bypassGeneration == replaced;
      }
      if index < |s.active| {
        var release, bypass := WithdrawActive(index, now);
        replacesRelease, replacesBypass := replacesRelease || release, replacesBypass || bypass;
      }
    }

    method OfferRender(batch: RenderBatch, accessibility: nat, now: nat) returns (outcome: EnqueueOutcome)
      modifies this
      ensures s == EnqueueRender(old(s), batch, accessibility, now)
      ensures log == if AcceptsRender(old(s), batch)
                     then old(log).(offers := old(log).offers + [Offer(batch, accessibility)]) else old(log)
      ensures outcome == RenderOutcome(old(s), batch)
    {
      hide PendingTotal, ReplaceableBytes, WithdrawUnstartedRender, ReplacesGeneration;
      var renderBytes := BatchBytes(batch, s.syncSupported);
      var retained := Sub(PendingTotal(s), ReplaceableBytes(s));
      if renderBytes > s.config.maximumPendingBytes || retained + renderBytes > s.config.maximumPendingBytes {
        s := s.(bypassNext := false);
        return DroppedForCapacity;
      }
      outcome := if s.pendingRender.Some? || UnstartedRenderIndex(s.active) < |s.active| then ReplacedObsoleteRender else Queued;
      AdmitRender(batch, renderBytes, accessibility, now);
    }

    method AdmitRender(batch: RenderBatch, renderBytes: nat, accessibility: nat, now: nat)
      requires AcceptsRender(s, batch) && renderBytes == BatchBytes(batch, s.syncSupported)
      modifies this
      ensures s == EnqueueRender(old(s), batch, accessibility, now)
      ensures log == old(log).(offers := old(log).offers + [Offer(batch, accessibility)])
    {
      hide AcceptsRender, WithdrawUnstartedRender, ReplacesGeneration, BatchBytes;
      var bypassRequested, generation := s.bypassNext, s.nextGeneration;
      s := s.(bypassNext := false);
      DisarmingChangesNothingElse(old(s), now);
      var replacesRelease, replacesBypass := WithdrawReplaced(now);
      InstallRender(PendingRender(batch, renderBytes, generation, accessibility), replacesRelease,
                    bypassRequested || replacesBypass, now);
    }

    /** The offered render becomes the pending one and takes over the tokens of what it replaces. */
    method InstallRender(render: PendingRender, takesRelease: bool, takesBypass: bool, now: nat)
      requires render.generation == s.nextGeneration
      modifies this
      ensures s == NotePending(old(s), now).(
                     pendingRender := Some(render),
                     nextGeneration := NextGeneration(old(s).nextGeneration),
                     releaseGeneration := if takesRelease then Some(render.generation) else old(s).releaseGeneration,
                     bypassGeneration := if takesBypass then Some(render.generation) else old(s).bypassGeneration)
      ensures log == old(log).(offers := old(log).offers + [Offer(render.batch, render.accessibility)])
    {
      var release, bypass := s.releaseGeneration, s.bypassGeneration;
      if takesRelease {
        release := Some(render.generation);
      }
      if takesBypass {
        bypass := Some(render.generation);
      }
      s := NotePending(s, now).(
             pendingRender := Some(render),
             nextGeneration := NextGeneration(s.nextGeneration),
             releaseGeneration := release,
             bypassGeneration := bypass);
      log := log.(offers := log.offers + [Offer(render.batch, render.accessibility)]);
    }

    method EnqueueTerminalEffect(owner: nat, original: TerminalEvent, now: nat)
      modifies this
      ensures State() == Take(old(State()), DoEnqueueEffect(owner, original, now))
    {
      hide PendingTotal, RetainedEffectBytes, WithoutFirst, Filter, Bound;
      var event := Bound(original, s.config.maximumPendingBytes);
      var kind := Kind(event);
      if kind == TitleKind || kind == WorkingDirectoryKind {
        s := s.(pendingEffects := Filter(s.pendingEffects, (e: ScheduledEffect) => !SameEffect(e, owner, kind)),
                active := Filter(s.active, (t: ActiveTransaction) =>
                  t.offset != 0 || t.kind != Effect || !CarriesEffect(t, owner, kind)));
      }
      assert s == SupersedeEffects(old(s), owner, kind);
      if RetainedEffectBytes(s) + RetainedBytes(event) > s.config.maximumPendingBytes {
        s := s.(pendingEffects := WithoutFirst(s.pendingEffects, owner, kind));
      }
      assert s == DisplaceOlder(SupersedeEffects(old(s), owner, kind), owner, event);
      if PendingTotal(s) + RetainedBytes(event) <= s.config.maximumPendingBytes {
        s := NotePending(s, now);
        s := s.(pendingEffects := s.pendingEffects + [ScheduledEffect(owner, event)]);
      }
    }

    method SetSynchronizedOutputSupported(supported: bool)
      modifies this
      ensures State() == Take(old(State()), DoSetSyncSupported(supported))
    {
      if supported != s.syncSupported && s.pendingRender.Some? {
        var render := s.pendingRender.value;
        s := s.(pendingRender := Some(render.(byteLen :=
          if supported then render.byteLen + SYNC_WRAPPER_BYTES else Sub(render.byteLen, SYNC_WRAPPER_BYTES))));
      }
      s := s.(syncSupported := supported);
    }

    method RingBell(count: nat, now: nat)
      modifies this
      ensures State() == Take(old(State()), DoEnqueueBell(count, now))
    {
      if count == 0 {
        return;
      }
      var retained := Min(count, Sub(s.config.maximumPendingBytes, PendingTotal(s)));
      if retained != 0 {
        s := NotePending(s, now);
        s := s.(pendingBells := s.pendingBells + retained);
      }
    }

    method ObserveApplicationSynchronization(synchronized: bool, didOpen: bool, activity: bool, now: nat)
      modifies this
      ensures State() == Take(old(State()), DoObserve(synchronized, didOpen, activity, now))
    {
      if synchronized {
        match s.appSync
        case Some(IgnoringUntilClose) =>
          if didOpen {
            s := s.(appSync := Some(Active(now, now)));
            s := s.(releaseGeneration := None);
          }
        case Some(Active(started, _)) =>
          if activity {
            s := s.(appSync := Some(Active(started, now)));
          }
        case None =>
          s := s.(appSync := Some(Active(now, now)));
      } else {
        s := s.(appSync := None);
        s := s.(bypassNext := false, releaseGeneration := None);
      }
    }

    method SetSynchronizationBypassed(bypassed: bool)
      modifies this
      ensures State() == Take(old(State()), DoSetBypassed(bypassed))
    {
      s := s.(bypassNext := bypassed && s.appSync.Some?);
    }

    method RecoverWriter()
      modifies this
      ensures State() == Take(old(State()), DoRecover)
    {
      s := s.(needsReconciliation := false);
      s := s.(waitingForWritable := false);
    }

    method NotifyWriterReady()
      modifies this
      ensures State() == Take(old(State()), DoNotifyWritable)
    {
      s := s.(waitingForWritable := false);
    }

    // ----- draining -----

    ghost function TurnOf(replies: seq<Reply>, report: Report): Turn
      reads this
    {
      Turn(s, log, replies, report)
    }

    method Fail()
      modifies this
      ensures s == FailScheduler(old(s)) && log == FailLog(old(log))
    {
      s := s.(active := [], awaitingRenders := [], awaitingEffects := []);
      s := s.(flushRequired := false, waitingForWritable := false);
      s := s.(pendingBytes := [], pendingRender := None, pendingEffects := [], pendingBells := 0, pendingSinceMs := None);
      s := s.(appSync := None, bypassNext := false, bypassGeneration := None, releaseGeneration := None);
      s := s.(needsReconciliation := true);
      log := FailLog(log);
    }

    method ReportOldestRender(ghost replies: seq<Reply>, before: Report) returns (report: Report)
      requires s.awaitingRenders != []
      modifies this
      ensures TurnOf(replies, report) == ReportOldest(old(TurnOf(replies, before)))
    {
      var render := s.awaitingRenders[0];
      var releases := Some(render.generation) == s.releaseGeneration;
      var bypasses := Some(render.generation) == s.bypassGeneration;
      var release, bypass := s.releaseGeneration, s.bypassGeneration;
      report := before.(completedRenders := before.completedRenders + [CompletedRender(render.predicted, render.accessibility)]);
      if releases {
        report := report.(synchronizationTimedOut := true);
        release := None;
      }
      if bypasses {
        bypass := None;
        report := report.(bypassCompleted := Some(render.generation));
      }
      s := s.(awaitingRenders := s.awaitingRenders[1..], releaseGeneration := release, bypassGeneration := bypass);
      log := log.(receipts := log.receipts + [render]);
    }

    method CompleteAwaitingRenders(ghost replies: seq<Reply>, before: Report) returns (report: Report)
      modifies this
      ensures TurnOf(replies, report) == CompleteAwaiting(old(TurnOf(replies, before)))
      ensures log.accepted == old(log.accepted) && log.failedEpochs == old(log.failedEpochs)
    {
      hide ReportOldest;
      report := before;
      ghost var target := CompleteRenders(TurnOf(replies, report));
      while s.awaitingRenders != []
        invariant CompleteRenders(TurnOf(replies, report)) == target
        invariant log.accepted == old(log.accepted) && log.failedEpochs == old(log.failedEpochs)
        decreases |s.awaitingRenders|
      {
        ghost var oldest := TurnOf(replies, report);
        OldestFrame(oldest);
        report := ReportOldestRender(replies, report);
      }
      report := report.(completedEffects := report.completedEffects + s.awaitingEffects);
      s := s.(awaitingEffects := []);
    }

    method FlushPhysical(writer: Writer, before: Report) returns (outcome: FlushOutcome, report: Report)
      modifies this, writer
      ensures var p := FlushWriter(old(TurnOf(writer.replies, before)));
              p.turn == TurnOf(writer.replies, report) && outcome == FlushResult(p)
      ensures WentDown(old(log), log, outcome == FlushFailed, old(writer.wire), writer.wire)
    {
      report := before;
      ghost var target := FlushWriter(TurnOf(writer.replies, report));
      while true
        invariant FlushWriter(TurnOf(writer.replies, report)) == target
        invariant writer.wire == old(writer.wire) && log == old(log)
        decreases |writer.replies|
      {
        var reply := writer.Flush();
        match reply
        case Accept(_) =>
          s := s.(flushRequired := false);
          log := log.(flushed := |log.accepted|);
          report := CompleteAwaitingRenders(writer.replies, report);
          return Flushed, report;
        case Interrupted =>
        case WouldBlock =>
          s := s.(waitingForWritable := true);
          report := report.(blocked := true);
          return FlushBlocked, report;
        case Failure =>
          Fail();
          return FlushFailed, report;
      }
    }

    /** Turns everything pending into transactions, when none is active. */
    method ActivateWork()
      modifies this`s
      ensures s == ActivatePending(old(s))
    {
      hide ActivateControls, ActivateEffects, RenderBytes, TotalLength, StripAll, Rings;
      if s.active != [] {
        return;
      }
      var queue := ActivateQueues(s.pendingBytes, s.pendingEffects);
      if s.pendingRender.Some? {
        var render := s.pendingRender.value;
        var bytes := EncodeRender(render.batch, s.syncSupported);
        queue := queue + [ActiveTransaction(Render, bytes, 0, Some(Track(render)), [])];
      }
      if s.pendingBells > 0 {
        queue := queue + [ActiveTransaction(BellRing, Rings(s.pendingBells), 0, None, [])];
      }
      s := s.(active := queue, pendingBytes := [], pendingEffects := [], pendingRender := None, pendingBells := 0,
              pendingSinceMs := None);
    }

    static method ActivateQueues(controls: seq<Bytes>, effects: seq<ScheduledEffect>) returns (queue: seq<ActiveTransaction>)
      ensures queue == ActivateControls(controls) + ActivateEffects(effects)
    {
      queue := [];
      for i := 0 to |controls|
        invariant queue == ActivateControls(controls[..i])
      {
        assert controls[..i + 1] == controls[..i] + [controls[i]];
        ActivateControlsSnoc(controls[..i], controls[i]);
        queue := queue + [ActiveTransaction(Control, controls[i], 0, None, [])];
      }
      assert controls[..|controls|] == controls;
      for i := 0 to |effects|
        invariant queue == ActivateControls(controls) + ActivateEffects(effects[..i])
      {
        assert effects[..i + 1] == effects[..i] + [effects[i]];
        ActivateEffectsSnoc(effects[..i], effects[i]);
        queue := queue + [ActiveTransaction(Effect, Encode(effects[i].event), 0, None, [effects[i]])];
      }
      assert effects[..|effects|] == effects;
    }

    /** Retires the front transaction; says whether it is the render the bypass waits for. */
    method RetireFront(ghost replies: seq<Reply>, ghost report: Report) returns (atBypass: bool)
      requires s.active != []
      modifies this
      ensures TurnOf(replies, report) == PopFront(old(TurnOf(replies, report)))
      ensures atBypass == ReachesBypass(old(s), old(s.active[0]))
    {
      var completed := s.active[0];
      atBypass := completed.Tracks(s.bypassGeneration);
      var awaiting := s.awaitingRenders;
      if completed.completedRender.Some? {
        awaiting := awaiting + [completed.completedRender.value];
      }
      s := s.(active := s.active[1..], awaitingRenders := awaiting, awaitingEffects := s.awaitingEffects + completed.completedEffects);
      log := log.(done := log.done + [Done(completed.kind, completed.bytes, completed.completedRender)]);
    }

    /** The writer took `written` bytes of the front transaction. */
    method AdvanceFront(written: nat, ghost replies: seq<Reply>, before: Report) returns (report: Report)
      requires s.active != [] && written <= |Remaining(s.active[0])|
      modifies this
      ensures TurnOf(replies, report) == WroteFront(old(TurnOf(replies, before)), written)
    {
      var front := s.active[0];
      log := log.(accepted := log.accepted + Remaining(front)[..written]);
      s := s.(active := s.active[0 := front.(offset := front.offset + written)], flushRequired := true);
      report := before.(bytesWritten := before.bytesWritten + written);
    }

    /** The write loop, up to the budget. What the history says was accepted is what went down the wire. */
    method WriteActive(writer: Writer, before: Report, budget: nat, finishStartedOnly: bool)
      returns (outcome: WriteOutcome, report: Report)
      modifies this, writer
      ensures IsOutcome(WriteLoop(old(TurnOf(writer.replies, before)), budget, finishStartedOnly), outcome, TurnOf(writer.replies, report))
      ensures WentDown(old(log), log, outcome == WriteFailed, old(writer.wire), writer.wire)
    {
      hide PopFront, WroteFront, FailTurn, ReachesBypass;
      report := before;
      ghost var target := WriteLoop(TurnOf(writer.replies, report), budget, finishStartedOnly);
      while true
        invariant WriteLoop(TurnOf(writer.replies, report), budget, finishStartedOnly) == target
        invariant WentDown(old(log), log, false, old(writer.wire), writer.wire)
        decreases |writer.replies|, |s.active|
      {
        if report.bytesWritten >= budget || s.active == [] || (finishStartedOnly && s.active[0].offset == 0) {
          return StoppedInOrder, report;
        }
        var remaining := Remaining(s.active[0]);
        if remaining == [] {
          PopFrame(TurnOf(writer.replies, report));
          var atBypass := RetireFront(writer.replies, report);
          if atBypass {
            return StoppedAtBypass, report;
          }
        } else {
          var offered := remaining[..Min(|remaining|, budget - report.bytesWritten)];
          var reply, written := writer.Write(offered);
          match reply
          case Accept(count) =>
            if written == 0 {
              FailTurnIs(TurnOf(writer.replies, report));
              Fail();
              return WriteFailed, report;
            }
            WroteFrame(TurnOf(writer.replies, report), written);
            report := AdvanceFront(written, writer.replies, report);
          case Interrupted =>
          case WouldBlock =>
            s := s.(waitingForWritable := true);
            report := report.(blocked := true);
            return WriteBlocked, report;
          case Failure =>
            FailTurnIs(TurnOf(writer.replies, report));
            Fail();
            return WriteFailed, report;
        }
      }
    }

    /** Records the transactions whose last byte landed exactly on the budget. */
    method RetireFinished(atBypass: bool, ghost replies: seq<Reply>, ghost report: Report)
      modifies this
      ensures TurnOf(replies, report) == PopFinished(old(TurnOf(replies, report)), atBypass)
      ensures log.accepted == old(log.accepted) && log.failedEpochs == old(log.failedEpochs)
    {
      hide PopFront, ReachesBypass;
      ghost var target := PopFinished(TurnOf(replies, report), atBypass);
      var reached := atBypass;
      while !reached && s.active != [] && Remaining(s.active[0]) == []
        invariant PopFinished(TurnOf(replies, report), reached) == target
        invariant log.accepted == old(log.accepted) && log.failedEpochs == old(log.failedEpochs)
        decreases |s.active|
      {
        PopFrame(TurnOf(replies, report));
        reached := RetireFront(replies, report);
      }
    }

    /** Activates, writes, retires, flushes and reports. */
    method WriteReady(writer: Writer, before: Report, finishStartedOnly: bool) returns (failed: bool, report: Report)
      modifies this, writer
      ensures var p := WriteOut(old(TurnOf(writer.replies, before)), finishStartedOnly);
              p.turn == TurnOf(writer.replies, report) && failed == p.Fail?
      ensures WentDown(old(log), log, failed, old(writer.wire), writer.wire)
    {
      hide WriteLoop, PopFinished, Settle, ActivatePending;
      ActivationKeepsBudget(s);
      ActivateWork();
      var outcome, written := WriteActive(writer, before, Max(s.config.writeBudgetBytes, 1), finishStartedOnly);
      report := written;
      if outcome == WriteBlocked || outcome == WriteFailed {
        return outcome == WriteFailed, report;
      }
      RetireFinished(outcome == StoppedAtBypass, writer.replies, report);
      failed, report := SettleTurn(writer, report);
    }

    method SettleTurn(writer: Writer, before: Report) returns (failed: bool, report: Report)
      modifies this, writer
      ensures var p := Settle(old(TurnOf(writer.replies, before)));
              p.turn == TurnOf(writer.replies, report) && failed == p.Fail?
      ensures WentDown(old(log), log, failed, old(writer.wire), writer.wire)
    {
      hide FlushWriter, CompleteAwaiting;
      report := before;
      if s.flushRequired {
        var flush, flushed := FlushPhysical(writer, report);
        report := flushed;
        if flush != Flushed {
          return flush == FlushFailed, report;
        }
      }
      if !s.flushRequired {
        report := CompleteAwaitingRenders(writer.replies, report);
      }
      report := report.(writeBudgetExhausted := s.active != [] || HasPendingWork(s));
      return false, report;
    }

    /** Ends a hold that has lasted too long and selects the newest render as its release. */
    method ReleaseOverdueHold(now: nat, ghost replies: seq<Reply>, before: Report) returns (report: Report)
      modifies this`s
      ensures TurnOf(replies, report) == ReleaseHold(old(TurnOf(replies, before)), now)
    {
      report := before;
      if TimedOut(s, now) {
        var release := NewestRender(s);
        s := s.(appSync := Some(IgnoringUntilClose), releaseGeneration := release);
        if release.None? {
          report := report.(synchronizationTimedOut := true);
        }
      }
    }

    /** Everything after the first flush. */
    method DrainFenced(now: nat, force: bool, writer: Writer, before: Report) returns (failed: bool, report: Report)
      modifies this, writer
      ensures var p := AfterFence(old(TurnOf(writer.replies, before)), now, force);
              p.turn == TurnOf(writer.replies, report) && failed == p.Fail?
      ensures WentDown(old(log), log, failed, old(writer.wire), writer.wire)
    {
      hide WriteOut, ReleaseHold, TimedOut;
      var finishStartedOnly := false;
      if Holds(s, now, force) {
        if s.active != [] && s.active[0].offset > 0 {
          finishStartedOnly := true;
        } else {
          return false, before;
        }
      }
      report := ReleaseOverdueHold(now, writer.replies, before);
      if TooEarly(s, now, force) {
        return false, report;
      }
      failed, report := WriteReady(writer, report, finishStartedOnly);
    }

    /**
      * One call of the event loop. Without a failure, the bytes the history gained are exactly the
      * bytes that went down the wire.
      */
    method DrainReady(now: nat, force: bool, writer: Writer) returns (failed: bool, report: Report)
      modifies this, writer
      ensures var p := Drain(old(State()), now, force, old(writer.replies));
              p.turn == TurnOf(writer.replies, report) && failed == p.Fail?
      ensures WentDown(old(log), log, failed, old(writer.wire), writer.wire)
    {
      hide AfterFence, FlushWriter, WentDown;
      report := EMPTY_REPORT;
      WentDownNothing(log, writer.wire);
      if s.needsReconciliation || (s.waitingForWritable && !force) {
        return false, report;
      }
      if force {
        s := s.(waitingForWritable := false);
      }
      if s.flushRequired {
        var flush, flushed := FlushPhysical(writer, report);
        report := flushed;
        if flush != Flushed {
          return flush == FlushFailed, report;
        }
      }
      ghost var fenced, wire := log, writer.wire;
      failed, report := DrainFenced(now, force, writer, report);
      WentDownThen(old(log), fenced, log, failed, old(writer.wire), wire, writer.wire);
    }
  }

  lemma ActivationKeepsBudget(s: Scheduler)
    ensures ActivatePending(s).config == s.config
  {
  }

  lemma FailTurnIs(t: Turn)
    ensures FailTurn(t) == t.(s := FailScheduler(t.s), log := FailLog(t.log))
  {
  }

  lemma PopFrame(t: Turn)
    requires t.s.active != []
    ensures PopFront(t).log.accepted == t.log.accepted && PopFront(t).log.failedEpochs == t.log.failedEpochs
    ensures PopFront(t).replies == t.replies
    ensures |PopFront(t).s.active| < |t.s.active|
  {
  }

  lemma WroteFrame(t: Turn, written: nat)
    requires t.s.active != [] && written <= |Remaining(t.s.active[0])|
    ensures WroteFront(t, written).log.accepted == t.log.accepted + Remaining(t.s.active[0])[..written]
    ensures WroteFront(t, written).replies == t.replies && WroteFront(t, written).log.failedEpochs == t.log.failedEpochs
  {
  }

  lemma OldestFrame(t: Turn)
    requires t.s.awaitingRenders != []
    ensures ReportOldest(t).log.accepted == t.log.accepted && ReportOldest(t).log.failedEpochs == t.log.failedEpochs
    ensures |ReportOldest(t).s.awaitingRenders| < |t.s.awaitingRenders|
  {
  }

  function FlushResult(p: Progress): FlushOutcome {
    match p
    case Continue(_) => Flushed
    case Return(_) => FlushBlocked
    case Fail(_) => FlushFailed
  }

  lemma DisarmingChangesNothingElse(s: Scheduler, now: nat)
    ensures var disarmed := s.(bypassNext := false);
      var withdrawn := WithdrawUnstartedRender(disarmed, now);
      && ReplacesGeneration(disarmed, s.releaseGeneration) == ReplacesGeneration(s, s.releaseGeneration)
      && ReplacesGeneration(disarmed, s.bypassGeneration) == ReplacesGeneration(s, s.bypassGeneration)
      && withdrawn.releaseGeneration == s.releaseGeneration && withdrawn.bypassGeneration == s.bypassGeneration
      && withdrawn.nextGeneration == s.nextGeneration
  {
  }

  lemma NoBells(queue: seq<ActiveTransaction>)
    ensures WithoutUnstartedBells(queue[..0]) == [] && UnstartedBellBytes(queue[..0]) == 0
    ensures queue == [] + queue[0..]
  {
  }

  lemma SpliceAt<T>(head: seq<T>, rest: seq<T>)
    requires rest != []
    ensures (head + rest)[|head|] == rest[0]
    ensures (head + rest)[..|head|] + (head + rest)[|head| + 1..] == head + rest[1..]
    ensures head + rest == head + [rest[0]] + rest[1..]
  {
  }

  /** One more transaction looked at while the bells are reclaimed. */
  lemma BellStep(queue: seq<ActiveTransaction>, seen: nat)
    requires seen < |queue|
    ensures WithoutUnstartedBells(queue[..seen + 1])
         == if IsUnstartedBell(queue[seen]) then WithoutUnstartedBells(queue[..seen])
            else WithoutUnstartedBells(queue[..seen]) + [queue[seen]]
    ensures UnstartedBellBytes(queue[..seen + 1])
         == UnstartedBellBytes(queue[..seen]) + if IsUnstartedBell(queue[seen]) then |queue[seen].bytes| else 0
  {
    assert queue[..seen + 1] == queue[..seen] + [queue[seen]];
    FilterSnoc(queue[..seen], queue[seen], (t: ActiveTransaction) => !IsUnstartedBell(t));
    UnstartedBellBytesSnoc(queue[..seen], queue[seen]);
  }
}
