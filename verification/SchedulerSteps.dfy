/**
  * The output scheduler as a state machine: what every public operation does to the queues, the
  * started transaction, the flush fence and the synchronization tokens.
  *
  * `Scheduler` mirrors the fields of the source's structure. `Log` is the history that the source
  * does not keep: what the writer has accepted since the last write failure, which transactions
  * those bytes were, how far a successful flush reaches, which renders were offered and which were
  * reported complete.
  */
module SchedulerSteps {
  import opened Common
  import opened TerminalEvents

  // ----- data -----

  const CONTROL_BACKLOG_LIMIT_BYTES := 64 * 1024

  /** The largest 64-bit generation; the successor of it wraps to 1. */
  const MAX_GENERATION := 0xffff_ffff_ffff_ffff

  function SyncStart(): Bytes {
    [ESC, 0x5b, 0x3f, 0x32, 0x30, 0x32, 0x36, 0x68]
  }

  function SyncEnd(): Bytes {
    [ESC, 0x5b, 0x3f, 0x32, 0x30, 0x32, 0x36, 0x6c]
  }

  const SYNC_WRAPPER_BYTES := 16

  datatype Config = Config(
    latencyBudgetMs: nat,
    synchronizationTimeoutMs: nat,
    synchronizationHardTimeoutMs: nat,
    writeBudgetBytes: nat,
    maximumPendingBytes: nat)

  /** `predicted` and `accessibility` stand for the opaque scene and bundle carried by a render. */
  datatype RenderBatch = RenderBatch(transactions: seq<Bytes>, predicted: nat)

  datatype PendingRender = PendingRender(batch: RenderBatch, byteLen: nat, generation: nat, accessibility: nat)

  datatype TrackedRender = TrackedRender(predicted: nat, generation: nat, accessibility: nat)

  datatype CompletedRender = CompletedRender(predicted: nat, accessibility: nat)

  datatype ScheduledEffect = ScheduledEffect(owner: nat, event: TerminalEvent)

  datatype TransactionKind = Control | Render | Effect | BellRing

  datatype ActiveTransaction = ActiveTransaction(
    kind: TransactionKind,
    bytes: Bytes,
    offset: nat,
    completedRender: Option<TrackedRender>,
    completedEffects: seq<ScheduledEffect>)
  {
    function Left(): nat {
      Sub(|bytes|, offset)
    }

    predicate Tracks(generation: Option<nat>) {
      completedRender.Some? && generation == Some(completedRender.value.generation)
    }
  }

  datatype ApplicationSync = Active(startedMs: nat, lastActivityMs: nat) | IgnoringUntilClose

  datatype Scheduler = Scheduler(
    config: Config,
    syncSupported: bool,
    pendingBytes: seq<Bytes>,
    pendingRender: Option<PendingRender>,
    pendingEffects: seq<ScheduledEffect>,
    pendingBells: nat,
    pendingSinceMs: Option<nat>,
    active: seq<ActiveTransaction>,
    awaitingRenders: seq<TrackedRender>,
    awaitingEffects: seq<ScheduledEffect>,
    flushRequired: bool,
    waitingForWritable: bool,
    appSync: Option<ApplicationSync>,
    bypassNext: bool,
    bypassGeneration: Option<nat>,
    nextGeneration: nat,
    releaseGeneration: Option<nat>,
    needsReconciliation: bool)

  function NewScheduler(config: Config, syncSupported: bool): Scheduler {
    Scheduler(config, syncSupported, [], None, [], 0, None, [], [], [], false, false, None, false, None, 1, None, false)
  }

  /** A transaction all of whose bytes the writer has accepted. */
  datatype Done = Done(kind: TransactionKind, bytes: Bytes, render: Option<TrackedRender>)

  datatype Offer = Offer(batch: RenderBatch, accessibility: nat)

  datatype Log = Log(
    done: seq<Done>,
    accepted: Bytes,
    flushed: nat,
    receipts: seq<TrackedRender>,
    earlierReceipts: seq<TrackedRender>,
    offers: seq<Offer>,
    failedEpochs: seq<Bytes>)

  const EMPTY_LOG := Log([], [], 0, [], [], [], [])

  datatype World = World(s: Scheduler, log: Log)

  // ----- sizes -----

  function LeftOver(active: seq<ActiveTransaction>): nat {
    if active == [] then 0 else active[0].Left() + LeftOver(active[1..])
  }

  function ControlLeftOver(active: seq<ActiveTransaction>): nat {
    if active == [] then 0
    else (if active[0].kind == Control then active[0].Left() else 0) + ControlLeftOver(active[1..])
  }

  function EffectBytes(effects: seq<ScheduledEffect>): nat {
    if effects == [] then 0 else RetainedBytes(effects[0].event) + EffectBytes(effects[1..])
  }

  function ActiveEffectBytes(active: seq<ActiveTransaction>): nat {
    if active == [] then 0 else EffectBytes(active[0].completedEffects) + ActiveEffectBytes(active[1..])
  }

  function RenderBytesHeld(render: Option<PendingRender>): nat {
    if render.Some? then render.value.byteLen else 0
  }

  function PendingTotal(s: Scheduler): nat {
    LeftOver(s.active) + TotalLength(s.pendingBytes) + RenderBytesHeld(s.pendingRender)
      + EffectBytes(s.pendingEffects) + s.pendingBells
  }

  function ControlTotal(s: Scheduler): nat {
    TotalLength(s.pendingBytes) + ControlLeftOver(s.active)
  }

  function RetainedEffectBytes(s: Scheduler): nat {
    EffectBytes(s.pendingEffects) + EffectBytes(s.awaitingEffects) + ActiveEffectBytes(s.active)
  }

  function BatchBytes(batch: RenderBatch, syncSupported: bool): nat {
    TotalLength(batch.transactions) + if syncSupported then SYNC_WRAPPER_BYTES else 0
  }

  // ----- queueing -----

  function NotePending(s: Scheduler, now: nat): Scheduler {
    if s.pendingSinceMs.Some? then s else s.(pendingSinceMs := Some(now))
  }

  predicate IsReleaseBoundary(s: Scheduler, generation: nat) {
    s.releaseGeneration == Some(generation) || s.bypassGeneration == Some(generation)
  }

  predicate SurvivesEviction(s: Scheduler, transaction: ActiveTransaction) {
    transaction.offset > 0 || transaction.kind == Control
    || (transaction.completedRender.Some? && IsReleaseBoundary(s, transaction.completedRender.value.generation))
  }

  /** Makes room for control bytes: unstarted visual work goes, release boundaries stay. */
  function Evict(s: Scheduler): Scheduler {
    s.(pendingRender := if s.pendingRender.Some? && IsReleaseBoundary(s, s.pendingRender.value.generation)
                        then s.pendingRender else None,
       pendingEffects := [],
       pendingBells := 0,
       active := Filter(s.active, (t: ActiveTransaction) => SurvivesEviction(s, t)))
  }

  function PushControl(queue: seq<Bytes>, bytes: Bytes, maximum: nat): seq<Bytes> {
    if queue != [] && |queue[|queue| - 1]| + |bytes| <= maximum
    then queue[|queue| - 1 := queue[|queue| - 1] + bytes]
    else queue + [bytes]
  }

  predicate ControlFits(s: Scheduler, bytes: Bytes) {
    |bytes| <= CONTROL_BACKLOG_LIMIT_BYTES && ControlTotal(s) + |bytes| <= CONTROL_BACKLOG_LIMIT_BYTES
  }

  /** The state in which the capacity of the bytes is decided, after any eviction. */
  function MakeRoom(s: Scheduler, bytes: Bytes): Scheduler {
    if PendingTotal(s) + |bytes| > s.config.maximumPendingBytes then Evict(s) else s
  }

  predicate AcceptsControl(s: Scheduler, bytes: Bytes) {
    && bytes != []
    && ControlFits(s, bytes)
    && PendingTotal(MakeRoom(s, bytes)) + |bytes| <= s.config.maximumPendingBytes
  }

  function EnqueueBytes(s: Scheduler, bytes: Bytes, now: nat): Scheduler {
    if bytes == [] || !ControlFits(s, bytes) then s
    else if !AcceptsControl(s, bytes) then MakeRoom(s, bytes)
    else
      var roomy := NotePending(MakeRoom(s, bytes), now);
      roomy.(pendingBytes := PushControl(roomy.pendingBytes, bytes, s.config.maximumPendingBytes))
  }

  function PrepareForLifecycleCleanup(s: Scheduler): Scheduler {
    var active := Filter(s.active, (t: ActiveTransaction) => t.offset > 0);
    s.(pendingBytes := [], pendingRender := None, pendingEffects := [], pendingBells := 0,
       active := active,
       awaitingRenders := [],
       appSync := None, bypassNext := false, bypassGeneration := None, releaseGeneration := None,
       pendingSinceMs := if active == [] && s.awaitingEffects == [] then None else s.pendingSinceMs)
  }

  predicate IsUnstartedRender(transaction: ActiveTransaction) {
    transaction.kind == Render && transaction.offset == 0
  }

  /** The position of the first unstarted render, or the length when there is none. */
  function UnstartedRenderIndex(active: seq<ActiveTransaction>): (r: nat)
    ensures r <= |active|
    ensures r < |active| ==> IsUnstartedRender(active[r])
    ensures forall k :: 0 <= k < r ==> !IsUnstartedRender(active[k])
  {
    if active == [] || IsUnstartedRender(active[0]) then 0
    else
      var rest := UnstartedRenderIndex(active[1..]);
      assert forall k :: 1 <= k < |active| ==> active[k] == active[1..][k - 1];
      1 + rest
  }

  predicate IsUnstartedBell(transaction: ActiveTransaction) {
    transaction.kind == BellRing && transaction.offset == 0
  }

  function UnstartedBellBytes(active: seq<ActiveTransaction>): nat {
    if active == [] then 0
    else (if IsUnstartedBell(active[0]) then |active[0].bytes| else 0) + UnstartedBellBytes(active[1..])
  }

  function WithoutUnstartedBells(active: seq<ActiveTransaction>): seq<ActiveTransaction> {
    Filter(active, (t: ActiveTransaction) => !IsUnstartedBell(t))
  }

  function ReplaceableBytes(s: Scheduler): nat {
    var index := UnstartedRenderIndex(s.active);
    RenderBytesHeld(s.pendingRender) + if index < |s.active| then |s.active[index].bytes| else 0
  }

  predicate AcceptsRender(s: Scheduler, batch: RenderBatch) {
    var bytes := BatchBytes(batch, s.syncSupported);
    && bytes <= s.config.maximumPendingBytes
    && Sub(PendingTotal(s), ReplaceableBytes(s)) + bytes <= s.config.maximumPendingBytes
  }

  function NextGeneration(generation: nat): nat {
    if generation == MAX_GENERATION then 1 else generation + 1
  }

  predicate ReplacesGeneration(s: Scheduler, generation: Option<nat>) {
    var index := UnstartedRenderIndex(s.active);
    || (s.pendingRender.Some? && generation == Some(s.pendingRender.value.generation))
    || (index < |s.active| && s.active[index].Tracks(generation))
  }

  /** Drops the unstarted active render, if any, and takes back the bells queued behind it. */
  function WithdrawUnstartedRender(s: Scheduler, now: nat): Scheduler {
    var index := UnstartedRenderIndex(s.active);
    if index == |s.active| then s
    else
      var rest := s.active[..index] + s.active[index + 1..];
      s.(active := WithoutUnstartedBells(rest),
         pendingBells := s.pendingBells + UnstartedBellBytes(rest),
         pendingSinceMs := Some(Sub(now, s.config.latencyBudgetMs)))
  }

  function EnqueueRender(s: Scheduler, batch: RenderBatch, accessibility: nat, now: nat): Scheduler {
    var disarmed := s.(bypassNext := false);
    if !AcceptsRender(s, batch) then disarmed
    else
      var generation := s.nextGeneration;
      var withdrawn := NotePending(WithdrawUnstartedRender(disarmed, now), now);
      withdrawn.(
        pendingRender := Some(PendingRender(batch, BatchBytes(batch, s.syncSupported), generation, accessibility)),
        nextGeneration := NextGeneration(generation),
        releaseGeneration :=
          if ReplacesGeneration(s, s.releaseGeneration) then Some(generation) else s.releaseGeneration,
        bypassGeneration :=
          if s.bypassNext || ReplacesGeneration(s, s.bypassGeneration)
          then Some(generation) else s.bypassGeneration)
  }

  datatype EnqueueOutcome = Queued | ReplacedObsoleteRender | DroppedForCapacity

  function RenderOutcome(s: Scheduler, batch: RenderBatch): EnqueueOutcome {
    if !AcceptsRender(s, batch) then DroppedForCapacity
    else if s.pendingRender.Some? || UnstartedRenderIndex(s.active) < |s.active| then ReplacedObsoleteRender
    else Queued
  }

  predicate SameEffect(effect: ScheduledEffect, owner: nat, kind: EventKind) {
    effect.owner == owner && Kind(effect.event) == kind
  }

  predicate CarriesEffect(transaction: ActiveTransaction, owner: nat, kind: EventKind) {
    exists k :: 0 <= k < |transaction.completedEffects| && SameEffect(transaction.completedEffects[k], owner, kind)
  }

  /** Current-state effects (title, working directory) supersede their unstarted predecessors. */
  function SupersedeEffects(s: Scheduler, owner: nat, kind: EventKind): Scheduler {
    if kind != TitleKind && kind != WorkingDirectoryKind then s
    else
      s.(pendingEffects := Filter(s.pendingEffects, (e: ScheduledEffect) => !SameEffect(e, owner, kind)),
         active := Filter(s.active, (t: ActiveTransaction) =>
           t.offset != 0 || t.kind != Effect || !CarriesEffect(t, owner, kind)))
  }

  /** The effects without the first one of this owner and kind. */
  function WithoutFirst(effects: seq<ScheduledEffect>, owner: nat, kind: EventKind): seq<ScheduledEffect> {
    if effects == [] then []
    else if SameEffect(effects[0], owner, kind) then effects[1..]
    else [effects[0]] + WithoutFirst(effects[1..], owner, kind)
  }

  /** Over the retained-effect budget, an effect first displaces an older one of its owner and kind. */
  function DisplaceOlder(s: Scheduler, owner: nat, event: TerminalEvent): Scheduler {
    if RetainedEffectBytes(s) + RetainedBytes(event) > s.config.maximumPendingBytes
    then s.(pendingEffects := WithoutFirst(s.pendingEffects, owner, Kind(event)))
    else s
  }

  function PushEffect(s: Scheduler, effect: ScheduledEffect, now: nat): Scheduler {
    if PendingTotal(s) + RetainedBytes(effect.event) > s.config.maximumPendingBytes then s
    else
      var noted := NotePending(s, now);
      noted.(pendingEffects := noted.pendingEffects + [effect])
  }

  function EnqueueEffect(s: Scheduler, owner: nat, original: TerminalEvent, now: nat): Scheduler {
    var event := Bound(original, s.config.maximumPendingBytes);
    PushEffect(DisplaceOlder(SupersedeEffects(s, owner, Kind(event)), owner, event), ScheduledEffect(owner, event), now)
  }

  function SetSyncSupported(s: Scheduler, supported: bool): Scheduler {
    var render :=
      if supported == s.syncSupported || s.pendingRender.None? then s.pendingRender
      else
        var r := s.pendingRender.value;
        Some(r.(byteLen := if supported then r.byteLen + SYNC_WRAPPER_BYTES else Sub(r.byteLen, SYNC_WRAPPER_BYTES)));
    s.(pendingRender := render, syncSupported := supported)
  }

  function EnqueueBell(s: Scheduler, count: nat, now: nat): Scheduler {
    var retained := Min(count, Sub(s.config.maximumPendingBytes, PendingTotal(s)));
    if retained == 0 then s
    else
      var noted := NotePending(s, now);
      noted.(pendingBells := noted.pendingBells + retained)
  }

  function Observe(s: Scheduler, synchronized: bool, didOpen: bool, activity: bool, now: nat): Scheduler {
    if synchronized then
      match s.appSync
      case Some(IgnoringUntilClose) =>
        if didOpen then s.(appSync := Some(Active(now, now)), releaseGeneration := None) else s
      case Some(Active(started, _)) =>
        if activity then s.(appSync := Some(Active(started, now))) else s
      case None => s.(appSync := Some(Active(now, now)))
    else
      s.(appSync := None, bypassNext := false, releaseGeneration := None)
  }

  function SetBypassed(s: Scheduler, bypassed: bool): Scheduler {
    s.(bypassNext := bypassed && s.appSync.Some?)
  }

  function Recover(s: Scheduler): Scheduler {
    s.(needsReconciliation := false, waitingForWritable := false)
  }

  function NotifyWritable(s: Scheduler): Scheduler {
    s.(waitingForWritable := false)
  }

  // ----- the next wakeup -----

  predicate HasPendingWork(s: Scheduler) {
    s.pendingBytes != [] || s.pendingRender.Some? || s.pendingEffects != [] || s.pendingBells != 0
  }

  predicate HasWork(s: Scheduler) {
    s.active != [] || HasPendingWork(s) || s.flushRequired
  }

  function SyncDeadline(s: Scheduler): Option<nat> {
    match s.appSync
    case Some(Active(started, last)) =>
      Some(Min(last + s.config.synchronizationTimeoutMs, started + s.config.synchronizationHardTimeoutMs))
    case _ => None
  }

  function EarlierOf(a: Option<nat>, b: Option<nat>): Option<nat> {
    if a.None? then b else if b.None? then a else Some(Min(a.value, b.value))
  }

  predicate HoldBlocksActive(s: Scheduler) {
    s.appSync.Some? && s.appSync.value.Active? && s.bypassGeneration.None? && s.active != [] && s.active[0].offset == 0
  }

  function NextDeadline(s: Scheduler): Option<nat> {
    if s.waitingForWritable then None
    else if !HasWork(s) then SyncDeadline(s)
    else if (s.active != [] || s.flushRequired) && !HoldBlocksActive(s) then Some(0)
    else if s.bypassGeneration.None? && SyncDeadline(s).Some? then SyncDeadline(s)
    else
      EarlierOf(
        if s.pendingSinceMs.Some? then Some(s.pendingSinceMs.value + s.config.latencyBudgetMs) else None,
        SyncDeadline(s))
  }

  // ----- activation -----

  /** How many bytes the synchronization marker at the front takes, or zero. */
  function MarkerLength(source: Bytes): (r: nat)
    ensures r <= |source|
    ensures r > 0 ==> source[0] == ESC
  {
    if SyncStart() <= source || SyncEnd() <= source then |SyncStart()| else 0
  }

  /** One pass over the bytes that drops every synchronization marker it meets. */
  function StripMarkers(source: Bytes): (r: Bytes)
    ensures |r| <= |source|
  {
    if source == [] then []
    else
      var length := MarkerLength(source);
      if length > 0 then StripMarkers(source[length..]) else [source[0]] + StripMarkers(source[1..])
  }

  function StripAll(transactions: seq<Bytes>): (r: Bytes)
    ensures |r| <= TotalLength(transactions)
  {
    if transactions == [] then [] else StripMarkers(transactions[0]) + StripAll(transactions[1..])
  }

  /** The bytes of a render: markers inside it are dropped and at most one outer pair is added. */
  function RenderBytes(batch: RenderBatch, syncSupported: bool): Bytes {
    if syncSupported then SyncStart() + StripAll(batch.transactions) + SyncEnd()
    else StripAll(batch.transactions)
  }

  function Unstarted(kind: TransactionKind, bytes: Bytes): ActiveTransaction {
    ActiveTransaction(kind, bytes, 0, None, [])
  }

  function ActivateControls(pending: seq<Bytes>): seq<ActiveTransaction> {
    if pending == [] then [] else [Unstarted(Control, pending[0])] + ActivateControls(pending[1..])
  }

  function ActivateEffect(effect: ScheduledEffect): ActiveTransaction {
    Unstarted(Effect, Encode(effect.event)).(completedEffects := [effect])
  }

  function ActivateEffects(effects: seq<ScheduledEffect>): seq<ActiveTransaction> {
    if effects == [] then [] else [ActivateEffect(effects[0])] + ActivateEffects(effects[1..])
  }

  function Track(render: PendingRender): TrackedRender {
    TrackedRender(render.batch.predicted, render.generation, render.accessibility)
  }

  function ActivateRender(render: Option<PendingRender>, syncSupported: bool): seq<ActiveTransaction> {
    if render.None? then []
    else [Unstarted(Render, RenderBytes(render.value.batch, syncSupported)).(completedRender := Some(Track(render.value)))]
  }

  function Rings(count: nat): (r: Bytes)
    ensures |r| == count
  {
    seq(count, _ => 0x07)
  }

  function ActivateBells(count: nat): seq<ActiveTransaction> {
    if count == 0 then [] else [Unstarted(BellRing, Rings(count))]
  }

  /** Everything pending, in the fixed order control, effects, render, bells. */
  function Activated(s: Scheduler): seq<ActiveTransaction> {
    ActivateControls(s.pendingBytes) + ActivateEffects(s.pendingEffects)
      + ActivateRender(s.pendingRender, s.syncSupported) + ActivateBells(s.pendingBells)
  }

  function ActivatePending(s: Scheduler): Scheduler {
    if s.active != [] then s
    else
      s.(active := Activated(s), pendingBytes := [], pendingEffects := [], pendingRender := None,
         pendingBells := 0, pendingSinceMs := None)
  }

  // ----- draining -----

  /** One answer of the physical writer, to a write or to a flush. */
  datatype Reply = Accept(count: nat) | Interrupted | WouldBlock | Failure

  /** What the writer answers next; a writer that has nothing left to say would block. */
  function Next(replies: seq<Reply>): Reply {
    if replies == [] then WouldBlock else replies[0]
  }

  function Later(replies: seq<Reply>): seq<Reply> {
    if replies == [] then [] else replies[1..]
  }

  datatype Report = Report(
    bytesWritten: nat,
    completedRenders: seq<CompletedRender>,
    completedEffects: seq<ScheduledEffect>,
    blocked: bool,
    writeBudgetExhausted: bool,
    synchronizationTimedOut: bool,
    bypassCompleted: Option<nat>)

  const EMPTY_REPORT := Report(0, [], [], false, false, false, None)

  /** A drain in progress. */
  datatype Turn = Turn(s: Scheduler, log: Log, replies: seq<Reply>, report: Report)

  datatype Progress = Continue(turn: Turn) | Return(turn: Turn) | Fail(turn: Turn)

  function FailScheduler(s: Scheduler): Scheduler {
    s.(active := [], awaitingRenders := [], awaitingEffects := [], flushRequired := false,
       waitingForWritable := false, pendingBytes := [], pendingRender := None, pendingEffects := [],
       pendingBells := 0, pendingSinceMs := None, appSync := None, bypassNext := false,
       bypassGeneration := None, releaseGeneration := None, needsReconciliation := true)
  }

  /** A failed writer starts a new epoch; what it had accepted until then is kept aside. */
  function FailLog(log: Log): Log {
    Log([], [], 0, [], log.earlierReceipts + log.receipts, log.offers, log.failedEpochs + [log.accepted])
  }

  function FailTurn(t: Turn): Turn {
    t.(s := FailScheduler(t.s), log := FailLog(t.log))
  }

  function Receipt(render: TrackedRender): CompletedRender {
    CompletedRender(render.predicted, render.accessibility)
  }

  /** Reports the oldest render whose bytes are behind the fence. */
  function ReportOldest(t: Turn): Turn
    requires t.s.awaitingRenders != []
  {
    var render := t.s.awaitingRenders[0];
    var releases := t.s.releaseGeneration == Some(render.generation);
    var bypasses := t.s.bypassGeneration == Some(render.generation);
    Turn(
      t.s.(awaitingRenders := t.s.awaitingRenders[1..],
           releaseGeneration := if releases then None else t.s.releaseGeneration,
           bypassGeneration := if bypasses then None else t.s.bypassGeneration),
      t.log.(receipts := t.log.receipts + [render]),
      t.replies,
      t.report.(completedRenders := t.report.completedRenders + [Receipt(render)],
                synchronizationTimedOut := t.report.synchronizationTimedOut || releases,
                bypassCompleted := if bypasses then Some(render.generation) else t.report.bypassCompleted))
  }

  function CompleteRenders(t: Turn): Turn
    decreases |t.s.awaitingRenders|
  {
    if t.s.awaitingRenders == [] then t else CompleteRenders(ReportOldest(t))
  }

  function CompleteAwaiting(t: Turn): Turn {
    var c := CompleteRenders(t);
    c.(s := c.s.(awaitingEffects := []),
       report := c.report.(completedEffects := c.report.completedEffects + c.s.awaitingEffects))
  }

  function Blocked(t: Turn): Turn {
    t.(s := t.s.(waitingForWritable := true), report := t.report.(blocked := true))
  }

  function FlushWriter(t: Turn): Progress
    decreases |t.replies|
  {
    var rest := t.(replies := Later(t.replies));
    match Next(t.replies)
    case Accept(_) =>
      Continue(CompleteAwaiting(rest.(s := rest.s.(flushRequired := false), log := rest.log.(flushed := |rest.log.accepted|))))
    case Interrupted => FlushWriter(rest)
    case WouldBlock => Return(Blocked(rest))
    case Failure => Fail(FailTurn(rest))
  }

  function FlushIfRequired(t: Turn): Progress {
    if t.s.flushRequired then FlushWriter(t) else Continue(t)
  }

  predicate TimedOut(s: Scheduler, now: nat) {
    s.appSync.Some? && s.appSync.value.Active?
    && (now >= s.appSync.value.lastActivityMs + s.config.synchronizationTimeoutMs
        || now >= s.appSync.value.startedMs + s.config.synchronizationHardTimeoutMs)
  }

  /** Whether an application transaction keeps unstarted work back in this call. */
  predicate Holds(s: Scheduler, now: nat, force: bool) {
    s.appSync.Some? && s.appSync.value.Active? && !force && !TimedOut(s, now) && s.bypassGeneration.None?
  }

  function LastActiveRender(active: seq<ActiveTransaction>): Option<nat> {
    if active == [] then None
    else if active[|active| - 1].completedRender.Some? then Some(active[|active| - 1].completedRender.value.generation)
    else LastActiveRender(active[..|active| - 1])
  }

  /** The newest render that exists, which a timed-out hold releases. */
  function NewestRender(s: Scheduler): Option<nat> {
    if s.pendingRender.Some? then Some(s.pendingRender.value.generation)
    else if LastActiveRender(s.active).Some? then LastActiveRender(s.active)
    else if s.awaitingRenders != [] then Some(s.awaitingRenders[|s.awaitingRenders| - 1].generation)
    else None
  }

  function ReleaseHold(t: Turn, now: nat): Turn {
    if !TimedOut(t.s, now) then t
    else
      t.(s := t.s.(appSync := Some(IgnoringUntilClose), releaseGeneration := NewestRender(t.s)),
         report := t.report.(synchronizationTimedOut :=
           t.report.synchronizationTimedOut || NewestRender(t.s).None?))
  }

  predicate TooEarly(s: Scheduler, now: nat, force: bool) {
    !force && s.active == [] && s.pendingSinceMs.Some? && now < s.pendingSinceMs.value + s.config.latencyBudgetMs
  }

  /** Retires the front transaction, all of whose bytes are out. */
  function PopFront(t: Turn): Turn
    requires t.s.active != []
  {
    var front := t.s.active[0];
    t.(s := t.s.(active := t.s.active[1..],
                 awaitingRenders := t.s.awaitingRenders
                   + (if front.completedRender.Some? then [front.completedRender.value] else []),
                 awaitingEffects := t.s.awaitingEffects + front.completedEffects),
       log := t.log.(done := t.log.done + [Done(front.kind, front.bytes, front.completedRender)]))
  }

  function Remaining(transaction: ActiveTransaction): Bytes {
    if transaction.offset <= |transaction.bytes| then transaction.bytes[transaction.offset..] else []
  }

  /** The writer took the first `written` bytes of what is left of the front transaction. */
  function WroteFront(t: Turn, written: nat): Turn
    requires t.s.active != [] && written <= |Remaining(t.s.active[0])|
  {
    var front := t.s.active[0];
    t.(s := t.s.(active := t.s.active[0 := front.(offset := front.offset + written)], flushRequired := true),
       log := t.log.(accepted := t.log.accepted + Remaining(front)[..written]),
       report := t.report.(bytesWritten := t.report.bytesWritten + written))
  }

  predicate ReachesBypass(s: Scheduler, transaction: ActiveTransaction) {
    transaction.Tracks(s.bypassGeneration)
  }

  /** How the write loop left: it stopped in order (having met the bypass render or not), or it returned. */
  datatype LoopExit = Stopped(turn: Turn, atBypass: bool) | Left(progress: Progress)

  function WriteLoop(t: Turn, budget: nat, finishStartedOnly: bool): LoopExit
    decreases |t.replies|, |t.s.active|
  {
    if t.report.bytesWritten >= budget || t.s.active == [] then Stopped(t, false)
    else
      var front := t.s.active[0];
      if finishStartedOnly && front.offset == 0 then Stopped(t, false)
      else if Remaining(front) == [] then
        if ReachesBypass(t.s, front) then Stopped(PopFront(t), true)
        else WriteLoop(PopFront(t), budget, finishStartedOnly)
      else
        var offered := Min(|Remaining(front)|, budget - t.report.bytesWritten);
        var rest := t.(replies := Later(t.replies));
        match Next(t.replies)
        case Accept(count) =>
          if count == 0 then Left(Fail(FailTurn(rest)))
          else WriteLoop(WroteFront(rest, Min(count, offered)), budget, finishStartedOnly)
        case Interrupted => WriteLoop(rest, budget, finishStartedOnly)
        case WouldBlock => Left(Return(Blocked(rest)))
        case Failure => Left(Fail(FailTurn(rest)))
  }

  /** Retires the transactions whose last byte landed exactly on the budget. */
  function PopFinished(t: Turn, atBypass: bool): Turn
    decreases |t.s.active|
  {
    if atBypass || t.s.active == [] || Remaining(t.s.active[0]) != [] then t
    else PopFinished(PopFront(t), ReachesBypass(t.s, t.s.active[0]))
  }

  function Conclude(t: Turn): Turn {
    var c := if t.s.flushRequired then t else CompleteAwaiting(t);
    c.(report := c.report.(writeBudgetExhausted := c.s.active != [] || HasPendingWork(c.s)))
  }

  /** The end of a drain: flush what was written, report what the fence covers. */
  function Settle(t: Turn): Progress {
    match FlushIfRequired(t)
    case Continue(flushed) => Return(Conclude(flushed))
    case other => other
  }

  /** Everything after the hold and latency checks: activate, write, retire, flush, report. */
  function WriteOut(t: Turn, finishStartedOnly: bool): Progress {
    var activated := t.(s := ActivatePending(t.s));
    match WriteLoop(activated, Max(t.s.config.writeBudgetBytes, 1), finishStartedOnly)
    case Left(progress) => progress
    case Stopped(stopped, atBypass) => Settle(PopFinished(stopped, atBypass))
  }

  function AfterFence(t: Turn, now: nat, force: bool): Progress {
    var holds := Holds(t.s, now, force);
    if holds && !(t.s.active != [] && t.s.active[0].offset > 0) then Return(t)
    else
      var released := ReleaseHold(t, now);
      if TooEarly(released.s, now, force) then Return(released) else WriteOut(released, holds)
  }

  function Drain(w: World, now: nat, force: bool, replies: seq<Reply>): Progress {
    var start := Turn(w.s, w.log, replies, EMPTY_REPORT);
    if w.s.needsReconciliation || (w.s.waitingForWritable && !force) then Return(start)
    else
      var forced := if force then start.(s := start.s.(waitingForWritable := false)) else start;
      match FlushIfRequired(forced)
      case Continue(fenced) => AfterFence(fenced, now, force)
      case other => other
  }

  // ----- runs -----

  datatype Step =
    | DoEnqueueBytes(bytes: Bytes, now: nat)
    | DoCleanup
    | DoEnqueueRender(batch: RenderBatch, accessibility: nat, now: nat)
    | DoEnqueueEffect(owner: nat, event: TerminalEvent, now: nat)
    | DoSetSyncSupported(supported: bool)
    | DoEnqueueBell(count: nat, now: nat)
    | DoObserve(synchronized: bool, didOpen: bool, activity: bool, now: nat)
    | DoSetBypassed(bypassed: bool)
    | DoDrain(now: nat, force: bool, replies: seq<Reply>)
    | DoRecover
    | DoNotifyWritable

  function Take(w: World, step: Step): World {
    match step
    case DoEnqueueBytes(bytes, now) => w.(s := EnqueueBytes(w.s, bytes, now))
    case DoCleanup => w.(s := PrepareForLifecycleCleanup(w.s))
    case DoEnqueueRender(batch, accessibility, now) =>
      World(EnqueueRender(w.s, batch, accessibility, now),
            if AcceptsRender(w.s, batch) then w.log.(offers := w.log.offers + [Offer(batch, accessibility)]) else w.log)
    case DoEnqueueEffect(owner, event, now) => w.(s := EnqueueEffect(w.s, owner, event, now))
    case DoSetSyncSupported(supported) => w.(s := SetSyncSupported(w.s, supported))
    case DoEnqueueBell(count, now) => w.(s := EnqueueBell(w.s, count, now))
    case DoObserve(synchronized, didOpen, activity, now) => w.(s := Observe(w.s, synchronized, didOpen, activity, now))
    case DoSetBypassed(bypassed) => w.(s := SetBypassed(w.s, bypassed))
    case DoDrain(now, force, replies) =>
      var turn := Drain(w, now, force, replies).turn;
      World(turn.s, turn.log)
    case DoRecover => w.(s := Recover(w.s))
    case DoNotifyWritable => w.(s := NotifyWritable(w.s))
  }

  function Run(w: World, steps: seq<Step>): World
    decreases |steps|
  {
    if steps == [] then w else Run(Take(w, steps[0]), steps[1..])
  }

  function Start(config: Config, syncSupported: bool): World {
    World(NewScheduler(config, syncSupported), EMPTY_LOG)
  }
}
