/**
  * What every reachable state of the output scheduler satisfies, and that every operation keeps it.
  */
module SchedulerInvariant {
  import opened Common
  import opened TerminalEvents
  import opened SchedulerSteps

  // ----- the invariant -----

  ghost predicate OnlyFrontStarted(active: seq<ActiveTransaction>) {
    && (forall i :: 0 <= i < |active| ==> active[i].offset <= |active[i].bytes|)
    && (forall i :: 0 < i < |active| ==> active[i].offset == 0)
  }

  /** The bytes of the front transaction that are already out. */
  function StartedPrefix(active: seq<ActiveTransaction>): Bytes {
    if active == [] || active[0].offset > |active[0].bytes| then [] else active[0].bytes[..active[0].offset]
  }

  function DoneBytes(done: seq<Done>): Bytes {
    if done == [] then [] else DoneBytes(done[..|done| - 1]) + done[|done| - 1].bytes
  }

  /** The writer has been given whole transactions and a prefix of the front one, nothing else. */
  ghost predicate WireInv(active: seq<ActiveTransaction>, flushRequired: bool, log: Log) {
    && OnlyFrontStarted(active)
    && log.accepted == DoneBytes(log.done) + StartedPrefix(active)
    && log.flushed <= |log.accepted|
    && (flushRequired <==> log.flushed < |log.accepted|)
  }

  function ActiveRenders(active: seq<ActiveTransaction>): seq<TrackedRender> {
    if active == [] then []
    else (if active[0].completedRender.Some? then [active[0].completedRender.value] else []) + ActiveRenders(active[1..])
  }

  function PendingRenders(render: Option<PendingRender>): seq<TrackedRender> {
    if render.Some? then [Track(render.value)] else []
  }

  /** The renders that can still be reported: written but unflushed, active, pending; oldest first. */
  function Held(awaiting: seq<TrackedRender>, active: seq<ActiveTransaction>, pending: Option<PendingRender>)
    : seq<TrackedRender>
  {
    awaiting + ActiveRenders(active) + PendingRenders(pending)
  }

  function Reported(log: Log): seq<TrackedRender> {
    log.earlierReceipts + log.receipts
  }

  ghost predicate Ascending(renders: seq<TrackedRender>) {
    forall i, j :: 0 <= i < j < |renders| ==> renders[i].generation < renders[j].generation
  }

  /** A render carries the scene and the accessibility bundle it was offered with. */
  ghost predicate Genuine(offers: seq<Offer>, render: TrackedRender) {
    && 1 <= render.generation <= |offers|
    && var offer := offers[render.generation - 1];
       render.predicted == offer.batch.predicted && render.accessibility == offer.accessibility
  }

  ghost predicate IsRenderOf(offers: seq<Offer>, bytes: Bytes, render: TrackedRender) {
    && Genuine(offers, render)
    && var batch := offers[render.generation - 1].batch;
       bytes == RenderBytes(batch, true) || bytes == RenderBytes(batch, false)
  }

  ghost predicate WellMarked(offers: seq<Offer>, transaction: ActiveTransaction) {
    && (transaction.kind == Render <==> transaction.completedRender.Some?)
    && (transaction.completedRender.Some? ==> IsRenderOf(offers, transaction.bytes, transaction.completedRender.value))
  }

  /** A transaction that finished render `render` lies within the first `limit` accepted bytes. */
  ghost predicate Delivered(log: Log, render: TrackedRender, limit: nat) {
    exists i :: 0 <= i < |log.done| && log.done[i].render == Some(render) && |DoneBytes(log.done[..i + 1])| <= limit
  }

  /** Reported and held renders form one strictly increasing line of genuine generations. */
  ghost predicate OrderInv(
    awaiting: seq<TrackedRender>, active: seq<ActiveTransaction>, pending: Option<PendingRender>, log: Log)
  {
    && Ascending(Reported(log) + Held(awaiting, active, pending))
    && (forall r :: r in Reported(log) || r in Held(awaiting, active, pending) ==> Genuine(log.offers, r))
  }

  /** What is queued or written under the name of a render is that render. */
  ghost predicate MarkInv(active: seq<ActiveTransaction>, pending: Option<PendingRender>, log: Log) {
    && (pending.Some? ==>
          Genuine(log.offers, Track(pending.value))
          && log.offers[pending.value.generation - 1].batch == pending.value.batch)
    && (forall t :: t in active ==> WellMarked(log.offers, t))
    && (forall d :: d in log.done && d.render.Some? ==> IsRenderOf(log.offers, d.bytes, d.render.value))
  }

  /** Receipts are behind the flush; renders awaiting theirs are entirely out. */
  ghost predicate DeliveryInv(awaiting: seq<TrackedRender>, log: Log) {
    && (forall r :: r in log.receipts ==> Delivered(log, r, log.flushed))
    && (forall r :: r in awaiting ==> Delivered(log, r, |log.accepted|))
  }

  ghost predicate HoldsGeneration(
    awaiting: seq<TrackedRender>, active: seq<ActiveTransaction>, pending: Option<PendingRender>, generation: nat)
  {
    exists r :: r in Held(awaiting, active, pending) && r.generation == generation
  }

  ghost predicate TokenInv(s: Scheduler) {
    && (s.bypassGeneration.Some? ==>
          HoldsGeneration(s.awaitingRenders, s.active, s.pendingRender, s.bypassGeneration.value))
    && (s.releaseGeneration.Some? ==>
          HoldsGeneration(s.awaitingRenders, s.active, s.pendingRender, s.releaseGeneration.value)
          && s.appSync == Some(IgnoringUntilClose))
  }

  /** The slack a wrapper added after admission may use. */
  function Slack(s: Scheduler): nat {
    if s.pendingRender.Some? && !s.syncSupported then 0 else SYNC_WRAPPER_BYTES
  }

  ghost predicate BudgetInv(s: Scheduler) {
    && (s.pendingRender.Some? ==> s.pendingRender.value.byteLen == BatchBytes(s.pendingRender.value.batch, s.syncSupported))
    && PendingTotal(s) <= s.config.maximumPendingBytes + Slack(s)
    && ControlTotal(s) <= CONTROL_BACKLOG_LIMIT_BYTES
  }

  ghost predicate WakeInv(s: Scheduler) {
    HasPendingWork(s) ==> s.pendingSinceMs.Some?
  }

  ghost predicate WorldOrder(w: World) {
    && WireInv(w.s.active, w.s.flushRequired, w.log)
    && OrderInv(w.s.awaitingRenders, w.s.active, w.s.pendingRender, w.log)
    && MarkInv(w.s.active, w.s.pendingRender, w.log)
    && DeliveryInv(w.s.awaitingRenders, w.log)
    && w.s.nextGeneration == |w.log.offers| + 1
  }

  ghost predicate Inv(w: World) {
    WorldOrder(w) && TokenInv(w.s) && BudgetInv(w.s) && WakeInv(w.s)
  }

  // ----- pruning: dropping unstarted transactions and nothing else -----

  /** `a` is `b` without some of its unstarted transactions. */
  ghost predicate Prunes(a: seq<ActiveTransaction>, b: seq<ActiveTransaction>)
    decreases |b|
  {
    if b == [] then a == []
    else
      || (a != [] && a[0] == b[0] && Prunes(a[1..], b[1..]))
      || (b[0].offset == 0 && Prunes(a, b[1..]))
  }

  lemma {:induction false} PrunesSelf(a: seq<ActiveTransaction>)
    ensures Prunes(a, a)
  {
    if a != [] {
      PrunesSelf(a[1..]);
    }
  }

  lemma {:induction false} FilterPrunes(active: seq<ActiveTransaction>, keep: ActiveTransaction -> bool)
    requires forall t :: t in active && t.offset > 0 ==> keep(t)
    ensures Prunes(Filter(active, keep), active)
  {
    if active != [] {
      FilterPrunes(active[1..], keep);
      if keep(active[0]) {
        assert ([active[0]] + Filter(active[1..], keep))[1..] == Filter(active[1..], keep);
      }
    }
  }

  lemma {:induction false} FilterKeeps(active: seq<ActiveTransaction>, keep: ActiveTransaction -> bool, t: ActiveTransaction)
    requires t in active && keep(t)
    ensures t in Filter(active, keep)
  {
    if active[0] != t {
      assert t in active[1..];
      FilterKeeps(active[1..], keep, t);
    }
  }

  lemma {:induction false} RemovalPrunes(active: seq<ActiveTransaction>, index: nat)
    requires index < |active| && active[index].offset == 0
    ensures Prunes(active[..index] + active[index + 1..], active)
  {
    var rest := active[..index] + active[index + 1..];
    if index == 0 {
      assert rest == active[1..];
      PrunesSelf(active[1..]);
    } else {
      RemovalPrunes(active[1..], index - 1);
      assert active[1..][..index - 1] + active[1..][index..] == rest[1..];
    }
  }

  lemma {:induction false} PrunesTransitive(a: seq<ActiveTransaction>, b: seq<ActiveTransaction>, c: seq<ActiveTransaction>)
    requires Prunes(a, b) && Prunes(b, c)
    ensures Prunes(a, c)
    decreases |b| + |c|
  {
    if c == [] {
    } else if b != [] && b[0] == c[0] && Prunes(b[1..], c[1..]) {
      if a != [] && a[0] == b[0] && Prunes(a[1..], b[1..]) {
        PrunesTransitive(a[1..], b[1..], c[1..]);
      } else {
        PrunesTransitive(a, b[1..], c[1..]);
      }
    } else {
      PrunesTransitive(a, b, c[1..]);
    }
  }

  lemma {:induction false} PrunedMembers(a: seq<ActiveTransaction>, b: seq<ActiveTransaction>)
    requires Prunes(a, b)
    ensures forall t :: t in a ==> t in b
    decreases |b|
  {
    if b != [] {
      if a != [] && a[0] == b[0] && Prunes(a[1..], b[1..]) {
        PrunedMembers(a[1..], b[1..]);
        assert a == [a[0]] + a[1..] && b == [b[0]] + b[1..];
      } else {
        PrunedMembers(a, b[1..]);
      }
    }
  }

  lemma {:induction false} PrunedSizes(a: seq<ActiveTransaction>, b: seq<ActiveTransaction>)
    requires Prunes(a, b)
    ensures LeftOver(a) <= LeftOver(b) && ControlLeftOver(a) <= ControlLeftOver(b)
    decreases |b|
  {
    if b != [] {
      if a != [] && a[0] == b[0] && Prunes(a[1..], b[1..]) {
        PrunedSizes(a[1..], b[1..]);
      } else {
        PrunedSizes(a, b[1..]);
      }
    }
  }

  lemma {:induction false} AllUnstarted(a: seq<ActiveTransaction>, b: seq<ActiveTransaction>)
    requires Prunes(a, b)
    requires forall i :: 0 <= i < |b| ==> b[i].offset == 0
    ensures forall i :: 0 <= i < |a| ==> a[i].offset == 0
  {
    PrunedMembers(a, b);
    forall i | 0 <= i < |a|
      ensures a[i].offset == 0
    {
      assert a[i] in b;
    }
  }

  lemma PrunedFront(a: seq<ActiveTransaction>, b: seq<ActiveTransaction>)
    requires Prunes(a, b) && OnlyFrontStarted(b)
    ensures OnlyFrontStarted(a)
    ensures StartedPrefix(a) == StartedPrefix(b)
  {
    PrunedMembers(a, b);
    if b != [] {
      assert forall i :: 0 <= i < |b[1..]| ==> b[1..][i].offset == 0;
      if a != [] && a[0] == b[0] && Prunes(a[1..], b[1..]) {
        AllUnstarted(a[1..], b[1..]);
        assert forall i :: 0 < i < |a| ==> a[i] == a[1..][i - 1];
      } else {
        AllUnstarted(a, b[1..]);
      }
    }
  }

  lemma {:induction false} ActiveRendersAppend(a: seq<ActiveTransaction>, b: seq<ActiveTransaction>)
    ensures ActiveRenders(a + b) == ActiveRenders(a) + ActiveRenders(b)
  {
    if a == [] {
      assert a + b == b;
    } else {
      var head := if a[0].completedRender.Some? then [a[0].completedRender.value] else [];
      assert (a + b)[0] == a[0] && (a + b)[1..] == a[1..] + b;
      ActiveRendersAppend(a[1..], b);
      Reassociate(head, ActiveRenders(a[1..]), ActiveRenders(b));
    }
  }

  lemma {:induction false} ActiveRenderMember(active: seq<ActiveTransaction>, t: ActiveTransaction)
    requires t in active && t.completedRender.Some?
    ensures t.completedRender.value in ActiveRenders(active)
  {
    if active[0] != t {
      assert t in active[1..];
      ActiveRenderMember(active[1..], t);
    }
  }

  lemma {:induction false} ActiveRenderSource(active: seq<ActiveTransaction>, r: TrackedRender) returns (t: ActiveTransaction)
    requires r in ActiveRenders(active)
    ensures t in active && t.completedRender == Some(r)
  {
    if active[0].completedRender == Some(r) {
      t := active[0];
    } else {
      t := ActiveRenderSource(active[1..], r);
    }
  }

  lemma {:induction false} PrunedRendersMembers(a: seq<ActiveTransaction>, b: seq<ActiveTransaction>)
    requires Prunes(a, b)
    ensures forall r :: r in ActiveRenders(a) ==> r in ActiveRenders(b)
  {
    PrunedMembers(a, b);
    forall r | r in ActiveRenders(a)
      ensures r in ActiveRenders(b)
    {
      var t := ActiveRenderSource(a, r);
      ActiveRenderMember(b, t);
    }
  }

  lemma {:induction false} PrunedRendersAscend(
    before: seq<TrackedRender>, a: seq<ActiveTransaction>, b: seq<ActiveTransaction>, after: seq<TrackedRender>)
    requires Prunes(a, b)
    requires Ascending(before + ActiveRenders(b) + after)
    ensures Ascending(before + ActiveRenders(a) + after)
    decreases |b|
  {
    hide Ascending;
    if b != [] {
      var head := if b[0].completedRender.Some? then [b[0].completedRender.value] else [];
      HeadMoves(before, head, ActiveRenders(b[1..]), after);
      if a != [] && a[0] == b[0] && Prunes(a[1..], b[1..]) {
        PrunedRendersAscend(before + head, a[1..], b[1..], after);
        HeadMoves(before, head, ActiveRenders(a[1..]), after);
      } else {
        HeadDropped(before, head, ActiveRenders(b[1..]), after);
        PrunedRendersAscend(before, a, b[1..], after);
      }
    }
  }

  lemma HeadMoves(
    before: seq<TrackedRender>, head: seq<TrackedRender>, rest: seq<TrackedRender>, after: seq<TrackedRender>)
    ensures before + (head + rest) + after == before + head + rest + after
  {
  }

  lemma HeadDropped(
    before: seq<TrackedRender>, head: seq<TrackedRender>, rest: seq<TrackedRender>, after: seq<TrackedRender>)
    requires Ascending(before + head + rest + after)
    ensures Ascending(before + rest + after)
  {
    hide Ascending;
    assert before + head + rest + after == before + head + (rest + after);
    AscendingWithout(before, head, rest + after);
    assert before + (rest + after) == before + rest + after;
  }

  lemma AscendingWithout(a: seq<TrackedRender>, b: seq<TrackedRender>, c: seq<TrackedRender>)
    requires Ascending(a + b + c)
    ensures Ascending(a + c)
  {
    var whole := a + b + c;
    forall i, j | 0 <= i < j < |a + c|
      ensures (a + c)[i].generation < (a + c)[j].generation
    {
      var i' := if i < |a| then i else i + |b|;
      var j' := if j < |a| then j else j + |b|;
      assert (a + c)[i] == whole[i'] && (a + c)[j] == whole[j'];
    }
  }
}
