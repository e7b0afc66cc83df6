/** Adaptive stabilization: a learned quiet window with provisional raises, rollback and decay. */
module Stabilization {
  import opened Common

  const DIFF_DELAY: nat := 30
  const MAX_DIFF_DELAY: nat := 300
  const MIN_ADAPTIVE_DIFF_DELAY: nat := 8
  const MAX_ADAPTIVE_DIFF_DELAY: nat := 60
  const ADAPTIVE_DIFF_MARGIN: nat := 4
  const ADAPTIVE_DIFF_DECAY: nat := 2
  const ADAPTIVE_DIFF_CLEAN_BURSTS: nat := 3
  const LATE_CONTINUATION_WINDOW_MS: nat := 100
  const SEMANTIC_INPUT_REPAINT_SETTLE_MS: nat := 120

  datatype Learned = Learned(delayMs: nat, floorMs: nat)

  datatype Profile = Profile(
    learned: Learned,
    maximumGapMs: nat,
    cleanBursts: nat,
    burstTrainable: bool,
    lateRaiseCheckpoint: Option<Learned>,
    burstFirstOutputMs: Option<nat>,
    burstLastOutputMs: Option<nat>,
    lastOrdinaryFinalizedMs: Option<nat>,
    lastOrdinaryOutputMs: Option<nat>)

  const DEFAULT := Profile(Learned(DIFF_DELAY, MIN_ADAPTIVE_DIFF_DELAY), 0, 0, true, None, None, None, None, None)

  // ----- specification functions -----

  predicate TrainableAfter(p: Profile, trainable: bool) {
    trainable && (p.burstFirstOutputMs.None? || p.burstTrainable)
  }

  /** Output that continues the burst just committed, with no input in between. */
  predicate RaisesLate(p: Profile, nowMs: nat, lastInputMs: Option<nat>, trainable: bool) {
    && p.lastOrdinaryFinalizedMs.Some? && p.lastOrdinaryOutputMs.Some?
    && nowMs > p.lastOrdinaryFinalizedMs.value
    && nowMs - p.lastOrdinaryFinalizedMs.value <= LATE_CONTINUATION_WINDOW_MS
    && (lastInputMs.Some? ==> lastInputMs.value < p.lastOrdinaryFinalizedMs.value)
    && TrainableAfter(p, trainable)
  }

  function Raised(l: Learned, target: nat): Learned {
    Learned(Max(l.delayMs, target), Max(l.floorMs, target))
  }

  function Observe(p: Profile, nowMs: nat, lastInputMs: Option<nat>, trainable: bool): Profile {
    var late := RaisesLate(p, nowMs, lastInputMs, trainable);
    var target := if late then Min(Sub(nowMs, p.lastOrdinaryOutputMs.value) + ADAPTIVE_DIFF_MARGIN,
                                   MAX_ADAPTIVE_DIFF_DELAY) else 0;
    Profile(
      if late then Raised(p.learned, target) else p.learned,
      if p.burstLastOutputMs.None? then p.maximumGapMs
      else Max(p.maximumGapMs, Min(Sub(nowMs, p.burstLastOutputMs.value), MAX_ADAPTIVE_DIFF_DELAY)),
      if late then 0 else p.cleanBursts,
      TrainableAfter(p, trainable),
      if late && p.lateRaiseCheckpoint.None? then Some(p.learned) else p.lateRaiseCheckpoint,
      if p.burstFirstOutputMs.None? then Some(nowMs) else p.burstFirstOutputMs,
      Some(nowMs),
      if late then None else p.lastOrdinaryFinalizedMs,
      if late then None else p.lastOrdinaryOutputMs)
  }

  function Clamp(x: nat, low: nat, high: nat): nat
    requires low <= high
  {
    Max(low, Min(x, high))
  }

  function TargetOf(gapMs: nat): nat {
    Clamp(gapMs + ADAPTIVE_DIFF_MARGIN, MIN_ADAPTIVE_DIFF_DELAY, MAX_ADAPTIVE_DIFF_DELAY)
  }

  /** What an ordinary burst with the given target teaches, `clean` such bursts after the last decay. */
  function Taught(l: Learned, clean: nat, target: nat): Learned {
    var floor := Max(l.floorMs, target);
    if clean + 1 < ADAPTIVE_DIFF_CLEAN_BURSTS then Learned(l.delayMs, floor)
    else
      var lowered := if target < floor then Max(floor - 1, target) else floor;
      Learned(Max(Sub(l.delayMs, ADAPTIVE_DIFF_DECAY), lowered), lowered)
  }

  function CleanAfter(clean: nat): nat {
    if clean + 1 < ADAPTIVE_DIFF_CLEAN_BURSTS then clean + 1 else 0
  }

  function FinishBurst(p: Profile, nowMs: nat, lastOutputMs: nat, ordinary: bool): Profile {
    if ordinary && p.burstTrainable then
      Profile(Taught(p.learned, p.cleanBursts, TargetOf(p.maximumGapMs)), 0, CleanAfter(p.cleanBursts), true, None,
              None, None, Some(nowMs), Some(lastOutputMs))
    else CancelBurst(p)
  }

  function CancelBurst(p: Profile): Profile {
    Profile(if p.lateRaiseCheckpoint.Some? then p.lateRaiseCheckpoint.value else p.learned,
            0, 0, true, None, None, None, None, None)
  }

  function Rebase(p: Profile, nowMs: nat): Profile {
    p.(burstFirstOutputMs := Some(nowMs), burstLastOutputMs := Some(nowMs))
  }

  // ----- the profile object -----

  class StabilizationProfile {
    var delayMs: nat
    var learnedFloorMs: nat
    var maximumGapMs: nat
    var cleanBursts: nat
    var burstTrainable: bool
    var lateRaiseCheckpoint: Option<Learned>
    var burstFirstOutputMs: Option<nat>
    var burstLastOutputMs: Option<nat>
    var lastOrdinaryFinalizedMs: Option<nat>
    var lastOrdinaryOutputMs: Option<nat>

    function State(): Profile
      reads this
    {
      Profile(Learned(delayMs, learnedFloorMs), maximumGapMs, cleanBursts, burstTrainable, lateRaiseCheckpoint,
              burstFirstOutputMs, burstLastOutputMs, lastOrdinaryFinalizedMs, lastOrdinaryOutputMs)
    }

    constructor ()
      ensures State() == DEFAULT
    {
      delayMs, learnedFloorMs, maximumGapMs, cleanBursts := DIFF_DELAY, MIN_ADAPTIVE_DIFF_DELAY, 0, 0;
      burstTrainable, lateRaiseCheckpoint := true, None;
      burstFirstOutputMs, burstLastOutputMs, lastOrdinaryFinalizedMs, lastOrdinaryOutputMs := None, None, None, None;
    }

    method ObserveOutput(nowMs: nat, lastInputMs: Option<nat>, trainable: bool)
      modifies this
      ensures State() == Observe(old(State()), nowMs, lastInputMs, trainable)
    {
      if burstFirstOutputMs.None? {
        burstTrainable := trainable;
      } else {
        burstTrainable := burstTrainable && trainable;
      }
      if lastOrdinaryFinalizedMs.Some? && lastOrdinaryOutputMs.Some? {
        var finalized, previousOutput := lastOrdinaryFinalizedMs.value, lastOrdinaryOutputMs.value;
        if && nowMs > finalized && Sub(nowMs, finalized) <= LATE_CONTINUATION_WINDOW_MS
           && (lastInputMs.None? || lastInputMs.value < finalized)
           && burstTrainable {
          var raised := Min(Sub(nowMs, previousOutput) + ADAPTIVE_DIFF_MARGIN, MAX_ADAPTIVE_DIFF_DELAY);
          if lateRaiseCheckpoint.None? {
            lateRaiseCheckpoint := Some(Learned(delayMs, learnedFloorMs));
          }
          delayMs := Max(delayMs, raised);
          learnedFloorMs := Max(learnedFloorMs, raised);
          cleanBursts := 0;
          lastOrdinaryFinalizedMs, lastOrdinaryOutputMs := None, None;
        }
      }
      if burstLastOutputMs.Some? {
        var gap := Min(Sub(nowMs, burstLastOutputMs.value), MAX_ADAPTIVE_DIFF_DELAY);
        maximumGapMs := Max(maximumGapMs, gap);
      }
      if burstFirstOutputMs.None? {
        burstFirstOutputMs := Some(nowMs);
      }
      burstLastOutputMs := Some(nowMs);
    }

    method Finish(nowMs: nat, lastOutputMs: nat, ordinary: bool)
      modifies this
      ensures State() == FinishBurst(old(State()), nowMs, lastOutputMs, ordinary)
    {
      if ordinary && burstTrainable {
        var observedTarget :=
          Clamp(maximumGapMs + ADAPTIVE_DIFF_MARGIN, MIN_ADAPTIVE_DIFF_DELAY, MAX_ADAPTIVE_DIFF_DELAY);
        learnedFloorMs := Max(learnedFloorMs, observedTarget);
        cleanBursts := cleanBursts + 1;
        if cleanBursts >= ADAPTIVE_DIFF_CLEAN_BURSTS {
          if observedTarget < learnedFloorMs {
            learnedFloorMs := Max(Sub(learnedFloorMs, 1), observedTarget);
          }
          delayMs := Max(Sub(delayMs, ADAPTIVE_DIFF_DECAY), learnedFloorMs);
          cleanBursts := 0;
        }
        lastOrdinaryFinalizedMs, lastOrdinaryOutputMs := Some(nowMs), Some(lastOutputMs);
        lateRaiseCheckpoint := None;
      } else {
        if lateRaiseCheckpoint.Some? {
          delayMs, learnedFloorMs := lateRaiseCheckpoint.value.delayMs, lateRaiseCheckpoint.value.floorMs;
          lateRaiseCheckpoint := None;
        }
        cleanBursts := 0;
        lastOrdinaryFinalizedMs, lastOrdinaryOutputMs := None, None;
      }
      maximumGapMs, burstTrainable := 0, true;
      burstFirstOutputMs, burstLastOutputMs := None, None;
    }

    method RebaseDeadline(nowMs: nat)
      modifies this
      ensures State() == Rebase(old(State()), nowMs)
    {
      burstFirstOutputMs, burstLastOutputMs := Some(nowMs), Some(nowMs);
    }

    method CancelContext()
      modifies this
      ensures State() == CancelBurst(old(State()))
    {
      if lateRaiseCheckpoint.Some? {
        delayMs, learnedFloorMs := lateRaiseCheckpoint.value.delayMs, lateRaiseCheckpoint.value.floorMs;
        lateRaiseCheckpoint := None;
      }
      maximumGapMs, cleanBursts, burstTrainable := 0, 0, true;
      burstFirstOutputMs, burstLastOutputMs := None, None;
      lastOrdinaryFinalizedMs, lastOrdinaryOutputMs := None, None;
    }

    method ResetContext()
      modifies this
      ensures State() == DEFAULT
    {
      delayMs, learnedFloorMs, maximumGapMs, cleanBursts := DIFF_DELAY, MIN_ADAPTIVE_DIFF_DELAY, 0, 0;
      burstTrainable, lateRaiseCheckpoint := true, None;
      burstFirstOutputMs, burstLastOutputMs, lastOrdinaryFinalizedMs, lastOrdinaryOutputMs := None, None, None, None;
    }
  }

  // ----- every run -----

  datatype Step =
    | Output(nowMs: nat, lastInputMs: Option<nat>, trainable: bool)
    | Rebased(nowMs: nat)
    | Finished(nowMs: nat, lastOutputMs: nat, ordinary: bool)
    | Cancelled
    | Reset

  function Take(p: Profile, step: Step): Profile {
    match step
    case Output(nowMs, lastInputMs, trainable) => Observe(p, nowMs, lastInputMs, trainable)
    case Rebased(nowMs) => Rebase(p, nowMs)
    case Finished(nowMs, lastOutputMs, ordinary) => FinishBurst(p, nowMs, lastOutputMs, ordinary)
    case Cancelled => CancelBurst(p)
    case Reset => DEFAULT
  }

  function Run(p: Profile, steps: seq<Step>): Profile {
    if steps == [] then p else Take(Run(p, steps[..|steps| - 1]), steps[|steps| - 1])
  }

  predicate InRange(l: Learned) {
    && MIN_ADAPTIVE_DIFF_DELAY <= l.delayMs <= MAX_ADAPTIVE_DIFF_DELAY
    && MIN_ADAPTIVE_DIFF_DELAY <= l.floorMs <= MAX_ADAPTIVE_DIFF_DELAY
  }

  predicate Bounded(p: Profile) {
    && InRange(p.learned)
    && (p.lateRaiseCheckpoint.Some? ==> InRange(p.lateRaiseCheckpoint.value))
    && p.maximumGapMs <= MAX_ADAPTIVE_DIFF_DELAY
    && p.cleanBursts < ADAPTIVE_DIFF_CLEAN_BURSTS
    && (p.burstFirstOutputMs.None? <==> p.burstLastOutputMs.None?)
    && (p.burstFirstOutputMs.None? ==> Idle(p))
  }

  /** Between bursts. */
  predicate Idle(p: Profile) {
    && p.burstFirstOutputMs.None? && p.burstLastOutputMs.None?
    && p.lateRaiseCheckpoint.None? && p.maximumGapMs == 0 && p.burstTrainable
  }

  /** The learned delay and floor stay between 8 and 60 ms whatever happens. */
  lemma {:induction false} LearnedDelayStaysInRange(steps: seq<Step>)
    ensures Bounded(Run(DEFAULT, steps))
  {
    if steps != [] {
      LearnedDelayStaysInRange(steps[..|steps| - 1]);
    }
  }

  // ----- rollback -----

  predicate WithinBurst(step: Step) {
    step.Output? || step.Rebased?
  }

  predicate SawNontraining(steps: seq<Step>) {
    exists i :: 0 <= i < |steps| && steps[i].Output? && !steps[i].trainable
  }

  /** During a burst the values from its start are still at hand. */
  lemma {:induction false} BurstRemembersItsStart(p: Profile, steps: seq<Step>)
    requires Idle(p) && forall i :: 0 <= i < |steps| ==> WithinBurst(steps[i])
    ensures var q := Run(p, steps);
      && (if q.lateRaiseCheckpoint.Some? then q.lateRaiseCheckpoint.value else q.learned) == p.learned
      && (q.burstTrainable <==> !SawNontraining(steps))
      && (q.burstFirstOutputMs.None? ==> !SawNontraining(steps))
  {
    if steps != [] {
      var front, last := steps[..|steps| - 1], steps[|steps| - 1];
      BurstRemembersItsStart(p, front);
      assert SawNontraining(steps) <==> SawNontraining(front) || (last.Output? && !last.trainable) by {
        if SawNontraining(front) {
          var i :| 0 <= i < |front| && front[i].Output? && !front[i].trainable;
          assert steps[i] == front[i];
        }
        if last.Output? && !last.trainable {
          assert steps[|steps| - 1] == last;
        }
        if SawNontraining(steps) && !(last.Output? && !last.trainable) {
          var i :| 0 <= i < |steps| && steps[i].Output? && !steps[i].trainable;
          assert front[i] == steps[i];
        }
      }
    }
  }

  /**
    * A burst that saw nontraining output, was cancelled, or ended other than ordinarily leaves the
    * learned delay and floor as they were when it began, provisional raises included.
    */
  lemma DiscardedBurstLeavesNoTrace(p: Profile, steps: seq<Step>, end: Step)
    requires Idle(p) && forall i :: 0 <= i < |steps| ==> WithinBurst(steps[i])
    requires end.Cancelled? || (end.Finished? && (!end.ordinary || SawNontraining(steps)))
    ensures var q := Run(p, steps + [end]);
      && q.learned == p.learned && q.cleanBursts == 0 && Idle(q)
      && forall next: Step :: next.Output? ==> Take(q, next).learned == p.learned
  {
    BurstRemembersItsStart(p, steps);
    assert (steps + [end])[..|steps|] == steps;
  }

  // ----- provisional raises -----

  /** Output that shows a commit came too early: within 100 ms of it, trainable, with no input since. */
  predicate ComesTooSoon(finalizedMs: nat, output: Step)
    requires output.Output?
  {
    && output.trainable && finalizedMs < output.nowMs <= finalizedMs + 100
    && (output.lastInputMs.Some? ==> output.lastInputMs.value < finalizedMs)
  }

  /**
    * The first output after an ordinary burst raises delay and floor to the pause it made plus 4 ms,
    * at most 60 ms, exactly when it comes too soon after the commit; otherwise it changes neither.
    */
  lemma LateContinuationRaises(p: Profile, finalizedMs: nat, lastOutputMs: nat, output: Step)
    requires p.burstTrainable && output.Output?
    ensures var committed := Take(p, Finished(finalizedMs, lastOutputMs, true));
      var raised := Take(committed, output);
      var pause := if output.nowMs >= lastOutputMs then output.nowMs - lastOutputMs else 0;
      var level := if pause + 4 <= 60 then pause + 4 else 60;
      if ComesTooSoon(finalizedMs, output) then
        && raised.learned.delayMs == Max(committed.learned.delayMs, level)
        && raised.learned.floorMs == Max(committed.learned.floorMs, level)
      else raised.learned == committed.learned
  {
  }

  /** No other output of that burst raises anything, and a discarded burst takes the raise back. */
  lemma {:induction false} LateContinuationRaisesOnce(
    p: Profile, finalizedMs: nat, lastOutputMs: nat, output: Step, steps: seq<Step>)
    requires p.burstTrainable && output.Output? && ComesTooSoon(finalizedMs, output)
    requires forall i :: 0 <= i < |steps| ==> WithinBurst(steps[i])
    ensures var committed := Take(p, Finished(finalizedMs, lastOutputMs, true));
      var raised := Take(committed, output);
      var later := Run(raised, steps);
      && later.learned == raised.learned && later.lateRaiseCheckpoint == Some(committed.learned)
      && later.cleanBursts == 0 && later.lastOrdinaryFinalizedMs.None? && later.lastOrdinaryOutputMs.None?
      && Take(later, Cancelled).learned == committed.learned
  {
    if steps != [] {
      LateContinuationRaisesOnce(p, finalizedMs, lastOutputMs, output, steps[..|steps| - 1]);
    }
  }

  /**
    * A raise that its own burst confirms is not worn down by that burst or the next one, however
    * short their pauses: it takes three clean bursts in a row before anything decays.
    */
  lemma ConfirmedRaiseLasts(
    p: Profile, finalizedMs: nat, lastOutputMs: nat, output: Step, steps: seq<Step>, end: Step, next: Burst)
    requires p.burstTrainable && output.Output? && ComesTooSoon(finalizedMs, output)
    requires forall i :: 0 <= i < |steps| ==> WithinBurst(steps[i])
    requires end.Finished?
    ensures var raised := Take(Take(p, Finished(finalizedMs, lastOutputMs, true)), output);
      var confirmed := Take(Run(raised, steps), end);
      end.ordinary && Run(raised, steps).burstTrainable && NeverLate(confirmed, next.outputs) ==>
        && raised.learned.delayMs <= confirmed.learned.delayMs && raised.learned.floorMs <= confirmed.learned.floorMs
        && var after := OrdinaryBurst(confirmed, next);
           raised.learned.delayMs <= after.learned.delayMs && raised.learned.floorMs <= after.learned.floorMs
  {
    hide ObserveAll, NeverLate, LargestGap;
    LateContinuationRaisesOnce(p, finalizedMs, lastOutputMs, output, steps);
    var raised := Take(Take(p, Finished(finalizedMs, lastOutputMs, true)), output);
    var confirmed := Take(Run(raised, steps), end);
    if end.ordinary && Run(raised, steps).burstTrainable && NeverLate(confirmed, next.outputs) {
      OrdinaryBurstTeachesItsTarget(confirmed, next);
    }
  }

  // ----- convergence -----

  datatype TimedOutput = TimedOutput(nowMs: nat, lastInputMs: Option<nat>)

  datatype Burst = Burst(outputs: seq<TimedOutput>, finishedMs: nat, lastOutputMs: nat)

  function ObserveAll(p: Profile, outputs: seq<TimedOutput>): Profile {
    if outputs == [] then p
    else
      var last := outputs[|outputs| - 1];
      Observe(ObserveAll(p, outputs[..|outputs| - 1]), last.nowMs, last.lastInputMs, true)
  }

  predicate NeverLate(p: Profile, outputs: seq<TimedOutput>) {
    outputs == [] ||
    var front, last := outputs[..|outputs| - 1], outputs[|outputs| - 1];
    NeverLate(p, front) && !RaisesLate(ObserveAll(p, front), last.nowMs, last.lastInputMs, true)
  }

  function OrdinaryBurst(p: Profile, b: Burst): Profile {
    FinishBurst(ObserveAll(p, b.outputs), b.finishedMs, b.lastOutputMs, true)
  }

  /** The largest pause between two outputs of a burst, capped at the largest delay. */
  function LargestGap(outputs: seq<TimedOutput>): nat {
    if |outputs| < 2 then 0
    else Max(LargestGap(outputs[..|outputs| - 1]),
             Min(Sub(outputs[|outputs| - 1].nowMs, outputs[|outputs| - 2].nowMs), MAX_ADAPTIVE_DIFF_DELAY))
  }

  lemma {:induction false} QuietOutputsOnlyMeasure(p: Profile, outputs: seq<TimedOutput>)
    requires Idle(p) && NeverLate(p, outputs)
    ensures var q := ObserveAll(p, outputs);
      && q.learned == p.learned && q.cleanBursts == p.cleanBursts && q.burstTrainable
      && q.lateRaiseCheckpoint.None?
      && q.maximumGapMs == LargestGap(outputs)
      && q.burstLastOutputMs == (if outputs == [] then None else Some(outputs[|outputs| - 1].nowMs))
  {
    if outputs != [] {
      QuietOutputsOnlyMeasure(p, outputs[..|outputs| - 1]);
    }
  }

  /** A burst without a late continuation teaches exactly its target. */
  lemma OrdinaryBurstTeachesItsTarget(p: Profile, b: Burst)
    requires Idle(p) && NeverLate(p, b.outputs)
    ensures var q := OrdinaryBurst(p, b);
      && q.learned == Taught(p.learned, p.cleanBursts, TargetOf(LargestGap(b.outputs)))
      && q.cleanBursts == CleanAfter(p.cleanBursts)
      && Idle(q)
  {
    QuietOutputsOnlyMeasure(p, b.outputs);
  }

  /**
    * The lesson in numbers: the floor rises at once to the largest pause plus 4 ms, within 8 to 60;
    * only every third clean burst lowers the floor, by one, and the delay, by two, and only then does
    * the delay rise to the floor.
    */
  lemma OrdinaryBurstMovesSlowly(p: Profile, b: Burst)
    requires Idle(p) && NeverLate(p, b.outputs)
    ensures var q := OrdinaryBurst(p, b);
      var pause := LargestGap(b.outputs);
      var target := if pause + 4 < 8 then 8 else if pause + 4 > 60 then 60 else pause + 4;
      if p.cleanBursts < 2 then
        && q.learned.delayMs == p.learned.delayMs && q.learned.floorMs == Max(p.learned.floorMs, target)
        && q.cleanBursts == p.cleanBursts + 1
      else
        && q.learned.floorMs == (if p.learned.floorMs > target then p.learned.floorMs - 1 else target)
        && q.learned.delayMs == (if p.learned.delayMs >= q.learned.floorMs + 2 then p.learned.delayMs - 2 else q.learned.floorMs)
        && q.cleanBursts == 0
  {
    OrdinaryBurstTeachesItsTarget(p, b);
  }

  function OrdinaryBursts(p: Profile, bursts: seq<Burst>): Profile {
    if bursts == [] then p else OrdinaryBurst(OrdinaryBursts(p, bursts[..|bursts| - 1]), bursts[|bursts| - 1])
  }

  /** Ordinary bursts with the same target and no late continuation. */
  predicate Steady(p: Profile, bursts: seq<Burst>, target: nat) {
    bursts == [] ||
    var front, last := bursts[..|bursts| - 1], bursts[|bursts| - 1];
    && Steady(p, front, target)
    && NeverLate(OrdinaryBursts(p, front), last.outputs)
    && TargetOf(LargestGap(last.outputs)) == target
  }

  lemma {:induction false} SteadyProgress(p: Profile, bursts: seq<Burst>, target: nat)
    requires Bounded(p) && Idle(p) && Steady(p, bursts, target)
    ensures var q := OrdinaryBursts(p, bursts);
      var decays := (|bursts| + p.cleanBursts) / 3;
      && Idle(q) && q.cleanBursts == (|bursts| + p.cleanBursts) % 3
      && (bursts != [] ==> target <= q.learned.floorMs)
      && q.learned.floorMs <= Max(target, MAX_ADAPTIVE_DIFF_DELAY - decays)
      && (decays > 0 ==> target <= q.learned.delayMs)
      && q.learned.delayMs <= Max(target, MAX_ADAPTIVE_DIFF_DELAY - decays)
  {
    hide OrdinaryBurst, NeverLate, LargestGap, TargetOf, Clamp;
    if bursts != [] {
      var front, last := bursts[..|bursts| - 1], bursts[|bursts| - 1];
      SteadyProgress(p, front, target);
      OrdinaryBurstTeachesItsTarget(OrdinaryBursts(p, front), last);
    }
  }

  /** From any reachable state the delay and the floor reach a steady target within 156 bursts, and stay. */
  lemma SteadyTargetIsReached(p: Profile, bursts: seq<Burst>, target: nat)
    requires Bounded(p) && Idle(p) && Steady(p, bursts, target)
    requires |bursts| >= 156
    ensures OrdinaryBursts(p, bursts).learned == Learned(target, target)
  {
    SteadyProgress(p, bursts, target);
    var last := bursts[|bursts| - 1];
    assert MIN_ADAPTIVE_DIFF_DELAY <= TargetOf(LargestGap(last.outputs)) == target;
  }

  /** From the highest values the lowest target takes all 156 bursts. */
  lemma {:induction false} DescentIsSlow(p: Profile, bursts: seq<Burst>)
    requires Idle(p) && p.cleanBursts == 0
    requires p.learned == Learned(MAX_ADAPTIVE_DIFF_DELAY, MAX_ADAPTIVE_DIFF_DELAY)
    requires Steady(p, bursts, MIN_ADAPTIVE_DIFF_DELAY) && |bursts| <= 156
    ensures var q := OrdinaryBursts(p, bursts);
      && Idle(q) && q.cleanBursts == |bursts| % 3
      && q.learned == Learned(MAX_ADAPTIVE_DIFF_DELAY - |bursts| / 3, MAX_ADAPTIVE_DIFF_DELAY - |bursts| / 3)
  {
    if bursts != [] {
      var front, last := bursts[..|bursts| - 1], bursts[|bursts| - 1];
      DescentIsSlow(p, front);
      OrdinaryBurstTeachesItsTarget(OrdinaryBursts(p, front), last);
    }
  }

  // ----- the decision that uses the delay -----

  datatype UpdateStatus = UpdateStatus(
    promptTransactionOpen: bool,
    structuralSemanticInputRepaint: bool,
    explicitlyStable: bool,
    completesLinearOutputRecord: bool,
    parserContinuation: bool,
    adaptiveQuietTrainable: bool)

  datatype BurstView = BurstView(firstOutputMs: nat, lastOutputMs: nat, delayMs: nat)

  datatype CommitReason = ExplicitlyStable | LinearOutputRecord | QuietWindow | HardDeadline

  datatype Decision = BlockedByApplicationTransaction | WaitUntil(deadlineMs: nat) | Commit(reason: CommitReason)

  function CurrentBurst(p: Profile): Option<BurstView> {
    match p.burstLastOutputMs
    case None => None
    case Some(last) =>
      Some(BurstView(if p.burstFirstOutputMs.Some? then p.burstFirstOutputMs.value else last, last,
                     if p.burstTrainable then p.learned.delayMs else Max(p.learned.delayMs, DIFF_DELAY)))
  }

  function Decide(nowMs: nat, burst: BurstView, update: UpdateStatus, transactionOpen: bool): Decision {
    var hardDeadline := burst.firstOutputMs + MAX_DIFF_DELAY;
    var repaintDeadline := Min(burst.firstOutputMs + SEMANTIC_INPUT_REPAINT_SETTLE_MS, hardDeadline);
    var quietDeadline := burst.lastOutputMs + burst.delayMs;
    if transactionOpen then BlockedByApplicationTransaction
    else if update.promptTransactionOpen && nowMs < hardDeadline then WaitUntil(hardDeadline)
    else if update.structuralSemanticInputRepaint && nowMs < repaintDeadline then WaitUntil(repaintDeadline)
    else if update.explicitlyStable then Commit(ExplicitlyStable)
    else if update.completesLinearOutputRecord then Commit(LinearOutputRecord)
    else if update.parserContinuation then
      if nowMs >= hardDeadline then Commit(HardDeadline) else WaitUntil(hardDeadline)
    else if nowMs >= quietDeadline then Commit(QuietWindow)
    else if nowMs >= hardDeadline then Commit(HardDeadline)
    else WaitUntil(Min(quietDeadline, hardDeadline))
  }

  predicate TrainsAdaptiveQuiet(reason: CommitReason, update: UpdateStatus) {
    reason.QuietWindow? && update.adaptiveQuietTrainable && !update.promptTransactionOpen
  }

  /** Waiting is always for a later moment no later than the hard deadline, and ends in a commit. */
  lemma WaitingEndsByTheHardDeadline(nowMs: nat, burst: BurstView, update: UpdateStatus)
    ensures match Decide(nowMs, burst, update, false)
            case WaitUntil(deadline) => nowMs < deadline <= burst.firstOutputMs + MAX_DIFF_DELAY
            case BlockedByApplicationTransaction => false
            case Commit(_) => true
    ensures nowMs >= burst.firstOutputMs + MAX_DIFF_DELAY ==> Decide(nowMs, burst, update, false).Commit?
  {
  }

  /** One wait is followed by at most one more before the commit, if nothing new arrives. */
  lemma AtMostTwoWaits(nowMs: nat, burst: BurstView, update: UpdateStatus)
    ensures var first := Decide(nowMs, burst, update, false);
      first.WaitUntil? ==>
        var second := Decide(first.deadlineMs, burst, update, false);
        second.WaitUntil? ==>
          first.deadlineMs == burst.firstOutputMs + SEMANTIC_INPUT_REPAINT_SETTLE_MS
          && Decide(second.deadlineMs, burst, update, false).Commit?
  {
  }

  /** The moment from which a burst may be reported, if nothing else arrives. */
  function CommitTime(burst: BurstView, update: UpdateStatus): nat {
    var last := burst.firstOutputMs + MAX_DIFF_DELAY;
    var ready := if update.explicitlyStable || update.completesLinearOutputRecord then 0
                 else if update.parserContinuation then last
                 else Min(burst.lastOutputMs + burst.delayMs, last);
    Max(ready, if update.promptTransactionOpen then last
               else if update.structuralSemanticInputRepaint then burst.firstOutputMs + SEMANTIC_INPUT_REPAINT_SETTLE_MS
               else 0)
  }

  /**
    * A burst is reported from exactly one moment on: an open prompt holds it for 300 ms after its
    * first output, a repaint of the input line for 120 ms, a split sequence for 300 ms, and plain
    * output until it has been quiet for the learned delay, at most 300 ms. No wait overshoots it.
    */
  lemma CommitsFromOneMomentOn(nowMs: nat, burst: BurstView, update: UpdateStatus)
    ensures var decision := Decide(nowMs, burst, update, false);
      && (decision.Commit? <==> nowMs >= CommitTime(burst, update))
      && (decision.WaitUntil? ==> decision.deadlineMs <= CommitTime(burst, update))
      && Decide(nowMs, burst, update, true).BlockedByApplicationTransaction?
  {
  }

  /** The reason given for a commit is true. */
  lemma CommitReasonsAreTrue(nowMs: nat, burst: BurstView, update: UpdateStatus)
    ensures match Decide(nowMs, burst, update, false)
            case Commit(ExplicitlyStable) => update.explicitlyStable
            case Commit(LinearOutputRecord) => update.completesLinearOutputRecord && !update.explicitlyStable
            case Commit(QuietWindow) =>
              && nowMs >= burst.lastOutputMs + burst.delayMs && !update.parserContinuation
              && !update.explicitlyStable && !update.completesLinearOutputRecord
            case Commit(HardDeadline) =>
              && nowMs >= burst.firstOutputMs + MAX_DIFF_DELAY
              && (update.parserContinuation || nowMs < burst.lastOutputMs + burst.delayMs)
              && !update.explicitlyStable && !update.completesLinearOutputRecord
            case _ => true
  {
  }

  /** Exactly the commits of quiet trainable output that nothing else made stable teach the delay. */
  lemma QuietCommitsTrain(nowMs: nat, burst: BurstView, update: UpdateStatus)
    requires Decide(nowMs, burst, update, false).Commit?
    ensures TrainsAdaptiveQuiet(Decide(nowMs, burst, update, false).reason, update) <==>
            && nowMs >= burst.lastOutputMs + burst.delayMs && update.adaptiveQuietTrainable
            && !update.promptTransactionOpen && !update.explicitlyStable && !update.completesLinearOutputRecord
            && !update.parserContinuation
  {
  }

  /** A trainable burst waits for the learned delay, another one for 30 ms at least; rebasing restarts both clocks. */
  lemma BurstWaitsTheLearnedDelay(p: Profile, nowMs: nat)
    ensures var rebased := CurrentBurst(Take(p, Rebased(nowMs)));
      && rebased.Some? && rebased.value.firstOutputMs == rebased.value.lastOutputMs == nowMs
      && rebased.value.delayMs == if p.burstTrainable then p.learned.delayMs else Max(p.learned.delayMs, 30)
    ensures p.burstLastOutputMs.Some? && p.burstFirstOutputMs.Some? ==>
              CurrentBurst(p) == Some(BurstView(p.burstFirstOutputMs.value, p.burstLastOutputMs.value,
                                                if p.burstTrainable then p.learned.delayMs else Max(p.learned.delayMs, 30)))
  {
  }

  /** The clock of a burst: its first output stays, its last output follows. */
  lemma {:induction false} OutputsAreTimed(p: Profile, outputs: seq<TimedOutput>)
    requires Idle(p) && outputs != []
    ensures var q := ObserveAll(p, outputs);
      q.burstFirstOutputMs == Some(outputs[0].nowMs) && q.burstLastOutputMs == Some(outputs[|outputs| - 1].nowMs)
  {
    if |outputs| > 1 {
      OutputsAreTimed(p, outputs[..|outputs| - 1]);
    } else {
      assert outputs[..|outputs| - 1] == [];
    }
  }

  /** The quiet window is never shorter than 8 ms, nor than 30 ms once a burst has seen nontraining output. */
  lemma QuietCommitRespectsTheWindow(steps: seq<Step>, nowMs: nat, update: UpdateStatus)
    requires var p := Run(DEFAULT, steps);
      CurrentBurst(p).Some? && Decide(nowMs, CurrentBurst(p).value, update, false) == Commit(QuietWindow)
    ensures var p := Run(DEFAULT, steps);
      && p.burstLastOutputMs.Some?
      && nowMs >= p.burstLastOutputMs.value + MIN_ADAPTIVE_DIFF_DELAY
      && (!p.burstTrainable ==> nowMs >= p.burstLastOutputMs.value + DIFF_DELAY)
  {
    LearnedDelayStaysInRange(steps);
  }

  /** Without prompts, repaints or split sequences, output is reported within 60 ms of quiet. */
  lemma QuietOutputIsReportedPromptly(steps: seq<Step>, nowMs: nat, update: UpdateStatus)
    requires CurrentBurst(Run(DEFAULT, steps)).Some?
    requires !update.promptTransactionOpen && !update.structuralSemanticInputRepaint && !update.parserContinuation
    requires nowMs >= CurrentBurst(Run(DEFAULT, steps)).value.lastOutputMs + MAX_ADAPTIVE_DIFF_DELAY
    ensures Decide(nowMs, CurrentBurst(Run(DEFAULT, steps)).value, update, false).Commit?
  {
    LearnedDelayStaysInRange(steps);
  }
}
