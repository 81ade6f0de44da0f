/** What every run of the plan executor keeps, whatever the world does. */
module ExecutorRuns {
  import opened Prelude
  import opened Executor

  /// What a step may do, by its policy

  /** One attempt for any step; a second and a third only live, for an idempotent step that asks nobody. */
  predicate Allowed(dryRun: bool, policy: StepPolicy, attempt: nat) {
    1 <= attempt <= 3 && (attempt == 1 || (!dryRun && !policy.interactive && policy.retry == Idempotent))
  }

  /** Never dispatched: unsafe in a dry run, or live and its cluster answers already. */
  predicate LeftOut(kinds: Kinds, dryRun: bool, world: World, j: nat, step: PlannedStep) {
    || (dryRun && !kinds.dryRunSafe(step.tag))
    || (!dryRun && match step.policy.skipIfClusterReachable
                   case Some(context) => world.reachable(j, context)
                   case None => false)
  }

  lemma PolicyDecides(kinds: Kinds, dryRun: bool, world: World, j: nat, step: PlannedStep)
    ensures LeftOut(kinds, dryRun, world, j, step) <==> Skipped(kinds, dryRun, world, j, step)
    ensures forall a: nat :: Allowed(dryRun, step.policy, a) <==> 1 <= a <= (if dryRun then 1 else Attempts(step))
  {}

  /// The shape of a run

  /** How each step of the plan goes when it is run. */
  function StepRuns(kinds: Kinds, dryRun: bool, world: World, steps: seq<PlannedStep>): nat -> seq<bool> {
    (j: nat) => if j < |steps| then StepRun(kinds, dryRun, world, j, steps[j]) else []
  }

  /** The steps run from `i` on are the plan's, none after a failure or a stop. */
  predicate Shaped(r: nat -> seq<bool>, n: nat, stopAfter: Option<nat>, i: nat, run: Run) {
    && i + |run.steps| <= n
    && (forall j | i <= j < i + |run.steps| :: run.steps[j - i] == r(j))
    && (forall j | i <= j < i + |run.steps| - 1 :: StepOk(r(j)) && stopAfter != Some(j))
    && Ends(r, n, stopAfter, i, i + |run.steps|, run.ok)
  }

  /** Why it ended before `end`: a failure, the plan's end, or the stop asked for. */
  predicate Ends(r: nat -> seq<bool>, n: nat, stopAfter: Option<nat>, i: nat, end: nat, ok: bool) {
    if ok then (i < end ==> StepOk(r(end - 1))) && (end == n || (i < end && stopAfter == Some(end - 1)))
    else i < end && !StepOk(r(end - 1))
  }

  lemma RunUnfolds(
    kinds: Kinds, dryRun: bool, world: World, steps: seq<PlannedStep>, stopAfter: Option<nat>, i: nat)
    requires i < |steps|
    ensures var r, rest := StepRuns(kinds, dryRun, world, steps)(i), RunFrom(kinds, dryRun, world, steps, stopAfter, i + 1);
            RunFrom(kinds, dryRun, world, steps, stopAfter, i) ==
            if StepOk(r) && stopAfter != Some(i) then Run([r] + rest.steps, rest.ok) else Run([r], StepOk(r))
  {}

  lemma {:induction false} RunIsShaped(
    kinds: Kinds, dryRun: bool, world: World, steps: seq<PlannedStep>, stopAfter: Option<nat>, i: nat)
    requires i <= |steps|
    ensures Shaped(StepRuns(kinds, dryRun, world, steps), |steps|, stopAfter, i,
              RunFrom(kinds, dryRun, world, steps, stopAfter, i))
    decreases |steps| - i
  {
    var r, run := StepRuns(kinds, dryRun, world, steps), RunFrom(kinds, dryRun, world, steps, stopAfter, i);
    if i == |steps| {
      ShapedAtTheEnd(r, |steps|, stopAfter);
    } else {
      RunIsShaped(kinds, dryRun, world, steps, stopAfter, i + 1);
      RunUnfolds(kinds, dryRun, world, steps, stopAfter, i);
      ShapedBefore(r, |steps|, stopAfter, i, run, RunFrom(kinds, dryRun, world, steps, stopAfter, i + 1));
    }
  }

  lemma ShapedAtTheEnd(r: nat -> seq<bool>, n: nat, stopAfter: Option<nat>)
    ensures Shaped(r, n, stopAfter, n, Run([], true))
  {}

  lemma ShapedBefore(r: nat -> seq<bool>, n: nat, stopAfter: Option<nat>, i: nat, run: Run, rest: Run)
    requires i < n && Shaped(r, n, stopAfter, i + 1, rest)
    requires run == if StepOk(r(i)) && stopAfter != Some(i) then Run([r(i)] + rest.steps, rest.ok) else Run([r(i)], StepOk(r(i)))
    ensures Shaped(r, n, stopAfter, i, run)
  {
    ShapedStep(r, n, stopAfter, i, rest);
  }

  lemma ShapedStep(r: nat -> seq<bool>, n: nat, stopAfter: Option<nat>, i: nat, rest: Run)
    requires i < n && Shaped(r, n, stopAfter, i + 1, rest)
    ensures Shaped(r, n, stopAfter, i,
              if StepOk(r(i)) && stopAfter != Some(i) then Run([r(i)] + rest.steps, rest.ok) else Run([r(i)], StepOk(r(i))))
  {
    if !StepOk(r(i)) || stopAfter == Some(i) {
      ShapedLast(r, n, stopAfter, i);
    }
  }

  lemma ShapedLast(r: nat -> seq<bool>, n: nat, stopAfter: Option<nat>, i: nat)
    requires i < n && (!StepOk(r(i)) || stopAfter == Some(i))
    ensures Shaped(r, n, stopAfter, i, Run([r(i)], StepOk(r(i))))
  {}

  /// The log of a run

  predicate Earlier(a: Dispatch, b: Dispatch) {
    a.step < b.step || (a.step == b.step && a.attempt < b.attempt)
  }

  predicate InOrder(log: seq<Dispatch>) {
    forall a, b | 0 <= a < b < |log| :: Earlier(log[a], log[b])
  }

  predicate Recorded(i: nat, runs: seq<seq<bool>>, d: Dispatch) {
    && i <= d.step < i + |runs|
    && 1 <= d.attempt <= |runs[d.step - i]|
    && d.ok == runs[d.step - i][d.attempt - 1]
  }

  lemma DispatchesMean(i: nat, run: seq<bool>, d: Dispatch)
    ensures d in Dispatches(i, run) <==> d.step == i && 1 <= d.attempt <= |run| && d.ok == run[d.attempt - 1]
    ensures InOrder(Dispatches(i, run))
  {
    if d.step == i && 1 <= d.attempt <= |run| && d.ok == run[d.attempt - 1] {
      assert Dispatches(i, run)[d.attempt - 1] == d;
    }
  }

  lemma {:induction false} LogMeans(i: nat, runs: seq<seq<bool>>, d: Dispatch)
    ensures d in LogOf(i, runs) <==> Recorded(i, runs, d)
    decreases |runs|
  {
    if runs != [] {
      DispatchesMean(i, runs[0], d);
      LogMeans(i + 1, runs[1..], d);
    }
  }

  lemma {:induction false} LogIsInOrder(i: nat, runs: seq<seq<bool>>)
    ensures InOrder(LogOf(i, runs))
    decreases |runs|
  {
    if runs != [] {
      var first, rest := Dispatches(i, runs[0]), LogOf(i + 1, runs[1..]);
      LogIsInOrder(i + 1, runs[1..]);
      DispatchesMean(i, runs[0], Dispatch(0, 0, false));
      forall a, b | 0 <= a < |first| && 0 <= b < |rest| ensures Earlier(first[a], rest[b]) {
        assert rest[b] in rest;
        LogMeans(i + 1, runs[1..], rest[b]);
      }
    }
  }

  /// What a command dispatches

  /** The run behind a command that got as far as its steps. */
  function RunBehind(
    kinds: Kinds, dryRun: bool, world: World, plan: seq<PlannedStep>, upTo: Option<string>): Run
  {
    match ResolveStopAfter(plan, upTo)
    case Ok(stopAfter) => RunFrom(kinds, dryRun, world, plan, stopAfter, 0)
    case Err(_) => Run([], false)
  }

  /** Step `j` of the run is the plan's step `j`; it went well unless it is the last. */
  lemma StepOfRun(
    kinds: Kinds, dryRun: bool, world: World, plan: seq<PlannedStep>, upTo: Option<string>, j: nat)
    requires ResolveStopAfter(plan, upTo).Ok? && j < |RunBehind(kinds, dryRun, world, plan, upTo).steps|
    ensures j < |plan|
    ensures var run := RunBehind(kinds, dryRun, world, plan, upTo);
            && run.steps[j] == StepRun(kinds, dryRun, world, j, plan[j])
            && (j < |run.steps| - 1 ==> StepOk(run.steps[j]))
            && (run.ok ==> StepOk(run.steps[j]))
  {
    var run := RunBehind(kinds, dryRun, world, plan, upTo);
    var r := StepRuns(kinds, dryRun, world, plan);
    RunIsShaped(kinds, dryRun, world, plan, ResolveStopAfter(plan, upTo).value, 0);
    assert run.steps[j - 0] == r(j);
  }

  /** Nothing is dispatched when any step is for the other direction. */
  lemma WrongDirectionDispatchesNothing(
    kinds: Kinds, dryRun: bool, world: World, plan: seq<PlannedStep>, direction: Direction, upTo: Option<string>, i: nat)
    requires i < |plan| && !kinds.runsIn(plan[i].tag, direction)
    ensures ExecuteSpec(kinds, dryRun, world, plan, direction, upTo) == Outcome([], false, false)
  {}

  /** A dispatch, the attempt allowed by its step and the mode, and what came before it. */
  predicate Permitted(kinds: Kinds, dryRun: bool, plan: seq<PlannedStep>, log: seq<Dispatch>, d: Dispatch) {
    && d.step < |plan|
    && Allowed(dryRun, plan[d.step].policy, d.attempt)
    && (dryRun ==> kinds.dryRunSafe(plan[d.step].tag))
    && (d.attempt > 1 ==> Dispatch(d.step, d.attempt - 1, false) in log)
  }

  /**
    One-shot, destructive and interactive steps are dispatched at most once,
    others at most three times and again only after failing; a dry run
    dispatches only what is safe, once.
   */
  lemma EveryDispatchIsPermitted(
    kinds: Kinds, dryRun: bool, world: World, plan: seq<PlannedStep>, direction: Direction, upTo: Option<string>,
    d: Dispatch)
    requires d in ExecuteSpec(kinds, dryRun, world, plan, direction, upTo).log
    ensures Permitted(kinds, dryRun, plan, ExecuteSpec(kinds, dryRun, world, plan, direction, upTo).log, d)
  {
    var o := ExecuteSpec(kinds, dryRun, world, plan, direction, upTo);
    var run := RunBehind(kinds, dryRun, world, plan, upTo);
    LogMeans(0, run.steps, d);
    StepOfRun(kinds, dryRun, world, plan, upTo, d.step);
    PolicyDecides(kinds, dryRun, world, d.step, plan[d.step]);
    if d.attempt > 1 {
      LogMeans(0, run.steps, Dispatch(d.step, d.attempt - 1, false));
    }
  }

  /**
    The steps dispatched are a prefix of the plan, in its order: before a
    dispatched step, every step was dispatched to success or skipped.
   */
  lemma DispatchesArePrefix(
    kinds: Kinds, dryRun: bool, world: World, plan: seq<PlannedStep>, direction: Direction, upTo: Option<string>,
    d: Dispatch, j: nat)
    requires d in ExecuteSpec(kinds, dryRun, world, plan, direction, upTo).log && j < d.step
    ensures j < |plan|
    ensures LeftOut(kinds, dryRun, world, j, plan[j])
            || exists a :: Dispatch(j, a, true) in ExecuteSpec(kinds, dryRun, world, plan, direction, upTo).log
  {
    var run := RunBehind(kinds, dryRun, world, plan, upTo);
    LogMeans(0, run.steps, d);
    StepOfRun(kinds, dryRun, world, plan, upTo, j);
    PolicyDecides(kinds, dryRun, world, j, plan[j]);
    if run.steps[j] != [] {
      LogMeans(0, run.steps, Dispatch(j, |run.steps[j]|, true));
    }
  }

  lemma LogInOrder(
    kinds: Kinds, dryRun: bool, world: World, plan: seq<PlannedStep>, direction: Direction, upTo: Option<string>)
    ensures InOrder(ExecuteSpec(kinds, dryRun, world, plan, direction, upTo).log)
  {
    LogIsInOrder(0, RunBehind(kinds, dryRun, world, plan, upTo).steps);
  }

  /** A step whose last attempt failed is the last dispatched, and the command fails. */
  lemma FailureIsLast(
    kinds: Kinds, dryRun: bool, world: World, plan: seq<PlannedStep>, direction: Direction, upTo: Option<string>,
    d: Dispatch, e: Dispatch)
    requires var log := ExecuteSpec(kinds, dryRun, world, plan, direction, upTo).log;
             d in log && e in log && !d.ok && d.step < |plan|
             && !Allowed(dryRun, plan[d.step].policy, d.attempt + 1)
    ensures e.step <= d.step && !ExecuteSpec(kinds, dryRun, world, plan, direction, upTo).ok
  {
    var run := RunBehind(kinds, dryRun, world, plan, upTo);
    LogMeans(0, run.steps, d);
    LogMeans(0, run.steps, e);
    StepOfRun(kinds, dryRun, world, plan, upTo, d.step);
    PolicyDecides(kinds, dryRun, world, d.step, plan[d.step]);
    assert !StepOk(run.steps[d.step]);
  }

  /** Every step up to where the command was to stop, each to success or skipped. */
  predicate ReachesTheStop(plan: seq<PlannedStep>, upTo: Option<string>, run: Run) {
    && run.steps != [] && |run.steps| <= |plan|
    && (forall j | 0 <= j < |run.steps| :: StepOk(run.steps[j]))
    && (upTo.None? ==> |run.steps| == |plan|)
    && (upTo.Some? ==> plan[|run.steps| - 1].tag == upTo.value
                       && forall j | |run.steps| <= j < |plan| :: plan[j].tag != upTo.value)
  }

  lemma StopIsReached(
    r: nat -> seq<bool>, plan: seq<PlannedStep>, upTo: Option<string>, run: Run)
    requires plan != [] && ResolveStopAfter(plan, upTo).Ok? && run.ok
    requires Shaped(r, |plan|, ResolveStopAfter(plan, upTo).value, 0, run)
    ensures ReachesTheStop(plan, upTo, run)
  {
    forall j | 0 <= j < |run.steps| ensures StepOk(run.steps[j]) {
      assert run.steps[j - 0] == r(j);
    }
  }

  /**
    A successful command ran the plan up to where it was to stop: the last step
    of the kind given, or the end of the plan.
   */
  lemma SuccessReachesTheStop(
    kinds: Kinds, dryRun: bool, world: World, plan: seq<PlannedStep>, direction: Direction, upTo: Option<string>)
    requires plan != [] && ExecuteSpec(kinds, dryRun, world, plan, direction, upTo).ok
    ensures ReachesTheStop(plan, upTo, RunBehind(kinds, dryRun, world, plan, upTo))
  {
    RunIsShaped(kinds, dryRun, world, plan, ResolveStopAfter(plan, upTo).value, 0);
    StopIsReached(StepRuns(kinds, dryRun, world, plan), plan, upTo, RunBehind(kinds, dryRun, world, plan, upTo));
  }

  /// When the steps go well

  /** Some attempt the step is allowed succeeds, if it is dispatched at all. */
  predicate StepSucceeds(kinds: Kinds, dryRun: bool, world: World, j: nat, step: PlannedStep) {
    || LeftOut(kinds, dryRun, world, j, step)
    || exists a | 1 <= a <= 3 :: Allowed(dryRun, step.policy, a) && world.succeeds(j, a)
  }

  /** How many steps there are up to the last of the kind asked for; all of them when none is asked for. */
  function StepsUpTo(plan: seq<PlannedStep>, upTo: Option<string>): nat {
    if upTo.Some? && LastOf(plan, upTo.value).Some? then LastOf(plan, upTo.value).value + 1 else |plan|
  }

  lemma {:induction false} TriesSucceed(succeeds: nat -> bool, attempt: nat, left: nat)
    requires left > 0
    ensures StepOk(Tries(succeeds, attempt, left)) <==> exists a :: attempt <= a < attempt + left && succeeds(a)
    decreases left
  {
    var tries := Tries(succeeds, attempt, left);
    if tries[|tries| - 1] {
      assert succeeds(attempt + (|tries| - 1));
    } else {
      forall a | attempt <= a < attempt + left ensures !succeeds(a) {
        assert tries[a - attempt] == succeeds(a);
      }
    }
  }

  lemma StepSucceedsMeans(kinds: Kinds, dryRun: bool, world: World, j: nat, step: PlannedStep)
    ensures StepOk(StepRun(kinds, dryRun, world, j, step)) <==> StepSucceeds(kinds, dryRun, world, j, step)
  {
    PolicyDecides(kinds, dryRun, world, j, step);
    if !Skipped(kinds, dryRun, world, j, step) {
      TriesSucceed((a: nat) => world.succeeds(j, a), 1, if dryRun then 1 else Attempts(step));
    }
  }

  lemma RunOkMeans(r: nat -> seq<bool>, n: nat, stopAfter: Option<nat>, run: Run, end: nat)
    requires Shaped(r, n, stopAfter, 0, run)
    requires end == (if stopAfter.Some? then stopAfter.value + 1 else n) && end <= n
    ensures run.ok <==> forall j | 0 <= j < end :: StepOk(r(j))
    ensures |run.steps| <= end
  {
    if run.ok && run.steps != [] {
      assert StepOk(r(|run.steps| - 1));
    }
  }

  /** The steps go well exactly when each one up to the stop does. */
  lemma RunSucceedsExactly(
    kinds: Kinds, dryRun: bool, world: World, plan: seq<PlannedStep>, upTo: Option<string>)
    requires ResolveStopAfter(plan, upTo).Ok?
    ensures StepsUpTo(plan, upTo) <= |plan|
    ensures RunBehind(kinds, dryRun, world, plan, upTo).ok <==>
            forall j | 0 <= j < StepsUpTo(plan, upTo) :: StepSucceeds(kinds, dryRun, world, j, plan[j])
    ensures |RunBehind(kinds, dryRun, world, plan, upTo).steps| <= StepsUpTo(plan, upTo)
  {
    var r, stopAfter := StepRuns(kinds, dryRun, world, plan), ResolveStopAfter(plan, upTo).value;
    RunIsShaped(kinds, dryRun, world, plan, stopAfter, 0);
    RunOkMeans(r, |plan|, stopAfter, RunBehind(kinds, dryRun, world, plan, upTo), StepsUpTo(plan, upTo));
    forall j: nat | j < StepsUpTo(plan, upTo)
      ensures StepOk(r(j)) <==> StepSucceeds(kinds, dryRun, world, j, plan[j])
    {
      StepSucceedsMeans(kinds, dryRun, world, j, plan[j]);
    }
  }

  /// Exactly what is dispatched

  /** What a command needs before it comes to its steps. */
  predicate ComesToItsSteps(kinds: Kinds, world: World, plan: seq<PlannedStep>, direction: Direction, upTo: Option<string>) {
    && RunsThisWay(kinds, plan, direction) && plan != [] && ResolveStopAfter(plan, upTo).Ok?
    && world.storesLoad && (direction == Deploy ==> world.packageBuilds)
  }

  /** The attempt is among those its step is allowed, and the ones before it failed. */
  predicate IsTried(kinds: Kinds, dryRun: bool, world: World, j: nat, step: PlannedStep, attempt: nat) {
    && !LeftOut(kinds, dryRun, world, j, step)
    && Allowed(dryRun, step.policy, attempt)
    && forall a | 1 <= a < attempt :: !world.succeeds(j, a)
  }

  lemma TriesMean(succeeds: nat -> bool, left: nat, attempt: nat)
    requires attempt > 0
    ensures attempt <= |Tries(succeeds, 1, left)| <==> attempt <= left && forall a | 1 <= a < attempt :: !succeeds(a)
  {
    var tries := Tries(succeeds, 1, left);
    if attempt <= |tries| {
      forall a: nat | 1 <= a < attempt ensures !succeeds(a) {
        assert tries[a - 1] == succeeds(1 + (a - 1));
      }
    } else if 0 < |tries| < left {
      assert tries[|tries| - 1] == succeeds(|tries|);
    }
  }

  lemma StepTries(kinds: Kinds, dryRun: bool, world: World, j: nat, step: PlannedStep, attempt: nat)
    requires attempt > 0
    ensures var run := StepRun(kinds, dryRun, world, j, step);
            && (attempt <= |run| <==> IsTried(kinds, dryRun, world, j, step, attempt))
            && (attempt <= |run| ==> run[attempt - 1] == world.succeeds(j, attempt))
  {
    PolicyDecides(kinds, dryRun, world, j, step);
    if !Skipped(kinds, dryRun, world, j, step) {
      TriesMean((a: nat) => world.succeeds(j, a), if dryRun then 1 else Attempts(step), attempt);
    }
  }

  /** A step is reached when it is not past the stop and those before it went well. */
  lemma ReachedMeans(r: nat -> seq<bool>, n: nat, stopAfter: Option<nat>, run: Run, end: nat, j: nat)
    requires Shaped(r, n, stopAfter, 0, run)
    requires end == (if stopAfter.Some? then stopAfter.value + 1 else n) && end <= n
    ensures j < |run.steps| <==> j < end && forall i: nat | i < j :: StepOk(r(i))
  {
    RunOkMeans(r, n, stopAfter, run, end);
    if |run.steps| <= j < end && !run.ok {
      assert !StepOk(r(|run.steps| - 1));
    }
  }

  lemma StepReached(
    kinds: Kinds, dryRun: bool, world: World, plan: seq<PlannedStep>, upTo: Option<string>, j: nat)
    requires ResolveStopAfter(plan, upTo).Ok?
    ensures StepsUpTo(plan, upTo) <= |plan|
    ensures j < |RunBehind(kinds, dryRun, world, plan, upTo).steps| <==>
            j < StepsUpTo(plan, upTo) && forall i | 0 <= i < j :: StepSucceeds(kinds, dryRun, world, i, plan[i])
  {
    var r, stopAfter := StepRuns(kinds, dryRun, world, plan), ResolveStopAfter(plan, upTo).value;
    RunIsShaped(kinds, dryRun, world, plan, stopAfter, 0);
    ReachedMeans(r, |plan|, stopAfter, RunBehind(kinds, dryRun, world, plan, upTo), StepsUpTo(plan, upTo), j);
    forall i: nat | i < |plan| ensures StepOk(r(i)) <==> StepSucceeds(kinds, dryRun, world, i, plan[i]) {
      StepSucceedsMeans(kinds, dryRun, world, i, plan[i]);
    }
  }

  /** The step is not past the stop, and every step before it went well. */
  predicate IsReached(kinds: Kinds, dryRun: bool, world: World, plan: seq<PlannedStep>, upTo: Option<string>, j: nat) {
    && j < StepsUpTo(plan, upTo) && j < |plan|
    && forall i | 0 <= i < j :: StepSucceeds(kinds, dryRun, world, i, plan[i])
  }

  /** An attempt is dispatched exactly when the command comes to its steps, the step is reached, and the attempt is tried. */
  lemma DispatchedExactly(
    kinds: Kinds, dryRun: bool, world: World, plan: seq<PlannedStep>, direction: Direction, upTo: Option<string>,
    d: Dispatch)
    ensures d in ExecuteSpec(kinds, dryRun, world, plan, direction, upTo).log <==>
            && ComesToItsSteps(kinds, world, plan, direction, upTo)
            && IsReached(kinds, dryRun, world, plan, upTo, d.step)
            && IsTried(kinds, dryRun, world, d.step, plan[d.step], d.attempt)
            && d.ok == world.succeeds(d.step, d.attempt)
  {
    if !RunsThisWay(kinds, plan, direction) {
      var i :| 0 <= i < |plan| && !kinds.runsIn(plan[i].tag, direction);
      WrongDirectionDispatchesNothing(kinds, dryRun, world, plan, direction, upTo, i);
    } else if ComesToItsSteps(kinds, world, plan, direction, upTo) {
      var run := RunBehind(kinds, dryRun, world, plan, upTo);
      LogMeans(0, run.steps, d);
      StepReached(kinds, dryRun, world, plan, upTo, d.step);
      if d.step < |run.steps| && d.attempt > 0 {
        StepOfRun(kinds, dryRun, world, plan, upTo, d.step);
        StepTries(kinds, dryRun, world, d.step, plan[d.step], d.attempt);
      }
    }
  }

  /** An idempotent step that asks nobody is tried again, live, after each failure: twice at most. */
  lemma IdempotentStepsAreRetried(
    kinds: Kinds, world: World, plan: seq<PlannedStep>, direction: Direction, upTo: Option<string>, j: nat)
    requires ComesToItsSteps(kinds, world, plan, direction, upTo) && IsReached(kinds, false, world, plan, upTo, j)
    requires !LeftOut(kinds, false, world, j, plan[j])
    requires plan[j].policy.retry == Idempotent && !plan[j].policy.interactive
    ensures var log := ExecuteSpec(kinds, false, world, plan, direction, upTo).log;
            && Dispatch(j, 1, world.succeeds(j, 1)) in log
            && (!world.succeeds(j, 1) ==> Dispatch(j, 2, world.succeeds(j, 2)) in log)
            && (!world.succeeds(j, 1) && !world.succeeds(j, 2) ==> Dispatch(j, 3, world.succeeds(j, 3)) in log)
            && forall d | d in log && d.step == j :: d.attempt <= 3
  {
    DispatchedExactly(kinds, false, world, plan, direction, upTo, Dispatch(j, 1, world.succeeds(j, 1)));
    DispatchedExactly(kinds, false, world, plan, direction, upTo, Dispatch(j, 2, world.succeeds(j, 2)));
    DispatchedExactly(kinds, false, world, plan, direction, upTo, Dispatch(j, 3, world.succeeds(j, 3)));
    var log := ExecuteSpec(kinds, false, world, plan, direction, upTo).log;
    forall d | d in log && d.step == j ensures d.attempt <= 3 {
      DispatchedExactly(kinds, false, world, plan, direction, upTo, d);
    }
  }

  /** A step that is interactive, one-shot or destructive is dispatched once, whatever comes of it. */
  lemma OthersAreTriedOnce(
    kinds: Kinds, dryRun: bool, world: World, plan: seq<PlannedStep>, direction: Direction, upTo: Option<string>, j: nat)
    requires ComesToItsSteps(kinds, world, plan, direction, upTo) && IsReached(kinds, dryRun, world, plan, upTo, j)
    requires !LeftOut(kinds, dryRun, world, j, plan[j])
    requires dryRun || plan[j].policy.interactive || plan[j].policy.retry != Idempotent
    ensures forall d: Dispatch | d.step == j ::
              d in ExecuteSpec(kinds, dryRun, world, plan, direction, upTo).log <==> d == Dispatch(j, 1, world.succeeds(j, 1))
  {
    forall d: Dispatch | d.step == j
      ensures d in ExecuteSpec(kinds, dryRun, world, plan, direction, upTo).log <==>
              d == Dispatch(j, 1, world.succeeds(j, 1))
    {
      DispatchedExactly(kinds, dryRun, world, plan, direction, upTo, d);
    }
  }

  /// The lab record

  /** What a teardown needs around its steps. */
  predicate ReadyToTearDown(kinds: Kinds, world: World, plan: seq<PlannedStep>, upTo: Option<string>) {
    ComesToItsSteps(kinds, world, plan, Teardown, upTo) && world.packageBuilds && !world.failuresRecorded
  }

  /** A command succeeds with nothing to do, or when it comes to its steps, they go well and a teardown leaves nothing behind. */
  lemma CommandSucceedsExactly(
    kinds: Kinds, dryRun: bool, world: World, plan: seq<PlannedStep>, direction: Direction, upTo: Option<string>)
    ensures ExecuteSpec(kinds, dryRun, world, plan, direction, upTo).ok <==>
            || plan == []
            || (&& ComesToItsSteps(kinds, world, plan, direction, upTo)
                && (forall j | 0 <= j < |plan| && j < StepsUpTo(plan, upTo) :: StepSucceeds(kinds, dryRun, world, j, plan[j]))
                && (direction == Teardown ==> world.packageBuilds && !world.failuresRecorded))
  {
    if ResolveStopAfter(plan, upTo).Ok? {
      RunSucceedsExactly(kinds, dryRun, world, plan, upTo);
    }
  }

  /** The lab is forgotten exactly by a teardown all of whose steps up to the stop go well. */
  lemma ForgetsExactlyAfterTeardown(
    kinds: Kinds, dryRun: bool, world: World, plan: seq<PlannedStep>, direction: Direction, upTo: Option<string>)
    ensures ExecuteSpec(kinds, dryRun, world, plan, direction, upTo).forgot <==>
            && direction == Teardown && ReadyToTearDown(kinds, world, plan, upTo)
            && forall j | 0 <= j < |plan| && j < StepsUpTo(plan, upTo) :: StepSucceeds(kinds, dryRun, world, j, plan[j])
  {
    if ResolveStopAfter(plan, upTo).Ok? {
      RunSucceedsExactly(kinds, dryRun, world, plan, upTo);
    }
  }

  /** A dry run is no exception: it forgets the lab exactly when the steps it dispatches succeed at once. */
  lemma DryTeardownForgets(kinds: Kinds, world: World, plan: seq<PlannedStep>, upTo: Option<string>)
    ensures ExecuteSpec(kinds, true, world, plan, Teardown, upTo).forgot <==>
            && ReadyToTearDown(kinds, world, plan, upTo)
            && forall j | 0 <= j < |plan| && j < StepsUpTo(plan, upTo) ::
                 kinds.dryRunSafe(plan[j].tag) ==> world.succeeds(j, 1)
  {
    ForgetsExactlyAfterTeardown(kinds, true, world, plan, Teardown, upTo);
    forall j: nat | j < |plan|
      ensures StepSucceeds(kinds, true, world, j, plan[j]) <==> (kinds.dryRunSafe(plan[j].tag) ==> world.succeeds(j, 1))
    {
      assert Allowed(true, plan[j].policy, 1);
    }
  }

  /** One stopped early forgets the lab as well, with the steps past the stop never dispatched. */
  lemma StoppedTeardownForgets(
    kinds: Kinds, dryRun: bool, world: World, plan: seq<PlannedStep>, tag: string, stop: nat)
    requires LastOf(plan, tag) == Some(stop) && stop < |plan|
    ensures var o := ExecuteSpec(kinds, dryRun, world, plan, Teardown, Some(tag));
            && (o.forgot <==>
                 && ReadyToTearDown(kinds, world, plan, Some(tag))
                 && forall j | 0 <= j <= stop :: StepSucceeds(kinds, dryRun, world, j, plan[j]))
            && forall d | d in o.log :: d.step <= stop
  {
    ForgetsExactlyAfterTeardown(kinds, dryRun, world, plan, Teardown, Some(tag));
    RunSucceedsExactly(kinds, dryRun, world, plan, Some(tag));
    var o := ExecuteSpec(kinds, dryRun, world, plan, Teardown, Some(tag));
    forall d | d in o.log ensures d.step <= stop {
      LogMeans(0, RunBehind(kinds, dryRun, world, plan, Some(tag)).steps, d);
    }
  }
}
