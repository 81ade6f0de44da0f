/**
  The plan executor of cli/src/plan/executor.rs. Steps act on the world outside,
  so what each attempt comes to is given by a `World`, and every property holds
  for every world.
 */
module Executor {
  import opened Prelude

  datatype Direction = Deploy | Teardown

  datatype Idempotency = Idempotent | OneShot | Destructive

  datatype StepPolicy = StepPolicy(retry: Idempotency, interactive: bool, skipIfClusterReachable: Option<string>)

  /** A step by the tag of its kind; the kinds' tables are inputs. */
  datatype PlannedStep = PlannedStep(tag: string, policy: StepPolicy)

  datatype Kinds = Kinds(runsIn: (string, Direction) -> bool, dryRunSafe: string -> bool)

  /**
    How attempt `a` of step `i` ends, whether the cluster a step names answers
    when asked, and how the work around the steps goes.
   */
  datatype World = World(
    succeeds: (nat, nat) -> bool, reachable: (nat, string) -> bool,
    storesLoad: bool, packageBuilds: bool, failuresRecorded: bool)

  /// One step

  function Attempts(step: PlannedStep): (n: nat)
    ensures 1 <= n <= 3
  {
    if step.policy.interactive then 1
    else match step.policy.retry
         case Idempotent => 3
         case OneShot | Destructive => 1
  }

  predicate Skipped(kinds: Kinds, dryRun: bool, world: World, i: nat, step: PlannedStep) {
    if dryRun then !kinds.dryRunSafe(step.tag)
    else step.policy.skipIfClusterReachable.Some? && world.reachable(i, step.policy.skipIfClusterReachable.value)
  }

  /** The outcomes of the attempts from one on: up to a success, or until none is left. */
  function Tries(succeeds: nat -> bool, attempt: nat, left: nat): (tries: seq<bool>)
    ensures |tries| <= left
    ensures forall j | 0 <= j < |tries| :: tries[j] == succeeds(attempt + j)
    ensures forall j | 0 <= j < |tries| - 1 :: !tries[j]
    ensures left > 0 ==> tries != [] && (!tries[|tries| - 1] ==> |tries| == left)
    decreases left
  {
    if left == 0 then []
    else if succeeds(attempt) then [true]
    else [false] + Tries(succeeds, attempt + 1, left - 1)
  }

  function StepRun(kinds: Kinds, dryRun: bool, world: World, i: nat, step: PlannedStep): seq<bool> {
    if Skipped(kinds, dryRun, world, i, step) then []
    else Tries((a: nat) => world.succeeds(i, a), 1, if dryRun then 1 else Attempts(step))
  }

  predicate StepOk(run: seq<bool>) {
    run == [] || run[|run| - 1]
  }

  /** A dispatched attempt: which step, which attempt, and how it ended. */
  datatype Dispatch = Dispatch(step: nat, attempt: nat, ok: bool)

  function DispatchesFrom(i: nat, first: nat, run: seq<bool>): seq<Dispatch> {
    seq(|run|, j requires 0 <= j < |run| => Dispatch(i, first + j, run[j]))
  }

  function Dispatches(i: nat, run: seq<bool>): seq<Dispatch> { DispatchesFrom(i, 1, run) }

  lemma TryNext(i: nat, succeeds: nat -> bool, attempt: nat, left: nat, log: seq<Dispatch>)
    requires left > 0
    ensures var tries, after := Tries(succeeds, attempt, left), log + [Dispatch(i, attempt, succeeds(attempt))];
            && (succeeds(attempt) ==> log + DispatchesFrom(i, attempt, tries) == after && StepOk(tries))
            && (!succeeds(attempt) ==>
                  var rest := Tries(succeeds, attempt + 1, left - 1);
                  && log + DispatchesFrom(i, attempt, tries) == after + DispatchesFrom(i, attempt + 1, rest)
                  && (left > 1 ==> StepOk(tries) == StepOk(rest))
                  && (left == 1 ==> !StepOk(tries) && rest == []))
  {}

  method RunOne(kinds: Kinds, dryRun: bool, world: World, i: nat, step: PlannedStep) returns (log: seq<Dispatch>, ok: bool)
    ensures log == Dispatches(i, StepRun(kinds, dryRun, world, i, step))
    ensures ok == StepOk(StepRun(kinds, dryRun, world, i, step))
  {
    if !dryRun && step.policy.skipIfClusterReachable.Some? && world.reachable(i, step.policy.skipIfClusterReachable.value) {
      return [], true;
    }
    if dryRun && !kinds.dryRunSafe(step.tag) {
      return [], true;
    }
    log, ok := Attempt(i, (a: nat) => world.succeeds(i, a), if dryRun then 1 else Attempts(step));
  }

  /** Up to so many attempts, until one succeeds. */
  method Attempt(i: nat, succeeds: nat -> bool, attempts: nat) returns (log: seq<Dispatch>, ok: bool)
    requires attempts > 0
    ensures log == Dispatches(i, Tries(succeeds, 1, attempts)) && ok == StepOk(Tries(succeeds, 1, attempts))
  {
    ghost var whole := Tries(succeeds, 1, attempts);
    log := [];
    for attempt := 1 to attempts + 1
      invariant log + DispatchesFrom(i, attempt, Tries(succeeds, attempt, attempts - attempt + 1)) == Dispatches(i, whole)
      invariant attempt <= attempts ==> StepOk(whole) == StepOk(Tries(succeeds, attempt, attempts - attempt + 1))
      invariant attempt == attempts + 1 ==> !StepOk(whole)
    {
      TryNext(i, succeeds, attempt, attempts - attempt + 1, log);
      var succeeded := succeeds(attempt);
      log := log + [Dispatch(i, attempt, succeeded)];
      if succeeded {
        return log, true;
      }
    }
    return log, false;
  }

  /// All the steps

  datatype Run = Run(steps: seq<seq<bool>>, ok: bool)

  function RunFrom(
    kinds: Kinds, dryRun: bool, world: World, steps: seq<PlannedStep>, stopAfter: Option<nat>, i: nat): Run
    decreases |steps| - i
  {
    if i >= |steps| then Run([], true)
    else
      var run := StepRun(kinds, dryRun, world, i, steps[i]);
      if !StepOk(run) then Run([run], false)
      else if stopAfter == Some(i) then Run([run], true)
      else
        var rest := RunFrom(kinds, dryRun, world, steps, stopAfter, i + 1);
        Run([run] + rest.steps, rest.ok)
  }

  /** The attempts of the steps run, first step at `i`, in order. */
  function LogOf(i: nat, runs: seq<seq<bool>>): seq<Dispatch>
    decreases |runs|
  {
    if runs == [] then [] else Dispatches(i, runs[0]) + LogOf(i + 1, runs[1..])
  }

  /** What is still to come at step `i`, after the step has run. */
  lemma RunNext(
    kinds: Kinds, dryRun: bool, world: World, steps: seq<PlannedStep>, stopAfter: Option<nat>, i: nat, log: seq<Dispatch>)
    requires i < |steps|
    ensures var run, r := RunFrom(kinds, dryRun, world, steps, stopAfter, i), StepRun(kinds, dryRun, world, i, steps[i]);
            var after, next := log + Dispatches(i, r), RunFrom(kinds, dryRun, world, steps, stopAfter, i + 1);
            if !StepOk(r) || stopAfter == Some(i) then log + LogOf(i, run.steps) == after && run.ok == StepOk(r)
            else log + LogOf(i, run.steps) == after + LogOf(i + 1, next.steps) && run.ok == next.ok
  {
    var r := StepRun(kinds, dryRun, world, i, steps[i]);
    LogOfNext(i, r, RunFrom(kinds, dryRun, world, steps, stopAfter, i + 1).steps, log);
    LogOfNext(i, r, [], log);
    assert [r] + [] == [r];
  }

  lemma LogOfNext(i: nat, run: seq<bool>, rest: seq<seq<bool>>, log: seq<Dispatch>)
    ensures log + LogOf(i, [run] + rest) == (log + Dispatches(i, run)) + LogOf(i + 1, rest)
    ensures (log + Dispatches(i, run)) + [] == log + Dispatches(i, run)
  {
    assert ([run] + rest)[1..] == rest;
  }

  method RunSteps(kinds: Kinds, dryRun: bool, world: World, steps: seq<PlannedStep>, stopAfter: Option<nat>)
    returns (log: seq<Dispatch>, ok: bool)
    ensures var run := RunFrom(kinds, dryRun, world, steps, stopAfter, 0);
            log == LogOf(0, run.steps) && ok == run.ok
  {
    log := [];
    ghost var whole := RunFrom(kinds, dryRun, world, steps, stopAfter, 0);
    for i := 0 to |steps|
      invariant log + LogOf(i, RunFrom(kinds, dryRun, world, steps, stopAfter, i).steps) == LogOf(0, whole.steps)
      invariant RunFrom(kinds, dryRun, world, steps, stopAfter, i).ok == whole.ok
    {
      RunNext(kinds, dryRun, world, steps, stopAfter, i, log);
      var stepLog, stepOk := RunOne(kinds, dryRun, world, i, steps[i]);
      log := log + stepLog;
      if !stepOk {
        return log, false;
      }
      if stopAfter == Some(i) {
        return log, true;
      }
    }
    return log, true;
  }

  /// The command

  /** The last step of the kind asked for; an error when the plan has none. */
  function ResolveStopAfter(steps: seq<PlannedStep>, upTo: Option<string>): Result<Option<nat>, ()> {
    match upTo
    case None => Ok(None)
    case Some(tag) => match LastOf(steps, tag) case Some(i) => Ok(Some(i)) case None => Err(())
  }

  function LastOf(steps: seq<PlannedStep>, tag: string): (i: Option<nat>)
    ensures i.Some? ==> i.value < |steps| && steps[i.value].tag == tag
                        && forall j | i.value < j < |steps| :: steps[j].tag != tag
    ensures i.None? ==> forall j | 0 <= j < |steps| :: steps[j].tag != tag
  {
    if steps == [] then None
    else if steps[|steps| - 1].tag == tag then Some(|steps| - 1)
    else LastOf(steps[..|steps| - 1], tag)
  }

  predicate RunsThisWay(kinds: Kinds, plan: seq<PlannedStep>, direction: Direction) {
    forall i | 0 <= i < |plan| :: kinds.runsIn(plan[i].tag, direction)
  }

  /** What a command did: the attempts it dispatched, whether it forgot the lab, and how it ended. */
  datatype Outcome = Outcome(log: seq<Dispatch>, forgot: bool, ok: bool)

  const NOTHING_DONE := Outcome([], false, false)

  method Execute(
    kinds: Kinds, dryRun: bool, world: World, plan: seq<PlannedStep>, direction: Direction, upTo: Option<string>)
    returns (outcome: Outcome)
    ensures outcome == ExecuteSpec(kinds, dryRun, world, plan, direction, upTo)
  {
    for i := 0 to |plan|
      invariant forall j | 0 <= j < i :: kinds.runsIn(plan[j].tag, direction)
    {
      if !kinds.runsIn(plan[i].tag, direction) {
        return NOTHING_DONE;
      }
    }
    if plan == [] {
      return Outcome([], false, true);
    }
    if !world.storesLoad || (direction == Deploy && !world.packageBuilds) {
      return NOTHING_DONE;
    }
    var stopAfter := ResolveStopAfter(plan, upTo);
    if stopAfter.Err? {
      return NOTHING_DONE;
    }
    var log, ok := RunSteps(kinds, dryRun, world, plan, stopAfter.value);
    if !ok {
      return Outcome(log, false, false);
    }
    var failures := world.failuresRecorded || !world.packageBuilds;
    if direction == Teardown && failures {
      return Outcome(log, false, false);
    }
    return Outcome(log, direction == Teardown, true);
  }

  function ExecuteSpec(
    kinds: Kinds, dryRun: bool, world: World, plan: seq<PlannedStep>, direction: Direction, upTo: Option<string>): Outcome
  {
    if !RunsThisWay(kinds, plan, direction) then NOTHING_DONE
    else if plan == [] then Outcome([], false, true)
    else if !world.storesLoad || (direction == Deploy && !world.packageBuilds) || ResolveStopAfter(plan, upTo).Err? then
      NOTHING_DONE
    else
      var run := RunFrom(kinds, dryRun, world, plan, ResolveStopAfter(plan, upTo).value, 0);
      var unresolved := direction == Teardown && (world.failuresRecorded || !world.packageBuilds);
      Outcome(LogOf(0, run.steps), run.ok && direction == Teardown && !unresolved, run.ok && !unresolved)
  }
}
