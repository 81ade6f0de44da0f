/** When the tag cache of a warm run forgets a tag that was synced. */
module WarmRaces {
  import opened Prelude
  import opened Warm

  // A task that synced drops the cache entry of its repository, and another task
  // may insert a tag list it got before. Which runs that takes is settled here:
  // two images of one repository, and two permits if the mirror leaves nothing out.

  predicate Fetched(cfg: Config, i: nat) {
    i < |cfg.images| && PlanWarm(cfg.images[i], cfg.upstreams, cfg.labOwned).Fetch?
  }

  /** Two images to be fetched from one repository. */
  predicate Sharing(cfg: Config, i: nat, j: nat) {
    && Fetched(cfg, i) && Fetched(cfg, j) && i != j
    && ApiRepository(cfg.images[i]) == ApiRepository(cfg.images[j])
  }

  /** A run in which image `i` was synced and warmed, and the cache ends without it. */
  ghost predicate HidesSynced(cfg: Config, states: seq<State>, steps: seq<Step>, i: nat) {
    && IsRun(cfg, states, steps) && i < |cfg.images| && Sync(i, true) in steps
    && var end := states[|steps|];
    && |end.tasks| == |cfg.images| && end.tasks[i] == Done(Ready)
    && ApiRepository(cfg.images[i]) in end.cache
    && CacheKey(cfg.images[i]) !in end.cache[ApiRepository(cfg.images[i])]
  }

  /** The tag list leaves out no tag the mirror holds for one of the images. */
  ghost predicate Complete(cfg: Config, s: State, step: Step) {
    step.Answer? && step.i < |s.tasks| && s.tasks[step.i].Asking? ==>
      forall j | 0 <= j < |cfg.images| && cfg.images[j].digest.None? ::
        var r := cfg.images[j];
        ApiRepository(r) == ApiRepository(s.tasks[step.i].r) && Lists(s.mirror, ApiRepository(r), CacheKey(r))
        ==> CacheKey(r) in step.tags
  }

  ghost predicate EveryAnswerComplete(cfg: Config, states: seq<State>, steps: seq<Step>) {
    |states| == |steps| + 1 && forall k | 0 <= k < |steps| :: Complete(cfg, states[k], steps[k])
  }

  /// Runs, built piece by piece

  /** The steps lead from `s` to `t`; with `complete`, every tag list along them is complete. */
  ghost predicate Leads(cfg: Config, complete: bool, s: State, steps: seq<Step>, t: State)
    decreases |steps|
  {
    if steps == [] then s == t
    else
      && |s.tasks| == |cfg.images| && Enabled(s, steps[0])
      && (complete ==> Complete(cfg, s, steps[0]))
      && Leads(cfg, complete, Apply(cfg, s, steps[0]), steps[1..], t)
  }

  lemma {:induction false} LeadsOn(
    cfg: Config, complete: bool, s: State, a: seq<Step>, t: State, b: seq<Step>, u: State)
    requires Leads(cfg, complete, s, a, t) && Leads(cfg, complete, t, b, u)
    ensures Leads(cfg, complete, s, a + b, u)
    decreases |a|
  {
    if a == [] {
      assert a + b == b;
    } else {
      assert (a + b)[1..] == a[1..] + b;
      LeadsOn(cfg, complete, Apply(cfg, s, a[0]), a[1..], t, b, u);
    }
  }

  /** The states passed through. */
  ghost function Path(cfg: Config, complete: bool, s: State, steps: seq<Step>, t: State): (states: seq<State>)
    requires Leads(cfg, complete, s, steps, t)
    ensures |states| == |steps| + 1 && states[0] == s && states[|steps|] == t
    decreases |steps|
  {
    if steps == [] then [s] else [s] + Path(cfg, complete, Apply(cfg, s, steps[0]), steps[1..], t)
  }

  lemma {:induction false} PathSteps(
    cfg: Config, complete: bool, s: State, steps: seq<Step>, t: State, k: nat)
    requires Leads(cfg, complete, s, steps, t) && k < |steps|
    ensures var states := Path(cfg, complete, s, steps, t);
            && |states[k].tasks| == |cfg.images| && Enabled(states[k], steps[k])
            && states[k + 1] == Apply(cfg, states[k], steps[k])
            && (complete ==> Complete(cfg, states[k], steps[k]))
    decreases |steps|
  {
    if k > 0 {
      PathSteps(cfg, complete, Apply(cfg, s, steps[0]), steps[1..], t, k - 1);
    }
  }

  lemma LeadsIsRun(cfg: Config, complete: bool, mirror: Held, steps: seq<Step>, t: State) returns (states: seq<State>)
    requires Leads(cfg, complete, Init(cfg, mirror), steps, t)
    ensures IsRun(cfg, states, steps) && states[0] == Init(cfg, mirror) && states[|steps|] == t
    ensures complete ==> EveryAnswerComplete(cfg, states, steps)
  {
    states := Path(cfg, complete, Init(cfg, mirror), steps, t);
    forall k | 0 <= k < |steps|
      ensures |states[k].tasks| == |cfg.images| && Enabled(states[k], steps[k])
      ensures states[k + 1] == Apply(cfg, states[k], steps[k])
      ensures complete ==> Complete(cfg, states[k], steps[k])
    {
      PathSteps(cfg, complete, Init(cfg, mirror), steps, t, k);
    }
    assert states[0] == Init(cfg, mirror);
  }

  lemma OneStep(cfg: Config, complete: bool, s: State, step: Step)
    requires |s.tasks| == |cfg.images| && Enabled(s, step)
    requires complete && step.Answer? ==> Complete(cfg, s, step)
    ensures Leads(cfg, complete, s, [step], Apply(cfg, s, step))
  {}

  /** Admitted, planned, not found in the cache, and answered with no tags at all. */
  function Ask(i: nat): seq<Step> { [Acquire(i), Plan(i), Look(i)] + [Answer(i, {})] }

  function Asked(cfg: Config, s: State, i: nat): State
    requires |s.tasks| == |cfg.images| && i < |cfg.images| && s.permits > 0
  {
    s.(tasks := s.tasks[i := Listed(cfg.images[i], {})], permits := s.permits - 1)
  }

  lemma LooksUp(cfg: Config, complete: bool, s: State, i: nat)
    requires |s.tasks| == |cfg.images| && Fetched(cfg, i) && s.tasks[i] == Waiting && s.permits > 0
    requires ApiRepository(cfg.images[i]) !in s.cache
    ensures Leads(cfg, complete, s, [Acquire(i), Plan(i), Look(i)],
              s.(tasks := s.tasks[i := Asking(cfg.images[i])], permits := s.permits - 1))
  {
    var r := cfg.images[i];
    var s1 := s.(tasks := s.tasks[i := Admitted], permits := s.permits - 1);
    var s2 := s.(tasks := s.tasks[i := Looking(r)], permits := s.permits - 1);
    var s3 := s.(tasks := s.tasks[i := Asking(r)], permits := s.permits - 1);
    assert s1.tasks[i := Looking(r)] == s2.tasks && s2.tasks[i := Asking(r)] == s3.tasks;
    OneStep(cfg, complete, s, Acquire(i));
    OneStep(cfg, complete, s1, Plan(i));
    OneStep(cfg, complete, s2, Look(i));
    LeadsOn(cfg, complete, s, [Acquire(i)], s1, [Plan(i)], s2);
    LeadsOn(cfg, complete, s, [Acquire(i)] + [Plan(i)], s2, [Look(i)], s3);
    assert [Acquire(i)] + [Plan(i)] + [Look(i)] == [Acquire(i), Plan(i), Look(i)];
  }

  lemma Asks(cfg: Config, complete: bool, s: State, i: nat)
    requires |s.tasks| == |cfg.images| && Fetched(cfg, i) && s.tasks[i] == Waiting && s.permits > 0
    requires ApiRepository(cfg.images[i]) !in s.cache
    requires complete ==> s.mirror == {}
    ensures Leads(cfg, complete, s, Ask(i), Asked(cfg, s, i))
  {
    var asking := s.(tasks := s.tasks[i := Asking(cfg.images[i])], permits := s.permits - 1);
    LooksUp(cfg, complete, s, i);
    OneStep(cfg, complete, asking, Answer(i, {}));
    assert asking.tasks[i := Listed(cfg.images[i], {})] == Asked(cfg, s, i).tasks;
    LeadsOn(cfg, complete, s, [Acquire(i), Plan(i), Look(i)], asking, [Answer(i, {})], Asked(cfg, s, i));
  }

  /** Not listed, so synced, and the cache entry dropped. */
  function Warmed(i: nat): seq<Step> { [Insert(i), Sync(i, true)] + [Drop(i)] }

  function AfterWarm(cfg: Config, s: State, i: nat): State
    requires |s.tasks| == |cfg.images| && i < |cfg.images|
  {
    var r := cfg.images[i];
    State(s.tasks[i := Done(Ready)], s.cache - {ApiRepository(r)}, s.mirror + {OwnCopy(r)}, s.permits + 1)
  }

  lemma Warms(cfg: Config, complete: bool, s: State, i: nat)
    requires |s.tasks| == |cfg.images| && i < |cfg.images| && s.tasks[i] == Listed(cfg.images[i], {})
    ensures Leads(cfg, complete, s, Warmed(i), AfterWarm(cfg, s, i))
  {
    var r := cfg.images[i];
    var s1 := s.(tasks := s.tasks[i := Syncing(r)], cache := s.cache[ApiRepository(r) := {}]);
    var s2 := s1.(tasks := s.tasks[i := Synced(r)], mirror := s.mirror + {OwnCopy(r)});
    OneStep(cfg, complete, s, Insert(i));
    assert s1.tasks[i := Synced(r)] == s2.tasks;
    OneStep(cfg, complete, s1, Sync(i, true));
    assert s2.tasks[i := Done(Ready)] == AfterWarm(cfg, s, i).tasks;
    assert s2.cache - {ApiRepository(r)} == s.cache - {ApiRepository(r)};
    OneStep(cfg, complete, s2, Drop(i));
    LeadsOn(cfg, complete, s, [Insert(i)], s1, [Sync(i, true)], s2);
    assert [Insert(i)] + [Sync(i, true)] == [Insert(i), Sync(i, true)];
    LeadsOn(cfg, complete, s, [Insert(i), Sync(i, true)], s2, [Drop(i)], AfterWarm(cfg, s, i));
  }

  /** With an empty list inserted for its repository, no name is found in the cache. */
  lemma Inserts(cfg: Config, complete: bool, s: State, j: nat) returns (t: State)
    requires |s.tasks| == |cfg.images| && j < |cfg.images| && s.tasks[j] == Listed(cfg.images[j], {})
    ensures Leads(cfg, complete, s, [Insert(j)], t)
    ensures |t.tasks| == |s.tasks| && forall i | 0 <= i < |t.tasks| && i != j :: t.tasks[i] == s.tasks[i]
    ensures ApiRepository(cfg.images[j]) in t.cache && t.cache[ApiRepository(cfg.images[j])] == {}
  {
    OneStep(cfg, complete, s, Insert(j));
    t := Apply(cfg, s, Insert(j));
  }

  /** Both tasks ask, one is warmed, and only then the other inserts its empty list. */
  lemma Overlapping(cfg: Config, i: nat, j: nat) returns (states: seq<State>, steps: seq<Step>)
    requires cfg.concurrency >= 2 && Sharing(cfg, i, j)
    ensures HidesSynced(cfg, states, steps, i) && EveryAnswerComplete(cfg, states, steps)
  {
    var s := Init(cfg, {});
    var s1 := Asked(cfg, s, j);
    var s2 := Asked(cfg, s1, i);
    var s3 := AfterWarm(cfg, s2, i);
    Asks(cfg, true, s, j);
    Asks(cfg, true, s1, i);
    Warms(cfg, true, s2, i);
    var end := Inserts(cfg, true, s3, j);
    LeadsOn(cfg, true, s, Ask(j), s1, Ask(i), s2);
    LeadsOn(cfg, true, s, Ask(j) + Ask(i), s2, Warmed(i), s3);
    steps := Ask(j) + Ask(i) + Warmed(i) + [Insert(j)];
    LeadsOn(cfg, true, s, Ask(j) + Ask(i) + Warmed(i), s3, [Insert(j)], end);
    SyncIsTaken(Ask(j) + Ask(i), i, [Insert(j)]);
    states := LeadsIsRun(cfg, true, {}, steps, end);
  }

  /** One after the other, when the request for the tag list fails and reads as an empty list. */
  lemma InTurn(cfg: Config, i: nat, j: nat) returns (states: seq<State>, steps: seq<Step>)
    requires cfg.concurrency > 0 && Sharing(cfg, i, j)
    ensures HidesSynced(cfg, states, steps, i)
  {
    var s := Init(cfg, {});
    var s1 := Asked(cfg, s, i);
    var s2 := AfterWarm(cfg, s1, i);
    var s3 := Asked(cfg, s2, j);
    Asks(cfg, false, s, i);
    Warms(cfg, false, s1, i);
    Asks(cfg, false, s2, j);
    var end := Inserts(cfg, false, s3, j);
    LeadsOn(cfg, false, s, Ask(i), s1, Warmed(i), s2);
    LeadsOn(cfg, false, s, Ask(i) + Warmed(i), s2, Ask(j), s3);
    steps := Ask(i) + Warmed(i) + (Ask(j) + [Insert(j)]);
    LeadsOn(cfg, false, s2, Ask(j), s3, [Insert(j)], end);
    LeadsOn(cfg, false, s, Ask(i) + Warmed(i), s2, Ask(j) + [Insert(j)], end);
    SyncIsTaken(Ask(i), i, Ask(j) + [Insert(j)]);
    states := LeadsIsRun(cfg, false, {}, steps, end);
  }

  lemma SyncIsTaken(before: seq<Step>, i: nat, after: seq<Step>)
    ensures Sync(i, true) in before + Warmed(i) + after
  {
    assert (before + Warmed(i) + after)[|before| + 1] == Warmed(i)[1];
  }

  /// Which configurations hide a synced tag

  /** Once image `i` is synced, its own task leaves no entry behind. */
  ghost predicate Dropped(cfg: Config, s: State, i: nat) {
    && i < |s.tasks| && i < |cfg.images|
    && (s.tasks[i].Synced? || s.tasks[i].Panicked?
        || (s.tasks[i] == Done(Ready) && ApiRepository(cfg.images[i]) !in s.cache))
  }

  lemma StaysDropped(cfg: Config, s: State, step: Step, i: nat)
    requires Inv(cfg, s) && Enabled(s, step) && Dropped(cfg, s, i)
    requires forall j :: !Sharing(cfg, i, j)
    requires Fetched(cfg, i)
    ensures Dropped(cfg, Apply(cfg, s, step), i)
  {
    if step.MirrorGains? {
    } else {
      assert TaskInv(cfg, s.mirror, cfg.images[step.i], s.tasks[step.i]);
      assert TaskInv(cfg, s.mirror, cfg.images[i], s.tasks[i]);
      assert !Sharing(cfg, i, step.i);
    }
  }

  lemma {:induction false} AloneStaysDropped(cfg: Config, states: seq<State>, steps: seq<Step>, i: nat, k: nat)
    requires IsRun(cfg, states, steps) && k < |states| && Fetched(cfg, i)
    requires forall j :: !Sharing(cfg, i, j)
    requires Sync(i, true) in steps[..k]
    ensures Dropped(cfg, states[k], i)
  {
    var n := k - 1;
    assert steps[..k] == steps[..n] + [steps[n]];
    RunKeepsInv(cfg, states, steps, n);
    if Sync(i, true) in steps[..n] {
      AloneStaysDropped(cfg, states, steps, i, n);
      StaysDropped(cfg, states[n], steps[n], i);
    } else {
      assert steps[n] == Sync(i, true);
      assert TaskInv(cfg, states[n].mirror, cfg.images[i], states[n].tasks[i]);
    }
  }

  lemma SyncedIsFetched(cfg: Config, states: seq<State>, steps: seq<Step>, i: nat)
    requires IsRun(cfg, states, steps) && Sync(i, true) in steps
    ensures Fetched(cfg, i)
  {
    var k: nat :| k < |steps| && steps[k] == Sync(i, true);
    RunKeepsInv(cfg, states, steps, k);
    assert TaskInv(cfg, states[k].mirror, cfg.images[i], states[k].tasks[i]);
  }

  lemma HidingIsSharing(cfg: Config, states: seq<State>, steps: seq<Step>, i: nat)
    requires HidesSynced(cfg, states, steps, i)
    ensures exists j :: Sharing(cfg, i, j)
  {
    SyncedIsFetched(cfg, states, steps, i);
    if forall j :: !Sharing(cfg, i, j) {
      assert steps[..|steps|] == steps;
      AloneStaysDropped(cfg, states, steps, i, |steps|);
    }
  }

  /** Image `i` can be synced and then be missing from the cache. */
  ghost predicate CanHide(cfg: Config, i: nat) {
    exists states, steps :: HidesSynced(cfg, states, steps, i)
  }

  /** With a permit to be had, exactly the images that share their repository with another can be hidden. */
  lemma HidesExactlyTheShared(cfg: Config, i: nat)
    requires cfg.concurrency > 0
    ensures CanHide(cfg, i) <==> exists j :: Sharing(cfg, i, j)
  {
    if CanHide(cfg, i) {
      var states, steps :| HidesSynced(cfg, states, steps, i);
      HidingIsSharing(cfg, states, steps, i);
    }
    if j: nat :| Sharing(cfg, i, j) {
      var states, steps := InTurn(cfg, i, j);
    }
  }

  /// When the mirror answers in full

  lemma TwoRunning(tasks: seq<Task>, i: nat, j: nat)
    requires i < |tasks| && j < |tasks| && i != j && HoldsPermit(tasks[i]) && HoldsPermit(tasks[j])
    ensures Running(tasks) >= 2
  {
    RunningAfter(tasks, i, Waiting);
    RunningAfter(tasks[i := Waiting], j, Waiting);
  }

  /** Once image `i` is warmed, every tag list of its repository, cached or on its way there, has its tag. */
  ghost predicate Kept(cfg: Config, s: State, i: nat) {
    && i < |s.tasks| && i < |cfg.images|
    && var repository, name := ApiRepository(cfg.images[i]), CacheKey(cfg.images[i]);
    && Lists(s.mirror, repository, name)
    && (s.tasks[i].Synced? || s.tasks[i].Panicked?
        || (&& s.tasks[i] == Done(Ready)
            && (repository in s.cache ==> name in s.cache[repository])
            && ListsHave(s.tasks, repository, name)))
  }

  predicate ListsHave(tasks: seq<Task>, repository: string, name: string) {
    forall j | 0 <= j < |tasks| && tasks[j].Listed? && ApiRepository(tasks[j].r) == repository :: name in tasks[j].tags
  }

  /** While a task holds the only permit, no other has a list under way. */
  lemma NoOtherLists(cfg: Config, s: State, i: nat)
    requires Inv(cfg, s) && cfg.concurrency <= 1 && i < |s.tasks| && HoldsPermit(s.tasks[i])
    ensures forall j | 0 <= j < |s.tasks| && j != i :: !s.tasks[j].Listed?
  {
    forall j | 0 <= j < |s.tasks| && j != i ensures !s.tasks[j].Listed? {
      if HoldsPermit(s.tasks[j]) {
        TwoRunning(s.tasks, i, j);
      }
    }
  }

  lemma AnswerKeeps(cfg: Config, s: State, step: Step, i: nat)
    requires |s.tasks| == |cfg.images| && Enabled(s, step) && step.Answer? && Complete(cfg, s, step)
    requires Kept(cfg, s, i) && cfg.images[i].digest.None? && s.tasks[i] == Done(Ready)
    ensures Kept(cfg, Apply(cfg, s, step), i)
  {
    var r := cfg.images[i];
    assert ApiRepository(r) == ApiRepository(s.tasks[step.i].r) ==> CacheKey(r) in step.tags;
  }

  lemma StaysKept(cfg: Config, s: State, step: Step, i: nat)
    requires Inv(cfg, s) && Enabled(s, step) && Complete(cfg, s, step)
    requires cfg.concurrency <= 1
    requires Kept(cfg, s, i) && cfg.images[i].digest.None?
    ensures Kept(cfg, Apply(cfg, s, step), i)
  {
    MirrorOnlyGrows(cfg, s, step);
    if TaskOf(step) == Some(i) {
      NoOtherLists(cfg, s, i);
    } else if step.Answer? && s.tasks[i] == Done(Ready) {
      AnswerKeeps(cfg, s, step, i);
    } else {
      OtherStepKeeps(cfg, s, step, i);
    }
  }

  lemma OtherStepKeeps(cfg: Config, s: State, step: Step, i: nat)
    requires |s.tasks| == |cfg.images| && Enabled(s, step) && TaskOf(step) != Some(i)
    requires Kept(cfg, s, i) && (step.Answer? ==> s.tasks[i] != Done(Ready))
    ensures Kept(cfg, Apply(cfg, s, step), i)
  {}

  lemma {:induction false} SyncedIsKept(cfg: Config, states: seq<State>, steps: seq<Step>, i: nat, k: nat)
    requires IsRun(cfg, states, steps) && EveryAnswerComplete(cfg, states, steps) && k < |states|
    requires cfg.concurrency <= 1 && Fetched(cfg, i) && cfg.images[i].digest.None?
    requires Sync(i, true) in steps[..k]
    ensures Kept(cfg, states[k], i)
  {
    var n := k - 1;
    assert steps[..k] == steps[..n] + [steps[n]];
    RunKeepsInv(cfg, states, steps, n);
    if Sync(i, true) in steps[..n] {
      SyncedIsKept(cfg, states, steps, i, n);
      StaysKept(cfg, states[n], steps[n], i);
    } else {
      assert steps[n] == Sync(i, true);
      assert TaskInv(cfg, states[n].mirror, cfg.images[i], states[n].tasks[i]);
    }
  }

  /** Image `i` can be hidden although no tag list leaves out a tag. */
  ghost predicate CanHideBehindFullAnswers(cfg: Config, i: nat) {
    exists states, steps :: HidesSynced(cfg, states, steps, i) && EveryAnswerComplete(cfg, states, steps)
  }

  lemma TwoPermitsToHide(cfg: Config, states: seq<State>, steps: seq<Step>, i: nat)
    requires HidesSynced(cfg, states, steps, i) && EveryAnswerComplete(cfg, states, steps)
    requires cfg.images[i].digest.None?
    ensures cfg.concurrency >= 2
  {
    SyncedIsFetched(cfg, states, steps, i);
    assert steps[..|steps|] == steps;
    if cfg.concurrency <= 1 {
      SyncedIsKept(cfg, states, steps, i, |steps|);
    }
  }

  /** Then it takes a race: two tasks at once, on images that share a repository. */
  lemma RaceHidesExactlyTheShared(cfg: Config, i: nat)
    requires i < |cfg.images| && cfg.images[i].digest.None?
    ensures CanHideBehindFullAnswers(cfg, i) <==> cfg.concurrency >= 2 && exists j :: Sharing(cfg, i, j)
  {
    if CanHideBehindFullAnswers(cfg, i) {
      var states, steps :| HidesSynced(cfg, states, steps, i) && EveryAnswerComplete(cfg, states, steps);
      HidingIsSharing(cfg, states, steps, i);
      TwoPermitsToHide(cfg, states, steps, i);
    }
    if cfg.concurrency >= 2 {
      if j: nat :| Sharing(cfg, i, j) {
        var states, steps := Overlapping(cfg, i, j);
      }
    }
  }

}
