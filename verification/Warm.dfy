/** Warming the lab's image mirror: the concurrent tasks of cli/src/images/mod.rs. */
module Warm {
  import opened Prelude

  // One task an image, a semaphore that bounds how many run, and a cache of tag
  // lists they share. The cache is locked only to be read, filled or dropped; the
  // requests around it are not. Every interleaving of those steps is a run of
  // this state machine. The mirror itself is outside: it may gain tags at any
  // time and drops none.

  /** An image reference, taken apart. */
  datatype ImageRef = ImageRef(registry: string, repository: string, tag: Option<string>, digest: Option<string>)

  /** What to ask a registry for after `/manifests/`. */
  function Reference(r: ImageRef): string {
    match (r.digest, r.tag)
    case (Some(d), _) => d
    case (None, Some(t)) => t
    case (None, None) => "latest"
  }

  function ApiRepository(r: ImageRef): string {
    if r.registry == "docker.io" && '/' !in r.repository then "library/" + r.repository else r.repository
  }

  /** What is looked up in a tag list: the tag when there is one, because a tag list holds no digest. */
  function CacheKey(r: ImageRef): string {
    match r.tag
    case Some(t) => t
    case None => Reference(r)
  }

  datatype Route = LabPublishes | NoUpstream(registry: string) | Fetch(image: ImageRef)

  function PlanWarm(r: ImageRef, upstreams: seq<string>, labOwned: seq<string>): Route {
    if r.registry in labOwned then LabPublishes
    else if r.registry !in upstreams then NoUpstream(r.registry)
    else Fetch(r)
  }

  datatype Outcome = Ready | LabPublished | NotMirrored(image: ImageRef) | Failed

  /// The machine

  /** An image in the mirror, and the registry it was taken from. */
  datatype Copy = Copy(registry: string, repository: string, name: string)

  type Held = set<Copy>
  type TagsCache = map<string, set<string>>

  datatype Task =
    | Waiting                                  // for a permit
    | Admitted                                 // holds one
    | Looking(r: ImageRef)                     // about to read the cache
    | Asking(r: ImageRef)                      // tag list requested
    | Listed(r: ImageRef, tags: set<string>)   // tag list here, not yet inserted
    | Syncing(r: ImageRef)                     // manifest requested
    | Synced(r: ImageRef)                      // manifest here, cache entry not yet dropped
    | Done(outcome: Outcome)
    | Panicked

  datatype Config = Config(images: seq<ImageRef>, upstreams: seq<string>, labOwned: seq<string>, concurrency: nat)

  datatype State = State(tasks: seq<Task>, cache: TagsCache, mirror: Held, permits: nat)

  predicate Finished(t: Task) { t.Done? || t.Panicked? }
  predicate HoldsPermit(t: Task) { !t.Waiting? && !Finished(t) }

  function Init(cfg: Config, mirror: Held): State {
    State(seq(|cfg.images|, _ => Waiting), map[], mirror, cfg.concurrency)
  }

  datatype Step =
    | Acquire(i: nat)
    | Plan(i: nat)
    | Look(i: nat)
    | Answer(i: nat, tags: set<string>)
    | Insert(i: nat)
    | Sync(i: nat, success: bool)
    | Drop(i: nat)
    | Panic(i: nat)
    | MirrorGains(more: Held)

  /** What a sync asks the mirror to take: the image from its own registry. */
  function OwnCopy(r: ImageRef): Copy {
    Copy(r.registry, ApiRepository(r), Reference(r))
  }

  /** A tag list is asked for by repository alone: a name is listed whatever registry it came from. */
  predicate Lists(mirror: Held, repository: string, name: string) {
    exists c | c in mirror :: c.repository == repository && c.name == name
  }

  predicate Truthful(mirror: Held, repository: string, tags: set<string>) {
    forall t | t in tags :: Lists(mirror, repository, t)
  }

  /** Whether a step may be taken: its task is there, and the outside answers truthfully. */
  predicate Enabled(s: State, step: Step) {
    match step
    case Acquire(i) => i < |s.tasks| && s.tasks[i].Waiting? && s.permits > 0
    case Plan(i) => i < |s.tasks| && s.tasks[i].Admitted?
    case Look(i) => i < |s.tasks| && s.tasks[i].Looking?
    case Answer(i, tags) =>
      i < |s.tasks| && s.tasks[i].Asking? && Truthful(s.mirror, ApiRepository(s.tasks[i].r), tags)
    case Insert(i) => i < |s.tasks| && s.tasks[i].Listed?
    case Sync(i, _) => i < |s.tasks| && s.tasks[i].Syncing?
    case Drop(i) => i < |s.tasks| && s.tasks[i].Synced?
    case Panic(i) => i < |s.tasks| && HoldsPermit(s.tasks[i])
    case MirrorGains(_) => true
  }

  /** Task `i` moves on; a task that finishes gives its permit back. */
  function Move(s: State, i: nat, t: Task): State
    requires i < |s.tasks|
  {
    s.(tasks := s.tasks[i := t], permits := if Finished(t) then s.permits + 1 else s.permits)
  }

  function AfterLookup(r: ImageRef, tags: set<string>): Task {
    if CacheKey(r) in tags then Done(Ready) else Syncing(r)
  }

  function Planned(cfg: Config, r: ImageRef): Task {
    match PlanWarm(r, cfg.upstreams, cfg.labOwned)
    case LabPublishes => Done(LabPublished)
    case NoUpstream(_) => Done(NotMirrored(r))
    case Fetch(image) => Looking(image)
  }

  function Apply(cfg: Config, s: State, step: Step): State
    requires Enabled(s, step) && |s.tasks| == |cfg.images|
  {
    match step
    case Acquire(i) => s.(tasks := s.tasks[i := Admitted], permits := s.permits - 1)
    case Plan(i) => Move(s, i, Planned(cfg, cfg.images[i]))
    case Look(i) =>
      var r := s.tasks[i].r;
      if ApiRepository(r) in s.cache then Move(s, i, AfterLookup(r, s.cache[ApiRepository(r)])) else Move(s, i, Asking(r))
    case Answer(i, tags) => Move(s, i, Listed(s.tasks[i].r, tags))
    case Insert(i) =>
      var t := s.tasks[i];
      Move(s, i, AfterLookup(t.r, t.tags)).(cache := s.cache[ApiRepository(t.r) := t.tags])
    case Sync(i, success) =>
      var r := s.tasks[i].r;
      if success then Move(s, i, Synced(r)).(mirror := s.mirror + {OwnCopy(r)})
      else Move(s, i, Done(Failed))
    case Drop(i) => Move(s, i, Done(Ready)).(cache := s.cache - {ApiRepository(s.tasks[i].r)})
    case Panic(i) => Move(s, i, Panicked)
    case MirrorGains(more) => s.(mirror := s.mirror + more)
  }

  /** A run: the steps taken, in order, from the start. */
  ghost predicate IsRun(cfg: Config, states: seq<State>, steps: seq<Step>) {
    && |states| == |steps| + 1
    && (exists mirror :: states[0] == Init(cfg, mirror))
    && forall k | 0 <= k < |steps| ::
         |states[k].tasks| == |cfg.images| && Enabled(states[k], steps[k]) && states[k + 1] == Apply(cfg, states[k], steps[k])
  }

  /// What every step keeps

  function Running(tasks: seq<Task>): nat {
    if tasks == [] then 0 else Running(tasks[..|tasks| - 1]) + if HoldsPermit(tasks[|tasks| - 1]) then 1 else 0
  }

  /** The mirror holds the image itself: from its own registry, by its tag or by the reference that was synced. */
  predicate HoldsOwn(mirror: Held, r: ImageRef) {
    Copy(r.registry, ApiRepository(r), CacheKey(r)) in mirror || OwnCopy(r) in mirror
  }

  /** Another registry's image that a tag list does not tell from this one. */
  predicate IsNamesake(c: Copy, r: ImageRef) {
    c.registry != r.registry && c.repository == ApiRepository(r) && c.name == CacheKey(r)
  }

  predicate HoldsNamesake(mirror: Held, r: ImageRef) {
    exists c | c in mirror :: IsNamesake(c, r)
  }

  predicate MirrorHolds(mirror: Held, r: ImageRef) {
    HoldsOwn(mirror, r) || HoldsNamesake(mirror, r)
  }

  lemma ListedIsHeld(mirror: Held, r: ImageRef)
    ensures Lists(mirror, ApiRepository(r), CacheKey(r)) <==>
            HoldsNamesake(mirror, r) || Copy(r.registry, ApiRepository(r), CacheKey(r)) in mirror
  {
    if Lists(mirror, ApiRepository(r), CacheKey(r)) {
      var c :| c in mirror && c.repository == ApiRepository(r) && c.name == CacheKey(r);
      assert c.registry == r.registry || IsNamesake(c, r);
    }
  }

  /** A task agrees with its image's route and, where it has heard from the mirror, with the mirror. */
  predicate TaskInv(cfg: Config, mirror: Held, r: ImageRef, t: Task) {
    var route := PlanWarm(r, cfg.upstreams, cfg.labOwned);
    match t
    case Waiting => true
    case Admitted => true
    case Looking(q) => q == r && route.Fetch?
    case Asking(q) => q == r && route.Fetch?
    case Listed(q, tags) => q == r && route.Fetch? && Truthful(mirror, ApiRepository(q), tags)
    case Syncing(q) => q == r && route.Fetch?
    case Synced(q) => q == r && route.Fetch? && MirrorHolds(mirror, r)
    case Done(Ready) => route.Fetch? && MirrorHolds(mirror, r)
    case Done(LabPublished) => route.LabPublishes?
    case Done(NotMirrored(image)) => image == r && route.NoUpstream?
    case Done(Failed) => route.Fetch?
    case Panicked => true
  }

  ghost predicate Inv(cfg: Config, s: State) {
    && |s.tasks| == |cfg.images|
    && s.permits + Running(s.tasks) == cfg.concurrency
    && (forall repository | repository in s.cache :: Truthful(s.mirror, repository, s.cache[repository]))
    && (forall i | 0 <= i < |s.tasks| :: TaskInv(cfg, s.mirror, cfg.images[i], s.tasks[i]))
  }

  lemma {:induction false} RunningAfter(tasks: seq<Task>, i: nat, t: Task)
    requires i < |tasks|
    ensures Running(tasks[i := t]) == Running(tasks) - (if HoldsPermit(tasks[i]) then 1 else 0) + if HoldsPermit(t) then 1 else 0
    decreases |tasks|
  {
    var init := tasks[..|tasks| - 1];
    if i < |init| {
      RunningAfter(init, i, t);
      assert tasks[i := t][..|tasks| - 1] == init[i := t];
    } else {
      assert tasks[i := t][..|tasks| - 1] == init;
    }
  }

  lemma {:induction false} NoneRunning(tasks: seq<Task>)
    requires forall i | 0 <= i < |tasks| :: tasks[i].Waiting?
    ensures Running(tasks) == 0
  {
    if tasks != [] {
      NoneRunning(tasks[..|tasks| - 1]);
    }
  }

  lemma InitInv(cfg: Config, mirror: Held)
    ensures Inv(cfg, Init(cfg, mirror))
  {
    NoneRunning(Init(cfg, mirror).tasks);
  }

  function TaskOf(step: Step): Option<nat> {
    match step
    case MirrorGains(_) => None
    case _ => Some(step.i)
  }

  lemma MirrorOnlyGrows(cfg: Config, s: State, step: Step)
    requires Enabled(s, step) && |s.tasks| == |cfg.images|
    ensures s.mirror <= Apply(cfg, s, step).mirror
  {}

  lemma TruthfulMonotone(mirror: Held, more: Held, repository: string, tags: set<string>)
    requires mirror <= more && Truthful(mirror, repository, tags)
    ensures Truthful(more, repository, tags)
  {
    forall t | t in tags ensures Lists(more, repository, t) {
      assert Lists(mirror, repository, t);
    }
  }

  lemma TaskInvMonotone(cfg: Config, mirror: Held, more: Held, r: ImageRef, t: Task)
    requires mirror <= more && TaskInv(cfg, mirror, r, t)
    ensures TaskInv(cfg, more, r, t)
  {
    if t.Listed? {
      TruthfulMonotone(mirror, more, ApiRepository(t.r), t.tags);
    }
  }

  /** The moving task keeps its part of the invariant. */
  lemma StepKeepsTask(cfg: Config, s: State, step: Step, i: nat)
    requires Inv(cfg, s) && Enabled(s, step) && TaskOf(step) == Some(i)
    ensures TaskInv(cfg, Apply(cfg, s, step).mirror, cfg.images[i], Apply(cfg, s, step).tasks[i])
  {
    assert TaskInv(cfg, s.mirror, cfg.images[i], s.tasks[i]);
    ListedIsHeld(s.mirror, cfg.images[i]);
    if step.Look? && ApiRepository(s.tasks[i].r) in s.cache {
      assert Truthful(s.mirror, ApiRepository(s.tasks[i].r), s.cache[ApiRepository(s.tasks[i].r)]);
    }
  }

  lemma StepKeepsPermits(cfg: Config, s: State, step: Step)
    requires Inv(cfg, s) && Enabled(s, step)
    ensures Apply(cfg, s, step).permits + Running(Apply(cfg, s, step).tasks) == cfg.concurrency
  {
    if !step.MirrorGains? {
      RunningAfter(s.tasks, step.i, Apply(cfg, s, step).tasks[step.i]);
    }
  }

  lemma StepKeepsCache(cfg: Config, s: State, step: Step)
    requires Inv(cfg, s) && Enabled(s, step)
    ensures var s' := Apply(cfg, s, step);
            forall repository | repository in s'.cache :: Truthful(s'.mirror, repository, s'.cache[repository])
  {
    var s' := Apply(cfg, s, step);
    if step.Insert? {
      assert TaskInv(cfg, s.mirror, cfg.images[step.i], s.tasks[step.i]);
    }
    forall repository | repository in s'.cache ensures Truthful(s'.mirror, repository, s'.cache[repository]) {
      if step.Insert? && repository == ApiRepository(s.tasks[step.i].r) {
      } else {
        TruthfulMonotone(s.mirror, s'.mirror, repository, s.cache[repository]);
      }
    }
  }

  /** Every step of every task, and every gain of the mirror, keeps the invariant. */
  lemma StepKeepsInv(cfg: Config, s: State, step: Step)
    requires Inv(cfg, s) && Enabled(s, step)
    ensures Inv(cfg, Apply(cfg, s, step))
  {
    var s' := Apply(cfg, s, step);
    MirrorOnlyGrows(cfg, s, step);
    StepKeepsPermits(cfg, s, step);
    StepKeepsCache(cfg, s, step);
    forall j | 0 <= j < |s'.tasks| ensures TaskInv(cfg, s'.mirror, cfg.images[j], s'.tasks[j]) {
      if TaskOf(step) == Some(j) {
        StepKeepsTask(cfg, s, step, j);
      } else {
        TaskInvMonotone(cfg, s.mirror, s'.mirror, cfg.images[j], s.tasks[j]);
      }
    }
  }

  lemma {:induction false} RunKeepsInv(cfg: Config, states: seq<State>, steps: seq<Step>, k: nat)
    requires IsRun(cfg, states, steps) && k < |states|
    ensures Inv(cfg, states[k])
  {
    if k == 0 {
      var mirror :| states[0] == Init(cfg, mirror);
      InitInv(cfg, mirror);
    } else {
      RunKeepsInv(cfg, states, steps, k - 1);
      StepKeepsInv(cfg, states[k - 1], steps[k - 1]);
    }
  }

  /** In every run: cached tags are in the mirror, no more tasks run than there are permits, and `Ready` means the mirror has the image or its namesake. */
  lemma EveryRunIsSafe(cfg: Config, states: seq<State>, steps: seq<Step>, k: nat)
    requires IsRun(cfg, states, steps) && k < |states|
    ensures Running(states[k].tasks) <= cfg.concurrency
    ensures forall repository, t | repository in states[k].cache && t in states[k].cache[repository] ::
              Lists(states[k].mirror, repository, t)
    ensures |states[k].tasks| == |cfg.images|
    ensures forall i | 0 <= i < |cfg.images| && states[k].tasks[i] == Done(Ready) ::
              MirrorHolds(states[k].mirror, cfg.images[i])
  {
    RunKeepsInv(cfg, states, steps, k);
    forall repository, t | repository in states[k].cache && t in states[k].cache[repository]
      ensures Lists(states[k].mirror, repository, t)
    {
      assert Truthful(states[k].mirror, repository, states[k].cache[repository]);
    }
    forall i | 0 <= i < |cfg.images| && states[k].tasks[i] == Done(Ready)
      ensures MirrorHolds(states[k].mirror, cfg.images[i])
    {
      assert TaskInv(cfg, states[k].mirror, cfg.images[i], states[k].tasks[i]);
    }
  }

  /// What the registry of an image decides

  /** The task has not been planned yet, has died, or ended that way. */
  predicate EndsOnly(t: Task, outcome: Outcome) {
    t == Waiting || t == Admitted || t == Panicked || t == Done(outcome)
  }

  /**
    In every run, an image from a registry of the lab is left to the lab, even
    when that registry is an upstream as well; one from a registry that is
    neither is reported as not mirrored; and one that is only an upstream is
    never skipped.
   */
  lemma RegistryDecides(cfg: Config, states: seq<State>, steps: seq<Step>, k: nat, i: nat)
    requires IsRun(cfg, states, steps) && k < |states| && i < |cfg.images|
    ensures |states[k].tasks| == |cfg.images|
    ensures var registry, t := cfg.images[i].registry, states[k].tasks[i];
            && (registry in cfg.labOwned ==> EndsOnly(t, LabPublished))
            && (registry !in cfg.labOwned && registry !in cfg.upstreams ==> EndsOnly(t, NotMirrored(cfg.images[i])))
            && (registry !in cfg.labOwned && registry in cfg.upstreams ==>
                  t.Done? ==> t.outcome == Ready || t.outcome == Failed)
  {
    RunKeepsInv(cfg, states, steps, k);
    assert TaskInv(cfg, states[k].mirror, cfg.images[i], states[k].tasks[i]);
  }

  /** A cached list is enough when it has the tag, of a pinned image as well; without a tag, its digest or `latest`. */
  lemma FoundByTag(cfg: Config, s: State, i: nat)
    requires |s.tasks| == |cfg.images| && i < |s.tasks| && s.tasks[i].Looking?
    requires ApiRepository(s.tasks[i].r) in s.cache
    ensures var r, tags := s.tasks[i].r, s.cache[ApiRepository(s.tasks[i].r)];
            var found := Apply(cfg, s, Look(i)).tasks[i] == Done(Ready);
            && (r.tag.Some? ==> (found <==> r.tag.value in tags))
            && (r.tag.None? && r.digest.Some? ==> (found <==> r.digest.value in tags))
            && (r.tag.None? && r.digest.None? ==> (found <==> "latest" in tags))
            && (!found ==> Apply(cfg, s, Look(i)).tasks[i] == Syncing(r))
  {}

  /// An image finishes once, and says what its route says

  lemma StepLeavesFinished(cfg: Config, s: State, step: Step, i: nat)
    requires Enabled(s, step) && |s.tasks| == |cfg.images| && i < |s.tasks| && Finished(s.tasks[i])
    ensures Apply(cfg, s, step).tasks[i] == s.tasks[i]
  {}

  /** A task that has finished somewhere in a run keeps that outcome to its end. */
  lemma {:induction false} FinishedStays(cfg: Config, states: seq<State>, steps: seq<Step>, i: nat, k: nat, m: nat)
    requires IsRun(cfg, states, steps) && k <= m < |states| && i < |cfg.images|
    requires |states[k].tasks| == |cfg.images| && Finished(states[k].tasks[i])
    ensures |states[m].tasks| == |cfg.images| && states[m].tasks[i] == states[k].tasks[i]
  {
    if k < m {
      FinishedStays(cfg, states, steps, i, k, m - 1);
      StepLeavesFinished(cfg, states[m - 1], steps[m - 1], i);
    }
  }

  /// Runs end

  function Distance(t: Task): nat {
    match t
    case Waiting => 7
    case Admitted => 6
    case Looking(_) => 5
    case Asking(_) => 4
    case Listed(_, _) => 3
    case Syncing(_) => 2
    case Synced(_) => 1
    case _ => 0
  }

  function Work(tasks: seq<Task>): nat {
    if tasks == [] then 0 else Work(tasks[..|tasks| - 1]) + Distance(tasks[|tasks| - 1])
  }

  lemma {:induction false} WorkAfter(tasks: seq<Task>, i: nat, t: Task)
    requires i < |tasks|
    ensures Work(tasks[i := t]) == Work(tasks) - Distance(tasks[i]) + Distance(t)
    decreases |tasks|
  {
    var init := tasks[..|tasks| - 1];
    if i < |init| {
      WorkAfter(init, i, t);
      assert tasks[i := t][..|tasks| - 1] == init[i := t];
    } else {
      assert tasks[i := t][..|tasks| - 1] == init;
    }
  }

  /** Every step of a task brings it nearer its end. */
  lemma StepSpendsWork(cfg: Config, s: State, step: Step)
    requires Enabled(s, step) && |s.tasks| == |cfg.images|
    ensures step.MirrorGains? ==> Work(Apply(cfg, s, step).tasks) == Work(s.tasks)
    ensures !step.MirrorGains? ==> Work(Apply(cfg, s, step).tasks) < Work(s.tasks)
  {
    if !step.MirrorGains? {
      WorkAfter(s.tasks, step.i, Apply(cfg, s, step).tasks[step.i]);
    }
  }

  function TaskSteps(steps: seq<Step>): nat {
    if steps == [] then 0
    else TaskSteps(steps[..|steps| - 1]) + if steps[|steps| - 1].MirrorGains? then 0 else 1
  }

  lemma {:induction false} InitialWork(tasks: seq<Task>)
    requires forall i | 0 <= i < |tasks| :: tasks[i].Waiting?
    ensures Work(tasks) == 7 * |tasks|
  {
    if tasks != [] {
      InitialWork(tasks[..|tasks| - 1]);
    }
  }

  /** No schedule takes more than seven task steps an image. */
  lemma {:induction false} RunsAreShort(cfg: Config, states: seq<State>, steps: seq<Step>)
    requires IsRun(cfg, states, steps)
    ensures TaskSteps(steps) + Work(states[|steps|].tasks) <= 7 * |cfg.images|
    decreases |steps|
  {
    if steps == [] {
      var mirror :| states[0] == Init(cfg, mirror);
      InitialWork(states[0].tasks);
    } else {
      var n := |steps| - 1;
      assert states[..n + 1][0] == states[0];
      RunsAreShort(cfg, states[..n + 1], steps[..n]);
      StepSpendsWork(cfg, states[n], steps[n]);
    }
  }

  lemma {:induction false} SomeRunning(tasks: seq<Task>) returns (i: nat)
    requires Running(tasks) > 0
    ensures i < |tasks| && HoldsPermit(tasks[i])
  {
    if HoldsPermit(tasks[|tasks| - 1]) {
      i := |tasks| - 1;
    } else {
      i := SomeRunning(tasks[..|tasks| - 1]);
    }
  }

  function NextOf(i: nat, t: Task): Step
    requires HoldsPermit(t)
  {
    match t
    case Admitted => Plan(i)
    case Looking(_) => Look(i)
    case Asking(_) => Answer(i, {})
    case Listed(_, _) => Insert(i)
    case Syncing(_) => Sync(i, false)
    case Synced(_) => Drop(i)
  }

  /** While an image is unfinished some task can move: the semaphore never deadlocks. */
  lemma NoDeadlock(cfg: Config, s: State, i: nat) returns (step: Step)
    requires Inv(cfg, s) && cfg.concurrency > 0
    requires i < |s.tasks| && !Finished(s.tasks[i])
    ensures Enabled(s, step) && !step.MirrorGains?
  {
    if HoldsPermit(s.tasks[i]) {
      step := NextOf(i, s.tasks[i]);
    } else if s.permits > 0 {
      step := Acquire(i);
    } else {
      var j := SomeRunning(s.tasks);
      step := NextOf(j, s.tasks[j]);
    }
  }

  /// A stale insert

  /** A tag list fetched before another task's sync and inserted after its drop hides the new tag, and stays truthful. */
  lemma StaleInsertSurvives(cfg: Config, s: State, i: nat, j: nat)
    requires Inv(cfg, s) && i < |s.tasks| && j < |s.tasks| && i != j
    requires s.tasks[i].Syncing? && s.tasks[j].Listed?
    requires ApiRepository(s.tasks[j].r) == ApiRepository(s.tasks[i].r) && CacheKey(s.tasks[i].r) !in s.tasks[j].tags
    ensures var repository, name := ApiRepository(s.tasks[i].r), CacheKey(s.tasks[i].r);
            var synced := Apply(cfg, s, Sync(i, true));
            Enabled(synced, Drop(i)) &&
            var dropped := Apply(cfg, synced, Drop(i));
            Enabled(dropped, Insert(j)) &&
            var end := Apply(cfg, dropped, Insert(j));
            && Inv(cfg, end) && OwnCopy(s.tasks[i].r) in end.mirror
            && repository in end.cache && name !in end.cache[repository]
  {
    var synced := Apply(cfg, s, Sync(i, true));
    StepKeepsInv(cfg, s, Sync(i, true));
    var dropped := Apply(cfg, synced, Drop(i));
    StepKeepsInv(cfg, synced, Drop(i));
    StepKeepsInv(cfg, dropped, Insert(j));
  }

  /// The report

  /** What joining a task gives. */
  datatype Joined = Returned(outcome: Outcome) | JoinError

  function JoinedOf(t: Task): Joined
    requires Finished(t)
  {
    match t
    case Done(outcome) => Returned(outcome)
    case Panicked => JoinError
  }

  function Count(results: seq<Joined>, p: Joined -> bool): (n: nat)
    ensures n <= |results|
  {
    if results == [] then 0 else Count(results[..|results| - 1], p) + if p(results[|results| - 1]) then 1 else 0
  }

  const READY: Joined -> bool := (j: Joined) => j == Returned(Ready)
  const SKIPPED: Joined -> bool := (j: Joined) => j.Returned? && (j.outcome.LabPublished? || j.outcome.NotMirrored?)
  const FAILED: Joined -> bool := (j: Joined) => j == Returned(Failed) || j.JoinError?

  function Unmirrored(results: seq<Joined>): seq<ImageRef> {
    if results == [] then []
    else
      var last := results[|results| - 1];
      Unmirrored(results[..|results| - 1]) +
      if last.Returned? && last.outcome.NotMirrored? then [last.outcome.image] else []
  }

  lemma {:induction false} CountsPartition(results: seq<Joined>)
    ensures Count(results, READY) + Count(results, SKIPPED) + Count(results, FAILED) == |results|
  {
    if results != [] {
      CountsPartition(results[..|results| - 1]);
    }
  }

  /** The images listed are those whose task said they are not mirrored, each as often as it was said. */
  lemma {:induction false} UnmirroredMeans(results: seq<Joined>, image: ImageRef)
    ensures multiset(Unmirrored(results))[image] == multiset(results)[Returned(NotMirrored(image))]
  {
    if results != [] {
      var init, last := results[..|results| - 1], results[|results| - 1];
      UnmirroredMeans(init, image);
      assert results == init + [last];
      assert Unmirrored(init) + [] == Unmirrored(init);
    }
  }

  /** The counters of the report. `total - failed - skipped` does not underflow when every image was joined once. */
  method ReportWarmResults(results: seq<Joined>, total: nat)
    returns (ready: nat, skipped: nat, failed: nat, notMirrored: seq<ImageRef>)
    requires |results| == total
    ensures ready == Count(results, READY) && skipped == Count(results, SKIPPED) && failed == Count(results, FAILED)
    ensures ready + skipped + failed == total
    ensures notMirrored == Unmirrored(results) && |notMirrored| <= skipped
    ensures forall image :: multiset(notMirrored)[image] == multiset(results)[Returned(NotMirrored(image))]
  {
    failed, skipped, notMirrored := 0, 0, [];
    for i := 0 to |results|
      invariant failed == Count(results[..i], FAILED) && skipped == Count(results[..i], SKIPPED)
      invariant notMirrored == Unmirrored(results[..i]) && |notMirrored| <= skipped
    {
      assert results[..i + 1][..i] == results[..i];
      match results[i]
      case Returned(Ready) =>
      case Returned(LabPublished) => skipped := skipped + 1;
      case Returned(NotMirrored(image)) =>
        skipped := skipped + 1;
        notMirrored := notMirrored + [image];
      case Returned(Failed) => failed := failed + 1;
      case JoinError => failed := failed + 1;
    }
    assert results[..|results|] == results;
    CountsPartition(results);
    forall image ensures multiset(notMirrored)[image] == multiset(results)[Returned(NotMirrored(image))] {
      UnmirroredMeans(results, image);
    }
    ready := total - failed - skipped;
  }

  ghost predicate AllFinished(s: State) {
    forall i | 0 <= i < |s.tasks| :: Finished(s.tasks[i])
  }

  function Results(tasks: seq<Task>): seq<Joined>
    requires forall i | 0 <= i < |tasks| :: Finished(tasks[i])
  {
    seq(|tasks|, i requires 0 <= i < |tasks| => JoinedOf(tasks[i]))
  }

  /** The joined results are one an image, and those counted ready are images the mirror holds, or holds a namesake of. */
  lemma ReadyMeansHeld(cfg: Config, states: seq<State>, steps: seq<Step>)
    requires IsRun(cfg, states, steps) && AllFinished(states[|steps|])
    ensures var end := states[|steps|];
            && |Results(end.tasks)| == |cfg.images|
            && (forall i | 0 <= i < |cfg.images| && READY(Results(end.tasks)[i]) :: MirrorHolds(end.mirror, cfg.images[i]))
            && (forall i | 0 <= i < |cfg.images| && SKIPPED(Results(end.tasks)[i]) ::
                  !PlanWarm(cfg.images[i], cfg.upstreams, cfg.labOwned).Fetch?)
  {
    EveryRunIsSafe(cfg, states, steps, |steps|);
    RunKeepsInv(cfg, states, steps, |steps|);
    var end := states[|steps|];
    forall i | 0 <= i < |cfg.images| && SKIPPED(Results(end.tasks)[i])
      ensures !PlanWarm(cfg.images[i], cfg.upstreams, cfg.labOwned).Fetch?
    {
      assert TaskInv(cfg, end.mirror, cfg.images[i], end.tasks[i]);
    }
  }
}
