/** When an image counts as ready although the mirror holds only its namesake. */
module WarmNamesakes {
  import opened Prelude
  import opened Warm
  import opened WarmRaces

  // A sync names the registry to take an image from; the request for a tag list
  // and the cache of tag lists name the repository alone. A tag that came from
  // another registry is therefore found under this image's name.

  /** The mirror gains nothing but what the tasks sync. */
  predicate NoGains(steps: seq<Step>) {
    forall step | step in steps :: !step.MirrorGains?
  }

  /** A run in which image `i` ends ready, and the mirror ends without it. */
  ghost predicate ReadyWithout(cfg: Config, mirror: Held, states: seq<State>, steps: seq<Step>, i: nat) {
    && IsRun(cfg, states, steps) && NoGains(steps) && states[0] == Init(cfg, mirror)
    && i < |cfg.images| && |states[|steps|].tasks| == |cfg.images|
    && states[|steps|].tasks[i] == Done(Ready) && !HoldsOwn(states[|steps|].mirror, cfg.images[i])
  }

  /** One of the images to be fetched is this copy. */
  predicate IsFetched(cfg: Config, c: Copy) {
    exists j | 0 <= j < |cfg.images| :: Fetched(cfg, j) && OwnCopy(cfg.images[j]) == c
  }

  /** A namesake is in the mirror from the start, or is among the images to be fetched. */
  predicate NamesakeAtHand(cfg: Config, mirror: Held, r: ImageRef) {
    || HoldsNamesake(mirror, r)
    || exists j | 0 <= j < |cfg.images| :: Fetched(cfg, j) && IsNamesake(OwnCopy(cfg.images[j]), r)
  }

  /// Nothing else makes an image ready

  /** Without gains, the mirror holds what it held and what was fetched. */
  lemma {:induction false} MirrorComesFrom(cfg: Config, mirror: Held, states: seq<State>, steps: seq<Step>, k: nat, c: Copy)
    requires IsRun(cfg, states, steps) && NoGains(steps) && states[0] == Init(cfg, mirror) && k < |states|
    requires c in states[k].mirror
    ensures c in mirror || IsFetched(cfg, c)
  {
    if k > 0 {
      var s, step := states[k - 1], steps[k - 1];
      assert step in steps;
      RunKeepsInv(cfg, states, steps, k - 1);
      if c in s.mirror {
        MirrorComesFrom(cfg, mirror, states, steps, k - 1, c);
      } else {
        StepAddsOwn(cfg, s, step, c);
      }
    }
  }

  lemma StepAddsOwn(cfg: Config, s: State, step: Step, c: Copy)
    requires Inv(cfg, s) && Enabled(s, step) && !step.MirrorGains?
    requires c in Apply(cfg, s, step).mirror && c !in s.mirror
    ensures IsFetched(cfg, c)
  {
    assert step.Sync? && c == OwnCopy(s.tasks[step.i].r);
    assert TaskInv(cfg, s.mirror, cfg.images[step.i], s.tasks[step.i]);
    assert Fetched(cfg, step.i);
  }

  lemma {:induction false} MirrorKeeps(cfg: Config, states: seq<State>, steps: seq<Step>, k: nat)
    requires IsRun(cfg, states, steps) && k < |states|
    ensures states[0].mirror <= states[k].mirror
  {
    if k > 0 {
      MirrorKeeps(cfg, states, steps, k - 1);
      MirrorOnlyGrows(cfg, states[k - 1], steps[k - 1]);
    }
  }

  ghost predicate AllWaiting(s: State) {
    forall i | 0 <= i < |s.tasks| :: s.tasks[i] == Waiting
  }

  lemma {:induction false} NoPermitNoStart(cfg: Config, states: seq<State>, steps: seq<Step>, k: nat)
    requires IsRun(cfg, states, steps) && cfg.concurrency == 0 && k < |states|
    ensures AllWaiting(states[k])
  {
    if k > 0 {
      NoPermitNoStart(cfg, states, steps, k - 1);
      RunKeepsInv(cfg, states, steps, k - 1);
    }
  }

  /** With no namesake at hand, the mirror holds every image reported ready. */
  lemma ReadyMeansOwn(cfg: Config, mirror: Held, states: seq<State>, steps: seq<Step>, k: nat, i: nat)
    requires IsRun(cfg, states, steps) && NoGains(steps) && states[0] == Init(cfg, mirror) && k < |states|
    requires i < |cfg.images| && !NamesakeAtHand(cfg, mirror, cfg.images[i])
    requires |states[k].tasks| == |cfg.images| && states[k].tasks[i] == Done(Ready)
    ensures HoldsOwn(states[k].mirror, cfg.images[i])
  {
    var r := cfg.images[i];
    EveryRunIsSafe(cfg, states, steps, k);
    if HoldsNamesake(states[k].mirror, r) {
      var c :| c in states[k].mirror && IsNamesake(c, r);
      MirrorComesFrom(cfg, mirror, states, steps, k, c);
    }
  }

  lemma ReadyWithoutNeeds(cfg: Config, mirror: Held, states: seq<State>, steps: seq<Step>, i: nat)
    requires ReadyWithout(cfg, mirror, states, steps, i)
    ensures cfg.concurrency > 0 && Fetched(cfg, i)
    ensures !HoldsOwn(mirror, cfg.images[i]) && NamesakeAtHand(cfg, mirror, cfg.images[i])
  {
    var n := |steps|;
    RunKeepsInv(cfg, states, steps, n);
    assert TaskInv(cfg, states[n].mirror, cfg.images[i], states[n].tasks[i]);
    MirrorKeeps(cfg, states, steps, n);
    if cfg.concurrency == 0 {
      NoPermitNoStart(cfg, states, steps, n);
    }
    if !NamesakeAtHand(cfg, mirror, cfg.images[i]) {
      ReadyMeansOwn(cfg, mirror, states, steps, n, i);
    }
  }

  /** The copy is of an image to be fetched, by its digest when it is pinned to one, and else by its tag. */
  predicate IsCopyOf(c: Copy, r: ImageRef) {
    && c.registry == r.registry
    && (r.digest.Some? ==> c.name == r.digest.value)
    && (r.digest.None? && r.tag.Some? ==> c.name == r.tag.value)
    && (r.digest.None? && r.tag.None? ==> c.name == "latest")
    && (c.repository == r.repository || (r.registry == "docker.io" && c.repository == "library/" + r.repository))
    && (r.registry == "docker.io" ==> '/' in c.repository)
    && ('/' in r.repository ==> c.repository == r.repository)
  }

  /** What the mirror gains in a run are copies of images from upstream registries that the lab does not own. */
  lemma GainsAreCopies(cfg: Config, mirror: Held, states: seq<State>, steps: seq<Step>, k: nat, c: Copy)
    requires IsRun(cfg, states, steps) && NoGains(steps) && states[0] == Init(cfg, mirror) && k < |states|
    requires c in states[k].mirror && c !in mirror
    ensures exists j :: 0 <= j < |cfg.images| && IsCopyOf(c, cfg.images[j])
                        && c.registry in cfg.upstreams && c.registry !in cfg.labOwned
  {
    MirrorComesFrom(cfg, mirror, states, steps, k, c);
    var j :| 0 <= j < |cfg.images| && Fetched(cfg, j) && OwnCopy(cfg.images[j]) == c;
    assert "library/"[7] == '/';
    assert IsCopyOf(c, cfg.images[j]);
  }

  /// The runs that do

  /** Asked for, listed, and ready. */
  function Finds(i: nat, key: string): seq<Step> {
    [Acquire(i), Plan(i), Look(i)] + ([Answer(i, {key})] + [Insert(i)])
  }

  lemma FindsListed(cfg: Config, s: State, i: nat) returns (t: State)
    requires |s.tasks| == |cfg.images| && Fetched(cfg, i) && s.tasks[i] == Waiting && s.permits > 0
    requires ApiRepository(cfg.images[i]) !in s.cache
    requires Lists(s.mirror, ApiRepository(cfg.images[i]), CacheKey(cfg.images[i]))
    ensures Leads(cfg, false, s, Finds(i, CacheKey(cfg.images[i])), t)
    ensures |t.tasks| == |s.tasks| && t.tasks[i] == Done(Ready) && t.mirror == s.mirror
  {
    var r := cfg.images[i];
    var asking := s.(tasks := s.tasks[i := Asking(r)], permits := s.permits - 1);
    var listed := asking.(tasks := s.tasks[i := Listed(r, {CacheKey(r)})]);
    t := Apply(cfg, listed, Insert(i));
    LooksUp(cfg, false, s, i);
    OneStep(cfg, false, asking, Answer(i, {CacheKey(r)}));
    assert asking.tasks[i := Listed(r, {CacheKey(r)})] == listed.tasks;
    OneStep(cfg, false, listed, Insert(i));
    LeadsOn(cfg, false, asking, [Answer(i, {CacheKey(r)})], listed, [Insert(i)], t);
    LeadsOn(cfg, false, s, [Acquire(i), Plan(i), Look(i)], asking, [Answer(i, {CacheKey(r)})] + [Insert(i)], t);
  }

  lemma HeldIsFound(cfg: Config, mirror: Held, i: nat) returns (states: seq<State>, steps: seq<Step>)
    requires cfg.concurrency > 0 && Fetched(cfg, i)
    requires !HoldsOwn(mirror, cfg.images[i]) && HoldsNamesake(mirror, cfg.images[i])
    ensures ReadyWithout(cfg, mirror, states, steps, i)
  {
    ListedIsHeld(mirror, cfg.images[i]);
    steps := Finds(i, CacheKey(cfg.images[i]));
    var end := FindsListed(cfg, Init(cfg, mirror), i);
    states := LeadsIsRun(cfg, false, mirror, steps, end);
  }

  /** Image `j` is synced, its tag list having read as empty. */
  lemma OtherIsSynced(cfg: Config, mirror: Held, j: nat) returns (t: State)
    requires cfg.concurrency > 0 && Fetched(cfg, j)
    ensures Leads(cfg, false, Init(cfg, mirror), Ask(j) + Warmed(j), t)
    ensures |t.tasks| == |cfg.images| && forall i | 0 <= i < |t.tasks| && i != j :: t.tasks[i] == Waiting
    ensures t.permits > 0 && t.cache == map[] && t.mirror == mirror + {OwnCopy(cfg.images[j])}
  {
    var s := Init(cfg, mirror);
    var asked := Asked(cfg, s, j);
    t := AfterWarm(cfg, asked, j);
    Asks(cfg, false, s, j);
    Warms(cfg, false, asked, j);
    LeadsOn(cfg, false, s, Ask(j), asked, Warmed(j), t);
  }

  lemma SyncedIsListed(cfg: Config, mirror: Held, more: Held, i: nat, j: nat)
    requires Fetched(cfg, i) && Fetched(cfg, j)
    requires !HoldsOwn(mirror, cfg.images[i]) && IsNamesake(OwnCopy(cfg.images[j]), cfg.images[i])
    requires more == mirror + {OwnCopy(cfg.images[j])}
    ensures i != j && !HoldsOwn(more, cfg.images[i])
    ensures Lists(more, ApiRepository(cfg.images[i]), CacheKey(cfg.images[i]))
  {
    assert OwnCopy(cfg.images[j]) in more;
  }

  lemma StepsGainNothing(i: nat, j: nat, key: string)
    ensures NoGains(Finds(i, key)) && NoGains(Ask(j) + Warmed(j) + Finds(i, key))
  {}

  /** Once a namesake is synced, its tag is listed. */
  lemma SyncedIsFound(cfg: Config, mirror: Held, i: nat, j: nat) returns (states: seq<State>, steps: seq<Step>)
    requires cfg.concurrency > 0 && Fetched(cfg, i) && Fetched(cfg, j)
    requires !HoldsOwn(mirror, cfg.images[i]) && IsNamesake(OwnCopy(cfg.images[j]), cfg.images[i])
    ensures ReadyWithout(cfg, mirror, states, steps, i)
  {
    var synced := OtherIsSynced(cfg, mirror, j);
    SyncedIsListed(cfg, mirror, synced.mirror, i, j);
    var finds := Finds(i, CacheKey(cfg.images[i]));
    var end := FindsListed(cfg, synced, i);
    steps := Ask(j) + Warmed(j) + finds;
    LeadsOn(cfg, false, Init(cfg, mirror), Ask(j) + Warmed(j), synced, finds, end);
    StepsGainNothing(i, j, CacheKey(cfg.images[i]));
    states := LeadsIsRun(cfg, false, mirror, steps, end);
  }

  /** Image `i` can end ready without being in the mirror. */
  ghost predicate CanBeReadyWithout(cfg: Config, mirror: Held, i: nat) {
    exists states, steps :: ReadyWithout(cfg, mirror, states, steps, i)
  }

  /** Exactly the images to be fetched that are not held, and have a namesake that is held or fetched. */
  lemma ReadyWithoutExactlyByANamesake(cfg: Config, mirror: Held, i: nat)
    ensures CanBeReadyWithout(cfg, mirror, i) <==>
            && cfg.concurrency > 0 && Fetched(cfg, i)
            && !HoldsOwn(mirror, cfg.images[i]) && NamesakeAtHand(cfg, mirror, cfg.images[i])
  {
    if CanBeReadyWithout(cfg, mirror, i) {
      var states, steps :| ReadyWithout(cfg, mirror, states, steps, i);
      ReadyWithoutNeeds(cfg, mirror, states, steps, i);
    }
    if cfg.concurrency > 0 && Fetched(cfg, i) && !HoldsOwn(mirror, cfg.images[i]) {
      if HoldsNamesake(mirror, cfg.images[i]) {
        var states, steps := HeldIsFound(cfg, mirror, i);
      } else if j :| 0 <= j < |cfg.images| && Fetched(cfg, j) && IsNamesake(OwnCopy(cfg.images[j]), cfg.images[i]) {
        var states, steps := SyncedIsFound(cfg, mirror, i, j);
      }
    }
  }
}
