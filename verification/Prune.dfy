/**
  The deletion planner of cli/src/domain/prune.rs: which live resources of a lab
  the declaration no longer names.
 */
module Prune {
  import opened Prelude
  import opened Ordering

  datatype ResourceKey = ResourceKey(kind: string, namespace: Option<string>, name: string)

  /** What the cluster reports, with the bundle label if there is one. */
  datatype LiveResource = LiveResource(key: ResourceKey, bundle: Option<string>)

  /** The bundles declared, the bundles this run applied, and the resources it applied. */
  datatype Run = Run(declaredBundles: set<string>, appliedBundles: set<string>, applied: set<ResourceKey>)

  datatype PrunePlan = PrunePlan(
    delete: seq<ResourceKey>, orphanedStorage: seq<ResourceKey>, unattributed: seq<ResourceKey>)

  datatype Fate = Delete | OrphanedStorage | Unattributed | Kept

  predicate IsStorage(key: ResourceKey) {
    key.kind in ["PersistentVolumeClaim", "PersistentVolume"]
  }

  /** A live resource without a namespace is matched on kind and name alone. */
  predicate WasApplied(applied: set<ResourceKey>, live: ResourceKey) {
    if live.namespace.Some? then live in applied
    else exists a | a in applied :: a.kind == live.kind && a.name == live.name
  }

  function FateOf(run: Run, r: LiveResource): Fate {
    if r.bundle.None? then Unattributed
    else if
      || r.bundle.value !in run.declaredBundles
      || (r.bundle.value in run.appliedBundles && !WasApplied(run.applied, r.key))
    then if IsStorage(r.key) then OrphanedStorage else Delete
    else Kept
  }

  /** The keys of the resources with one fate, in the order the cluster listed them. */
  function KeysWith(run: Run, live: seq<LiveResource>, fate: Fate): seq<ResourceKey> {
    if live == [] then []
    else (if FateOf(run, live[0]) == fate then [live[0].key] else []) + KeysWith(run, live[1..], fate)
  }

  /// The order of keys

  predicate KeyLe(a: ResourceKey, b: ResourceKey) {
    if a.kind != b.kind then StringLe(a.kind, b.kind)
    else if a.namespace != b.namespace then
      a.namespace.None? || (b.namespace.Some? && StringLe(a.namespace.value, b.namespace.value))
    else StringLe(a.name, b.name)
  }

  const KEY_LE: (ResourceKey, ResourceKey) -> bool := (a: ResourceKey, b: ResourceKey) => KeyLe(a, b)

  lemma KeyLeTotal(a: ResourceKey, b: ResourceKey)
    ensures KeyLe(a, b) || KeyLe(b, a)
    ensures KeyLe(a, b) && KeyLe(b, a) ==> a == b
  {
    StringLeTotal(a.kind, b.kind);
    StringLeTotal(a.name, b.name);
    if a.namespace.Some? && b.namespace.Some? {
      StringLeTotal(a.namespace.value, b.namespace.value);
    }
  }

  lemma KeyLeTransitive(a: ResourceKey, b: ResourceKey, c: ResourceKey)
    requires KeyLe(a, b) && KeyLe(b, c)
    ensures KeyLe(a, c)
  {
    if a.kind != b.kind || b.kind != c.kind {
      KindTransitive(a, b, c);
    } else if a.namespace != b.namespace || b.namespace != c.namespace {
      NamespaceTransitive(a, b, c);
    } else {
      StringLeTransitive(a.name, b.name, c.name);
    }
  }

  lemma KindTransitive(a: ResourceKey, b: ResourceKey, c: ResourceKey)
    requires KeyLe(a, b) && KeyLe(b, c) && (a.kind != b.kind || b.kind != c.kind)
    ensures KeyLe(a, c)
  {
    StringLeTotal(a.kind, a.kind);
    StringLeTotal(c.kind, c.kind);
    StringLeTransitive(a.kind, b.kind, c.kind);
    StringLeTotal(a.kind, b.kind);
  }

  lemma NamespaceTransitive(a: ResourceKey, b: ResourceKey, c: ResourceKey)
    requires KeyLe(a, b) && KeyLe(b, c) && a.kind == b.kind == c.kind
    requires a.namespace != b.namespace || b.namespace != c.namespace
    ensures KeyLe(a, c)
  {
    if a.namespace.Some? {
      StringLeTotal(a.namespace.value, a.namespace.value);
      StringLeTotal(c.namespace.value, c.namespace.value);
      StringLeTransitive(a.namespace.value, b.namespace.value, c.namespace.value);
      StringLeTotal(a.namespace.value, b.namespace.value);
    }
  }

  lemma KeysAreOrdered()
    ensures TotalOrder(KEY_LE)
  {
    forall a, b ensures (KEY_LE(a, b) || KEY_LE(b, a)) && (KEY_LE(a, b) && KEY_LE(b, a) ==> a == b) {
      KeyLeTotal(a, b);
    }
    forall a, b, c | KEY_LE(a, b) && KEY_LE(b, c) ensures KEY_LE(a, c) {
      KeyLeTransitive(a, b, c);
    }
  }

  /// The planner

  function PlanOf(run: Run, live: seq<LiveResource>): PrunePlan {
    PrunePlan(
      Sort(KEY_LE, KeysWith(run, live, Delete)),
      Sort(KEY_LE, KeysWith(run, live, OrphanedStorage)),
      Sort(KEY_LE, KeysWith(run, live, Unattributed)))
  }

  lemma KeysWithNext(run: Run, live: seq<LiveResource>, i: nat, fate: Fate)
    requires i < |live|
    ensures KeysWith(run, live[..i + 1], fate) == KeysWith(run, live[..i], fate)
            + (if FateOf(run, live[i]) == fate then [live[i].key] else [])
  {
    assert live[..i + 1] == live[..i] + [live[i]];
    KeysWithAppend(run, live[..i], [live[i]], fate);
  }

  method PlanPrune(run: Run, live: seq<LiveResource>) returns (plan: PrunePlan)
    ensures plan == PlanOf(run, live)
  {
    plan := PrunePlan([], [], []);
    for i := 0 to |live|
      invariant plan.delete == KeysWith(run, live[..i], Delete)
      invariant plan.orphanedStorage == KeysWith(run, live[..i], OrphanedStorage)
      invariant plan.unattributed == KeysWith(run, live[..i], Unattributed)
    {
      KeysWithNext(run, live, i, Delete);
      KeysWithNext(run, live, i, OrphanedStorage);
      KeysWithNext(run, live, i, Unattributed);
      var key := live[i].key;
      if live[i].bundle.None? {
        plan := plan.(unattributed := plan.unattributed + [key]);
        continue;
      }
      var bundle := live[i].bundle.value;
      var goneFromDeclaration := bundle !in run.declaredBundles;
      var droppedFromABundleWeApplied := bundle in run.appliedBundles && !WasApplied(run.applied, key);
      if !(goneFromDeclaration || droppedFromABundleWeApplied) {
        continue;
      }
      if IsStorage(key) {
        plan := plan.(orphanedStorage := plan.orphanedStorage + [key]);
      } else {
        plan := plan.(delete := plan.delete + [key]);
      }
    }
    assert live[..|live|] == live;
    plan := PrunePlan(
      Sort(KEY_LE, plan.delete), Sort(KEY_LE, plan.orphanedStorage), Sort(KEY_LE, plan.unattributed));
  }

  /// What a plan says

  lemma {:induction false} KeysWithAppend(run: Run, a: seq<LiveResource>, b: seq<LiveResource>, fate: Fate)
    ensures KeysWith(run, a + b, fate) == KeysWith(run, a, fate) + KeysWith(run, b, fate)
  {
    if a == [] {
      assert a + b == b;
    } else {
      assert (a + b)[1..] == a[1..] + b;
      KeysWithAppend(run, a[1..], b, fate);
    }
  }

  lemma {:induction false} KeysWithMeans(run: Run, live: seq<LiveResource>, fate: Fate, key: ResourceKey)
    ensures key in KeysWith(run, live, fate) <==>
            exists i :: 0 <= i < |live| && live[i].key == key && FateOf(run, live[i]) == fate
  {
    if live != [] {
      KeysWithMeans(run, live[1..], fate, key);
      assert forall i | 0 <= i < |live| - 1 :: live[1..][i] == live[i + 1];
      assert forall i | 0 < i < |live| :: live[i] == live[1..][i - 1];
    }
  }

  function PlannedFor(plan: PrunePlan, fate: Fate): seq<ResourceKey>
    requires fate != Kept
  {
    match fate
    case Delete => plan.delete
    case OrphanedStorage => plan.orphanedStorage
    case Unattributed => plan.unattributed
  }

  /** A key is under a heading exactly when a live resource of that key has that fate. */
  lemma PlannedMeans(run: Run, live: seq<LiveResource>, fate: Fate, key: ResourceKey)
    requires fate != Kept
    ensures key in PlannedFor(PlanOf(run, live), fate) <==>
            exists i :: 0 <= i < |live| && live[i].key == key && FateOf(run, live[i]) == fate
  {
    var keys := KeysWith(run, live, fate);
    SortPermutes(KEY_LE, keys);
    assert key in keys <==> key in multiset(keys);
    assert key in Sort(KEY_LE, keys) <==> key in multiset(Sort(KEY_LE, keys));
    KeysWithMeans(run, live, fate, key);
  }

  /** The same, spelled out: how the run and the resource decide it. */
  predicate Gone(run: Run, r: LiveResource) {
    && r.bundle.Some?
    && (|| r.bundle.value !in run.declaredBundles
        || (&& r.bundle.value in run.appliedBundles
            && match r.key.namespace
               case Some(_) => r.key !in run.applied
               case None => forall a | a in run.applied :: a.kind != r.key.kind || a.name != r.key.name))
  }

  lemma FateMeans(run: Run, r: LiveResource)
    ensures FateOf(run, r) == Unattributed <==> r.bundle.None?
    ensures FateOf(run, r) == Delete <==>
            Gone(run, r) && r.key.kind != "PersistentVolume" && r.key.kind != "PersistentVolumeClaim"
    ensures FateOf(run, r) == OrphanedStorage <==>
            Gone(run, r) && (r.key.kind == "PersistentVolume" || r.key.kind == "PersistentVolumeClaim")
  {}

  /**
    A key is deleted exactly when a live resource of that key, not storage, has
    a bundle no longer declared, or one this run applied without it; storage
    whose bundle says the same is reported; and so is what has no bundle.
   */
  lemma PlannedExactly(run: Run, live: seq<LiveResource>, key: ResourceKey)
    ensures var storage := key.kind == "PersistentVolume" || key.kind == "PersistentVolumeClaim";
            var gone := exists i :: 0 <= i < |live| && live[i].key == key && Gone(run, live[i]);
            var plan := PlanOf(run, live);
            && (key in plan.delete <==> gone && !storage)
            && (key in plan.orphanedStorage <==> gone && storage)
            && (key in plan.unattributed <==> exists i :: 0 <= i < |live| && live[i].key == key && live[i].bundle.None?)
  {
    PlannedMeans(run, live, Delete, key);
    PlannedMeans(run, live, OrphanedStorage, key);
    PlannedMeans(run, live, Unattributed, key);
    forall i | 0 <= i < |live|
      ensures FateOf(run, live[i]) == Unattributed <==> live[i].bundle.None?
      ensures FateOf(run, live[i]) == Delete || FateOf(run, live[i]) == OrphanedStorage <==> Gone(run, live[i])
    {
      FateMeans(run, live[i]);
    }
  }

  function KeysOf(live: seq<LiveResource>): multiset<ResourceKey> {
    if live == [] then multiset{} else multiset{live[0].key} + KeysOf(live[1..])
  }

  lemma {:induction false} FatesPartition(run: Run, live: seq<LiveResource>)
    ensures KeysOf(live) ==
            multiset(KeysWith(run, live, Delete)) + multiset(KeysWith(run, live, OrphanedStorage))
            + multiset(KeysWith(run, live, Unattributed)) + multiset(KeysWith(run, live, Kept))
  {
    if live != [] {
      FatesPartition(run, live[1..]);
      KeysWithFirst(run, live, Delete);
      KeysWithFirst(run, live, OrphanedStorage);
      KeysWithFirst(run, live, Unattributed);
      KeysWithFirst(run, live, Kept);
    }
  }

  /** Every live resource is in exactly one list of the plan, or kept. */
  lemma PlanPartitions(run: Run, live: seq<LiveResource>)
    ensures var plan := PlanOf(run, live);
            KeysOf(live) == multiset(plan.delete) + multiset(plan.orphanedStorage)
                            + multiset(plan.unattributed) + multiset(KeysWith(run, live, Kept))
  {
    FatesPartition(run, live);
    SortPermutes(KEY_LE, KeysWith(run, live, Delete));
    SortPermutes(KEY_LE, KeysWith(run, live, OrphanedStorage));
    SortPermutes(KEY_LE, KeysWith(run, live, Unattributed));
  }

  lemma StorageIsNeverDeleted(run: Run, live: seq<LiveResource>, key: ResourceKey)
    requires IsStorage(key)
    ensures key !in PlanOf(run, live).delete
  {
    PlannedMeans(run, live, Delete, key);
  }

  /** A declared bundle that something other than this run applies. */
  predicate AppliedElsewhere(run: Run, r: LiveResource) {
    r.bundle.Some? && r.bundle.value in run.declaredBundles && r.bundle.value !in run.appliedBundles
  }

  /** What another applier owns is left alone: the plan is the one made without it. */
  lemma UnappliedBundlesAreUntouched(run: Run, live: seq<LiveResource>, i: nat)
    requires i < |live| && AppliedElsewhere(run, live[i])
    ensures PlanOf(run, live) == PlanOf(run, live[..i] + live[i + 1..])
  {
    var front, back := live[..i], live[i..];
    assert live == front + back && back[0] == live[i] && back[1..] == live[i + 1..];
    forall fate | fate != Kept
      ensures KeysWith(run, live, fate) == KeysWith(run, front + back[1..], fate)
    {
      KeysWithAppend(run, front, back, fate);
      KeysWithAppend(run, front, back[1..], fate);
    }
  }

  /**
    Deletions go by kind, namespace and name. So its key is in the plan after
    all, exactly when another live resource of that key is to go or be reported.
   */
  lemma UnappliedBundlesAreNamed(run: Run, live: seq<LiveResource>, i: nat, fate: Fate)
    requires i < |live| && AppliedElsewhere(run, live[i]) && fate != Kept
    ensures live[i].key in PlannedFor(PlanOf(run, live), fate) <==>
            exists j :: 0 <= j < |live| && j != i && live[j].key == live[i].key && FateOf(run, live[j]) == fate
  {
    PlannedMeans(run, live, fate, live[i].key);
  }

  /** Two API groups may have one kind, so the key of what is kept can be deleted. */
  lemma NamesakeIsDeleted(key: ResourceKey, gone: string, kept: string)
    requires gone != kept && !IsStorage(key)
    ensures var run := Run({kept}, {}, {});
            var live := [LiveResource(key, Some(gone)), LiveResource(key, Some(kept))];
            FateOf(run, live[1]) == Kept && key in PlanOf(run, live).delete
  {
    var run := Run({kept}, {}, {});
    var live := [LiveResource(key, Some(gone)), LiveResource(key, Some(kept))];
    assert FateOf(run, live[0]) == Delete;
    UnappliedBundlesAreNamed(run, live, 1, Delete);
  }

  /** A cluster-scoped resource is recognised however the manifest stamped its namespace. */
  lemma ManifestScopeIsIgnored(applied: set<ResourceKey>, restamped: set<ResourceKey>, live: ResourceKey)
    requires live.namespace.None?
    requires forall a | a in applied :: exists b :: b in restamped && b.kind == a.kind && b.name == a.name
    requires forall b | b in restamped :: exists a :: a in applied && a.kind == b.kind && a.name == b.name
    ensures WasApplied(applied, live) == WasApplied(restamped, live)
  {}

  /// Plans compared

  function OwnKeys(run: Run, r: LiveResource, fate: Fate): multiset<ResourceKey> {
    if FateOf(run, r) == fate then multiset{r.key} else multiset{}
  }

  lemma KeysWithFirst(run: Run, live: seq<LiveResource>, fate: Fate)
    requires live != []
    ensures multiset(KeysWith(run, live, fate)) ==
            OwnKeys(run, live[0], fate) + multiset(KeysWith(run, live[1..], fate))
  {}

  lemma KeysWithOut(run: Run, live: seq<LiveResource>, i: nat, fate: Fate)
    requires i < |live|
    ensures multiset(KeysWith(run, live, fate)) ==
            OwnKeys(run, live[i], fate) + multiset(KeysWith(run, live[..i] + live[i + 1..], fate))
  {
    var front, back := live[..i], live[i..];
    assert live == front + back && back[1..] == live[i + 1..];
    KeysWithAppend(run, front, back, fate);
    KeysWithAppend(run, front, back[1..], fate);
    KeysWithFirst(run, back, fate);
  }

  lemma {:induction false} KeysWithPermuted(run: Run, a: seq<LiveResource>, b: seq<LiveResource>, fate: Fate)
    requires multiset(a) == multiset(b)
    ensures multiset(KeysWith(run, a, fate)) == multiset(KeysWith(run, b, fate))
    decreases |a|
  {
    assert |a| == |multiset(a)| == |multiset(b)| == |b|;
    if a != [] {
      assert a[0] in multiset(b);
      var i :| 0 <= i < |b| && b[i] == a[0];
      WithoutOne(b, i);
      TailMultiset(a);
      KeysWithPermuted(run, a[1..], b[..i] + b[i + 1..], fate);
      KeysWithOut(run, b, i, fate);
      KeysWithFirst(run, a, fate);
    }
  }

  lemma WithoutOne<T>(s: seq<T>, i: nat)
    requires i < |s|
    ensures s == s[..i] + ([s[i]] + s[i + 1..])
    ensures multiset(s[..i] + s[i + 1..]) == multiset(s) - multiset{s[i]}
  {
    assert s == s[..i] + ([s[i]] + s[i + 1..]);
    assert multiset(s) == multiset(s[..i]) + (multiset{s[i]} + multiset(s[i + 1..]));
  }

  /** The plan does not depend on the order the cluster lists its resources in. */
  lemma OrderDoesNotMatter(run: Run, a: seq<LiveResource>, b: seq<LiveResource>)
    requires multiset(a) == multiset(b)
    ensures PlanOf(run, a) == PlanOf(run, b)
  {
    KeysAreOrdered();
    KeysWithPermuted(run, a, b, Delete);
    SortForgetsOrder(KEY_LE, KeysWith(run, a, Delete), KeysWith(run, b, Delete));
    KeysWithPermuted(run, a, b, OrphanedStorage);
    SortForgetsOrder(KEY_LE, KeysWith(run, a, OrphanedStorage), KeysWith(run, b, OrphanedStorage));
    KeysWithPermuted(run, a, b, Unattributed);
    SortForgetsOrder(KEY_LE, KeysWith(run, a, Unattributed), KeysWith(run, b, Unattributed));
  }

  /** A resource of a bundle newly applied, by a run that did not apply the resource. */
  predicate NewlyDropped(run: Run, more: Run, r: LiveResource) {
    AppliedElsewhere(run, r) && r.bundle.value in more.appliedBundles && !WasApplied(more.applied, r.key)
  }

  predicate Removed(run: Run, r: LiveResource) {
    FateOf(run, r) == Delete || FateOf(run, r) == OrphanedStorage
  }

  /** Declaring more and applying more resources removes a resource only where a bundle came to be applied without it. */
  lemma RemovedAnewExactlyWhenDropped(run: Run, more: Run, r: LiveResource)
    requires run.declaredBundles <= more.declaredBundles && run.applied <= more.applied
    ensures Removed(more, r) && !Removed(run, r) <==> NewlyDropped(run, more, r)
  {}

  lemma {:induction false} FewerWith(run: Run, more: Run, live: seq<LiveResource>, fate: Fate)
    requires run.declaredBundles <= more.declaredBundles && run.applied <= more.applied
    requires forall i | 0 <= i < |live| :: !NewlyDropped(run, more, live[i])
    requires fate == Delete || fate == OrphanedStorage
    ensures multiset(KeysWith(more, live, fate)) <= multiset(KeysWith(run, live, fate))
  {
    if live != [] {
      FewerWith(run, more, live[1..], fate);
      RemovedAnewExactlyWhenDropped(run, more, live[0]);
      assert FateOf(more, live[0]) == fate ==> FateOf(run, live[0]) == fate;
    }
  }

  /** Then growing the declaration and what was applied adds no deletion, nor a storage report. */
  lemma DeclaringMoreDeletesLess(run: Run, more: Run, live: seq<LiveResource>)
    requires run.declaredBundles <= more.declaredBundles && run.applied <= more.applied
    requires forall i | 0 <= i < |live| :: !NewlyDropped(run, more, live[i])
    ensures multiset(PlanOf(more, live).delete) <= multiset(PlanOf(run, live).delete)
    ensures multiset(PlanOf(more, live).orphanedStorage) <= multiset(PlanOf(run, live).orphanedStorage)
  {
    FewerWith(run, more, live, Delete);
    FewerWith(run, more, live, OrphanedStorage);
    SortPermutes(KEY_LE, KeysWith(run, live, Delete));
    SortPermutes(KEY_LE, KeysWith(more, live, Delete));
    SortPermutes(KEY_LE, KeysWith(run, live, OrphanedStorage));
    SortPermutes(KEY_LE, KeysWith(more, live, OrphanedStorage));
  }

  /** What is left once the keys are gone from the cluster. */
  function Without(live: seq<LiveResource>, keys: seq<ResourceKey>): seq<LiveResource> {
    if live == [] then []
    else (if live[0].key in keys then [] else [live[0]]) + Without(live[1..], keys)
  }

  lemma {:induction false} NothingLeftToDelete(run: Run, live: seq<LiveResource>, keys: seq<ResourceKey>)
    requires forall i | 0 <= i < |live| && FateOf(run, live[i]) == Delete :: live[i].key in keys
    ensures KeysWith(run, Without(live, keys), Delete) == []
  {
    if live != [] {
      NothingLeftToDelete(run, live[1..], keys);
      KeysWithAppend(run, if live[0].key in keys then [] else [live[0]], Without(live[1..], keys), Delete);
    }
  }

  lemma {:induction false} StorageIsLeft(run: Run, live: seq<LiveResource>, keys: seq<ResourceKey>)
    requires forall key | key in keys :: !IsStorage(key)
    ensures KeysWith(run, Without(live, keys), OrphanedStorage) == KeysWith(run, live, OrphanedStorage)
  {
    if live != [] {
      StorageIsLeft(run, live[1..], keys);
      KeysWithAppend(run, if live[0].key in keys then [] else [live[0]], Without(live[1..], keys), OrphanedStorage);
    }
  }

  /** Planning again once a plan is carried out deletes nothing and reports the same storage. */
  lemma ReplanningDeletesNothing(run: Run, live: seq<LiveResource>)
    ensures var plan := PlanOf(run, live);
            var again := PlanOf(run, Without(live, plan.delete));
            again.delete == [] && again.orphanedStorage == plan.orphanedStorage
  {
    var plan := PlanOf(run, live);
    forall i | 0 <= i < |live| && FateOf(run, live[i]) == Delete ensures live[i].key in plan.delete {
      PlannedMeans(run, live, Delete, live[i].key);
    }
    forall key | key in plan.delete ensures !IsStorage(key) {
      PlannedMeans(run, live, Delete, key);
    }
    NothingLeftToDelete(run, live, plan.delete);
    StorageIsLeft(run, live, plan.delete);
  }
}
