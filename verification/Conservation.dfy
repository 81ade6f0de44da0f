/**
  What `correlate` neither loses nor invents: every container and every live
  cluster has one place, and a lab is listed exactly when something is in it.
 */
module Conservation {
  import opened Prelude
  import opened Sequences
  import opened Ordering
  import opened HostInventory
  import opened Correlation

  /// Which labs there are

  lemma {:induction false} OwnContainer(cs: seq<ContainerFact>, lab: string)
    ensures ContainersOf(cs, lab) != [] <==> exists i :: 0 <= i < |cs| && BelongsTo(cs[i], lab)
  {
    if cs != [] {
      var init := cs[..|cs| - 1];
      OwnContainer(init, lab);
      assert forall i | 0 <= i < |init| :: init[i] == cs[i];
    }
  }

  lemma {:induction false} OwnCluster(records: seq<LabRecord>, clusters: seq<string>, lab: string)
    ensures ClustersOf(records, clusters, lab) != [] <==>
            exists i :: 0 <= i < |clusters| && Claimant(records, clusters[i]) == Some(lab)
  {
    if clusters != [] {
      var init := clusters[..|clusters| - 1];
      OwnCluster(records, init, lab);
      assert forall i | 0 <= i < |init| :: init[i] == clusters[i];
    }
  }

  predicate HasContainer(facts: HostFacts, lab: string) {
    exists i :: 0 <= i < |facts.containers| && BelongsTo(facts.containers[i], lab)
  }

  predicate HasCluster(facts: HostFacts, lab: string) {
    exists i :: 0 <= i < |facts.k3dClusters| && Claimant(facts.records, facts.k3dClusters[i]) == Some(lab)
  }

  lemma LiveMeans(facts: HostFacts, lab: string)
    ensures lab in Keys(LiveLabs(facts)) <==> HasContainer(facts, lab) || HasCluster(facts, lab)
  {
    LiveLabsMeans(facts, lab);
    OwnContainer(facts.containers, lab);
    OwnCluster(facts.records, facts.k3dClusters, lab);
  }

  predicate NamedBy(labs: seq<RunningLab>, names: seq<string>) {
    |labs| == |names| && forall i | 0 <= i < |labs| :: labs[i].name == names[i]
  }

  predicate Listed(labs: seq<RunningLab>, lab: string) {
    exists i :: 0 <= i < |labs| && labs[i].name == lab
  }

  lemma NamedIsListed(labs: seq<RunningLab>, names: seq<string>, lab: string)
    requires NamedBy(labs, names)
    ensures Listed(labs, lab) <==> lab in names
  {}

  lemma InventoryIsNamed(facts: HostFacts)
    ensures NamedBy(InventoryOf(facts).labs, Keys(LiveLabs(facts)))
  {}

  /**
    A lab is listed exactly when a container is attributed to it or a live
    cluster is claimed for it. Without either, its records create nothing.
   */
  lemma ListedExactlyWhenLive(facts: HostFacts, lab: string)
    ensures Listed(InventoryOf(facts).labs, lab) <==> HasContainer(facts, lab) || HasCluster(facts, lab)
  {
    InventoryIsNamed(facts);
    NamedIsListed(InventoryOf(facts).labs, Keys(LiveLabs(facts)), lab);
    LiveMeans(facts, lab);
  }

  lemma ListedOnce(facts: HostFacts, i: nat, j: nat)
    requires i < j < |InventoryOf(facts).labs|
    ensures InventoryOf(facts).labs[i].name != InventoryOf(facts).labs[j].name
  {
    InventoryIsNamed(facts);
  }

  /// Containers

  function ContainerNames(cs: seq<ContainerFact>): multiset<string> {
    if cs == [] then multiset{} else ContainerNames(cs[..|cs| - 1]) + multiset{cs[|cs| - 1].name}
  }

  /** Neither attributed nor named like one of ours. */
  function Ignored(cs: seq<ContainerFact>): multiset<string> {
    if cs == [] then multiset{}
    else
      var init, c := cs[..|cs| - 1], cs[|cs| - 1];
      Ignored(init) + (if AttributedTo(c).None? && !(CONTAINER_PREFIX <= c.name) then multiset{c.name} else multiset{})
  }

  function OrphanNames(orphans: seq<Orphan>): multiset<string> {
    if orphans == [] then multiset{}
    else
      var o := orphans[|orphans| - 1];
      OrphanNames(orphans[..|orphans| - 1]) + multiset{if o.StaleRecordOnly? then o.lab else o.name}
  }

  function Gathered(names: seq<string>, f: string -> seq<string>): multiset<string> {
    if names == [] then multiset{} else multiset(f(names[0])) + Gathered(names[1..], f)
  }

  /** One more item for one lab is one more item among all labs. */
  lemma {:induction false} GatherOneMore(names: seq<string>, f: string -> seq<string>, g: string -> seq<string>,
                                        owner: Option<string>, item: string)
    requires Distinct(names)
    requires forall n :: g(n) == f(n) + (if owner == Some(n) then [item] else [])
    ensures Gathered(names, g) == Gathered(names, f)
            + (if owner.Some? && owner.value in names then multiset{item} else multiset{})
  {
    if names != [] {
      GatherOneMore(names[1..], f, g, owner, item);
      assert names == [names[0]] + names[1..];
      assert multiset(g(names[0])) == multiset(f(names[0])) + (if owner == Some(names[0]) then multiset{item} else multiset{});
    }
  }

  lemma {:induction false} GatherNothing(names: seq<string>, f: string -> seq<string>)
    requires forall n :: f(n) == []
    ensures Gathered(names, f) == multiset{}
  {
    if names != [] {
      GatherNothing(names[1..], f);
    }
  }

  function OwnerOf(c: ContainerFact): Option<string> {
    if AttributedTo(c).None? then None else Some(AttributedTo(c).value.0)
  }

  /** Attributed to no lab: reported, or ignored. */
  function Outside(cs: seq<ContainerFact>): multiset<string> {
    OrphanNames(UnattributedAmong(cs)) + Ignored(cs)
  }

  lemma OneMoreContainer(cs: seq<ContainerFact>, c: ContainerFact)
    ensures ContainerNames(cs + [c]) == ContainerNames(cs) + multiset{c.name}
    ensures ContainerLabs(cs + [c]) == ContainerLabs(cs) + (if OwnerOf(c).Some? then {OwnerOf(c).value} else {})
    ensures Outside(cs + [c]) == Outside(cs) + (if OwnerOf(c).None? then multiset{c.name} else multiset{})
  {
    assert (cs + [c])[..|cs|] == cs;
    OneMoreOrphan(UnattributedAmong(cs), UnattributedContainer(c.name, c.published));
  }

  lemma OneMoreOfTheirs(cs: seq<ContainerFact>, c: ContainerFact, n: string)
    ensures ContainersOf(cs + [c], n) == ContainersOf(cs, n) + (if OwnerOf(c) == Some(n) then [c.name] else [])
  {
    assert (cs + [c])[..|cs|] == cs;
  }

  lemma ContainersGather(cs: seq<ContainerFact>, c: ContainerFact, names: seq<string>)
    requires Distinct(names) && (OwnerOf(c).Some? ==> OwnerOf(c).value in names)
    ensures Gathered(names, (n: string) => ContainersOf(cs + [c], n)) ==
            Gathered(names, (n: string) => ContainersOf(cs, n))
            + (if OwnerOf(c).Some? then multiset{c.name} else multiset{})
  {
    var f, g := (n: string) => ContainersOf(cs, n), (n: string) => ContainersOf(cs + [c], n);
    forall n ensures g(n) == f(n) + (if OwnerOf(c) == Some(n) then [c.name] else []) {
      OneMoreOfTheirs(cs, c, n);
    }
    GatherOneMore(names, f, g, OwnerOf(c), c.name);
  }

  lemma {:induction false} ContainersGathered(cs: seq<ContainerFact>, names: seq<string>)
    requires Distinct(names) && forall n | n in ContainerLabs(cs) :: n in names
    ensures ContainerNames(cs) ==
            Gathered(names, (n: string) => ContainersOf(cs, n)) + Outside(cs)
  {
    if cs == [] {
      GatherNothing(names, (n: string) => ContainersOf(cs, n));
    } else {
      var init, c := cs[..|cs| - 1], cs[|cs| - 1];
      assert cs == init + [c];
      OneMoreContainer(init, c);
      ContainersGathered(init, names);
      ContainersGather(init, c, names);
    }
  }

  lemma OneMoreOrphan(orphans: seq<Orphan>, o: Orphan)
    ensures OrphanNames(orphans + [o]) == OrphanNames(orphans) + multiset{if o.StaleRecordOnly? then o.lab else o.name}
    ensures orphans + [] == orphans
  {
    assert (orphans + [o])[..|orphans|] == orphans;
  }

  function ContainersListed(labs: seq<RunningLab>): multiset<string> {
    if labs == [] then multiset{} else multiset(labs[0].containers) + ContainersListed(labs[1..])
  }

  predicate ListedBy(labs: seq<RunningLab>, names: seq<string>, f: string -> seq<string>) {
    |labs| == |names| && forall i | 0 <= i < |labs| :: labs[i].containers == f(names[i])
  }

  lemma InventoryContainers(facts: HostFacts)
    ensures ListedBy(InventoryOf(facts).labs, Keys(LiveLabs(facts)), (n: string) => ContainersOf(facts.containers, n))
  {}

  lemma LiveNames(facts: HostFacts)
    ensures Distinct(Keys(LiveLabs(facts)))
    ensures forall n | n in ContainerLabs(facts.containers) :: n in Keys(LiveLabs(facts))
  {}

  lemma {:induction false} ListedIsGathered(labs: seq<RunningLab>, names: seq<string>, f: string -> seq<string>)
    requires ListedBy(labs, names, f)
    ensures ContainersListed(labs) == Gathered(names, f)
  {
    if labs != [] {
      ListedIsGathered(labs[1..], names[1..], f);
    }
  }

  /** Every container is in one lab, among the unattributed, or none of ours; none is in two places. */
  lemma ContainersAreConserved(facts: HostFacts)
    ensures ContainerNames(facts.containers) ==
            ContainersListed(InventoryOf(facts).labs) + Outside(facts.containers)
  {
    var names, cs := Keys(LiveLabs(facts)), facts.containers;
    LiveNames(facts);
    InventoryContainers(facts);
    ContainersGathered(cs, names);
    ListedIsGathered(InventoryOf(facts).labs, names, (n: string) => ContainersOf(cs, n));
  }

  /// Clusters

  function ClustersListed(labs: seq<RunningLab>): multiset<string> {
    if labs == [] then multiset{} else multiset(labs[0].k3dClusters) + ClustersListed(labs[1..])
  }

  lemma {:induction false} ClustersListedIsGathered(labs: seq<RunningLab>, names: seq<string>, f: string -> seq<string>)
    requires |labs| == |names| && forall i | 0 <= i < |labs| :: labs[i].k3dClusters == f(names[i])
    ensures ClustersListed(labs) == Gathered(names, f)
  {
    if labs != [] {
      ClustersListedIsGathered(labs[1..], names[1..], f);
    }
  }

  lemma OneMoreCluster(records: seq<LabRecord>, ks: seq<string>, k: string)
    ensures ClaimingLabs(records, ks + [k]) ==
            ClaimingLabs(records, ks) + (if Claimant(records, k).Some? then {Claimant(records, k).value} else {})
    ensures OrphanNames(UnknownAmong(records, ks + [k])) ==
            OrphanNames(UnknownAmong(records, ks)) + (if Claimant(records, k).None? then multiset{k} else multiset{})
  {
    assert (ks + [k])[..|ks|] == ks;
    OneMoreOrphan(UnknownAmong(records, ks), UnknownK3dCluster(k));
  }

  lemma OneMoreOfTheirClusters(records: seq<LabRecord>, ks: seq<string>, k: string, n: string)
    ensures ClustersOf(records, ks + [k], n) ==
            ClustersOf(records, ks, n) + (if Claimant(records, k) == Some(n) then [k] else [])
  {
    assert (ks + [k])[..|ks|] == ks;
  }

  lemma ClustersGather(records: seq<LabRecord>, ks: seq<string>, k: string, names: seq<string>)
    requires Distinct(names) && (Claimant(records, k).Some? ==> Claimant(records, k).value in names)
    ensures Gathered(names, (n: string) => ClustersOf(records, ks + [k], n)) ==
            Gathered(names, (n: string) => ClustersOf(records, ks, n))
            + (if Claimant(records, k).Some? then multiset{k} else multiset{})
  {
    var f, g := (n: string) => ClustersOf(records, ks, n), (n: string) => ClustersOf(records, ks + [k], n);
    forall n ensures g(n) == f(n) + (if Claimant(records, k) == Some(n) then [k] else []) {
      OneMoreOfTheirClusters(records, ks, k, n);
    }
    GatherOneMore(names, f, g, Claimant(records, k), k);
  }

  lemma {:induction false} ClustersGathered(records: seq<LabRecord>, clusters: seq<string>, names: seq<string>)
    requires Distinct(names) && forall n | n in ClaimingLabs(records, clusters) :: n in names
    ensures multiset(clusters) ==
            Gathered(names, (n: string) => ClustersOf(records, clusters, n)) + OrphanNames(UnknownAmong(records, clusters))
  {
    if clusters == [] {
      GatherNothing(names, (n: string) => ClustersOf(records, clusters, n));
    } else {
      var init, k := clusters[..|clusters| - 1], clusters[|clusters| - 1];
      assert clusters == init + [k];
      OneMoreCluster(records, init, k);
      ClustersGathered(records, init, names);
      ClustersGather(records, init, k, names);
    }
  }

  /** Every live k3d cluster is in one lab or among the unknown. */
  lemma ClustersAreConserved(facts: HostFacts)
    ensures multiset(facts.k3dClusters) ==
            ClustersListed(InventoryOf(facts).labs) + OrphanNames(UnknownAmong(facts.records, facts.k3dClusters))
  {
    var names := Keys(LiveLabs(facts));
    ClustersGathered(facts.records, facts.k3dClusters, names);
    ViewsListClusters(facts, names);
  }

  lemma ViewsListClusters(facts: HostFacts, names: seq<string>)
    requires names == Keys(LiveLabs(facts))
    ensures ClustersListed(InventoryOf(facts).labs)
            == Gathered(names, (n: string) => ClustersOf(facts.records, facts.k3dClusters, n))
  {
    ClustersListedIsGathered(InventoryOf(facts).labs, names, (n: string) => ClustersOf(facts.records, facts.k3dClusters, n));
  }
}
