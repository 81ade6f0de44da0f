/** What an inventory says of each lab and of each orphan, in terms of what was found on the machine. */
module InventoryFacts {
  import opened Prelude
  import opened Sequences
  import opened HostInventory
  import opened Correlation
  import opened Conservation

  /// Containers of a lab

  /** The container's label names the lab, or its name does and it has no label. */
  predicate Says(c: ContainerFact, lab: string, how: Attribution) {
    match how
    case Labelled => LabelSays(c, lab)
    case NameShaped => NameSays(c, lab) && (LAB_LABEL !in c.labels || c.labels[LAB_LABEL] == "")
    case Recorded => false
  }

  lemma SaysIsAttributed(c: ContainerFact, lab: string, how: Attribution)
    ensures AttributedTo(c) == Some((lab, how)) <==> Says(c, lab, how)
  {
    AttributionMeans(c, lab, how);
    if LAB_LABEL in c.labels && c.labels[LAB_LABEL] != "" {
      assert LabelSays(c, c.labels[LAB_LABEL]);
    }
  }

  predicate IsOf(c: ContainerFact, lab: string) {
    Says(c, lab, Labelled) || Says(c, lab, NameShaped)
  }

  lemma BelongingMeans(c: ContainerFact, lab: string)
    ensures BelongsTo(c, lab) <==> IsOf(c, lab)
  {
    SaysIsAttributed(c, lab, Labelled);
    SaysIsAttributed(c, lab, NameShaped);
    SaysIsAttributed(c, lab, Recorded);
  }

  predicate FlakeSays(c: ContainerFact, flake: string) {
    flake != "" && "catallaxy.io/flake" in c.labels && c.labels["catallaxy.io/flake"] == flake
  }

  lemma LastOrBefore<T>(s: seq<T>)
    requires s != []
    ensures s == s[..|s| - 1] + [s[|s| - 1]]
  {}

  lemma {:induction false} ContainersMean(cs: seq<ContainerFact>, lab: string, name: string)
    ensures name in ContainersOf(cs, lab) <==> exists c :: c in cs && IsOf(c, lab) && c.name == name
  {
    if cs != [] {
      LastOrBefore(cs);
      ContainersMean(cs[..|cs| - 1], lab, name);
      BelongingMeans(cs[|cs| - 1], lab);
    }
  }

  lemma {:induction false} WaysMean(cs: seq<ContainerFact>, lab: string, how: Attribution)
    ensures how in Ways(cs, lab) <==> exists c :: c in cs && Says(c, lab, how)
  {
    if cs != [] {
      LastOrBefore(cs);
      WaysMean(cs[..|cs| - 1], lab, how);
      SaysIsAttributed(cs[|cs| - 1], lab, how);
    }
  }

  lemma {:induction false} ContainerFlakesMean(cs: seq<ContainerFact>, lab: string, flake: string)
    ensures flake in ContainerFlakes(cs, lab) <==> exists c :: c in cs && IsOf(c, lab) && FlakeSays(c, flake)
  {
    if cs != [] {
      LastOrBefore(cs);
      ContainerFlakesMean(cs[..|cs| - 1], lab, flake);
      BelongingMeans(cs[|cs| - 1], lab);
    }
  }

  lemma {:induction false} RecordFlakesMean(records: seq<LabRecord>, lab: string, flake: string)
    ensures flake in RecordFlakes(records, lab) <==>
            flake != "" && exists r :: r in records && r.lab == lab && r.flake == flake
  {
    if records != [] {
      LastOrBefore(records);
      RecordFlakesMean(records[..|records| - 1], lab, flake);
    }
  }

  lemma {:induction false} ClustersMean(records: seq<LabRecord>, clusters: seq<string>, lab: string, k: string)
    ensures k in ClustersOf(records, clusters, lab) <==> k in clusters && Claimant(records, k) == Some(lab)
  {
    if clusters != [] {
      LastOrBefore(clusters);
      ClustersMean(records, clusters[..|clusters| - 1], lab, k);
    }
  }

  /// What is said of a lab

  /** Some container or record of the lab names the flake. */
  predicate FlakeSeen(facts: HostFacts, lab: string, flake: string) {
    || (exists c :: c in facts.containers && IsOf(c, lab) && FlakeSays(c, flake))
    || (flake != "" && exists r :: r in facts.records && r.lab == lab && r.flake == flake)
  }

  /** The cluster is live, and the last record that names it is the lab's. */
  ghost predicate ClusterIsOf(facts: HostFacts, lab: string, k: string) {
    && k in facts.k3dClusters
    && exists i :: LastToName(facts.records, k, i) && facts.records[i].lab == lab
  }

  lemma ClaimantMeans(records: seq<LabRecord>, k: string, lab: string)
    ensures Claimant(records, k) == Some(lab) <==> exists i :: LastToName(records, k, i) && records[i].lab == lab
  {
    ClaimantIsLast(records, k);
  }

  lemma OriginMeans(flakes: seq<string>, flake: string)
    ensures OriginOf(Dedup(flakes)) == Unknown <==> flakes == []
    ensures OriginOf(Dedup(flakes)) == One(flake) <==> flake in flakes && forall other | other in flakes :: other == flake
  {
    var distinct := Dedup(flakes);
    DedupIsFirstOccurrences(flakes);
    forall x ensures x in distinct <==> x in flakes {
      DedupElements(flakes, x);
    }
    if flakes != [] {
      assert flakes[0] in distinct;
    }
    if distinct != [] {
      assert distinct[0] in flakes;
    }
    if |distinct| > 1 {
      assert distinct[1] in flakes && distinct[0] != distinct[1];
    }
  }

  /** The view of a lab lists its containers and clusters, whether it has a network and a record, and how that is known. */
  lemma ViewExactly(facts: HostFacts, lab: string, item: string)
    ensures var view := LabView(facts, lab);
            && view.name == lab
            && (item in view.containers <==> exists c :: c in facts.containers && IsOf(c, lab) && c.name == item)
            && (item in view.k3dClusters <==> ClusterIsOf(facts, lab, item))
            && view.network == (if lab in facts.networks then Some(lab) else None)
            && (view.hasRecord <==> exists r :: r in facts.records && r.lab == lab)
  {
    ContainersMean(facts.containers, lab, item);
    ClustersMean(facts.records, facts.k3dClusters, lab, item);
    ClaimantMeans(facts.records, item, lab);
  }

  /** A lab counts as labelled or named by its containers, and as recorded by a record or a claimed cluster. */
  lemma AttributionsExactly(facts: HostFacts, lab: string)
    ensures var how := LabView(facts, lab).attributions;
            && (Labelled in how <==> exists c :: c in facts.containers && Says(c, lab, Labelled))
            && (NameShaped in how <==> exists c :: c in facts.containers && Says(c, lab, NameShaped))
            && (Recorded in how <==>
                 (exists r :: r in facts.records && r.lab == lab) || exists k :: ClusterIsOf(facts, lab, k))
  {
    WaysMean(facts.containers, lab, Labelled);
    WaysMean(facts.containers, lab, NameShaped);
    WaysMean(facts.containers, lab, Recorded);
    var owned := ClustersOf(facts.records, facts.k3dClusters, lab);
    forall k ensures k in owned <==> ClusterIsOf(facts, lab, k) {
      ClustersMean(facts.records, facts.k3dClusters, lab, k);
      ClaimantMeans(facts.records, k, lab);
    }
    if owned != [] {
      assert owned[0] in owned;
    }
  }

  /** Its origin is unknown when no flake was seen for it, the one flake seen, or a conflict of those seen. */
  lemma OriginExactly(facts: HostFacts, lab: string, flake: string)
    ensures var origin := LabView(facts, lab).origin;
            && (origin == Unknown <==> forall f :: !FlakeSeen(facts, lab, f))
            && (origin == One(flake) <==> FlakeSeen(facts, lab, flake) && forall f | FlakeSeen(facts, lab, f) :: f == flake)
            && (origin.Conflicting? ==> forall f :: f in origin.flakes <==> FlakeSeen(facts, lab, f))
  {
    var flakes := ContainerFlakes(facts.containers, lab) + RecordFlakes(facts.records, lab);
    forall f ensures f in flakes <==> FlakeSeen(facts, lab, f) {
      ContainerFlakesMean(facts.containers, lab, f);
      RecordFlakesMean(facts.records, lab, f);
    }
    if flakes != [] {
      assert flakes[0] in flakes;
    }
    OriginMeans(flakes, flake);
    forall f ensures f in Dedup(flakes) <==> f in flakes {
      DedupElements(flakes, f);
    }
  }

  /// Orphans

  lemma {:induction false} UnattributedMeans(cs: seq<ContainerFact>, o: Orphan)
    ensures o in UnattributedAmong(cs) <==>
            o.UnattributedContainer? &&
            exists c :: c in cs && c.name == o.name && c.published == o.published
                        && CONTAINER_PREFIX <= c.name && forall lab :: !IsOf(c, lab)
  {
    if cs != [] {
      LastOrBefore(cs);
      UnattributedMeans(cs[..|cs| - 1], o);
      Unattributed(cs[|cs| - 1]);
    }
  }

  lemma Unattributed(c: ContainerFact)
    ensures AttributedTo(c).None? <==> forall lab :: !IsOf(c, lab)
  {
    if AttributedTo(c).Some? {
      BelongingMeans(c, AttributedTo(c).value.0);
    }
    forall lab | IsOf(c, lab) ensures AttributedTo(c).Some? {
      BelongingMeans(c, lab);
    }
  }

  lemma {:induction false} UnknownMeans(records: seq<LabRecord>, clusters: seq<string>, o: Orphan)
    ensures o in UnknownAmong(records, clusters) <==>
            o.UnknownK3dCluster? && o.name in clusters && forall r | r in records :: Some(o.name) !in r.clusters
  {
    if clusters != [] {
      LastOrBefore(clusters);
      UnknownMeans(records, clusters[..|clusters| - 1], o);
      Unclaimed(records, clusters[|clusters| - 1]);
    }
  }

  lemma Unclaimed(records: seq<LabRecord>, k: string)
    ensures Claimant(records, k).None? <==> forall r | r in records :: Some(k) !in r.clusters
  {
    ClaimantIsLast(records, k);
    if i: int :| LastToName(records, k, i) {
      assert records[i] in records;
    }
  }

  lemma {:induction false} StaleMeans(live: set<string>, records: seq<LabRecord>, o: Orphan)
    ensures o in StaleAmong(live, records) <==>
            o.StaleRecordOnly? && o.lab !in live && exists r :: r in records && r.lab == o.lab
  {
    if records != [] {
      LastOrBefore(records);
      StaleMeans(live, records[..|records| - 1], o);
    }
  }

  /**
    Reported are the containers named like a lab's that are no lab's, the live
    clusters no record names, and the labs of which there is a record and nothing
    else; and nothing besides.
   */
  lemma OrphansExactly(facts: HostFacts, o: Orphan)
    ensures o in InventoryOf(facts).orphans <==>
            match o
            case UnattributedContainer(name, published) =>
              exists c :: c in facts.containers && c.name == name && c.published == published
                          && CONTAINER_PREFIX <= c.name && forall lab :: !IsOf(c, lab)
            case UnknownK3dCluster(name) =>
              name in facts.k3dClusters && forall r | r in facts.records :: Some(name) !in r.clusters
            case StaleRecordOnly(lab) =>
              && (exists r :: r in facts.records && r.lab == lab)
              && !HasContainer(facts, lab) && !HasCluster(facts, lab)
  {
    UnattributedMeans(facts.containers, o);
    UnknownMeans(facts.records, facts.k3dClusters, o);
    StaleMeans(LiveLabs(facts), facts.records, o);
    if o.StaleRecordOnly? {
      LiveLabsMeans(facts, o.lab);
      OwnContainer(facts.containers, o.lab);
      OwnCluster(facts.records, facts.k3dClusters, o.lab);
    }
  }
}
