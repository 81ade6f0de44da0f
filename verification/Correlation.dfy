/**
  `correlate` of cli/src/domain/inventory.rs: the passes that build the lab map,
  proved to find what each lab has.

  Each pass keeps, for every lab at once, the facts gathered so far; `Progress`
  says what those are, from the containers, clusters and records already seen.
 */
module Correlation {
  import opened Prelude
  import opened Ordering
  import opened HostInventory

  /// What the passes are to find

  function ContainerLabs(cs: seq<ContainerFact>): set<string> {
    if cs == [] then {}
    else
      var init, c := cs[..|cs| - 1], cs[|cs| - 1];
      ContainerLabs(init) + (if AttributedTo(c).Some? then {AttributedTo(c).value.0} else {})
  }

  function ClaimingLabs(records: seq<LabRecord>, clusters: seq<string>): set<string> {
    if clusters == [] then {}
    else
      var init, k := clusters[..|clusters| - 1], clusters[|clusters| - 1];
      ClaimingLabs(records, init) + (if Claimant(records, k).Some? then {Claimant(records, k).value} else {})
  }

  function LiveLabs(facts: HostFacts): set<string> {
    ContainerLabs(facts.containers) + ClaimingLabs(facts.records, facts.k3dClusters)
  }

  lemma {:induction false} ContainerLabsMeans(cs: seq<ContainerFact>, lab: string)
    ensures lab in ContainerLabs(cs) <==> ContainersOf(cs, lab) != []
  {
    if cs != [] {
      ContainerLabsMeans(cs[..|cs| - 1], lab);
    }
  }

  lemma {:induction false} ClaimingLabsMeans(records: seq<LabRecord>, clusters: seq<string>, lab: string)
    ensures lab in ClaimingLabs(records, clusters) <==> ClustersOf(records, clusters, lab) != []
  {
    if clusters != [] {
      ClaimingLabsMeans(records, clusters[..|clusters| - 1], lab);
    }
  }

  lemma LiveLabsMeans(facts: HostFacts, lab: string)
    ensures lab in LiveLabs(facts) <==> Live(facts, lab)
  {
    ContainerLabsMeans(facts.containers, lab);
    ClaimingLabsMeans(facts.records, facts.k3dClusters, lab);
  }

  function Each<T>(names: seq<string>, f: string -> T): (each: seq<T>)
    ensures |each| == |names| && forall i | 0 <= i < |names| :: each[i] == f(names[i])
  {
    seq(|names|, i requires 0 <= i < |names| => f(names[i]))
  }

  /** The live labs in name order, each with all its facts, and what no lab claims. */
  function InventoryOf(facts: HostFacts): Inventory {
    var names := Keys(LiveLabs(facts));
    Inventory(
      facts.dockerReachable,
      Each(names, (n: string) => LabView(facts, n)),
      UnattributedAmong(facts.containers)
      + UnknownAmong(facts.records, facts.k3dClusters)
      + StaleAmong(LiveLabs(facts), facts.records))
  }

  /// The state the passes keep

  datatype Building = Building(
    origin: Origin, containers: seq<string>, k3dClusters: seq<string>, hasRecord: bool, attributions: set<Attribution>)

  const EMPTY := Building(Unknown, [], [], false, {})

  type Labs = map<string, Building>

  function Entry(labs: Labs, lab: string): Building {
    if lab in labs then labs[lab] else EMPTY
  }

  /** What is known of a lab from some of the containers, of the live clusters and of the records. */
  function Progress(
    cs: seq<ContainerFact>, records: seq<LabRecord>, clusters: seq<string>, seen: seq<LabRecord>, lab: string): Building
  {
    var owned := ClustersOf(records, clusters, lab);
    Building(
      MergeAll(ContainerFlakes(cs, lab) + RecordFlakes(seen, lab)),
      ContainersOf(cs, lab),
      owned,
      HasRecord(seen, lab),
      Ways(cs, lab) + (if HasRecord(seen, lab) || owned != [] then {Recorded} else {}))
  }

  function WithFlake(b: Building, flake: Option<string>): Building {
    if flake.None? then b else b.(origin := MergeOrigin(b.origin, flake.value))
  }

  function WithContainer(b: Building, c: ContainerFact, how: Attribution): Building {
    WithFlake(
      b.(containers := b.containers + [c.name], attributions := b.attributions + {how}), FlakeOf(c.labels))
  }

  function WithCluster(b: Building, cluster: string): Building {
    b.(k3dClusters := b.k3dClusters + [cluster], attributions := b.attributions + {Recorded})
  }

  function WithRecord(b: Building, r: LabRecord): Building {
    WithFlake(
      b.(hasRecord := true, attributions := b.attributions + {Recorded}),
      if r.flake == "" then None else Some(r.flake))
  }

  lemma MergeOneMore(flakes: seq<string>, more: seq<string>, flake: string)
    ensures MergeAll(flakes + (more + [flake])) == MergeOrigin(MergeAll(flakes + more), flake)
  {
    var all := flakes + (more + [flake]);
    assert all[..|all| - 1] == flakes + more;
  }

  lemma ContainerStep(cs: seq<ContainerFact>, c: ContainerFact, records: seq<LabRecord>, lab: string)
    ensures Progress(cs + [c], records, [], [], lab) ==
            if BelongsTo(c, lab) then WithContainer(Progress(cs, records, [], [], lab), c, AttributedTo(c).value.1)
            else Progress(cs, records, [], [], lab)
  {
    assert (cs + [c])[..|cs|] == cs;
    var before := ContainerFlakes(cs, lab);
    assert before + [] == before;
    assert ContainerFlakes(cs + [c], lab) + [] == ContainerFlakes(cs + [c], lab);
    if FlakeOf(c.labels).Some? {
      MergeOneMore(before, [], FlakeOf(c.labels).value);
      assert [] + [FlakeOf(c.labels).value] == [FlakeOf(c.labels).value];
    }
  }

  lemma ClusterStep(cs: seq<ContainerFact>, records: seq<LabRecord>, clusters: seq<string>, k: string, lab: string)
    ensures Progress(cs, records, clusters + [k], [], lab) ==
            if Claimant(records, k) == Some(lab) then WithCluster(Progress(cs, records, clusters, [], lab), k)
            else Progress(cs, records, clusters, [], lab)
  {
    assert (clusters + [k])[..|clusters|] == clusters;
  }

  lemma HasRecordStep(seen: seq<LabRecord>, r: LabRecord, lab: string)
    ensures HasRecord(seen + [r], lab) <==> HasRecord(seen, lab) || r.lab == lab
  {
    var all := seen + [r];
    assert all[|seen|] == r && forall i | 0 <= i < |seen| :: all[i] == seen[i];
  }

  lemma RecordStep(
    cs: seq<ContainerFact>, records: seq<LabRecord>, clusters: seq<string>, seen: seq<LabRecord>, r: LabRecord, lab: string)
    ensures Progress(cs, records, clusters, seen + [r], lab) ==
            if r.lab == lab then WithRecord(Progress(cs, records, clusters, seen, lab), r)
            else Progress(cs, records, clusters, seen, lab)
  {
    assert (seen + [r])[..|seen|] == seen;
    HasRecordStep(seen, r, lab);
    MergeOneMore(ContainerFlakes(cs, lab), RecordFlakes(seen, lab), r.flake);
    assert RecordFlakes(seen, lab) + [] == RecordFlakes(seen, lab);
  }

  /** Every lab, known or not, has its facts so far. */
  ghost predicate Tracks(
    labs: Labs, cs: seq<ContainerFact>, records: seq<LabRecord>, clusters: seq<string>)
  {
    forall n :: Entry(labs, n) == Progress(cs, records, clusters, [], n)
  }

  lemma TrackContainer(labs: Labs, cs: seq<ContainerFact>, c: ContainerFact, records: seq<LabRecord>)
    requires Tracks(labs, cs, records, [])
    ensures AttributedTo(c).None? ==> Tracks(labs, cs + [c], records, [])
    ensures AttributedTo(c).Some? ==>
              var (lab, how) := AttributedTo(c).value;
              Tracks(labs[lab := WithContainer(Entry(labs, lab), c, how)], cs + [c], records, [])
  {
    forall n { ContainerStep(cs, c, records, n); }
  }

  lemma TrackCluster(labs: Labs, cs: seq<ContainerFact>, records: seq<LabRecord>, clusters: seq<string>, k: string)
    requires Tracks(labs, cs, records, clusters)
    ensures Claimant(records, k).None? ==> Tracks(labs, cs, records, clusters + [k])
    ensures Claimant(records, k).Some? ==>
              var lab := Claimant(records, k).value;
              Tracks(labs[lab := WithCluster(Entry(labs, lab), k)], cs, records, clusters + [k])
  {
    forall n { ClusterStep(cs, records, clusters, k, n); }
  }

  /** The labs known, and only they, have their facts from the records seen. */
  ghost predicate Records(labs: Labs, facts: HostFacts, seen: seq<LabRecord>) {
    forall n | n in labs :: labs[n] == Progress(facts.containers, facts.records, facts.k3dClusters, seen, n)
  }

  lemma TrackRecord(labs: Labs, facts: HostFacts, seen: seq<LabRecord>, r: LabRecord)
    requires Records(labs, facts, seen)
    ensures r.lab !in labs ==> Records(labs, facts, seen + [r])
    ensures r.lab in labs ==> Records(labs[r.lab := WithRecord(labs[r.lab], r)], facts, seen + [r])
  {
    forall n { RecordStep(facts.containers, facts.records, facts.k3dClusters, seen, r, n); }
  }

  /// The passes

  method AttributeContainers(cs: seq<ContainerFact>, records: seq<LabRecord>) returns (labs: Labs, orphans: seq<Orphan>)
    ensures labs.Keys == ContainerLabs(cs)
    ensures Tracks(labs, cs, records, [])
    ensures orphans == UnattributedAmong(cs)
  {
    labs, orphans := map[], [];
    for i := 0 to |cs|
      invariant labs.Keys == ContainerLabs(cs[..i])
      invariant Tracks(labs, cs[..i], records, [])
      invariant orphans == UnattributedAmong(cs[..i])
    {
      var c := cs[i];
      assert cs[..i + 1] == cs[..i] + [c] && cs[..i + 1][..i] == cs[..i];
      TrackContainer(labs, cs[..i], c, records);
      var attributed := AttributedTo(c);
      if attributed.None? {
        if CONTAINER_PREFIX <= c.name {
          orphans := orphans + [UnattributedContainer(c.name, c.published)];
        }
        continue;
      }
      var (lab, how) := attributed.value;
      labs := labs[lab := WithContainer(Entry(labs, lab), c, how)];
    }
    assert cs[..|cs|] == cs;
  }

  function Claimed(claims: map<string, string>, cluster: string): Option<string> {
    if cluster in claims then Some(claims[cluster]) else None
  }

  /** Later records overwrite earlier ones. */
  method ClaimClusters(records: seq<LabRecord>) returns (claims: map<string, string>)
    ensures forall k :: Claimed(claims, k) == Claimant(records, k)
  {
    claims := map[];
    for i := 0 to |records|
      invariant forall k :: Claimed(claims, k) == Claimant(records[..i], k)
    {
      var r := records[i];
      assert records[..i + 1][..i] == records[..i];
      for j := 0 to |r.clusters|
        invariant forall k :: Claimed(claims, k) ==
                    if Some(k) in r.clusters[..j] then Some(r.lab) else Claimant(records[..i], k)
      {
        assert r.clusters[..j + 1] == r.clusters[..j] + [r.clusters[j]];
        if r.clusters[j].Some? {
          claims := claims[r.clusters[j].value := r.lab];
        }
      }
      assert r.clusters[..|r.clusters|] == r.clusters;
    }
    assert records[..|records|] == records;
  }

  lemma UnknownNext(records: seq<LabRecord>, ks: seq<string>, k: string)
    ensures UnknownAmong(records, ks + [k])
            == UnknownAmong(records, ks) + (if Claimant(records, k).Some? then [] else [UnknownK3dCluster(k)])
  {
    assert (ks + [k])[..|ks|] == ks;
  }

  lemma ClaimingNext(records: seq<LabRecord>, ks: seq<string>, k: string)
    ensures ClaimingLabs(records, ks + [k])
            == ClaimingLabs(records, ks) + (if Claimant(records, k).Some? then {Claimant(records, k).value} else {})
  {
    assert (ks + [k])[..|ks|] == ks;
  }

  /** What the second pass has, with these clusters seen. */
  ghost predicate Clustered(facts: HostFacts, known: set<string>, ks: seq<string>, labs: Labs, orphans: seq<Orphan>) {
    && labs.Keys == known + ClaimingLabs(facts.records, ks)
    && Tracks(labs, facts.containers, facts.records, ks)
    && orphans == UnknownAmong(facts.records, ks)
  }

  lemma ClusteredNext(
    facts: HostFacts, known: set<string>, ks: seq<string>, labs: Labs, orphans: seq<Orphan>, k: string)
    requires Clustered(facts, known, ks, labs, orphans)
    ensures match Claimant(facts.records, k)
            case Some(lab) => Clustered(facts, known, ks + [k], labs[lab := WithCluster(Entry(labs, lab), k)], orphans)
            case None => Clustered(facts, known, ks + [k], labs, orphans + [UnknownK3dCluster(k)])
  {
    UnknownNext(facts.records, ks, k);
    ClaimingNext(facts.records, ks, k);
    TrackCluster(labs, facts.containers, facts.records, ks, k);
  }

  method AttributeClusters(facts: HostFacts, labs0: Labs) returns (labs: Labs, orphans: seq<Orphan>)
    requires Tracks(labs0, facts.containers, facts.records, [])
    ensures labs.Keys == labs0.Keys + ClaimingLabs(facts.records, facts.k3dClusters)
    ensures Tracks(labs, facts.containers, facts.records, facts.k3dClusters)
    ensures orphans == UnknownAmong(facts.records, facts.k3dClusters)
  {
    var claims := ClaimClusters(facts.records);
    var ks := facts.k3dClusters;
    labs, orphans := labs0, [];
    for i := 0 to |ks|
      invariant Clustered(facts, labs0.Keys, ks[..i], labs, orphans)
    {
      var k := ks[i];
      assert ks[..i + 1] == ks[..i] + [k];
      assert Claimed(claims, k) == Claimant(facts.records, k);
      ClusteredNext(facts, labs0.Keys, ks[..i], labs, orphans, k);
      if k in claims {
        labs := labs[claims[k] := WithCluster(Entry(labs, claims[k]), k)];
      } else {
        orphans := orphans + [UnknownK3dCluster(k)];
      }
    }
    assert ks[..|ks|] == ks;
  }

  lemma StaleNext(live: set<string>, records: seq<LabRecord>, r: LabRecord)
    ensures StaleAmong(live, records + [r])
            == StaleAmong(live, records) + (if r.lab in live then [] else [StaleRecordOnly(r.lab)])
  {
    assert (records + [r])[..|records|] == records;
  }

  method AttributeRecords(facts: HostFacts, labs0: Labs) returns (labs: Labs, orphans: seq<Orphan>)
    requires Records(labs0, facts, [])
    ensures labs.Keys == labs0.Keys
    ensures Records(labs, facts, facts.records)
    ensures orphans == StaleAmong(labs0.Keys, facts.records)
  {
    var rs := facts.records;
    labs, orphans := labs0, [];
    for i := 0 to |rs|
      invariant labs.Keys == labs0.Keys
      invariant Records(labs, facts, rs[..i])
      invariant orphans == StaleAmong(labs0.Keys, rs[..i])
    {
      var r := rs[i];
      assert rs[..i + 1] == rs[..i] + [r];
      StaleNext(labs0.Keys, rs[..i], r);
      TrackRecord(labs, facts, rs[..i], r);
      if r.lab in labs {
        labs := labs[r.lab := WithRecord(labs[r.lab], r)];
      } else {
        orphans := orphans + [StaleRecordOnly(r.lab)];
      }
    }
    assert rs[..|rs|] == rs;
  }

  lemma TracksKnown(labs: Labs, facts: HostFacts)
    requires Tracks(labs, facts.containers, facts.records, facts.k3dClusters)
    ensures Records(labs, facts, [])
  {
    forall n | n in labs
      ensures labs[n] == Progress(facts.containers, facts.records, facts.k3dClusters, [], n)
    {
      assert Entry(labs, n) == labs[n];
    }
  }

  function Finish(networks: seq<string>, n: string, b: Building): RunningLab {
    RunningLab(n, b.origin, b.containers, b.k3dClusters,
      if n in networks then Some(n) else None, b.hasRecord, b.attributions)
  }

  lemma FinishedIsView(labs: Labs, facts: HostFacts, n: string)
    requires Records(labs, facts, facts.records) && n in labs
    ensures Finish(facts.networks, n, labs[n]) == LabView(facts, n)
  {
    OriginCountsFlakes(ContainerFlakes(facts.containers, n) + RecordFlakes(facts.records, n));
  }

  /** Each lab named, with the network of its name if there is one. */
  method Running(networks: seq<string>, labs: Labs, names: seq<string>) returns (running: seq<RunningLab>)
    requires forall n | n in names :: n in labs
    ensures |running| == |names|
    ensures forall j | 0 <= j < |names| :: running[j] == Finish(networks, names[j], labs[names[j]])
  {
    running := [];
    for i := 0 to |names|
      invariant |running| == i
      invariant forall j | 0 <= j < i :: running[j] == Finish(networks, names[j], labs[names[j]])
    {
      running := running + [Finish(networks, names[i], labs[names[i]])];
    }
  }

  lemma RunningIsViews(labs: Labs, facts: HostFacts, names: seq<string>, running: seq<RunningLab>)
    requires Records(labs, facts, facts.records) && forall n | n in names :: n in labs
    requires |running| == |names|
    requires forall j | 0 <= j < |running| :: running[j] == Finish(facts.networks, names[j], labs[names[j]])
    ensures running == Each(names, (n: string) => LabView(facts, n))
  {
    var f := (n: string) => LabView(facts, n);
    forall j | 0 <= j < |running| ensures running[j] == f(names[j]) {
      var n := names[j];
      FinishedIsView(labs, facts, n);
    }
  }

  method Correlate(facts: HostFacts) returns (inventory: Inventory)
    ensures inventory == InventoryOf(facts)
  {
    var labs0, unattributed := AttributeContainers(facts.containers, facts.records);
    var labs1, unknown := AttributeClusters(facts, labs0);
    TracksKnown(labs1, facts);
    var labs, stale := AttributeRecords(facts, labs1);
    var names := Keys(labs.Keys);
    var running := Running(facts.networks, labs, names);
    RunningIsViews(labs, facts, names, running);
    inventory := Inventory(facts.dockerReachable, running, unattributed + unknown + stale);
  }
}
