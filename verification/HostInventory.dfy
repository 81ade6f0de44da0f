/**
  What runs on this machine, worked out from local evidence: the reasoning of
  cli/src/domain/inventory.rs, with the labels of cli/src/domain/provenance.rs.
 */
module HostInventory {
  import opened Prelude
  import opened Sequences
  import opened Strings

  datatype ContainerFact = ContainerFact(
    name: string, running: bool, labels: map<string, string>, published: seq<nat>)

  /** A record's clusters are given by their k3d names, absent for other provisioners. */
  datatype LabRecord = LabRecord(lab: string, flake: string, clusters: seq<Option<string>>)

  datatype HostFacts = HostFacts(
    dockerReachable: bool, containers: seq<ContainerFact>, networks: seq<string>,
    k3dClusters: seq<string>, records: seq<LabRecord>)

  datatype Attribution = Labelled | NameShaped | Recorded

  datatype Origin = Unknown | One(flake: string) | Conflicting(flakes: seq<string>)

  datatype RunningLab = RunningLab(
    name: string, origin: Origin, containers: seq<string>, k3dClusters: seq<string>,
    network: Option<string>, hasRecord: bool, attributions: set<Attribution>)

  datatype Orphan =
    | UnattributedContainer(name: string, published: seq<nat>)
    | UnknownK3dCluster(name: string)
    | StaleRecordOnly(lab: string)

  datatype Inventory = Inventory(dockerReachable: bool, labs: seq<RunningLab>, orphans: seq<Orphan>)

  /// Names

  const SERVICE_SUFFIXES: seq<string> := ["ingress", "dns", "registry", "router"]
  const CONTAINER_PREFIX := "catallaxy-"

  function StripPrefix(s: string, prefix: string): (r: Option<string>)
    ensures r.Some? <==> prefix <= s
    ensures r.Some? ==> s == prefix + r.value
  {
    if prefix <= s then Some(s[|prefix|..]) else None
  }

  function StripSuffix(s: string, suffix: string): Option<string> {
    if |suffix| <= |s| && s[|s| - |suffix|..] == suffix then Some(s[..|s| - |suffix|]) else None
  }

  function LabBefore(rest: string, suffix: string): Option<string> {
    match StripSuffix(rest, suffix)
    case None => None
    case Some(head) =>
      match StripSuffix(head, "-")
      case None => None
      case Some(lab) => if lab == "" then None else Some(lab)
  }

  function FindLab(rest: string, suffixes: seq<string>): Option<string> {
    if suffixes == [] then None
    else
      var lab := LabBefore(rest, suffixes[0]);
      if lab.Some? then lab else FindLab(rest, suffixes[1..])
  }

  function LabFromContainerName(name: string): Option<string> {
    match StripPrefix(name, CONTAINER_PREFIX)
    case None => None
    case Some(rest) => FindLab(rest, SERVICE_SUFFIXES)
  }

  lemma LabBeforeMeans(rest: string, suffix: string, lab: string)
    ensures LabBefore(rest, suffix) == Some(lab) <==> lab != "" && rest == lab + ("-" + suffix)
  {
    assert (lab + "-") + suffix == lab + ("-" + suffix);
    if LabBefore(rest, suffix) == Some(lab) {
      var head := StripSuffix(rest, suffix).value;
    }
  }

  lemma {:induction false} FindLabMeans(rest: string, suffixes: seq<string>, lab: string)
    requires forall i | 0 <= i < |suffixes| :: '-' !in suffixes[i]
    ensures FindLab(rest, suffixes) == Some(lab) <==>
            lab != "" && exists i :: 0 <= i < |suffixes| && rest == lab + ("-" + suffixes[i])
    decreases |suffixes|
  {
    if suffixes != [] {
      LabBeforeMeans(rest, suffixes[0], lab);
      FindLabMeans(rest, suffixes[1..], lab);
      assert forall i | 0 < i < |suffixes| :: suffixes[i] == suffixes[1..][i - 1];
      var first := LabBefore(rest, suffixes[0]);
      if first.Some? && first != Some(lab) {
        LabBeforeMeans(rest, suffixes[0], first.value);
        forall i | 0 <= i < |suffixes| ensures rest != lab + ("-" + suffixes[i]) {
          if rest == lab + ("-" + suffixes[i]) {
            assert first.value + "-" + suffixes[0] == first.value + ("-" + suffixes[0]);
            assert lab + "-" + suffixes[i] == lab + ("-" + suffixes[i]);
            SplitsAtLast('-', first.value, suffixes[0], lab, suffixes[i]);
          }
        }
      }
    }
  }

  /** The name of a host service says its lab, dashes included, and nothing else says one. */
  lemma ContainerNameMeans(name: string, lab: string)
    ensures LabFromContainerName(name) == Some(lab) <==>
            lab != "" && exists i :: 0 <= i < |SERVICE_SUFFIXES|
                                     && name == CONTAINER_PREFIX + (lab + ("-" + SERVICE_SUFFIXES[i]))
  {
    var rest := StripPrefix(name, CONTAINER_PREFIX);
    if rest.Some? {
      FindLabMeans(rest.value, SERVICE_SUFFIXES, lab);
      forall i | 0 <= i < |SERVICE_SUFFIXES|
        ensures name == CONTAINER_PREFIX + (lab + ("-" + SERVICE_SUFFIXES[i]))
                <==> rest.value == lab + ("-" + SERVICE_SUFFIXES[i])
      {
        var other := lab + ("-" + SERVICE_SUFFIXES[i]);
        assert (CONTAINER_PREFIX + other)[|CONTAINER_PREFIX|..] == other;
      }
    }
  }

  /** The four services of a lab are known by their containers' names. */
  lemma ServicesAreNamed(lab: string)
    requires lab != ""
    ensures LabFromContainerName("catallaxy-" + (lab + "-ingress")) == Some(lab)
    ensures LabFromContainerName("catallaxy-" + (lab + "-dns")) == Some(lab)
    ensures LabFromContainerName("catallaxy-" + (lab + "-registry")) == Some(lab)
    ensures LabFromContainerName("catallaxy-" + (lab + "-router")) == Some(lab)
  {
    Services();
    ServiceIsNamed(lab, 0, "-ingress");
    ServiceIsNamed(lab, 1, "-dns");
    ServiceIsNamed(lab, 2, "-registry");
    ServiceIsNamed(lab, 3, "-router");
  }

  lemma Services()
    ensures CONTAINER_PREFIX == "catallaxy-" && |SERVICE_SUFFIXES| == 4
    ensures "-" + SERVICE_SUFFIXES[0] == "-ingress" && "-" + SERVICE_SUFFIXES[1] == "-dns"
    ensures "-" + SERVICE_SUFFIXES[2] == "-registry" && "-" + SERVICE_SUFFIXES[3] == "-router"
  {}

  lemma ServiceIsNamed(lab: string, i: nat, ending: string)
    requires lab != "" && i < |SERVICE_SUFFIXES| && ending == "-" + SERVICE_SUFFIXES[i]
    ensures LabFromContainerName(CONTAINER_PREFIX + (lab + ending)) == Some(lab)
  {
    ContainerNameMeans(CONTAINER_PREFIX + (lab + ending), lab);
  }

  /// Labels

  const LAB_LABEL := "catallaxy.io/lab"
  const FLAKE_LABEL := "catallaxy.io/flake"

  function NonEmpty(labels: map<string, string>, key: string): Option<string> {
    if key in labels && labels[key] != "" then Some(labels[key]) else None
  }

  function LabOf(labels: map<string, string>): Option<string> { NonEmpty(labels, LAB_LABEL) }

  function FlakeOf(labels: map<string, string>): Option<string> { NonEmpty(labels, FLAKE_LABEL) }

  /** The label is believed over the name. */
  function AttributedTo(c: ContainerFact): Option<(string, Attribution)> {
    match LabOf(c.labels)
    case Some(lab) => Some((lab, Labelled))
    case None =>
      match LabFromContainerName(c.name)
      case Some(lab) => Some((lab, NameShaped))
      case None => None
  }

  predicate BelongsTo(c: ContainerFact, lab: string) {
    AttributedTo(c).Some? && AttributedTo(c).value.0 == lab
  }

  predicate LabelSays(c: ContainerFact, lab: string) {
    lab != "" && LAB_LABEL in c.labels && c.labels[LAB_LABEL] == lab
  }

  predicate NameSays(c: ContainerFact, lab: string) {
    lab != "" && exists i | 0 <= i < |SERVICE_SUFFIXES| :: c.name == CONTAINER_PREFIX + (lab + ("-" + SERVICE_SUFFIXES[i]))
  }

  /** A container is the lab's its label names; the name of a service counts when the label is missing or empty. */
  lemma AttributionMeans(c: ContainerFact, lab: string, how: Attribution)
    ensures AttributedTo(c) == Some((lab, how)) <==>
            || (how == Labelled && LabelSays(c, lab))
            || (how == NameShaped && NameSays(c, lab) && forall other :: !LabelSays(c, other))
  {
    ContainerNameMeans(c.name, lab);
    if LabOf(c.labels).Some? {
      assert LabelSays(c, LabOf(c.labels).value);
    }
  }

  /// Origins

  function MergeOrigin(current: Origin, seen: string): Origin {
    match current
    case Unknown => One(seen)
    case One(existing) => if existing == seen then One(existing) else Conflicting([existing, seen])
    case Conflicting(all) => if seen in all then current else Conflicting(all + [seen])
  }

  function MergeAll(flakes: seq<string>): Origin {
    if flakes == [] then Unknown else MergeOrigin(MergeAll(flakes[..|flakes| - 1]), flakes[|flakes| - 1])
  }

  /** What an origin says about the flakes seen. */
  function OriginOf(distinct: seq<string>): Origin {
    if distinct == [] then Unknown else if |distinct| == 1 then One(distinct[0]) else Conflicting(distinct)
  }

  /** Merging flake by flake lists the distinct ones, in the order first seen. */
  lemma {:induction false} OriginCountsFlakes(flakes: seq<string>)
    ensures MergeAll(flakes) == OriginOf(Dedup(flakes))
  {
    if flakes != [] {
      var init, seen := flakes[..|flakes| - 1], flakes[|flakes| - 1];
      OriginCountsFlakes(init);
      DedupElements(init, seen);
      var before := Dedup(init);
      if |before| == 1 {
        assert before == [before[0]];
      }
    }
  }

  /// What each lab has, declaratively

  function ContainersOf(cs: seq<ContainerFact>, lab: string): seq<string> {
    if cs == [] then []
    else
      var init, c := cs[..|cs| - 1], cs[|cs| - 1];
      ContainersOf(init, lab) + (if BelongsTo(c, lab) then [c.name] else [])
  }

  function ContainerFlakes(cs: seq<ContainerFact>, lab: string): seq<string> {
    if cs == [] then []
    else
      var init, c := cs[..|cs| - 1], cs[|cs| - 1];
      ContainerFlakes(init, lab)
      + (if BelongsTo(c, lab) && FlakeOf(c.labels).Some? then [FlakeOf(c.labels).value] else [])
  }

  function Ways(cs: seq<ContainerFact>, lab: string): set<Attribution> {
    if cs == [] then {}
    else
      var init, c := cs[..|cs| - 1], cs[|cs| - 1];
      Ways(init, lab) + (if BelongsTo(c, lab) then {AttributedTo(c).value.1} else {})
  }

  predicate Names(record: LabRecord, cluster: string) { Some(cluster) in record.clusters }

  /** The lab whose record names the cluster; the last record to do so wins. */
  function Claimant(records: seq<LabRecord>, cluster: string): Option<string> {
    if records == [] then None
    else
      var last := records[|records| - 1];
      if Names(last, cluster) then Some(last.lab) else Claimant(records[..|records| - 1], cluster)
  }

  predicate LastToName(records: seq<LabRecord>, cluster: string, i: int) {
    && 0 <= i < |records| && Some(cluster) in records[i].clusters
    && forall j | i < j < |records| :: Some(cluster) !in records[j].clusters
  }

  lemma LastToNameNext(records: seq<LabRecord>, cluster: string, i: int)
    requires records != [] && LastToName(records[..|records| - 1], cluster, i)
    requires !Names(records[|records| - 1], cluster)
    ensures LastToName(records, cluster, i) && records[i] == records[..|records| - 1][i]
  {
    forall j | i < j < |records| ensures Some(cluster) !in records[j].clusters {
      assert j < |records| - 1 ==> records[j] == records[..|records| - 1][j];
    }
  }

  /** A claim is the last one made, and there is none only when no record names the cluster. */
  lemma {:induction false} ClaimantIsLast(records: seq<LabRecord>, cluster: string)
    ensures match Claimant(records, cluster)
            case Some(lab) => exists i :: LastToName(records, cluster, i) && records[i].lab == lab
            case None => forall i | 0 <= i < |records| :: Some(cluster) !in records[i].clusters
  {
    if records != [] {
      var init, last := records[..|records| - 1], |records| - 1;
      ClaimantIsLast(init, cluster);
      if Names(records[last], cluster) {
        assert LastToName(records, cluster, last);
      } else if Claimant(init, cluster).Some? {
        var i :| LastToName(init, cluster, i) && init[i].lab == Claimant(init, cluster).value;
        LastToNameNext(records, cluster, i);
      } else {
        assert forall i | 0 <= i < last :: records[i] == init[i];
      }
    }
  }

  function ClustersOf(records: seq<LabRecord>, clusters: seq<string>, lab: string): seq<string> {
    if clusters == [] then []
    else
      var init, k := clusters[..|clusters| - 1], clusters[|clusters| - 1];
      ClustersOf(records, init, lab) + (if Claimant(records, k) == Some(lab) then [k] else [])
  }

  function RecordFlakes(records: seq<LabRecord>, lab: string): seq<string> {
    if records == [] then []
    else
      var init, r := records[..|records| - 1], records[|records| - 1];
      RecordFlakes(init, lab) + (if r.lab == lab && r.flake != "" then [r.flake] else [])
  }

  predicate HasRecord(records: seq<LabRecord>, lab: string) {
    exists i | 0 <= i < |records| :: records[i].lab == lab
  }

  /** A lab runs here when a container or a live cluster is its own. */
  predicate Live(facts: HostFacts, lab: string) {
    ContainersOf(facts.containers, lab) != [] || ClustersOf(facts.records, facts.k3dClusters, lab) != []
  }

  function LabView(facts: HostFacts, lab: string): RunningLab {
    RunningLab(
      lab,
      OriginOf(Dedup(ContainerFlakes(facts.containers, lab) + RecordFlakes(facts.records, lab))),
      ContainersOf(facts.containers, lab),
      ClustersOf(facts.records, facts.k3dClusters, lab),
      if lab in facts.networks then Some(lab) else None,
      HasRecord(facts.records, lab),
      Ways(facts.containers, lab)
      + (if HasRecord(facts.records, lab) || ClustersOf(facts.records, facts.k3dClusters, lab) != []
         then {Recorded} else {}))
  }

  function UnattributedAmong(cs: seq<ContainerFact>): seq<Orphan> {
    if cs == [] then []
    else
      var init, c := cs[..|cs| - 1], cs[|cs| - 1];
      UnattributedAmong(init)
      + (if AttributedTo(c).None? && CONTAINER_PREFIX <= c.name then [UnattributedContainer(c.name, c.published)] else [])
  }

  function UnknownAmong(records: seq<LabRecord>, clusters: seq<string>): seq<Orphan> {
    if clusters == [] then []
    else
      var init, k := clusters[..|clusters| - 1], clusters[|clusters| - 1];
      UnknownAmong(records, init) + (if Claimant(records, k).None? then [UnknownK3dCluster(k)] else [])
  }

  function StaleAmong(live: set<string>, records: seq<LabRecord>): seq<Orphan> {
    if records == [] then []
    else
      var init, r := records[..|records| - 1], records[|records| - 1];
      StaleAmong(live, init) + (if r.lab in live then [] else [StaleRecordOnly(r.lab)])
  }
}
