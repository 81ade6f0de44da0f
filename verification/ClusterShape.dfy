/**
  What a cluster was built to be, compared with what is declared now
  (cli/src/domain/cluster_shape.rs).
 */
module ClusterShape {
  import opened Prelude
  import opened Sequences
  import opened Strings
  import Ordering

  const SCHEMA_VERSION: nat := 2

  datatype Shape = Shape(
    schemaVersion: nat, provisioner: string, controlPlanes: nat, workers: nat, distribution: string,
    version: string, podSubnet: string, serviceSubnet: string, image: Option<string>, network: Option<string>,
    noTraefik: bool, noServiceLb: bool, noFlannel: bool, noLocalStorage: bool,
    ports: seq<string>, extraApiServerArgs: seq<string>, extraVolumes: seq<string>,
    autoDeployManifests: seq<string>)

  datatype Fix =
    | AddWorkers(n: nat)
    | AddServers(n: nat)
    | ReplaceNode
    | ReplaceLoadBalancer
    | RebuildOnly
    | NewCluster

  /** An option, whether it drifted, and what would bring it back. */
  datatype Field = Field(option: string, drifted: bool, fix: Fix)

  type DriftReport = seq<Field>

  /// Comparing

  function Compare<T(==)>(option: string, declared: T, recorded: T, fix: Fix): Field {
    Field(option, declared != recorded, fix)
  }

  /** Growing adds nodes; shrinking needs a new cluster. */
  function CompareCounts(option: string, declared: nat, recorded: nat, grow: nat -> Fix): Field {
    Compare(option, declared, recorded, if declared > recorded then grow(declared - recorded) else NewCluster)
  }

  const UNSET := "(unset)"
  const NO_ELEMENTS := "(none)"
  const LIST_SEPARATOR := ", "

  function ShowOpt(v: Option<string>): string {
    match v case Some(s) => s case None => UNSET
  }

  function ShowList(v: seq<string>): string {
    if v == [] then NO_ELEMENTS else "[" + (JoinWith(LIST_SEPARATOR, v) + "]")
  }

  function CommonFields(d: Shape, r: Shape): seq<Field> {
    [Compare("cluster.provisioner", d.provisioner, r.provisioner, NewCluster),
     CompareCounts("cluster.kubernetes.controlPlanes", d.controlPlanes, r.controlPlanes, (n: nat) => AddServers(n)),
     CompareCounts("cluster.kubernetes.workers", d.workers, r.workers, (n: nat) => AddWorkers(n)),
     Compare("cluster.kubernetes.distribution", d.distribution, r.distribution, NewCluster),
     Compare("cluster.kubernetes.version", d.version, r.version, RebuildOnly),
     Compare("cluster.network.podSubnet", d.podSubnet, r.podSubnet, NewCluster),
     Compare("cluster.network.serviceSubnet", d.serviceSubnet, r.serviceSubnet, NewCluster)]
  }

  function K3dFields(d: Shape, r: Shape): seq<Field> {
    [Compare("provisioner.k3d.image", ShowOpt(d.image), ShowOpt(r.image), ReplaceNode),
     Compare("provisioner.k3d.network", ShowOpt(d.network), ShowOpt(r.network), NewCluster),
     Compare("provisioner.k3d.noTraefik", d.noTraefik, r.noTraefik, ReplaceNode),
     Compare("provisioner.k3d.noServiceLB", d.noServiceLb, r.noServiceLb, ReplaceNode),
     Compare("provisioner.k3d.noFlannel", d.noFlannel, r.noFlannel, ReplaceNode),
     Compare("provisioner.k3d.noLocalStorage", d.noLocalStorage, r.noLocalStorage, ReplaceNode),
     Compare("provisioner.k3d.ports", ShowList(d.ports), ShowList(r.ports), ReplaceLoadBalancer),
     Compare("provisioner.k3d.extraApiServerArgs", ShowList(d.extraApiServerArgs), ShowList(r.extraApiServerArgs), ReplaceNode),
     Compare("provisioner.k3d.extraVolumes", ShowList(d.extraVolumes), ShowList(r.extraVolumes), ReplaceNode),
     Compare("provisioner.k3d.autoDeployManifests", ShowList(d.autoDeployManifests), ShowList(r.autoDeployManifests), ReplaceNode)]
  }

  predicate IsK3d(shape: Shape) { shape.provisioner == "k3d" }

  function CompareShapes(declared: Shape, recorded: Shape): DriftReport {
    CommonFields(declared, recorded) + (if IsK3d(declared) then K3dFields(declared, recorded) else [])
  }

  predicate IsClean(report: DriftReport) {
    forall i | 0 <= i < |report| :: !report[i].drifted
  }

  /// Fixes

  function Rank(fix: Fix): nat {
    match fix
    case AddWorkers(_) => 0
    case AddServers(_) => 0
    case RebuildOnly => 0
    case ReplaceLoadBalancer => 1
    case ReplaceNode => 2
    case NewCluster => 3
  }

  const CHEAPER: (Fix, Fix) -> bool := (a: Fix, b: Fix) => Rank(a) <= Rank(b)

  function CalledFor(report: DriftReport): seq<Fix> {
    if report == [] then []
    else
      CalledFor(report[..|report| - 1])
      + (if report[|report| - 1].drifted then [report[|report| - 1].fix] else [])
  }

  /** Every fix the drifted fields call for, once, cheapest first. */
  function FixesOf(report: DriftReport): seq<Fix> {
    Ordering.Sort(CHEAPER, Dedup(CalledFor(report)))
  }

  method Fixes(report: DriftReport) returns (out: seq<Fix>)
    ensures out == FixesOf(report)
  {
    out := [];
    for i := 0 to |report|
      invariant out == Dedup(CalledFor(report[..i]))
    {
      var called := CalledFor(report[..i]);
      assert report[..i + 1][..i] == report[..i];
      if report[i].drifted {
        DedupElements(called, report[i].fix);
        assert (called + [report[i].fix])[..|called|] == called;
        if report[i].fix !in out {
          out := out + [report[i].fix];
        }
      } else {
        assert called + [] == called;
      }
    }
    assert report[..|report|] == report;
    out := Ordering.Sort(CHEAPER, out);
  }

  predicate Calls(report: DriftReport, fix: Fix) {
    exists i :: 0 <= i < |report| && report[i].drifted && report[i].fix == fix
  }

  lemma {:induction false} CalledForMeans(report: DriftReport, fix: Fix)
    ensures fix in CalledFor(report) <==> Calls(report, fix)
  {
    if report != [] {
      var init, last := report[..|report| - 1], |report| - 1;
      CalledForMeans(init, fix);
      assert forall i | 0 <= i < last :: init[i] == report[i];
      if report[last].drifted && report[last].fix == fix {
        assert Calls(report, fix);
      }
      if Calls(init, fix) {
        var i :| 0 <= i < |init| && init[i].drifted && init[i].fix == fix;
        assert report[i] == init[i];
      }
    }
  }

  lemma FixesMean(report: DriftReport, fix: Fix)
    ensures fix in FixesOf(report) <==> Calls(report, fix)
    ensures multiset(FixesOf(report)) == multiset(Dedup(CalledFor(report)))
  {
    var fixes := Dedup(CalledFor(report));
    CalledForMeans(report, fix);
    DedupElements(CalledFor(report), fix);
    Ordering.SortPermutes(CHEAPER, fixes);
    assert fix in fixes <==> fix in multiset(fixes);
    assert fix in FixesOf(report) <==> fix in multiset(FixesOf(report));
  }

  function WorkersToAdd(report: DriftReport): Option<nat> {
    var fixes := FixesOf(report);
    if |fixes| == 1 && fixes[0].AddWorkers? then Some(fixes[0].n) else None
  }

  predicate IsConvergeableInPlace(report: DriftReport) {
    !IsClean(report) && forall fix | fix in FixesOf(report) :: !fix.NewCluster?
  }

  /** In place exactly when something drifted and nothing that did needs a new cluster. */
  lemma InPlaceMeans(report: DriftReport)
    ensures IsConvergeableInPlace(report) <==>
            (exists i :: 0 <= i < |report| && report[i].drifted) && !Calls(report, NewCluster)
  {
    FixesMean(report, NewCluster);
  }

  /// Clean reports

  /** No element can be taken for two. */
  predicate Unambiguous(v: seq<string>) {
    forall i | 0 <= i < |v| :: !Contains(v[i], LIST_SEPARATOR)
  }

  predicate CommaSpaceAt(s: string, i: nat) {
    i + 1 < |s| && s[i] == ',' && s[i + 1] == ' '
  }

  lemma SeparatorIsCommaSpace(s: string, i: nat)
    ensures StandsAt(s, LIST_SEPARATOR, i) <==> CommaSpaceAt(s, i)
  {
    if i + 2 <= |s| {
      assert s[i..i + 2] == [s[i], s[i + 1]];
    }
  }

  lemma NoCommaSpace(a: string)
    requires !Contains(a, LIST_SEPARATOR)
    ensures forall i | 0 <= i < |a| :: !CommaSpaceAt(a, i)
  {
    ContainsMeans(a, LIST_SEPARATOR);
    forall i | 0 <= i < |a| ensures !CommaSpaceAt(a, i) {
      SeparatorIsCommaSpace(a, i);
    }
  }

  lemma UnambiguousEnds(a: string)
    requires !Contains(a, LIST_SEPARATOR)
    ensures EndsAtSeparator(a, LIST_SEPARATOR)
  {
    var s := a + LIST_SEPARATOR;
    NoCommaSpace(a);
    forall i: nat | i < |a| ensures !StandsAt(s, LIST_SEPARATOR, i) {
      SeparatorIsCommaSpace(s, i);
      assert !CommaSpaceAt(a, i);
    }
  }

  lemma NotJoined(a: string, b: string, y: string)
    requires !Contains(a, LIST_SEPARATOR)
    ensures a != b + (LIST_SEPARATOR + y)
  {
    NoCommaSpace(a);
    assert CommaSpaceAt(b + (LIST_SEPARATOR + y), |b|);
  }

  lemma {:induction false} JoinIsInjective(a: seq<string>, b: seq<string>)
    requires a != [] && b != [] && Unambiguous(a) && Unambiguous(b)
    requires JoinWith(LIST_SEPARATOR, a) == JoinWith(LIST_SEPARATOR, b)
    ensures a == b
    decreases |a|
  {
    if |a| == 1 && |b| > 1 {
      NotJoined(a[0], b[0], JoinWith(LIST_SEPARATOR, b[1..]));
    } else if |a| > 1 && |b| == 1 {
      NotJoined(b[0], a[0], JoinWith(LIST_SEPARATOR, a[1..]));
    } else if |a| > 1 {
      UnambiguousEnds(a[0]);
      UnambiguousEnds(b[0]);
      SplitsOneWay(a[0], JoinWith(LIST_SEPARATOR, a[1..]), b[0], JoinWith(LIST_SEPARATOR, b[1..]), LIST_SEPARATOR);
      JoinIsInjective(a[1..], b[1..]);
      assert a == [a[0]] + a[1..] && b == [b[0]] + b[1..];
    } else {
      assert a == [a[0]] && b == [b[0]];
    }
  }

  /** Shown lists tell unambiguous lists apart. */
  lemma ShowListIsInjective(a: seq<string>, b: seq<string>)
    requires Unambiguous(a) && Unambiguous(b)
    ensures ShowList(a) == ShowList(b) <==> a == b
  {
    if ShowList(a) == ShowList(b) {
      ShownParts(a, b);
      if a != [] {
        JoinIsInjective(a, b);
      }
    }
  }

  /** An element holding the separator reads as two, and the change goes unseen. */
  lemma SeparatorHidesAChange(x: string, y: string)
    ensures ShowList([x + (LIST_SEPARATOR + y)]) == ShowList([x, y])
  {
    assert [x, y][1..] == [y];
    assert JoinWith(LIST_SEPARATOR, [y]) == y;
    assert JoinWith(LIST_SEPARATOR, [x, y]) == x + (LIST_SEPARATOR + y);
  }

  /** Texts a report can tell apart: no element holds the separator, and nothing is called `(unset)`. */
  predicate Showable(s: Shape) {
    && Unambiguous(s.ports) && Unambiguous(s.extraApiServerArgs)
    && Unambiguous(s.extraVolumes) && Unambiguous(s.autoDeployManifests)
    && s.image != Some(UNSET) && s.network != Some(UNSET)
  }

  predicate SameCommon(d: Shape, r: Shape) {
    && d.provisioner == r.provisioner && d.controlPlanes == r.controlPlanes && d.workers == r.workers
    && d.distribution == r.distribution && d.version == r.version
    && d.podSubnet == r.podSubnet && d.serviceSubnet == r.serviceSubnet
  }

  predicate SameK3d(d: Shape, r: Shape) {
    && d.image == r.image && d.network == r.network && d.noTraefik == r.noTraefik && d.noServiceLb == r.noServiceLb
    && d.noFlannel == r.noFlannel && d.noLocalStorage == r.noLocalStorage && d.ports == r.ports
    && d.extraApiServerArgs == r.extraApiServerArgs && d.extraVolumes == r.extraVolumes
    && d.autoDeployManifests == r.autoDeployManifests
  }

  lemma CleanCommon(d: Shape, r: Shape)
    ensures IsClean(CommonFields(d, r)) <==> SameCommon(d, r)
  {
    var f := CommonFields(d, r);
    assert IsClean(f) ==> !f[0].drifted && !f[1].drifted && !f[2].drifted && !f[3].drifted && !f[4].drifted
                          && !f[5].drifted && !f[6].drifted;
  }

  /** The fields the report compares as texts, and the flags, are the same. */
  predicate ShownSame(d: Shape, r: Shape) {
    && ShowOpt(d.image) == ShowOpt(r.image) && ShowOpt(d.network) == ShowOpt(r.network)
    && d.noTraefik == r.noTraefik && d.noServiceLb == r.noServiceLb
    && d.noFlannel == r.noFlannel && d.noLocalStorage == r.noLocalStorage && ShowList(d.ports) == ShowList(r.ports)
    && ShowList(d.extraApiServerArgs) == ShowList(r.extraApiServerArgs)
    && ShowList(d.extraVolumes) == ShowList(r.extraVolumes)
    && ShowList(d.autoDeployManifests) == ShowList(r.autoDeployManifests)
  }

  lemma CleanK3d(d: Shape, r: Shape)
    ensures IsClean(K3dFields(d, r)) <==> ShownSame(d, r)
  {
    var f := K3dFields(d, r);
    assert IsClean(f) ==> !f[0].drifted && !f[1].drifted && !f[2].drifted && !f[3].drifted && !f[4].drifted
                          && !f[5].drifted && !f[6].drifted && !f[7].drifted && !f[8].drifted && !f[9].drifted;
  }

  lemma CleanParts(a: DriftReport, b: DriftReport)
    ensures IsClean(a + b) <==> IsClean(a) && IsClean(b)
  {
    assert forall i | 0 <= i < |a| :: (a + b)[i] == a[i];
    assert forall i | 0 <= i < |b| :: (a + b)[|a| + i] == b[i];
  }

  lemma CleanReport(d: Shape, r: Shape)
    ensures IsClean(CompareShapes(d, r)) <==> SameCommon(d, r) && (IsK3d(d) ==> ShownSame(d, r))
  {
    CleanCommon(d, r);
    CleanK3d(d, r);
    CleanParts(CommonFields(d, r), if IsK3d(d) then K3dFields(d, r) else []);
  }

  lemma ShowableShownSame(d: Shape, r: Shape)
    requires Showable(d) && Showable(r)
    ensures ShownSame(d, r) <==> SameK3d(d, r)
  {
    ShowListIsInjective(d.ports, r.ports);
    ShowListIsInjective(d.extraApiServerArgs, r.extraApiServerArgs);
    ShowListIsInjective(d.extraVolumes, r.extraVolumes);
    ShowListIsInjective(d.autoDeployManifests, r.autoDeployManifests);
  }

  /** A clean report means the compared fields are the same. */
  lemma CleanMeansSame(declared: Shape, recorded: Shape)
    requires IsK3d(declared) ==> Showable(declared) && Showable(recorded)
    ensures IsClean(CompareShapes(declared, recorded)) <==>
            SameCommon(declared, recorded) && (IsK3d(declared) ==> SameK3d(declared, recorded))
  {
    CleanReport(declared, recorded);
    if IsK3d(declared) {
      ShowableShownSame(declared, recorded);
    }
  }

  /// Changes a report cannot see

  /** A list no other list shows like. */
  ghost predicate ListIsTold(a: seq<string>) {
    forall b :: ShowList(a) == ShowList(b) ==> a == b
  }

  ghost predicate OptIsTold(a: Option<string>) {
    forall b :: ShowOpt(a) == ShowOpt(b) ==> a == b
  }

  lemma JoinOfOne(x: string)
    ensures JoinWith(LIST_SEPARATOR, [x]) == x
  {}

  /** A list shows like the one element its elements join to. */
  lemma ShownAsOne(a: seq<string>)
    requires a != []
    ensures ShowList([JoinWith(LIST_SEPARATOR, a)]) == ShowList(a)
  {
    JoinOfOne(JoinWith(LIST_SEPARATOR, a));
  }

  lemma ShownParts(a: seq<string>, b: seq<string>)
    requires ShowList(a) == ShowList(b)
    ensures a == [] <==> b == []
    ensures a != [] ==> JoinWith(LIST_SEPARATOR, a) == JoinWith(LIST_SEPARATOR, b)
  {
    assert NO_ELEMENTS[0] == '(';
    if a != [] && b != [] {
      var x, y := JoinWith(LIST_SEPARATOR, a), JoinWith(LIST_SEPARATOR, b);
      assert ShowList(a)[1..|x| + 1] == x && ShowList(b)[1..|y| + 1] == y;
    }
  }

  /** An element holding the separator shows like the two it stands between. */
  lemma ShownAsTwo(x: string) returns (b: seq<string>)
    requires Contains(x, LIST_SEPARATOR)
    ensures |b| == 2 && ShowList([x]) == ShowList(b)
  {
    ContainsMeans(x, LIST_SEPARATOR);
    var i: nat :| StandsAt(x, LIST_SEPARATOR, i);
    b := [x[..i], x[i + 2..]];
    assert x == x[..i] + (LIST_SEPARATOR + x[i + 2..]);
    SeparatorHidesAChange(x[..i], x[i + 2..]);
  }

  /** Exactly the lists of at most one element, itself without the separator, are told from every other. */
  lemma ToldLists(a: seq<string>)
    ensures ListIsTold(a) <==> |a| <= 1 && Unambiguous(a)
  {
    if |a| >= 2 {
      ShownAsOne(a);
    } else if !Unambiguous(a) {
      var b := ShownAsTwo(a[0]);
      assert a == [a[0]];
    } else {
      forall b | ShowList(a) == ShowList(b) ensures a == b {
        ShownParts(a, b);
        ToldFromLonger(a, b);
      }
    }
  }

  lemma ToldFromLonger(a: seq<string>, b: seq<string>)
    requires |a| <= 1 && Unambiguous(a) && (a == [] <==> b == [])
    requires a != [] ==> JoinWith(LIST_SEPARATOR, a) == JoinWith(LIST_SEPARATOR, b)
    ensures a == b
  {
    if |b| >= 2 {
      JoinOfOne(a[0]);
      assert a == [a[0]];
      NotJoined(a[0], b[0], JoinWith(LIST_SEPARATOR, b[1..]));
    } else if |b| == 1 {
      assert a == [a[0]] && b == [b[0]];
    }
  }

  /** An unset option shows like one set to the word for it. */
  lemma ToldOptions(a: Option<string>)
    ensures OptIsTold(a) <==> a.Some? && a.value != UNSET
  {
    assert ShowOpt(None) == ShowOpt(Some(UNSET));
  }

  /** Declared texts nothing else shows like. */
  predicate Told(s: Shape) {
    && |s.ports| <= 1 && Unambiguous(s.ports)
    && |s.extraApiServerArgs| <= 1 && Unambiguous(s.extraApiServerArgs)
    && |s.extraVolumes| <= 1 && Unambiguous(s.extraVolumes)
    && |s.autoDeployManifests| <= 1 && Unambiguous(s.autoDeployManifests)
    && s.image.Some? && s.image.value != UNSET && s.network.Some? && s.network.value != UNSET
  }

  ghost predicate EachIsTold(s: Shape) {
    && ListIsTold(s.ports) && ListIsTold(s.extraApiServerArgs)
    && ListIsTold(s.extraVolumes) && ListIsTold(s.autoDeployManifests)
    && OptIsTold(s.image) && OptIsTold(s.network)
  }

  lemma ToldMeans(s: Shape)
    ensures EachIsTold(s) <==> Told(s)
  {
    ToldLists(s.ports);
    ToldLists(s.extraApiServerArgs);
    ToldLists(s.extraVolumes);
    ToldLists(s.autoDeployManifests);
    ToldOptions(s.image);
    ToldOptions(s.network);
  }

  /** Every change to what is recorded, of a field the report compares, drifts. */
  ghost predicate NothingIsHidden(declared: Shape) {
    forall recorded :: IsClean(CompareShapes(declared, recorded)) ==>
      SameCommon(declared, recorded) && SameK3d(declared, recorded)
  }

  lemma HiddenChange(declared: Shape, recorded: Shape)
    requires IsK3d(declared) && SameCommon(declared, recorded)
    requires ShownSame(declared, recorded) && !SameK3d(declared, recorded)
    ensures !NothingIsHidden(declared)
  {
    CleanReport(declared, recorded);
  }

  lemma UntoldIsHidden(s: Shape)
    requires IsK3d(s) && !EachIsTold(s)
    ensures !NothingIsHidden(s)
  {
    if !ListIsTold(s.ports) {
      var b :| ShowList(s.ports) == ShowList(b) && s.ports != b;
      HiddenChange(s, s.(ports := b));
    } else if !ListIsTold(s.extraApiServerArgs) {
      var b :| ShowList(s.extraApiServerArgs) == ShowList(b) && s.extraApiServerArgs != b;
      HiddenChange(s, s.(extraApiServerArgs := b));
    } else if !ListIsTold(s.extraVolumes) {
      var b :| ShowList(s.extraVolumes) == ShowList(b) && s.extraVolumes != b;
      HiddenChange(s, s.(extraVolumes := b));
    } else if !ListIsTold(s.autoDeployManifests) {
      var b :| ShowList(s.autoDeployManifests) == ShowList(b) && s.autoDeployManifests != b;
      HiddenChange(s, s.(autoDeployManifests := b));
    } else if !OptIsTold(s.image) {
      var b :| ShowOpt(s.image) == ShowOpt(b) && s.image != b;
      HiddenChange(s, s.(image := b));
    } else {
      var b :| ShowOpt(s.network) == ShowOpt(b) && s.network != b;
      HiddenChange(s, s.(network := b));
    }
  }

  /** A clean report rules out every change exactly for the k3d declarations whose texts nothing else shows like. */
  lemma NothingIsHiddenExactlyWhenTold(declared: Shape)
    requires IsK3d(declared)
    ensures NothingIsHidden(declared) <==> Told(declared)
  {
    ToldMeans(declared);
    if EachIsTold(declared) {
      forall recorded | IsClean(CompareShapes(declared, recorded))
        ensures SameCommon(declared, recorded) && SameK3d(declared, recorded)
      {
        CleanReport(declared, recorded);
      }
    } else {
      UntoldIsHidden(declared);
    }
  }

  /** A shape never drifts from itself. */
  lemma NoDriftFromItself(shape: Shape)
    ensures IsClean(CompareShapes(shape, shape))
  {
    var c, k := CommonFields(shape, shape), K3dFields(shape, shape);
    assert IsClean(c) && IsClean(k);
    CleanParts(c, k);
    CleanParts(c, []);
  }

  /// The order of fixes

  lemma OneFixCalled(report: DriftReport, fix: Fix)
    ensures FixesOf(report) == [fix] <==> Calls(report, fix) && forall other | Calls(report, other) :: other == fix
  {
    var fixes := FixesOf(report);
    forall other ensures other in fixes <==> Calls(report, other) {
      FixesMean(report, other);
    }
    FixesMean(report, fix);
    DedupIsFirstOccurrences(CalledFor(report));
    OnlyOneLeft(Dedup(CalledFor(report)), fixes, fix);
  }

  lemma OnlyOneLeft(distinct: seq<Fix>, sorted: seq<Fix>, fix: Fix)
    requires Distinct(distinct) && multiset(sorted) == multiset(distinct)
    ensures sorted == [fix] <==> fix in sorted && forall other | other in sorted :: other == fix
  {
    assert |sorted| == |multiset(sorted)| == |multiset(distinct)| == |distinct|;
    assert forall x :: x in distinct <==> x in multiset(distinct);
    assert forall x :: x in sorted <==> x in multiset(sorted);
    if fix in sorted && forall other | other in sorted :: other == fix {
      DistinctWithin(distinct, [fix]);
      assert sorted == [fix];
    }
  }

  /** Replacing a node pauses it; the rest interrupts nothing. */
  predicate Interrupts(fix: Fix) {
    fix.ReplaceLoadBalancer? || fix.ReplaceNode? || fix.NewCluster?
  }

  /** Fixes come cheapest first: what interrupts nothing, the loadbalancer, the nodes, a new cluster. */
  lemma CheapestFirst(report: DriftReport, i: nat, j: nat)
    requires i < j < |FixesOf(report)|
    ensures var fixes := FixesOf(report);
            && (Interrupts(fixes[i]) ==> Interrupts(fixes[j]))
            && (fixes[i].ReplaceNode? || fixes[i].NewCluster? ==> !fixes[j].ReplaceLoadBalancer?)
            && (fixes[i].NewCluster? ==> fixes[j].NewCluster?)
  {
    Ordering.SortSorts(CHEAPER, Dedup(CalledFor(report)));
    assert CHEAPER(FixesOf(report)[i], FixesOf(report)[j]);
  }

  /// Which change calls for what

  /** Nothing short of a different cluster will do. */
  predicate NeedsNewCluster(d: Shape, r: Shape) {
    || d.provisioner != r.provisioner || d.distribution != r.distribution
    || d.podSubnet != r.podSubnet || d.serviceSubnet != r.serviceSubnet
    || d.controlPlanes < r.controlPlanes || d.workers < r.workers
    || (IsK3d(d) && ShowOpt(d.network) != ShowOpt(r.network))
  }

  /** What a node's container was started with has changed. */
  predicate NeedsNodes(d: Shape, r: Shape) {
    && IsK3d(d)
    && (|| ShowOpt(d.image) != ShowOpt(r.image)
        || d.noTraefik != r.noTraefik || d.noServiceLb != r.noServiceLb
        || d.noFlannel != r.noFlannel || d.noLocalStorage != r.noLocalStorage
        || ShowList(d.extraApiServerArgs) != ShowList(r.extraApiServerArgs)
        || ShowList(d.extraVolumes) != ShowList(r.extraVolumes)
        || ShowList(d.autoDeployManifests) != ShowList(r.autoDeployManifests))
  }

  predicate PortsMoved(d: Shape, r: Shape) {
    IsK3d(d) && ShowList(d.ports) != ShowList(r.ports)
  }

  /** The fix is what some change between the two shapes takes. */
  predicate Wanted(d: Shape, r: Shape, fix: Fix) {
    match fix
    case AddWorkers(n) => n > 0 && d.workers == r.workers + n
    case AddServers(n) => n > 0 && d.controlPlanes == r.controlPlanes + n
    case ReplaceNode => NeedsNodes(d, r)
    case ReplaceLoadBalancer => PortsMoved(d, r)
    case RebuildOnly => d.version != r.version
    case NewCluster => NeedsNewCluster(d, r)
  }

  lemma CallsAt(report: DriftReport, i: nat)
    requires i < |report| && report[i].drifted
    ensures Calls(report, report[i].fix)
  {}

  predicate FieldCalls(field: Field, fix: Fix) {
    field.drifted && field.fix == fix
  }

  lemma SevenCall(f: DriftReport, fix: Fix)
    requires |f| == 7
    ensures Calls(f, fix) <==>
            || FieldCalls(f[0], fix) || FieldCalls(f[1], fix) || FieldCalls(f[2], fix) || FieldCalls(f[3], fix)
            || FieldCalls(f[4], fix) || FieldCalls(f[5], fix) || FieldCalls(f[6], fix)
  {
    forall i | 0 <= i < 7 && f[i].drifted ensures Calls(f, f[i].fix) {
      CallsAt(f, i);
    }
  }

  lemma TenCall(f: DriftReport, fix: Fix)
    requires |f| == 10
    ensures Calls(f, fix) <==>
            || FieldCalls(f[0], fix) || FieldCalls(f[1], fix) || FieldCalls(f[2], fix) || FieldCalls(f[3], fix)
            || FieldCalls(f[4], fix) || FieldCalls(f[5], fix) || FieldCalls(f[6], fix) || FieldCalls(f[7], fix)
            || FieldCalls(f[8], fix) || FieldCalls(f[9], fix)
  {
    forall i | 0 <= i < 10 && f[i].drifted ensures Calls(f, f[i].fix) {
      CallsAt(f, i);
    }
  }

  lemma CallsParts(a: DriftReport, b: DriftReport, fix: Fix)
    ensures Calls(a + b, fix) <==> Calls(a, fix) || Calls(b, fix)
  {
    if i :| 0 <= i < |a| && a[i].drifted && a[i].fix == fix {
      assert (a + b)[i] == a[i];
    }
    if i :| 0 <= i < |b| && b[i].drifted && b[i].fix == fix {
      assert (a + b)[|a| + i] == b[i];
    }
  }

  /** What the fields of every provisioner call for. */
  predicate CommonlyWanted(d: Shape, r: Shape, fix: Fix) {
    match fix
    case AddWorkers(n) => n > 0 && d.workers == r.workers + n
    case AddServers(n) => n > 0 && d.controlPlanes == r.controlPlanes + n
    case RebuildOnly => d.version != r.version
    case NewCluster => NeedsNewCluster(d.(network := None), r.(network := None))
    case _ => false
  }

  lemma CommonCalls(d: Shape, r: Shape, fix: Fix)
    ensures Calls(CommonFields(d, r), fix) <==> CommonlyWanted(d, r, fix)
  {
    SevenCall(CommonFields(d, r), fix);
  }

  lemma K3dCalls(d: Shape, r: Shape, fix: Fix)
    requires IsK3d(d)
    ensures Calls(K3dFields(d, r), fix) <==>
            match fix
            case ReplaceNode => NeedsNodes(d, r)
            case ReplaceLoadBalancer => PortsMoved(d, r)
            case NewCluster => ShowOpt(d.network) != ShowOpt(r.network)
            case _ => false
  {
    TenCall(K3dFields(d, r), fix);
  }

  /** A report calls for a fix exactly when a change between the shapes takes it. */
  lemma CallsMean(d: Shape, r: Shape, fix: Fix)
    ensures Calls(CompareShapes(d, r), fix) <==> Wanted(d, r, fix)
  {
    CommonCalls(d, r, fix);
    CallsParts(CommonFields(d, r), if IsK3d(d) then K3dFields(d, r) else [], fix);
    if IsK3d(d) {
      K3dCalls(d, r, fix);
    }
  }

  /** Some compared field differs, as far as it is shown. */
  predicate Differ(d: Shape, r: Shape) {
    !SameCommon(d, r) || (IsK3d(d) && !ShownSame(d, r))
  }

  /** The worker count grew, and nothing else differs. */
  predicate WorkersAloneGrew(d: Shape, r: Shape) {
    d.workers > r.workers && !Differ(d, r.(workers := d.workers))
  }

  /** Workers to add, exactly when the worker count grew and nothing else differs, and as many as it grew by. */
  lemma WorkersAloneMeans(d: Shape, r: Shape)
    ensures WorkersToAdd(CompareShapes(d, r)) ==
            if WorkersAloneGrew(d, r) then Some(d.workers - r.workers) else None
  {
    var report := CompareShapes(d, r);
    if WorkersToAdd(report).Some? {
      var n := WorkersToAdd(report).value;
      assert FixesOf(report) == [AddWorkers(n)];
      OneFixCalled(report, AddWorkers(n));
      NothingElseWanted(d, r, AddWorkers(n));
    }
    if WorkersAloneGrew(d, r) {
      OnlyWorkersWanted(d, r);
    }
  }

  lemma NothingElseWanted(d: Shape, r: Shape, fix: Fix)
    requires fix.AddWorkers? && Wanted(d, r, fix)
    requires forall other | Calls(CompareShapes(d, r), other) :: other == fix
    ensures WorkersAloneGrew(d, r) && d.workers - r.workers == fix.n
  {
    CallsMean(d, r, NewCluster);
    CallsMean(d, r, ReplaceNode);
    CallsMean(d, r, ReplaceLoadBalancer);
    CallsMean(d, r, RebuildOnly);
    if d.controlPlanes > r.controlPlanes {
      CallsMean(d, r, AddServers(d.controlPlanes - r.controlPlanes));
    }
  }

  lemma OnlyWorkersWanted(d: Shape, r: Shape)
    requires WorkersAloneGrew(d, r)
    ensures WorkersToAdd(CompareShapes(d, r)) == Some(d.workers - r.workers)
  {
    var report, fix := CompareShapes(d, r), AddWorkers(d.workers - r.workers);
    CallsMean(d, r, fix);
    forall other | Calls(report, other) ensures other == fix {
      CallsMean(d, r, other);
    }
    OneFixCalled(report, fix);
  }
}
