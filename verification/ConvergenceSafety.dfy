/** What converging an existing cluster never does, and what it leaves behind. */
module ConvergenceSafety {
  import opened Prelude
  import opened Sequences
  import opened ClusterShape
  import opened Convergence

  /// Destruction

  lemma {:induction false} NoPanicWithoutNewCluster(world: World, fixes: seq<Fix>)
    requires forall fix | fix in fixes :: !fix.NewCluster?
    ensures PerformAll(world, fixes).1 != Some(Panicked)
  {
    if fixes != [] {
      NoPanicWithoutNewCluster(world, fixes[1..]);
    }
  }

  lemma NeverPanicsOn(st: State, declared: Shape, report: DriftReport, world: World, recreate: bool)
    ensures ConvergeOn(st, declared, report, world, recreate).1 != Err(Panicked)
  {
    if IsConvergeableInPlace(report) {
      NoPanicWithoutNewCluster(world, FixesOf(report));
    }
  }

  /** What drifted, when there is a record to compare with; else nothing will have. */
  function Drift(st: State, declared: Shape): DriftReport {
    match ReadShape(st.record)
    case Some(recorded) => CompareShapes(declared, recorded)
    case None => CompareShapes(declared, declared)
  }

  /** The arm for a new cluster is never reached. */
  lemma NeverPanics(st: State, declared: Shape, world: World, recreate: bool)
    ensures ConvergeSpec(st, declared, world, recreate).1 != Err(Panicked)
  {
    NeverPanicsOn(st, declared, Drift(st, declared), world, recreate);
    NeverPanicsOn(st.(record := Some(declared)), declared, Drift(st, declared), world, recreate);
  }

  lemma ConsentOn(st: State, declared: Shape, report: DriftReport, world: World)
    requires if IsK3d(declared) then Calls(report, NewCluster) else !IsClean(report)
    ensures ConvergeOn(st, declared, report, world, true) == (st, Ok(MustRecreate))
    ensures ConvergeOn(st, declared, report, world, false) == (st, Err(Refused))
  {
    InPlaceMeans(report);
    FixesMean(report, NewCluster);
    if WorkersToAdd(report).Some? {
      assert FixesOf(report) == [AddWorkers(WorkersToAdd(report).value)];
    }
  }

  /** More than this provisioner can make good on the cluster there is: for k3d a new cluster, for others any change. */
  predicate BeyondRepair(d: Shape, r: Shape) {
    if IsK3d(d) then NeedsNewCluster(d, r) else Differ(d, r)
  }

  lemma ReportMeans(d: Shape, r: Shape)
    ensures IsClean(CompareShapes(d, r)) <==> !Differ(d, r)
    ensures BeyondRepair(d, r) <==>
            if IsK3d(d) then Calls(CompareShapes(d, r), NewCluster) else !IsClean(CompareShapes(d, r))
  {
    CleanReport(d, r);
    CallsMean(d, r, NewCluster);
  }

  /**
    Exactly a cluster whose record differs beyond repair is recreated, with the
    flag, or refused, without it, and then nothing has been touched. One without
    a record is refused exactly when it does not answer as declared.
   */
  lemma RefusedExactly(st: State, declared: Shape, world: World, recreate: bool)
    ensures var (after, answer) := ConvergeSpec(st, declared, world, recreate);
            var readable := ReadShape(st.record).Some?;
            var beyond := readable && BeyondRepair(declared, ReadShape(st.record).value);
            && (answer == Ok(MustRecreate) <==> beyond && recreate)
            && (answer == Err(Refused) <==> (beyond && !recreate) || (!readable && !world.observedAgrees))
            && (answer == Ok(MustRecreate) || answer == Err(Refused) ==> after == st)
  {
    NoDriftFromItself(declared);
    if ReadShape(st.record).Some? {
      var report := Drift(st, declared);
      ReportMeans(declared, ReadShape(st.record).value);
      if BeyondRepair(declared, ReadShape(st.record).value) {
        ConsentOn(st, declared, report, world);
      } else {
        RepairableOn(st, declared, report, world, recreate);
      }
    }
  }

  lemma {:induction false} OnlyTheseFailures(world: World, fixes: seq<Fix>)
    ensures PerformAll(world, fixes).1 != Some(Refused)
  {
    if fixes != [] {
      OnlyTheseFailures(world, fixes[1..]);
    }
  }

  lemma RepairableOn(st: State, declared: Shape, report: DriftReport, world: World, recreate: bool)
    requires if IsK3d(declared) then !Calls(report, NewCluster) else IsClean(report)
    ensures ConvergeOn(st, declared, report, world, recreate).1 != Ok(MustRecreate)
    ensures ConvergeOn(st, declared, report, world, recreate).1 != Err(Refused)
  {
    InPlaceMeans(report);
    OnlyTheseFailures(world, FixesOf(report));
  }

  /// The record

  /** The record is one this version reads, and the declaration matches it. */
  predicate InLine(st: State, declared: Shape) {
    ReadShape(st.record).Some? && IsClean(CompareShapes(declared, ReadShape(st.record).value))
  }

  lemma UnchangedOn(st: State, declared: Shape, report: DriftReport, world: World, recreate: bool)
    requires ConvergeOn(st, declared, report, world, recreate).1 == Ok(Unchanged)
    ensures var after := ConvergeOn(st, declared, report, world, recreate).0;
            after.record == Some(declared) || (IsClean(report) && after == st)
  {}

  lemma UnchangedIsInLine(st: State, declared: Shape, world: World, recreate: bool)
    requires declared.schemaVersion == SCHEMA_VERSION
    requires ConvergeSpec(st, declared, world, recreate).1 == Ok(Unchanged)
    ensures InLine(ConvergeSpec(st, declared, world, recreate).0, declared)
  {
    NoDriftFromItself(declared);
    var known := if ReadShape(st.record).Some? then st else st.(record := Some(declared));
    UnchangedOn(known, declared, Drift(st, declared), world, recreate);
  }

  /** After a run that left the cluster in place, running again does nothing. */
  lemma ConvergingTwiceIsOnce(st: State, declared: Shape, world: World, world2: World, recreate: bool, recreate2: bool)
    requires declared.schemaVersion == SCHEMA_VERSION
    requires ConvergeSpec(st, declared, world, recreate).1 == Ok(Unchanged)
    ensures var after := ConvergeSpec(st, declared, world, recreate).0;
            ConvergeSpec(after, declared, world2, recreate2) == (after, Ok(Unchanged))
  {
    UnchangedIsInLine(st, declared, world, recreate);
  }

  /// The cluster

  /** Nodes are added, or replaced if they are not the loadbalancer. */
  predicate Gentle(actions: seq<Action>) {
    forall a | a in actions :: a.Replace? ==> !IsLoadBalancer(a.node)
  }

  lemma {:induction false} ReplacingIsGentle(world: World, fix: Fix, nodes: seq<string>)
    ensures Gentle(ReplaceEach(world, fix, nodes).actions)
  {
    if nodes != [] {
      ReplacingIsGentle(world, fix, nodes[1..]);
    }
  }

  lemma {:induction false} FixingIsGentle(world: World, fixes: seq<Fix>)
    ensures Gentle(PerformAll(world, fixes).0)
  {
    if fixes != [] {
      FixingIsGentle(world, fixes[1..]);
      ReplacingIsGentle(world, fixes[0], world.nodes(fixes[0]));
    }
  }

  /** The state only gains gentle actions. */
  predicate GentlyAfter(before: State, after: State) {
    before.actions <= after.actions && Gentle(after.actions[|before.actions|..])
  }

  lemma GentleOn(st: State, declared: Shape, report: DriftReport, world: World, recreate: bool)
    ensures GentlyAfter(st, ConvergeOn(st, declared, report, world, recreate).0)
  {
    FixingIsGentle(world, FixesOf(report));
    assert st.actions == st.actions + [];
    var done := PerformAll(world, FixesOf(report)).0;
    assert (st.actions + done)[|st.actions|..] == done;
    if WorkersToAdd(report).Some? {
      var added := [AddAgents(WorkersToAdd(report).value)];
      assert (st.actions + added)[|st.actions|..] == added;
    }
  }

  /** The loadbalancer is never replaced, not even when its ports are what drifted. */
  lemma LoadBalancerIsNeverReplaced(st: State, declared: Shape, world: World, recreate: bool)
    ensures GentlyAfter(st, ConvergeSpec(st, declared, world, recreate).0)
  {
    GentleOn(st, declared, Drift(st, declared), world, recreate);
    GentleOn(st.(record := Some(declared)), declared, Drift(st, declared), world, recreate);
  }

  lemma TouchedOn(st: State, declared: Shape, report: DriftReport, world: World, recreate: bool)
    requires ConvergeOn(st, declared, report, world, recreate).0.actions != st.actions
    ensures IsK3d(declared) && !IsClean(report) && !Calls(report, NewCluster)
  {
    InPlaceMeans(report);
    if Calls(report, NewCluster) {
      ConsentOn(st, declared, report, world);
    }
  }

  /** A cluster is acted on only if it is k3d, has a record, drifted, and needs no new cluster. */
  lemma TouchedOnlyInPlace(st: State, declared: Shape, world: World, recreate: bool)
    requires ConvergeSpec(st, declared, world, recreate).0.actions != st.actions
    ensures IsK3d(declared) && ReadShape(st.record).Some?
    ensures Differ(declared, ReadShape(st.record).value) && !NeedsNewCluster(declared, ReadShape(st.record).value)
  {
    NoDriftFromItself(declared);
    if ReadShape(st.record).Some? {
      ReportMeans(declared, ReadShape(st.record).value);
      CallsMean(declared, ReadShape(st.record).value, NewCluster);
    }
    TouchedOn(st, declared, Drift(st, declared), world, recreate);
  }

  /// Recorded, not applied

  /** Carrying the fix out meets no failure. */
  predicate FixSucceeds(world: World, fix: Fix) {
    match fix
    case AddServers(_) => world.serversAdded
    case AddWorkers(_) => world.agentsAdded
    case ReplaceLoadBalancer | ReplaceNode =>
      && world.upgradeIsOneStep
      && forall node | node in world.nodes(fix) && !IsLoadBalancer(node) :: world.replaced(fix, node)
    case RebuildOnly => true
    case NewCluster => false
  }

  lemma {:induction false} EachReplaced(world: World, fix: Fix, nodes: seq<string>)
    ensures ReplaceEach(world, fix, nodes).ok <==>
            forall node | node in nodes && !IsLoadBalancer(node) :: world.replaced(fix, node)
  {
    if nodes != [] {
      EachReplaced(world, fix, nodes[1..]);
      assert nodes == [nodes[0]] + nodes[1..];
    }
  }

  lemma PerformSucceeds(world: World, fix: Fix)
    ensures FixSucceeds(world, fix) <==> Perform(world, fix).Some? && Perform(world, fix).value.ok
  {
    EachReplaced(world, fix, world.nodes(fix));
  }

  lemma {:induction false} AllPerformed(world: World, fixes: seq<Fix>)
    ensures PerformAll(world, fixes).1 == None <==> forall fix | fix in fixes :: FixSucceeds(world, fix)
  {
    if fixes != [] {
      PerformSucceeds(world, fixes[0]);
      AllPerformed(world, fixes[1..]);
      assert fixes == [fixes[0]] + fixes[1..];
    }
  }

  /** The fixes a report lists are made, checked where they are checked, and recorded. */
  predicate Repaired(report: DriftReport, world: World) {
    && (forall i | 0 <= i < |report| && report[i].drifted :: FixSucceeds(world, report[i].fix))
    && (WorkersToAdd(report).Some? || world.confirmed)
    && world.recordWritten
  }

  /**
    Every change between the shapes is made good: nothing needs a new cluster,
    nodes that are missing can be added, nodes are replaced if what they were
    started with or the ports moved, the check passes unless workers alone were
    added, and the record is written.
   */
  predicate Repairs(d: Shape, r: Shape, world: World) {
    && !NeedsNewCluster(d, r)
    && (d.controlPlanes > r.controlPlanes ==> world.serversAdded)
    && (d.workers > r.workers ==> world.agentsAdded)
    && (NeedsNodes(d, r) ==> FixSucceeds(world, ReplaceNode))
    && (PortsMoved(d, r) ==> FixSucceeds(world, ReplaceLoadBalancer))
    && (WorkersAloneGrew(d, r) || world.confirmed)
    && world.recordWritten
  }

  lemma WantedSucceed(d: Shape, r: Shape, world: World)
    ensures (forall fix | Wanted(d, r, fix) :: FixSucceeds(world, fix)) <==>
            && !NeedsNewCluster(d, r)
            && (d.controlPlanes > r.controlPlanes ==> world.serversAdded)
            && (d.workers > r.workers ==> world.agentsAdded)
            && (NeedsNodes(d, r) ==> FixSucceeds(world, ReplaceNode))
            && (PortsMoved(d, r) ==> FixSucceeds(world, ReplaceLoadBalancer))
  {
    if forall fix | Wanted(d, r, fix) :: FixSucceeds(world, fix) {
      assert Wanted(d, r, NewCluster) ==> FixSucceeds(world, NewCluster);
      assert Wanted(d, r, ReplaceNode) ==> FixSucceeds(world, ReplaceNode);
      assert Wanted(d, r, ReplaceLoadBalancer) ==> FixSucceeds(world, ReplaceLoadBalancer);
      if d.controlPlanes > r.controlPlanes {
        assert Wanted(d, r, AddServers(d.controlPlanes - r.controlPlanes));
      }
      if d.workers > r.workers {
        assert Wanted(d, r, AddWorkers(d.workers - r.workers));
      }
    }
  }

  lemma RepairedMeans(d: Shape, r: Shape, world: World)
    ensures Repaired(CompareShapes(d, r), world) <==> Repairs(d, r, world)
  {
    var report := CompareShapes(d, r);
    CalledSucceed(report, world);
    forall fix ensures fix in FixesOf(report) <==> Wanted(d, r, fix) {
      FixesMean(report, fix);
      CallsMean(d, r, fix);
    }
    WantedSucceed(d, r, world);
    WorkersAloneMeans(d, r);
  }

  lemma CalledSucceed(report: DriftReport, world: World)
    ensures (forall fix | fix in FixesOf(report) :: FixSucceeds(world, fix)) <==>
            forall i | 0 <= i < |report| && report[i].drifted :: FixSucceeds(world, report[i].fix)
  {
    forall fix ensures fix in FixesOf(report) <==> Calls(report, fix) {
      FixesMean(report, fix);
    }
    forall i | 0 <= i < |report| && report[i].drifted ensures report[i].fix in FixesOf(report) {
      assert Calls(report, report[i].fix);
    }
  }

  lemma WorkersAlone(report: DriftReport, world: World)
    requires WorkersToAdd(report).Some?
    ensures (forall fix | fix in FixesOf(report) :: FixSucceeds(world, fix)) <==> world.agentsAdded
  {
    assert FixesOf(report) == [AddWorkers(WorkersToAdd(report).value)];
    assert FixesOf(report)[0] in FixesOf(report);
  }

  /** A k3d cluster that drifted is recorded as declared exactly when it is repaired. */
  lemma RecordedOn(st: State, declared: Shape, report: DriftReport, world: World, recreate: bool)
    requires IsK3d(declared) && !IsClean(report)
    ensures var (after, answer) := ConvergeOn(st, declared, report, world, recreate);
            && (Repaired(report, world) ==> after.record == Some(declared) && answer == Ok(Unchanged))
            && (!Repaired(report, world) ==> after.record == st.record)
  {
    CalledSucceed(report, world);
    if WorkersToAdd(report).Some? {
      WorkersAlone(report, world);
    } else {
      AllPerformed(world, FixesOf(report));
      if !IsConvergeableInPlace(report) {
        var fix :| fix in FixesOf(report) && fix.NewCluster?;
        assert !FixSucceeds(world, fix);
      }
    }
  }

  /** A record there is is rewritten by a repair; one there is not, by a live cluster that agrees. */
  predicate Records(st: State, declared: Shape, world: World) {
    match ReadShape(st.record)
    case Some(recorded) =>
      IsK3d(declared) && Differ(declared, recorded) && Repairs(declared, recorded, world)
    case None => world.observedAgrees && world.recordWritten
  }

  /** The record becomes the declaration in those cases, and in all others, failures among them, stays as it was. */
  lemma RecordedExactly(st: State, declared: Shape, world: World, recreate: bool)
    ensures var (after, answer) := ConvergeSpec(st, declared, world, recreate);
            && after.record == (if Records(st, declared, world) then Some(declared) else st.record)
            && (Records(st, declared, world) ==> answer == Ok(Unchanged))
  {
    NoDriftFromItself(declared);
    if ReadShape(st.record).Some? {
      ReportMeans(declared, ReadShape(st.record).value);
      RepairedMeans(declared, ReadShape(st.record).value, world);
      if IsK3d(declared) && !IsClean(Drift(st, declared)) {
        RecordedOn(st, declared, Drift(st, declared), world, recreate);
      }
    }
  }

  /**
    The declared ports are recorded as built, on a loadbalancer left as it was,
    exactly when they differ from the recorded ones, something drifted, and all
    that drifted is repaired.
   */
  lemma DriftedPortsAreRecordedUnapplied(st: State, declared: Shape, world: World, recreate: bool)
    requires IsK3d(declared) && ReadShape(st.record).Some?
    ensures var recorded := st.record.value;
            var after := ConvergeSpec(st, declared, world, recreate).0;
            after.record.Some? && GentlyAfter(st, after) &&
            (after.record.value.ports != recorded.ports <==>
             declared.ports != recorded.ports && Differ(declared, recorded) && Repairs(declared, recorded, world))
  {
    LoadBalancerIsNeverReplaced(st, declared, world, recreate);
    RecordedExactly(st, declared, world, recreate);
  }

  /** So ports that alone drifted are, when the other nodes are replaced and the check passes. */
  lemma PortsAloneAreRecordedUnapplied(st: State, declared: Shape, world: World, recreate: bool)
    requires ReadShape(st.record).Some?
    requires IsK3d(declared) && declared == st.record.value.(ports := declared.ports)
    requires ShowList(declared.ports) != ShowList(st.record.value.ports)
    requires FixSucceeds(world, ReplaceLoadBalancer) && world.confirmed && world.recordWritten
    ensures ConvergeSpec(st, declared, world, recreate).0.record == Some(declared)
    ensures ConvergeSpec(st, declared, world, recreate).1 == Ok(Unchanged)
  {
    RecordedExactly(st, declared, world, recreate);
  }

  /// What is done to a cluster in place

  /** How often an action is among those done. */
  function Count(actions: seq<Action>, a: Action): nat {
    multiset(actions)[a]
  }

  /** How often the fix does it, given the nodes there are. */
  function Times(world: World, fix: Fix, a: Action): nat {
    match fix
    case AddServers(n) => if a == AddControlPlanes(n) then 1 else 0
    case AddWorkers(n) => if a == AddAgents(n) then 1 else 0
    case ReplaceLoadBalancer | ReplaceNode =>
      if a.Replace? && !IsLoadBalancer(a.node) then multiset(world.nodes(fix))[a.node] else 0
    case RebuildOnly | NewCluster => 0
  }

  function TimesInAll(world: World, fixes: seq<Fix>, a: Action): nat {
    if fixes == [] then 0 else Times(world, fixes[0], a) + TimesInAll(world, fixes[1..], a)
  }

  lemma FirstCounts<T>(s: seq<T>, x: T)
    requires s != []
    ensures multiset(s)[x] == (if s[0] == x then 1 else 0) + multiset(s[1..])[x]
  {
    assert s == [s[0]] + s[1..];
  }

  /** How often the action replaces one of the nodes. */
  function TimesReplaced(nodes: seq<string>, a: Action): nat {
    if nodes == [] then 0
    else (if !IsLoadBalancer(nodes[0]) && a == Replace(nodes[0]) then 1 else 0) + TimesReplaced(nodes[1..], a)
  }

  lemma {:induction false} TimesReplacedMeans(nodes: seq<string>, a: Action)
    ensures TimesReplaced(nodes, a) == if a.Replace? && !IsLoadBalancer(a.node) then multiset(nodes)[a.node] else 0
  {
    if nodes != [] {
      TimesReplacedMeans(nodes[1..], a);
      if a.Replace? {
        FirstCounts(nodes, a.node);
      }
    }
  }

  lemma {:induction false} EachIsReplaced(world: World, fix: Fix, nodes: seq<string>, a: Action)
    ensures var done := ReplaceEach(world, fix, nodes);
            && Count(done.actions, a) <= TimesReplaced(nodes, a)
            && (done.ok ==> Count(done.actions, a) == TimesReplaced(nodes, a))
  {
    if nodes != [] {
      var rest := ReplaceEach(world, fix, nodes[1..]);
      EachIsReplaced(world, fix, nodes[1..], a);
      FirstCounts([Replace(nodes[0])] + rest.actions, a);
    }
  }

  lemma PerformDoes(world: World, fix: Fix, a: Action)
    requires !fix.NewCluster?
    ensures var done := Perform(world, fix).value;
            && Count(done.actions, a) <= Times(world, fix, a)
            && (done.ok ==> Count(done.actions, a) == Times(world, fix, a))
  {
    EachIsReplaced(world, fix, world.nodes(fix), a);
    TimesReplacedMeans(world.nodes(fix), a);
  }

  lemma {:induction false} PerformAllDoes(world: World, fixes: seq<Fix>, a: Action)
    requires forall fix | fix in fixes :: !fix.NewCluster?
    ensures var (done, failure) := PerformAll(world, fixes);
            && Count(done, a) <= TimesInAll(world, fixes, a)
            && (failure.None? ==> Count(done, a) == TimesInAll(world, fixes, a))
  {
    if fixes != [] {
      PerformDoes(world, fixes[0], a);
      PerformAllDoes(world, fixes[1..], a);
    }
  }

  function Repeated(k: nat, times: nat): nat {
    if k == 0 then 0 else times + Repeated(k - 1, times)
  }

  /** A fix that is listed does what it does; each is listed once. */
  lemma {:induction false} TimesInAllMeans(world: World, fixes: seq<Fix>, a: Action)
    ensures TimesInAll(world, fixes, a) ==
            match a
            case AddAgents(n) => multiset(fixes)[AddWorkers(n)]
            case AddControlPlanes(n) => multiset(fixes)[AddServers(n)]
            case Replace(_) =>
              Repeated(multiset(fixes)[ReplaceNode], Times(world, ReplaceNode, a))
              + Repeated(multiset(fixes)[ReplaceLoadBalancer], Times(world, ReplaceLoadBalancer, a))
  {
    if fixes != [] {
      TimesInAllMeans(world, fixes[1..], a);
      match a
      case AddAgents(n) => FirstCounts(fixes, AddWorkers(n));
      case AddControlPlanes(n) => FirstCounts(fixes, AddServers(n));
      case Replace(_) =>
        FirstCounts(fixes, ReplaceNode);
        FirstCounts(fixes, ReplaceLoadBalancer);
    }
  }

  /** How often the changes between the shapes call for the action. */
  function Due(d: Shape, r: Shape, world: World, a: Action): nat {
    match a
    case AddAgents(n) => if n > 0 && d.workers == r.workers + n then 1 else 0
    case AddControlPlanes(n) => if n > 0 && d.controlPlanes == r.controlPlanes + n then 1 else 0
    case Replace(node) =>
      if IsLoadBalancer(node) then 0
      else (if NeedsNodes(d, r) then multiset(world.nodes(ReplaceNode))[node] else 0)
           + (if PortsMoved(d, r) then multiset(world.nodes(ReplaceLoadBalancer))[node] else 0)
  }

  lemma ListedOnce(d: Shape, r: Shape, fix: Fix)
    ensures multiset(FixesOf(CompareShapes(d, r)))[fix] == if Wanted(d, r, fix) then 1 else 0
  {
    var report := CompareShapes(d, r);
    FixesMean(report, fix);
    CallsMean(d, r, fix);
    DedupIsFirstOccurrences(CalledFor(report));
    DistinctCounts(Dedup(CalledFor(report)), fix);
    assert fix in FixesOf(report) <==> fix in multiset(FixesOf(report));
  }

  lemma {:induction false} DistinctCounts<T>(s: seq<T>, x: T)
    requires Distinct(s)
    ensures multiset(s)[x] <= 1
  {
    if s != [] {
      FirstCounts(s, x);
      DistinctCounts(s[1..], x);
      assert s[0] == x ==> x !in s[1..];
    }
  }

  lemma DueIsWanted(d: Shape, r: Shape, world: World, a: Action)
    ensures TimesInAll(world, FixesOf(CompareShapes(d, r)), a) == Due(d, r, world, a)
  {
    TimesInAllMeans(world, FixesOf(CompareShapes(d, r)), a);
    ListedOnce(d, r, ReplaceNode);
    ListedOnce(d, r, ReplaceLoadBalancer);
    match a
    case AddAgents(n) => ListedOnce(d, r, AddWorkers(n));
    case AddControlPlanes(n) => ListedOnce(d, r, AddServers(n));
    case Replace(_) =>
  }

  lemma ActionsOn(st: State, d: Shape, r: Shape, world: World, recreate: bool, a: Action)
    requires IsK3d(d) && Differ(d, r) && !NeedsNewCluster(d, r)
    ensures var (after, answer) := ConvergeOn(st, d, CompareShapes(d, r), world, recreate);
            && st.actions <= after.actions
            && Count(after.actions[|st.actions|..], a) <= Due(d, r, world, a)
            && (answer.Ok? ==> Count(after.actions[|st.actions|..], a) == Due(d, r, world, a))
  {
    var report := CompareShapes(d, r);
    ReportMeans(d, r);
    InPlaceMeans(report);
    DueIsWanted(d, r, world, a);
    PerformAllDoes(world, FixesOf(report), a);
    var done := PerformAll(world, FixesOf(report)).0;
    assert (st.actions + done)[|st.actions|..] == done;
    if WorkersToAdd(report).Some? {
      var added := [AddAgents(WorkersToAdd(report).value)];
      assert FixesOf(report) == [AddWorkers(WorkersToAdd(report).value)];
      assert TimesInAll(world, FixesOf(report), a) == Times(world, FixesOf(report)[0], a);
      assert (st.actions + added)[|st.actions|..] == added;
    }
  }

  /**
    A k3d cluster whose record differs, but not beyond repair, is done what the
    changes call for and nothing else: as many agents and servers added as are
    missing, and the nodes replaced when what they were started with, or the
    ports, have changed. When the run succeeds, all of it was done.
   */
  lemma ActionsAreDue(st: State, declared: Shape, world: World, recreate: bool, a: Action)
    requires IsK3d(declared) && ReadShape(st.record).Some?
    requires Differ(declared, st.record.value) && !NeedsNewCluster(declared, st.record.value)
    ensures var (after, answer) := ConvergeSpec(st, declared, world, recreate);
            && st.actions <= after.actions
            && Count(after.actions[|st.actions|..], a) <= Due(declared, st.record.value, world, a)
            && (answer.Ok? ==> Count(after.actions[|st.actions|..], a) == Due(declared, st.record.value, world, a))
  {
    ActionsOn(st, declared, st.record.value, world, recreate, a);
  }

  /// Nodes are added before any is replaced

  predicate ReplacesLast(actions: seq<Action>) {
    forall i, j | 0 <= i < j < |actions| :: actions[i].Replace? ==> actions[j].Replace?
  }

  predicate AddsFirst(fixes: seq<Fix>) {
    forall i, j | 0 <= i < j < |fixes| :: Interrupts(fixes[i]) ==> Interrupts(fixes[j])
  }

  lemma {:induction false} EachReplaces(world: World, fix: Fix, nodes: seq<string>)
    ensures forall a | a in ReplaceEach(world, fix, nodes).actions :: a.Replace?
  {
    if nodes != [] {
      EachReplaces(world, fix, nodes[1..]);
    }
  }

  lemma {:induction false} InterruptingReplaces(world: World, fixes: seq<Fix>)
    requires forall fix | fix in fixes :: Interrupts(fix)
    ensures forall a | a in PerformAll(world, fixes).0 :: a.Replace?
  {
    if fixes != [] {
      assert Interrupts(fixes[0]);
      EachReplaces(world, fixes[0], world.nodes(fixes[0]));
      InterruptingReplaces(world, fixes[1..]);
      var done, rest := Perform(world, fixes[0]), PerformAll(world, fixes[1..]).0;
      forall a | a in PerformAll(world, fixes).0 ensures a.Replace? {
        assert done.Some? && (a in done.value.actions || a in rest);
      }
    }
  }

  lemma {:induction false} PerformedInOrder(world: World, fixes: seq<Fix>)
    requires AddsFirst(fixes)
    ensures ReplacesLast(PerformAll(world, fixes).0)
  {
    if fixes != [] {
      if Interrupts(fixes[0]) {
        InterruptingReplaces(world, fixes);
      } else {
        PerformedInOrder(world, fixes[1..]);
      }
    }
  }

  lemma FixesAddFirst(report: DriftReport)
    ensures AddsFirst(FixesOf(report))
  {
    var fixes := FixesOf(report);
    forall i, j | 0 <= i < j < |fixes| && Interrupts(fixes[i]) ensures Interrupts(fixes[j]) {
      CheapestFirst(report, i, j);
    }
  }

  /** Whatever is added to a cluster is added before any of its nodes is replaced. */
  lemma AddedBeforeReplaced(st: State, declared: Shape, world: World, recreate: bool)
    ensures var after := ConvergeSpec(st, declared, world, recreate).0;
            st.actions <= after.actions && ReplacesLast(after.actions[|st.actions|..])
  {
    OrderedOn(st, declared, Drift(st, declared), world, recreate);
    OrderedOn(st.(record := Some(declared)), declared, Drift(st, declared), world, recreate);
  }

  lemma OrderedOn(st: State, declared: Shape, report: DriftReport, world: World, recreate: bool)
    ensures var after := ConvergeOn(st, declared, report, world, recreate).0;
            st.actions <= after.actions && ReplacesLast(after.actions[|st.actions|..])
  {
    FixesAddFirst(report);
    PerformedInOrder(world, FixesOf(report));
    assert st.actions == st.actions + [];
    var done := PerformAll(world, FixesOf(report)).0;
    assert (st.actions + done)[|st.actions|..] == done;
    if WorkersToAdd(report).Some? {
      var added := [AddAgents(WorkersToAdd(report).value)];
      assert (st.actions + added)[|st.actions|..] == added;
    }
  }
}
