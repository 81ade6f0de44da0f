/**
  Bringing a cluster that exists into line with its declaration: the decisions
  of cli/src/provision/mod.rs. What happens on the machine is given by a
  `World`; what is done to the cluster is kept as a list of actions.
 */
module Convergence {
  import opened Prelude
  import opened Strings
  import opened ClusterShape

  datatype Action = AddAgents(n: nat) | AddControlPlanes(n: nat) | Replace(node: string)

  datatype Convergence = Unchanged | MustRecreate

  /** `Panicked` is the arm the source marks unreachable. */
  datatype Failure = Refused | Failed | Panicked

  /** The nodes there are, and whether each is replaced, may differ from fix to fix. */
  datatype World = World(
    observedAgrees: bool, upgradeIsOneStep: bool, nodes: Fix -> seq<string>, confirmed: bool,
    recordWritten: bool, agentsAdded: bool, serversAdded: bool, replaced: (Fix, string) -> bool)

  /** The recorded shape, if it is one of this version. */
  function ReadShape(record: Option<Shape>): Option<Shape> {
    if record.Some? && record.value.schemaVersion == SCHEMA_VERSION then record else None
  }

  const LOAD_BALANCER := "-serverlb"

  predicate IsLoadBalancer(node: string) { Contains(node, LOAD_BALANCER) }

  /// What each effect comes to

  datatype Done = Done(actions: seq<Action>, ok: bool)

  /** Each node but the loadbalancer, one at a time, up to the first that fails. */
  function ReplaceEach(world: World, fix: Fix, nodes: seq<string>): Done {
    if nodes == [] then Done([], true)
    else if IsLoadBalancer(nodes[0]) then ReplaceEach(world, fix, nodes[1..])
    else if !world.replaced(fix, nodes[0]) then Done([Replace(nodes[0])], false)
    else
      var rest := ReplaceEach(world, fix, nodes[1..]);
      Done([Replace(nodes[0])] + rest.actions, rest.ok)
  }

  function ReplaceNodes(world: World, fix: Fix): Done {
    if !world.upgradeIsOneStep then Done([], false) else ReplaceEach(world, fix, world.nodes(fix))
  }

  /** One fix; none is given for a fix that needs a new cluster. */
  function Perform(world: World, fix: Fix): Option<Done> {
    match fix
    case AddServers(n) => Some(Done([AddControlPlanes(n)], world.serversAdded))
    case AddWorkers(n) => Some(Done([AddAgents(n)], world.agentsAdded))
    case ReplaceLoadBalancer => Some(ReplaceNodes(world, fix))
    case ReplaceNode => Some(ReplaceNodes(world, fix))
    case RebuildOnly => Some(Done([], true))
    case NewCluster => None
  }

  /** The fixes in order, up to the first that fails. */
  function PerformAll(world: World, fixes: seq<Fix>): (seq<Action>, Option<Failure>) {
    if fixes == [] then ([], None)
    else
      match Perform(world, fixes[0])
      case None => ([], Some(Panicked))
      case Some(done) =>
        if !done.ok then (done.actions, Some(Failed))
        else
          var (more, failure) := PerformAll(world, fixes[1..]);
          (done.actions + more, failure)
  }

  /// The host

  datatype State = State(record: Option<Shape>, actions: seq<Action>)

  type Answer = Result<Convergence, Failure>

  function Converged(st: State, declared: Shape, world: World, actions: seq<Action>): (State, Answer) {
    var after := st.(actions := st.actions + actions);
    if world.recordWritten then (after.(record := Some(declared)), Ok(Unchanged)) else (after, Err(Failed))
  }

  /** What converging does, given what drifted. */
  function ConvergeOn(st: State, declared: Shape, report: DriftReport, world: World, recreate: bool): (State, Answer) {
    if IsClean(report) then (st, Ok(Unchanged))
    else if WorkersToAdd(report).Some? && IsK3d(declared) then
      var added := [AddAgents(WorkersToAdd(report).value)];
      if world.agentsAdded then Converged(st, declared, world, added)
      else (st.(actions := st.actions + added), Err(Failed))
    else if IsConvergeableInPlace(report) && IsK3d(declared) then
      var (actions, failure) := PerformAll(world, FixesOf(report));
      if failure.Some? then (st.(actions := st.actions + actions), Err(failure.value))
      else if !world.confirmed then (st.(actions := st.actions + actions), Err(Failed))
      else Converged(st, declared, world, actions)
    else if recreate then (st, Ok(MustRecreate))
    else (st, Err(Refused))
  }

  function ConvergeSpec(st: State, declared: Shape, world: World, recreate: bool): (State, Answer) {
    match ReadShape(st.record)
    case Some(recorded) => ConvergeOn(st, declared, CompareShapes(declared, recorded), world, recreate)
    case None =>
      if !world.observedAgrees then (st, Err(Refused))
      else if !world.recordWritten then (st, Err(Failed))
      else ConvergeOn(st.(record := Some(declared)), declared, CompareShapes(declared, declared), world, recreate)
  }

  /** So far `now` was done after `before`; what is left makes it what the fixes make. */
  predicate StillToPerform(world: World, fixes: seq<Fix>, i: nat, before: seq<Action>, now: seq<Action>) {
    i <= |fixes|
    && var (rest, failure) := PerformAll(world, fixes[i..]);
       now + rest == before + PerformAll(world, fixes).0 && failure == PerformAll(world, fixes).1
  }

  lemma PerformNext(world: World, fixes: seq<Fix>, i: nat, before: seq<Action>, now: seq<Action>)
    requires i < |fixes| && StillToPerform(world, fixes, i, before, now)
    ensures match Perform(world, fixes[i])
            case None => PerformAll(world, fixes).1 == Some(Panicked) && now == before + PerformAll(world, fixes).0
            case Some(done) =>
              if done.ok then StillToPerform(world, fixes, i + 1, before, now + done.actions)
              else PerformAll(world, fixes).1 == Some(Failed) && now + done.actions == before + PerformAll(world, fixes).0
  {
    assert fixes[i..][1..] == fixes[i + 1..];
    var done := Perform(world, fixes[i]);
    if done.Some? {
      var rest := PerformAll(world, fixes[i + 1..]).0;
      assert now + (done.value.actions + rest) == (now + done.value.actions) + rest;
    } else {
      assert now + [] == now;
    }
  }

  class Host {
    var record: Option<Shape>
    var actions: seq<Action>

    function View(): State
      reads this
    {
      State(record, actions)
    }

    constructor (record: Option<Shape>)
      ensures View() == State(record, [])
    {
      this.record, actions := record, [];
    }

    method WriteShape(declared: Shape, world: World) returns (ok: bool)
      modifies `record
      ensures ok == world.recordWritten
      ensures record == if ok then Some(declared) else old(record)
    {
      ok := world.recordWritten;
      if ok {
        record := Some(declared);
      }
    }

    /** A cluster with no record is believed when what it answers for agrees. */
    method AdoptExistingCluster(declared: Shape, world: World) returns (r: Result<Shape, Failure>)
      modifies `record
      ensures r == if !world.observedAgrees then Err(Refused) else if !world.recordWritten then Err(Failed) else Ok(declared)
      ensures record == if r.Ok? then Some(declared) else old(record)
    {
      if !world.observedAgrees {
        return Err(Refused);
      }
      var written := WriteShape(declared, world);
      if !written {
        return Err(Failed);
      }
      return Ok(declared);
    }

    method ReplaceK3dNodes(world: World, fix: Fix) returns (ok: bool)
      modifies `actions
      ensures var done := ReplaceNodes(world, fix); ok == done.ok && actions == old(actions) + done.actions
    {
      if !world.upgradeIsOneStep {
        return false;
      }
      var nodes := world.nodes(fix);
      for i := 0 to |nodes|
        invariant var rest := ReplaceEach(world, fix, nodes[i..]);
                  && actions + rest.actions == old(actions) + ReplaceEach(world, fix, nodes).actions
                  && rest.ok == ReplaceEach(world, fix, nodes).ok
      {
        var node := nodes[i];
        assert nodes[i..][1..] == nodes[i + 1..];
        if IsLoadBalancer(node) {
          continue;
        }
        actions := actions + [Replace(node)];
        if !world.replaced(fix, node) {
          return false;
        }
      }
      return true;
    }

    method PerformFix(world: World, fix: Fix) returns (r: Option<Failure>)
      modifies `actions
      ensures match Perform(world, fix)
              case None => r == Some(Panicked) && actions == old(actions)
              case Some(done) => r == (if done.ok then None else Some(Failed)) && actions == old(actions) + done.actions
    {
      match fix
      case AddServers(n) =>
        actions := actions + [AddControlPlanes(n)];
        return if world.serversAdded then None else Some(Failed);
      case AddWorkers(n) =>
        actions := actions + [AddAgents(n)];
        return if world.agentsAdded then None else Some(Failed);
      case ReplaceLoadBalancer | ReplaceNode =>
        var ok := ReplaceK3dNodes(world, fix);
        return if ok then None else Some(Failed);
      case RebuildOnly =>
        return None;
      case NewCluster =>
        return Some(Panicked);
    }

    method ConvergeK3dInPlace(world: World, fixes: seq<Fix>) returns (r: Option<Failure>)
      modifies `actions
      ensures var (done, failure) := PerformAll(world, fixes); r == failure && actions == old(actions) + done
    {
      for i := 0 to |fixes|
        invariant StillToPerform(world, fixes, i, old(actions), actions)
      {
        PerformNext(world, fixes, i, old(actions), actions);
        r := PerformFix(world, fixes[i]);
        if r.Some? {
          return;
        }
      }
      return None;
    }

    method ConvergeExistingCluster(declared: Shape, world: World, recreate: bool) returns (answer: Answer)
      modifies this
      ensures (View(), answer) == ConvergeSpec(old(View()), declared, world, recreate)
    {
      var recorded := ReadShape(record);
      if recorded.None? {
        var adopted := AdoptExistingCluster(declared, world);
        if adopted.Err? {
          return Err(adopted.error);
        }
        recorded := Some(adopted.value);
      }
      var report := CompareShapes(declared, recorded.value);
      if IsClean(report) {
        return Ok(Unchanged);
      }
      var toAdd := WorkersToAdd(report);
      if toAdd.Some? && IsK3d(declared) {
        actions := actions + [AddAgents(toAdd.value)];
        if !world.agentsAdded {
          return Err(Failed);
        }
        var added := WriteShape(declared, world);
        return if added then Ok(Unchanged) else Err(Failed);
      }
      if IsConvergeableInPlace(report) && IsK3d(declared) {
        var fixes := Fixes(report);
        var failure := ConvergeK3dInPlace(world, fixes);
        if failure.Some? {
          return Err(failure.value);
        }
        if !world.confirmed {
          return Err(Failed);
        }
        var written := WriteShape(declared, world);
        return if written then Ok(Unchanged) else Err(Failed);
      }
      return if recreate then Ok(MustRecreate) else Err(Refused);
    }
  }
}
