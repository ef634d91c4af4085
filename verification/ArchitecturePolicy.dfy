/** Cycle detection of tools/checks/architecture-policy.ts: a three-colour depth-first search
    over the declared dependencies, with an explicit stack and a list of issues. */
module ArchitecturePolicy {
  import opened Common

  datatype Kind = App | Package | Module

  datatype WorkspaceUnit = WorkspaceUnit(kind: Kind, name: string, root: string, dependencies: seq<string>)

  datatype Code = Cycle | UndeclaredDependency | ForbiddenLayer | BoundaryEscape

  datatype Issue = Issue(code: Code, source: string, target: string, detail: string)

  type Registry = map<string, WorkspaceUnit>

  /** `new Map(workspaces.map(...))`: a later unit replaces an earlier one of the same name. */
  function ByName(workspaces: seq<WorkspaceUnit>): Registry {
    if workspaces == [] then map[]
    else
      var last := workspaces[|workspaces| - 1];
      ByName(workspaces[..|workspaces| - 1])[last.name := last]
  }

  /** A declared dependency between two known workspaces. */
  predicate Edge(registry: Registry, source: string, target: string) {
    source in registry && target in registry && target in registry[source].dependencies
  }

  ghost predicate Walk(registry: Registry, path: seq<string>) {
    forall i :: 0 <= i < |path| - 1 ==> Edge(registry, path[i], path[i + 1])
  }

  ghost predicate ClosedWalk(registry: Registry, path: seq<string>) {
    |path| >= 2 && path[0] == path[|path| - 1] && Walk(registry, path)
  }

  ghost predicate Acyclic(registry: Registry) {
    forall path: seq<string> :: !ClosedWalk(registry, path)
  }

  /** Every declared edge leads to an earlier element of the order. */
  ghost predicate DependenciesFirst(registry: Registry, order: seq<string>) {
    forall i, target :: 0 <= i < |order| && Edge(registry, order[i], target) ==> target in order[..i]
  }

  ghost predicate TopologicalOrder(registry: Registry, order: seq<string>) {
    && Distinct(order)
    && (forall name :: name in order <==> name in registry)
    && DependenciesFirst(registry, order)
  }

  ghost predicate CycleWitness(registry: Registry, issue: Issue, path: seq<string>) {
    && ClosedWalk(registry, path)
    && Distinct(path[..|path| - 1])
    && issue == Issue(Cycle, path[0], path[0], Join(path, " -> "))
  }

  /** The issue describes a simple closed path of declared edges. */
  ghost predicate GenuineCycle(registry: Registry, issue: Issue) {
    exists path: seq<string> :: CycleWitness(registry, issue, path)
  }

  ghost predicate GenuineCycles(registry: Registry, issues: seq<Issue>) {
    && (forall i :: 0 <= i < |issues| ==> GenuineCycle(registry, issues[i]))
    && (forall i, j :: 0 <= i < j < |issues| ==> issues[i].detail != issues[j].detail)
  }

  /** A simple closed path of declared edges whose text is reported. */
  ghost predicate ReportedCycle(registry: Registry, issues: seq<Issue>, path: seq<string>) {
    ClosedWalk(registry, path) && Distinct(path[..|path| - 1]) && exists i :: 0 <= i < |issues| && issues[i].detail == Join(path, " -> ")
  }

  /** Some reported cycle ends with this edge. */
  ghost predicate Closes(registry: Registry, issues: seq<Issue>, source: string, target: string) {
    exists path: seq<string> :: ReportedCycle(registry, issues, path) && path[|path| - 2] == source && path[|path| - 1] == target
  }

  /** Every declared edge leads to an earlier element of the order, or closes a reported cycle. */
  ghost predicate Descends(registry: Registry, issues: seq<Issue>, order: seq<string>) {
    forall i, target :: 0 <= i < |order| && Edge(registry, order[i], target) ==>
      target in order[..i] || Closes(registry, issues, order[i], target)
  }

  /** Every closed walk of declared edges goes along the last edge of some reported cycle. */
  ghost predicate EveryCycleIsCut(registry: Registry, issues: seq<Issue>) {
    forall path: seq<string> :: ClosedWalk(registry, path) ==> GoesAlongClosing(registry, issues, path)
  }

  ghost predicate GoesAlongClosing(registry: Registry, issues: seq<Issue>, path: seq<string>) {
    exists i :: 0 <= i < |path| - 1 && Closes(registry, issues, path[i], path[i + 1])
  }

  lemma ClosesStays(registry: Registry, issues: seq<Issue>, more: seq<Issue>, source: string, target: string)
    requires issues <= more && Closes(registry, issues, source, target)
    ensures Closes(registry, more, source, target)
  {
    var path: seq<string> :| ReportedCycle(registry, issues, path) && path[|path| - 2] == source && path[|path| - 1] == target;
    var i :| 0 <= i < |issues| && issues[i].detail == Join(path, " -> ");
    assert more[i] == issues[i];
    assert ReportedCycle(registry, more, path);
  }

  lemma DescendsStays(registry: Registry, issues: seq<Issue>, more: seq<Issue>, order: seq<string>)
    requires issues <= more && Descends(registry, issues, order)
    ensures Descends(registry, more, order)
  {
    hide Closes;
    forall i, target | 0 <= i < |order| && Edge(registry, order[i], target)
      ensures target in order[..i] || Closes(registry, more, order[i], target)
    {
      if target !in order[..i] {
        ClosesStays(registry, issues, more, order[i], target);
      }
    }
  }

  datatype Colour = Visiting | Visited

  /** The state that the nested function `visit` shares with `cycleIssues`. */
  class CycleSearch {
    const byName: Registry
    var state: map<string, Colour>
    var stack: seq<string>
    var issues: seq<Issue>
    var cycles: set<string>
    ghost var finished: seq<string>  // the visited names, in the order their visits ended

    ghost predicate Valid()
      reads this
    {
      && state.Keys <= byName.Keys
      && (forall name :: name in stack <==> name in state && state[name] == Visiting)
      && (forall name :: name in finished <==> name in state && state[name] == Visited)
      && Distinct(stack) && Distinct(finished)
      && Walk(byName, stack)
      && GenuineCycles(byName, issues)
      && (forall detail :: detail in cycles <==> exists i :: 0 <= i < |issues| && issues[i].detail == detail)
      && Descends(byName, issues, finished)
    }

    constructor (workspaces: seq<WorkspaceUnit>)
      ensures Valid() && byName == ByName(workspaces)
      ensures state == map[] && stack == [] && issues == [] && finished == []
    {
      byName := ByName(workspaces);
      state, stack, issues, cycles, finished := map[], [], [], {}, [];
    }

    /** The `visiting` branch of `visit`: the name is on the stack, so the stack from its
        position on, closed with the name, is a cycle; it is reported once. */
    method ReportCycle(name: string)
      requires Valid() && name in stack && Edge(byName, stack[|stack| - 1], name)
      modifies this`issues, this`cycles
      ensures Valid() && old(issues) <= issues && Closes(byName, issues, stack[|stack| - 1], name)
    {
      hide Closes, Descends;
      var start := 0;
      while stack[start] != name
        invariant 0 <= start < |stack| && name !in stack[..start]
        decreases |stack| - start
      {
        start := start + 1;
      }
      var cycle := stack[start..] + [name];
      var identity := Join(cycle, " -> ");
      assert cycle[..|cycle| - 1] == stack[start..];
      if identity !in cycles {
        cycles := cycles + {identity};
        ghost var before := issues;
        issues := issues + [Issue(Cycle, name, name, identity)];
        assert CycleWitness(byName, issues[|before|], cycle);
        assert issues[|before|].detail == identity;
        forall detail
          ensures detail in cycles <==> exists i :: 0 <= i < |issues| && issues[i].detail == detail
        {
          if exists i :: 0 <= i < |before| && before[i].detail == detail {
            var i :| 0 <= i < |before| && before[i].detail == detail;
            assert issues[i].detail == detail;
          }
        }
        DescendsStays(byName, before, issues, finished);
      }
      assert ReportedCycle(byName, issues, cycle);
      LastEdgeCloses(byName, issues, cycle);
    }

    /** Colours the name `visiting` and pushes it. */
    method Open(name: string)
      requires Valid() && name in byName && name !in state
      requires stack != [] ==> Edge(byName, stack[|stack| - 1], name)
      modifies this`state, this`stack
      ensures Valid() && stack == old(stack) + [name] && state == old(state)[name := Visiting]
    {
      state := state[name := Visiting];
      stack := stack + [name];
    }

    /** Pops the name whose dependencies have all been visited and colours it `visited`. */
    method Close()
      requires Valid() && stack != []
      requires forall target :: Edge(byName, stack[|stack| - 1], target) ==> target in finished || Closes(byName, issues, stack[|stack| - 1], target)
      modifies this`state, this`stack, this`finished
      ensures Valid() && stack == old(stack)[..|old(stack)| - 1]
      ensures state == old(state)[old(stack)[|old(stack)| - 1] := Visited]
      ensures finished == old(finished) + [old(stack)[|old(stack)| - 1]]
    {
      hide Closes;
      var name := stack[|stack| - 1];
      ghost var before := finished;
      assert name in stack && name !in before;
      stack := stack[..|stack| - 1];
      state := state[name := Visited];
      finished := finished + [name];
      forall i, target | 0 <= i < |finished| && Edge(byName, finished[i], target)
        ensures target in finished[..i] || Closes(byName, issues, finished[i], target)
      {
        assert finished[..i] == before[..i];
      }
    }

    method Visit(name: string)
      requires Valid() && name in byName
      requires stack != [] ==> Edge(byName, stack[|stack| - 1], name)
      modifies this
      ensures Valid() && stack == old(stack) && old(state).Keys <= state.Keys
      ensures old(issues) <= issues && old(finished) <= finished
      ensures name in finished || (stack != [] && Closes(byName, issues, stack[|stack| - 1], name))
      decreases byName.Keys - state.Keys
    {
      hide Closes, GenuineCycles, Descends;
      if name in state && state[name] == Visited {
        return;
      }
      if name in state {
        ReportCycle(name);
        return;
      }
      Open(name);
      var dependencies := byName[name].dependencies;
      var i := 0;
      while i < |dependencies|
        invariant 0 <= i <= |dependencies|
        invariant Valid() && stack == old(stack) + [name]
        invariant old(state).Keys + {name} <= state.Keys
        invariant old(issues) <= issues && old(finished) <= finished
        invariant forall j :: 0 <= j < i && dependencies[j] in byName ==>
                    dependencies[j] in finished || Closes(byName, issues, name, dependencies[j])
      {
        if dependencies[i] in byName {
          assert Edge(byName, name, dependencies[i]);
          ghost var before := issues;
          Visit(dependencies[i]);
          forall j | 0 <= j < i && dependencies[j] in byName
            ensures dependencies[j] in finished || Closes(byName, issues, name, dependencies[j])
          {
            if Closes(byName, before, name, dependencies[j]) {
              ClosesStays(byName, before, issues, name, dependencies[j]);
            }
          }
        }
        i := i + 1;
      }
      Close();
    }
  }

  lemma LastEdgeCloses(registry: Registry, issues: seq<Issue>, path: seq<string>)
    requires ReportedCycle(registry, issues, path)
    ensures Closes(registry, issues, path[|path| - 2], path[|path| - 1])
  {
  }

  lemma {:induction false} EdgesDescend(registry: Registry, issues: seq<Issue>, order: seq<string>, path: seq<string>, i: nat) returns (at: nat)
    requires Descends(registry, issues, order) && Walk(registry, path) && !GoesAlongClosing(registry, issues, path)
    requires path != [] && path[0] in order && i < |path|
    ensures at < |order| && order[at] == path[i]
    ensures forall first :: 0 <= first < |order| && order[first] == path[0] && Distinct(order) ==> at + i <= first
  {
    if i == 0 {
      at :| 0 <= at < |order| && order[at] == path[0];
    } else {
      hide Closes;
      var before := EdgesDescend(registry, issues, order, path, i - 1);
      assert Edge(registry, path[i - 1], path[i]) && !Closes(registry, issues, path[i - 1], path[i - 1 + 1]);
      at :| 0 <= at < before && order[at] == path[i];
    }
  }

  /** An order of all names along which edges descend cuts every closed walk. */
  lemma DescendingCuts(registry: Registry, issues: seq<Issue>, order: seq<string>)
    requires Descends(registry, issues, order) && Distinct(order) && forall name :: name in order <==> name in registry
    ensures EveryCycleIsCut(registry, issues)
  {
    hide Closes, Descends;
    forall path: seq<string> | ClosedWalk(registry, path)
      ensures GoesAlongClosing(registry, issues, path)
    {
      assert Edge(registry, path[0], path[1]);
      if !GoesAlongClosing(registry, issues, path) {
        var last := EdgesDescend(registry, issues, order, path, |path| - 1);
      }
    }
  }

  /** A topological order rules out every closed walk. */
  lemma OrderedIsAcyclic(registry: Registry, order: seq<string>)
    requires TopologicalOrder(registry, order)
    ensures Acyclic(registry)
  {
    DescendingCuts(registry, [], order);
    CutByNothing(registry);
    hide Descends;
  }

  lemma DescendsAlone(registry: Registry, order: seq<string>)
    requires Descends(registry, [], order)
    ensures DependenciesFirst(registry, order)
  {
  }

  lemma CutByNothing(registry: Registry)
    requires EveryCycleIsCut(registry, [])
    ensures Acyclic(registry)
  {
    forall path: seq<string>
      ensures !ClosedWalk(registry, path)
    {
      assert !GoesAlongClosing(registry, [], path);
    }
  }

  /** The reported cycles are genuine, and enough: whoever removes their last edges removes all cycles. */
  ghost predicate CycleReport(workspaces: seq<WorkspaceUnit>, issues: seq<Issue>) {
    && GenuineCycles(ByName(workspaces), issues)
    && EveryCycleIsCut(ByName(workspaces), issues)
    && (issues == [] <==> Acyclic(ByName(workspaces)))
  }

  lemma {:induction false} ByNameKeys(workspaces: seq<WorkspaceUnit>)
    ensures forall name :: name in ByName(workspaces) <==> exists i :: 0 <= i < |workspaces| && workspaces[i].name == name
  {
    if workspaces != [] {
      var front := workspaces[..|workspaces| - 1];
      ByNameKeys(front);
      forall name
        ensures name in ByName(workspaces) <==> exists i :: 0 <= i < |workspaces| && workspaces[i].name == name
      {
        if exists i :: 0 <= i < |front| && front[i].name == name {
          var i :| 0 <= i < |front| && front[i].name == name;
          assert workspaces[i].name == name;
        }
      }
    }
  }

  method CycleIssues(workspaces: seq<WorkspaceUnit>) returns (issues: seq<Issue>, ghost order: seq<string>)
    ensures GenuineCycles(ByName(workspaces), issues) && EveryCycleIsCut(ByName(workspaces), issues)
    ensures issues == [] <==> Acyclic(ByName(workspaces))
    ensures issues == [] ==> TopologicalOrder(ByName(workspaces), order)
  {
    hide Closes, Descends, EveryCycleIsCut;
    var search := new CycleSearch(workspaces);
    ByNameKeys(workspaces);
    var i := 0;
    while i < |workspaces|
      invariant 0 <= i <= |workspaces|
      invariant search.Valid() && search.stack == [] && search.byName == ByName(workspaces)
      invariant forall j :: 0 <= j < i ==> workspaces[j].name in search.finished
    {
      search.Visit(workspaces[i].name);
      i := i + 1;
    }
    issues, order := search.issues, search.finished;
    DescendingCuts(ByName(workspaces), issues, order);
    if issues == [] {
      CutByNothing(ByName(workspaces));
      DescendsAlone(ByName(workspaces), order);
    } else {
      assert GenuineCycle(ByName(workspaces), issues[0]);
      ghost var path :| CycleWitness(ByName(workspaces), issues[0], path);
      assert ClosedWalk(ByName(workspaces), path);
    }
  }

  // ---- A reported text names one cycle ----

  /** If names have no blanks, as package names have none, a reported cycle is an issue of its own: the
      texts of different cycles differ, so none is taken for another. */
  lemma ReportedCycleIsIssue(registry: Registry, issues: seq<Issue>, path: seq<string>)
    requires GenuineCycles(registry, issues) && ReportedCycle(registry, issues, path)
    requires forall name :: name in registry ==> ' ' !in name
    ensures Issue(Cycle, path[0], path[0], Join(path, " -> ")) in issues
  {
    var i :| 0 <= i < |issues| && issues[i].detail == Join(path, " -> ");
    assert GenuineCycle(registry, issues[i]);
    var named :| CycleWitness(registry, issues[i], named);
    WalkIsKnown(registry, path);
    WalkIsKnown(registry, named);
    JoinIsInjective(path, named, " -> ");
  }

  lemma WalkIsKnown(registry: Registry, path: seq<string>)
    requires ClosedWalk(registry, path)
    ensures forall i :: 0 <= i < |path| ==> path[i] in registry
  {
    forall i | 0 <= i < |path|
      ensures path[i] in registry
    {
      assert i < |path| - 1 ==> Edge(registry, path[i], path[i + 1]);
      assert i > 0 ==> Edge(registry, path[i - 1], path[i - 1 + 1]);
    }
  }
}
