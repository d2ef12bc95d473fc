/** Acceptance of the dataset dependency graph (deployment/project.py): every dependency is deployed and a
    depth-first visit meets no cycle. */
module DependencyGraph {
  import opened Common

  datatype DatasetConfig = DatasetConfig(id: string, dependencies: seq<string>)

  /** The dependencies of every deployed dataset. */
  type Graph = map<string, seq<string>>

  datatype GraphError = UnknownDependency(dataset: string) | CycleAt(dataset: string)

  /** The last configuration of a dataset counts. */
  function GraphOf(configs: seq<DatasetConfig>): Graph {
    if configs == [] then map[]
    else
      var last := configs[|configs| - 1];
      GraphOf(configs[..|configs| - 1])[last.id := last.dependencies]
  }

  predicate KnownDependencies(c: DatasetConfig, graph: Graph) {
    forall d | d in c.dependencies :: d in graph
  }

  predicate AllKnown(configs: seq<DatasetConfig>) {
    forall c | c in configs :: KnownDependencies(c, GraphOf(configs))
  }

  predicate Closed(graph: Graph) {
    forall id | id in graph :: forall d | d in graph[id] :: d in graph
  }

  // ---------------------------------------------------------------- paths, cycles and topological orders

  ghost predicate DependsOn(graph: Graph, a: string, b: string) {
    a in graph && b in graph[a]
  }

  /** Each dataset depends on the next one. */
  ghost predicate IsPath(graph: Graph, p: seq<string>) {
    forall i, j | 0 <= i && j == i + 1 && j < |p| :: DependsOn(graph, p[i], p[j])
  }

  ghost predicate IsCycle(graph: Graph, c: seq<string>) {
    |c| >= 2 && IsPath(graph, c) && c[0] == c[|c| - 1]
  }

  ghost predicate Acyclic(graph: Graph) {
    forall c :: !IsCycle(graph, c)
  }

  /** No dataset twice, and every dependency of a listed dataset is listed before it. */
  ghost predicate DependenciesFirst(graph: Graph, order: seq<string>) {
    && (forall i, j | 0 <= i < j < |order| :: order[i] != order[j])
    && (forall i | 0 <= i < |order| :: order[i] in graph)
    && (forall i, d | 0 <= i < |order| && d in graph[order[i]] :: d in order[..i])
  }

  ghost predicate IsTopologicalOrder(graph: Graph, order: seq<string>) {
    DependenciesFirst(graph, order) && forall id | id in graph :: id in order
  }

  ghost function IndexIn(order: seq<string>, id: string): (i: nat)
    requires id in order
    ensures i < |order| && order[i] == id
  {
    var i :| 0 <= i < |order| && order[i] == id;
    i
  }

  lemma DependencyComesFirst(graph: Graph, order: seq<string>, a: string, b: string)
    requires IsTopologicalOrder(graph, order) && Closed(graph) && DependsOn(graph, a, b)
    ensures a in order && b in order && IndexIn(order, b) < IndexIn(order, a)
  {
    var i := IndexIn(order, a);
    assert b in order[..i];
    var j :| 0 <= j < i && order[..i][j] == b;
    assert order[j] == b && order[IndexIn(order, b)] == b;
  }

  lemma {:induction false} PathDescends(graph: Graph, order: seq<string>, p: seq<string>)
    requires IsTopologicalOrder(graph, order) && Closed(graph) && IsPath(graph, p) && |p| >= 2
    ensures p[0] in order && p[|p| - 1] in order && IndexIn(order, p[|p| - 1]) < IndexIn(order, p[0])
    decreases |p|
  {
    hide IsTopologicalOrder, DependsOn;
    var last := |p| - 1;
    var i := last - 1;
    assert DependsOn(graph, p[i], p[last]);
    DependencyComesFirst(graph, order, p[i], p[last]);
    if |p| > 2 {
      PathDescends(graph, order, p[..last]);
    }
  }

  /** A topological order rules out cycles. */
  lemma TopologicalOrderIsAcyclic(graph: Graph, order: seq<string>)
    requires IsTopologicalOrder(graph, order) && Closed(graph)
    ensures Acyclic(graph)
  {
    forall c ensures !IsCycle(graph, c) {
      if IsCycle(graph, c) {
        PathDescends(graph, order, c);
        assert false;
      }
    }
  }

  // ---------------------------------------------------------------- the visit

  class Visitor {
    const graph: Graph
    var visiting: set<string>
    var visited: set<string>
    /** The datasets in progress, outermost first, and the finished ones in the order of finishing. */
    ghost var stack: seq<string>
    ghost var order: seq<string>

    constructor (graph: Graph)
      requires Closed(graph)
      ensures this.graph == graph && Valid() && visiting == {} && visited == {} && stack == [] && order == []
    {
      this.graph := graph;
      visiting := {};
      visited := {};
      stack := [];
      order := [];
    }

    ghost predicate Valid()
      reads this
    {
      && Closed(graph)
      && visiting == ToSet(stack) && visited == ToSet(order) && visiting !! visited
      && visiting <= graph.Keys
      && IsPath(graph, stack)
      && DependenciesFirst(graph, order)
    }

    /** Finishes a dataset and everything that it depends on, or meets a cycle. */
    method Visit(id: string) returns (error: Option<GraphError>, ghost cycle: seq<string>)
      requires Valid() && id in graph
      requires stack != [] ==> DependsOn(graph, stack[|stack| - 1], id)
      modifies this
      ensures error.None? ==>
                && Valid() && id in visited
                && visiting == old(visiting) && stack == old(stack)
                && old(visited) <= visited
      ensures error.Some? ==> error.value.CycleAt? && IsCycle(graph, cycle) && error.value.dataset == cycle[0]
      decreases graph.Keys - visiting
    {
      cycle := [];
      if id in visited {
        return None, [];
      }
      if id in visiting {
        cycle := ClosedByStack(graph, stack, id);
        return Some(CycleAt(id)), cycle;
      }
      ghost var outer := stack;
      visiting := visiting + {id};
      stack := stack + [id];
      assert visiting == ToSet(stack);
      var dependencies := graph[id];
      for i := 0 to |dependencies|
        invariant Valid() && stack == outer + [id] && visiting == old(visiting) + {id}
        invariant old(visited) <= visited
        invariant forall j | 0 <= j < i :: dependencies[j] in visited
      {
        assert DependsOn(graph, id, dependencies[i]);
        error, cycle := Visit(dependencies[i]);
        if error.Some? {
          return error, cycle;
        }
      }
      assert id in stack;
      FinishedLast(graph, order, id);
      StackShrinks(graph, outer, id);
      visiting := visiting - {id};
      stack := outer;
      order := order + [id];
      visited := visited + {id};
      error := None;
    }
  }

  lemma StackShrinks(graph: Graph, stack: seq<string>, id: string)
    requires IsPath(graph, stack + [id])
    ensures IsPath(graph, stack)
  {
    hide DependsOn;
    var p := stack + [id];
    forall i, j | 0 <= i && j == i + 1 && j < |stack| ensures DependsOn(graph, stack[i], stack[j]) {
      assert DependsOn(graph, p[i], p[j]);
    }
  }

  lemma FinishedLast(graph: Graph, order: seq<string>, id: string)
    requires DependenciesFirst(graph, order) && id in graph && id !in order
    requires forall d | d in graph[id] :: d in order
    ensures DependenciesFirst(graph, order + [id]) && ToSet(order + [id]) == ToSet(order) + {id}
  {
    var all := order + [id];
    forall i, d | 0 <= i < |all| && d in graph[all[i]] ensures d in all[..i] {
      if i < |order| {
        assert all[..i] == order[..i];
      } else {
        assert all[..i] == order;
      }
    }
  }

  /** A dataset met while it is in progress closes a cycle through the stack. */
  lemma ClosedByStack(graph: Graph, stack: seq<string>, id: string) returns (cycle: seq<string>)
    requires IsPath(graph, stack) && id in stack && DependsOn(graph, stack[|stack| - 1], id)
    ensures IsCycle(graph, cycle) && cycle[0] == id
  {
    hide DependsOn;
    var i := IndexIn(stack, id);
    var tail := stack[i..];
    cycle := tail + [id];
    forall a, b | 0 <= a && b == a + 1 && b < |cycle| ensures DependsOn(graph, cycle[a], cycle[b]) {
      if b < |tail| {
        assert DependsOn(graph, stack[i + a], stack[i + b]);
      }
    }
  }

  // ---------------------------------------------------------------- the whole check

  /** The configuration that counts for a dataset. */
  function ConfigOf(configs: seq<DatasetConfig>, id: string): Option<DatasetConfig> {
    if configs == [] then None
    else if configs[|configs| - 1].id == id then Some(configs[|configs| - 1])
    else ConfigOf(configs[..|configs| - 1], id)
  }

  lemma {:induction false} GraphHoldsConfigs(configs: seq<DatasetConfig>, id: string)
    ensures id in GraphOf(configs) <==> ConfigOf(configs, id).Some?
    ensures id in GraphOf(configs) ==>
              ConfigOf(configs, id).value in configs && ConfigOf(configs, id).value.dependencies == GraphOf(configs)[id]
  {
    if configs != [] {
      GraphHoldsConfigs(configs[..|configs| - 1], id);
      assert configs == configs[..|configs| - 1] + [configs[|configs| - 1]];
    }
  }

  lemma KnownGraphIsClosed(configs: seq<DatasetConfig>)
    requires AllKnown(configs)
    ensures Closed(GraphOf(configs))
  {
    var graph := GraphOf(configs);
    forall id | id in graph ensures forall d | d in graph[id] :: d in graph {
      GraphHoldsConfigs(configs, id);
      assert KnownDependencies(ConfigOf(configs, id).value, graph);
    }
  }

  method BuildGraph(configs: seq<DatasetConfig>) returns (graph: Graph)
    ensures graph == GraphOf(configs)
  {
    graph := map[];
    assert configs[..|configs|] == configs;
    for i := 0 to |configs|
      invariant graph == GraphOf(configs[..i])
    {
      assert configs[..i + 1][..i] == configs[..i];
      graph := graph[configs[i].id := configs[i].dependencies];
    }
  }

  /** The graph is accepted exactly when every dependency is deployed and there is no cycle; then it has a
      topological order. A refusal for a cycle names a dataset on one. */
  method ValidateDependencyGraph(configs: seq<DatasetConfig>) returns (error: Option<GraphError>)
    ensures error.None? <==> AllKnown(configs) && Acyclic(GraphOf(configs))
    ensures error.None? <==> AllKnown(configs) && exists order :: IsTopologicalOrder(GraphOf(configs), order)
    ensures error.Some? && error.value.UnknownDependency? <==> !AllKnown(configs)
    ensures error.Some? && error.value.CycleAt? ==> exists c :: IsCycle(GraphOf(configs), c) && c[0] == error.value.dataset
  {
    hide GraphOf, IsTopologicalOrder, IsCycle;
    var graph := BuildGraph(configs);
    for i := 0 to |configs|
      invariant forall j | 0 <= j < i :: KnownDependencies(configs[j], graph)
    {
      if !KnownDependencies(configs[i], graph) {
        assert configs[i] in configs;
        return Some(UnknownDependency(configs[i].id));
      }
    }
    KnownGraphIsClosed(configs);
    error := VisitAll(graph);
    if error.None? {
      ghost var order :| IsTopologicalOrder(graph, order);
      TopologicalOrderIsAcyclic(graph, order);
    } else {
      forall order ensures !IsTopologicalOrder(graph, order) {
        if IsTopologicalOrder(graph, order) {
          TopologicalOrderIsAcyclic(graph, order);
          assert false;
        }
      }
    }
  }

  /** Visits every dataset. */
  method VisitAll(graph: Graph) returns (error: Option<GraphError>)
    requires Closed(graph)
    ensures error.None? ==> exists order :: IsTopologicalOrder(graph, order)
    ensures error.Some? ==> error.value.CycleAt? && exists c :: IsCycle(graph, c) && c[0] == error.value.dataset
  {
    hide IsCycle;
    var visitor := new Visitor(graph);
    var remaining := graph.Keys;
    while remaining != {}
      invariant visitor.graph == graph && visitor.Valid() && visitor.stack == [] && remaining <= graph.Keys
      invariant forall id | id in graph && id !in remaining :: id in visitor.visited
      decreases remaining
    {
      var id :| id in remaining;
      ghost var cycle;
      error, cycle := visitor.Visit(id);
      if error.Some? {
        assert IsCycle(graph, cycle);
        return error;
      }
      remaining := remaining - {id};
    }
    assert IsTopologicalOrder(graph, visitor.order);
    error := None;
  }
}
