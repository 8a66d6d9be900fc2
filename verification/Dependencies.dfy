/**
 Circular-dependency detection before agents are merged: a depth-first search from every agent
 that declares dependencies, raising when it meets an agent on its current path.
*/
module Dependencies {
  import opened Sets

  type AgentId = string

  /** No dependencies stands for an agent without the attribute, too. */
  datatype Agent = Agent(id: AgentId, dependencies: seq<AgentId>)

  type Graph = map<AgentId, seq<AgentId>>

  /** The lookup table by agent id; a later agent of the same name replaces an earlier one. */
  function GraphOf(agents: seq<Agent>): Graph {
    if agents == [] then map[]
    else
      var a := agents[|agents| - 1];
      GraphOf(agents[..|agents| - 1])[a.id := a.dependencies]
  }

  predicate LastNamed(agents: seq<Agent>, id: AgentId, i: int) {
    0 <= i < |agents| && agents[i].id == id && forall j | i < j < |agents| :: agents[j].id != id
  }

  /** Every name stands for its last agent, and no other name is known. */
  lemma {:induction false} GraphIsLast(agents: seq<Agent>, id: AgentId)
    ensures id in GraphOf(agents) <==> exists a :: a in agents && a.id == id
    ensures forall i | LastNamed(agents, id, i) :: id in GraphOf(agents) && GraphOf(agents)[id] == agents[i].dependencies
    decreases |agents|
  {
    if agents != [] {
      var n := |agents| - 1;
      GraphIsLast(agents[..n], id);
      assert agents == agents[..n] + [agents[n]];
      forall i | LastNamed(agents, id, i) && i < n ensures LastNamed(agents[..n], id, i) && agents[..n][i] == agents[i] {
        assert forall j | i < j < n :: agents[..n][j] == agents[j];
      }
    }
  }

  function Deps(g: Graph, id: AgentId): seq<AgentId> {
    if id in g then g[id] else []
  }

  ghost predicate Walk(g: Graph, p: seq<AgentId>) {
    forall i | 0 <= i < |p| - 1 :: p[i + 1] in Deps(g, p[i])
  }

  ghost predicate Cycle(g: Graph, p: seq<AgentId>) {
    |p| >= 2 && Walk(g, p) && p[0] == p[|p| - 1]
  }

  ghost predicate Cyclic(g: Graph) {
    exists p :: Cycle(g, p)
  }

  /** Every id the search can meet. */
  function Ids(g: Graph): set<AgentId> {
    g.Keys + set id, d | id in g && d in g[id] :: d
  }

  // ---- finished agents ----

  /** `order` lists agents so that each one's dependencies come before it. */
  ghost predicate Ordered(g: Graph, order: seq<AgentId>) {
    forall i, d | 0 <= i < |order| && d in Deps(g, order[i]) :: d in order[..i]
  }

  /** A walk that starts in an ordered list only moves towards its front. */
  lemma {:induction false} WalkMovesForward(g: Graph, order: seq<AgentId>, p: seq<AgentId>, i: nat)
    requires Ordered(g, order) && |p| >= 2 && Walk(g, p) && i < |order| && order[i] == p[0]
    ensures p[|p| - 1] in order[..i]
    decreases |p|
  {
    assert p[1] in Deps(g, p[0]);
    if |p| > 2 {
      var j :| 0 <= j < i && order[j] == p[1];
      forall k | 0 <= k < |p[1..]| - 1 ensures p[1..][k + 1] in Deps(g, p[1..][k]) {
        assert p[k + 1 + 1] in Deps(g, p[k + 1]);
      }
      WalkMovesForward(g, order, p[1..], j);
      assert order[..j] <= order[..i];
    }
  }

  lemma {:induction false} FirstIndex(order: seq<AgentId>, id: AgentId) returns (i: nat)
    requires id in order
    ensures i < |order| && order[i] == id && id !in order[..i]
  {
    if order[0] == id {
      i := 0;
    } else {
      assert order == [order[0]] + order[1..];
      var j := FirstIndex(order[1..], id);
      i := j + 1;
      assert order[..i] == [order[0]] + order[1..][..j];
    }
  }

  /** So no cycle goes through a listed agent. */
  lemma NoCycleThrough(g: Graph, order: seq<AgentId>, p: seq<AgentId>)
    requires Ordered(g, order) && Cycle(g, p)
    ensures p[0] !in order
  {
    if p[0] in order {
      var i := FirstIndex(order, p[0]);
      WalkMovesForward(g, order, p, i);
    }
  }

  /** Meeting an agent of the current path closes a cycle. */
  lemma ClosesCycle(g: Graph, stack: seq<AgentId>, id: AgentId)
    requires Walk(g, stack + [id]) && id in stack
    ensures Cyclic(g)
  {
    var i :| 0 <= i < |stack| && stack[i] == id;
    var p := (stack + [id])[i..];
    forall k | 0 <= k < |p| - 1 ensures p[k + 1] in Deps(g, p[k]) {
      assert (stack + [id])[i + k + 1] in Deps(g, (stack + [id])[i + k]);
    }
    assert Cycle(g, p);
  }

  /** `stack` is the path in order; what is visited and not on the path is finished, in `order`. */
  ghost predicate SearchState(g: Graph, visited: set<AgentId>, path: set<AgentId>, order: seq<AgentId>, stack: seq<AgentId>) {
    && path <= visited <= Ids(g)
    && (forall x :: x in stack <==> x in path)
    && Walk(g, stack)
    && (forall x :: x in order <==> x in visited && x !in path)
    && Ordered(g, order)
  }

  lemma Enters(g: Graph, visited: set<AgentId>, path: set<AgentId>, order: seq<AgentId>, stack: seq<AgentId>, id: AgentId)
    requires SearchState(g, visited, path, order, stack)
    requires id in Ids(g) && id !in visited && Walk(g, stack + [id])
    ensures SearchState(g, visited + {id}, path + {id}, order, stack + [id])
  {
  }

  lemma WalkExtends(g: Graph, stack: seq<AgentId>, id: AgentId, next: AgentId)
    requires Walk(g, stack + [id]) && next in Deps(g, id)
    ensures Walk(g, stack + [id] + [next]) && next in Ids(g)
  {
    var p := stack + [id] + [next];
    forall i | 0 <= i < |p| - 1 ensures p[i + 1] in Deps(g, p[i]) {
      if i < |stack| {
        assert (stack + [id])[i + 1] in Deps(g, (stack + [id])[i]);
      }
    }
  }

  lemma Leaves(g: Graph, seen: set<AgentId>, done: seq<AgentId>, visited: set<AgentId>, path: set<AgentId>,
               order: seq<AgentId>, stack: seq<AgentId>, id: AgentId)
    requires SearchState(g, seen, path, done, stack)
    requires SearchState(g, visited, path + {id}, order, stack + [id]) && id !in path
    requires forall d | d in Deps(g, id) :: d in order
    ensures SearchState(g, visited, path, order + [id], stack)
  {
    forall i | 0 <= i < |stack| - 1 ensures stack[i + 1] in Deps(g, stack[i]) {
      assert (stack + [id])[i + 1] in Deps(g, (stack + [id])[i]);
    }
    var longer := order + [id];
    forall i, d | 0 <= i < |longer| && d in Deps(g, longer[i]) ensures d in longer[..i] {
      assert longer[..i] == order[..i];
    }
  }

  lemma Restored(path: set<AgentId>, id: AgentId)
    requires id !in path
    ensures path + {id} - {id} == path
  {
  }

  // ---- the search ----

  class Search {
    const graph: Graph
    var visited: set<AgentId>
    var path: set<AgentId>
    ghost var order: seq<AgentId>  // the finished agents, first finished first

    constructor (graph: Graph)
      ensures this.graph == graph && visited == {} && path == {} && order == []
      ensures Consistent([])
    {
      this.graph, visited, path, order := graph, {}, {}, [];
    }

    ghost predicate Consistent(stack: seq<AgentId>)
      reads this
    {
      SearchState(graph, visited, path, order, stack)
    }

    /** The recursive search; true stands for the ValueError. */
    method Visit(id: AgentId, ghost stack: seq<AgentId>) returns (raised: bool)
      requires Consistent(stack) && id in Ids(graph) && Walk(graph, stack + [id])
      modifies this
      ensures raised ==> Cyclic(graph)
      ensures !raised ==> Consistent(stack) && path == old(path) && old(visited) <= visited
      ensures !raised ==> old(order) <= order && id in order
      decreases |Ids(graph) - visited|, 0
    {
      if id in path {
        ClosesCycle(graph, stack, id);
        return true;
      }
      if id in visited {
        return false;
      }
      Enters(graph, visited, path, order, stack, id);
      Shrinks(Ids(graph), visited, visited + {id}, id);
      visited := visited + {id};
      path := path + {id};
      raised := VisitDependencies(id, stack);
      if raised {
        return;
      }
      Leaves(graph, old(visited), old(order), visited, old(path), order, stack, id);
      Restored(old(path), id);
      path := path - {id};
      order := order + [id];
    }

    /** The loop of the search over the dependencies of the agent at the end of the path. */
    method VisitDependencies(id: AgentId, ghost stack: seq<AgentId>) returns (raised: bool)
      requires Consistent(stack + [id])
      modifies this
      ensures raised ==> Cyclic(graph)
      ensures !raised ==> Consistent(stack + [id]) && path == old(path) && old(visited) <= visited
      ensures !raised ==> old(order) <= order && forall d | d in Deps(graph, id) :: d in order
      decreases |Ids(graph) - visited|, 1
    {
      var deps := Deps(graph, id);
      for i := 0 to |deps|
        invariant Consistent(stack + [id]) && path == old(path) && old(visited) <= visited
        invariant old(order) <= order && forall d | d in deps[..i] :: d in order
      {
        assert deps[..i + 1] == deps[..i] + [deps[i]];
        WalkExtends(graph, stack, id, deps[i]);
        NoLarger(Ids(graph) - visited, Ids(graph) - old(visited));
        raised := Visit(deps[i], stack + [id]);
        if raised {
          return;
        }
      }
      assert deps[..|deps|] == deps;
      raised := false;
    }
  }

  lemma Shrinks(all: set<AgentId>, before: set<AgentId>, after: set<AgentId>, id: AgentId)
    requires id in all && id !in before && before + {id} <= after
    ensures |all - after| < |all - before|
  {
    var small, big := all - after, all - before;
    assert small <= big - {id};
    NoLarger(small, big - {id});
  }

  lemma {:induction false} GraphKnowsAgents(agents: seq<Agent>, id: AgentId)
    ensures id in GraphOf(agents) <==> exists a | a in agents :: a.id == id
    ensures id in GraphOf(agents) ==> exists a | a in agents :: a.id == id && a.dependencies == GraphOf(agents)[id]
  {
    if agents != [] {
      var n := |agents| - 1;
      assert agents == agents[..n] + [agents[n]];
      GraphKnowsAgents(agents[..n], id);
      assert agents[n] in agents;
      assert forall a | a in agents[..n] :: a in agents;
    }
  }

  /** With unique names the graph is what the agents declare. */
  lemma UniqueNamesGraph(agents: seq<Agent>, a: Agent)
    requires forall x, y | x in agents && y in agents && x.id == y.id :: x == y
    requires a in agents
    ensures Deps(GraphOf(agents), a.id) == a.dependencies
  {
    GraphKnowsAgents(agents, a.id);
  }

  /** The check raises exactly when the dependency graph contains a cycle; the search always ends. */
  method DetectCircular(agents: seq<Agent>) returns (raised: bool)
    ensures raised <==> Cyclic(GraphOf(agents))
  {
    var graph := GraphOf(agents);
    for i := 0 to |agents|
      invariant forall a, p | a in agents[..i] && a.dependencies != [] && Cycle(graph, p) :: p[0] != a.id
    {
      assert agents[..i + 1] == agents[..i] + [agents[i]];
      if agents[i].dependencies != [] {
        GraphKnowsAgents(agents, agents[i].id);
        assert agents[i] in agents;
        var search := new Search(graph);
        raised := search.Visit(agents[i].id, []);
        if raised {
          return;
        }
        forall p | Cycle(graph, p) ensures p[0] != agents[i].id {
          NoCycleThrough(graph, search.order, p);
        }
      }
    }
    assert agents[..|agents|] == agents;
    forall p ensures !Cycle(graph, p) {
      if Cycle(graph, p) {
        assert p[1] in Deps(graph, p[0]);
        GraphKnowsAgents(agents, p[0]);
      }
    }
    raised := false;
  }
}
