/** The mirrored dependency maps and the reachability search over them. */
module TaskGraphs {
  import opened Basics
  import opened Graphs

  /** Every dependency edge is recorded in the reverse map too. */
  ghost predicate ForwardMirrored(deps: Graph, rev: Graph) {
    forall a, b :: b in Succ(deps, a) ==> a in Succ(rev, b)
  }

  ghost predicate ExactlyMirrored(deps: Graph, rev: Graph) {
    forall a, b :: b in Succ(deps, a) <==> a in Succ(rev, b)
  }

  function WithEdge(g: Graph, a: TaskId, b: TaskId): (r: Graph)
    ensures forall x, y :: y in Succ(r, x) <==> y in Succ(g, x) || (x == a && y == b)
  {
    g[a := Succ(g, a) + {b}]
  }

  function WithoutEdge(g: Graph, a: TaskId, b: TaskId): (r: Graph)
    ensures forall x, y :: y in Succ(r, x) <==> y in Succ(g, x) && !(x == a && y == b)
  {
    if a in g then g[a := g[a] - {b}] else g
  }

  function WithoutNode(g: Graph, t: TaskId): (r: Graph)
    ensures forall x, y :: y in Succ(r, x) <==> y in Succ(g, x) && x != t && y != t
  {
    map n | n in g && n != t :: g[n] - {t}
  }

  /** What removing a task leaves behind in the reverse map: the exact mirror survives
      precisely when the removed task depended on nothing but itself. */
  lemma RemovalMirror(deps: Graph, rev: Graph, t: TaskId)
    requires ExactlyMirrored(deps, rev)
    ensures ForwardMirrored(WithoutNode(deps, t), rev - {t})
    ensures ExactlyMirrored(WithoutNode(deps, t), rev - {t}) <==> Succ(deps, t) <= {t}
  {
    var deps', rev' := WithoutNode(deps, t), rev - {t};
    forall a, b ensures a in Succ(rev', b) <==> b in Succ(deps, a) && b != t {
      assert a in Succ(rev, b) <==> b in Succ(deps, a);
    }
    if ExactlyMirrored(deps', rev') {
      forall b | b in Succ(deps, t) ensures b == t {
        assert b in Succ(deps', t) <==> t in Succ(rev', b);
      }
    }
  }

  /** The part of the graph that the root depends on, directly or not. */
  ghost function SubgraphOf(deps: Graph, root: TaskId): Graph {
    map n | n in Nodes(deps) + {root} && Reachable(deps, root, n) :: Succ(deps, n)
  }

  /** Every id of the graph is a key and can be reached from the root. */
  ghost predicate Rooted(g: Graph, root: TaskId) {
    root in g && Closed(g) && forall n :: n in g ==> Reachable(g, root, n)
  }

  /** A path from a reachable id is a path of the subgraph. */
  lemma PathInSubgraph(deps: Graph, root: TaskId, p: seq<TaskId>)
    requires IsPath(deps, p) && Reachable(deps, root, p[0])
    ensures IsPath(SubgraphOf(deps, root), p)
  {
    var sub := SubgraphOf(deps, root);
    forall i, j | 0 <= i && j == i + 1 && j < |p| ensures p[j] in Succ(sub, p[i]) {
      SubPath(deps, p, 0, j);
      ReachableTrans(deps, root, p[0], p[i]);
      EdgeNodes(deps, p[i], p[j]);
    }
  }

  lemma SubgraphIsRooted(deps: Graph, root: TaskId)
    ensures Rooted(SubgraphOf(deps, root), root)
  {
    var sub := SubgraphOf(deps, root);
    ReachableSelf(deps, root);
    forall n, m | n in sub && m in sub[n] ensures m in sub {
      ReachableStep(deps, root, n, m);
      EdgeNodes(deps, n, m);
    }
    forall n | n in sub ensures Reachable(sub, root, n) {
      var p :| PathFromTo(deps, p, root, n);
      PathInSubgraph(deps, root, p);
      assert PathFromTo(sub, p, root, n);
    }
  }

  /** The subgraph has a cycle exactly when the root can reach one. */
  lemma SubgraphCycle(deps: Graph, root: TaskId)
    ensures Cyclic(SubgraphOf(deps, root)) <==> CycleBelow(deps, root)
  {
    var sub := SubgraphOf(deps, root);
    if Cyclic(sub) {
      var p :| IsCycle(sub, p);
      PathNodes(sub, p);
      assert IsCycle(deps, p);
      assert Reachable(deps, root, p[0]);
    }
    if CycleBelow(deps, root) {
      var p :| IsCycle(deps, p) && Reachable(deps, root, p[0]);
      PathInSubgraph(deps, root, p);
      assert IsCycle(sub, p);
    }
  }

  /** One call of the recursive search: `visited` and `subgraph` grow together. */
  method BuildSubgraph(deps: Graph, id: TaskId, visited0: set<TaskId>, subgraph0: Graph,
                       ghost universe: set<TaskId>)
    returns (visited: set<TaskId>, subgraph: Graph)
    requires id in universe && Nodes(deps) <= universe && visited0 <= universe
    requires subgraph0 == map n | n in visited0 :: Succ(deps, n)
    ensures visited0 <= visited <= universe && id in visited
    ensures subgraph == map n | n in visited :: Succ(deps, n)
    ensures forall n :: n in visited - visited0 ==> Succ(deps, n) <= visited
    ensures forall n :: n in visited - visited0 ==> Reachable(deps, id, n)
    decreases universe - visited0
  {
    visited, subgraph := visited0, subgraph0;
    if id in visited {
      return;
    }
    visited := visited + {id};
    ReachableSelf(deps, id);
    if id in deps {
      subgraph := subgraph[id := deps[id]];
      var todo := deps[id];
      while todo != {}
        invariant todo <= deps[id]
        invariant visited0 + {id} <= visited <= universe
        invariant subgraph == map n | n in visited :: Succ(deps, n)
        invariant deps[id] - todo <= visited
        invariant forall n :: n in visited - visited0 - {id} ==> Succ(deps, n) <= visited
        invariant forall n :: n in visited - visited0 ==> Reachable(deps, id, n)
      {
        var depId :| depId in todo;
        EdgeNodes(deps, id, depId);
        EdgeIsPath(deps, id, depId);
        ghost var before := visited;
        visited, subgraph := BuildSubgraph(deps, depId, visited, subgraph, universe);
        forall n | n in visited - visited0 ensures Reachable(deps, id, n) {
          if n !in before {
            ReachableTrans(deps, id, depId, n);
          }
        }
        todo := todo - {depId};
      }
    } else {
      subgraph := subgraph[id := {}];
    }
  }

  class TaskGraph {
    var dependencies: Graph
    var dependents: Graph

    ghost predicate Valid()
      reads this
    {
      ForwardMirrored(dependencies, dependents)
    }

    constructor ()
      ensures Valid() && dependencies == map[] && dependents == map[]
    {
      dependencies, dependents := map[], map[];
    }

    method AddDependency(dependent: TaskId, dependency: TaskId)
      requires Valid()
      modifies this
      ensures Valid()
      ensures dependencies == WithEdge(old(dependencies), dependent, dependency)
      ensures dependents == WithEdge(old(dependents), dependency, dependent)
      ensures old(ExactlyMirrored(dependencies, dependents)) ==> ExactlyMirrored(dependencies, dependents)
    {
      if dependent !in dependencies {
        dependencies := dependencies[dependent := {}];
      }
      dependencies := dependencies[dependent := dependencies[dependent] + {dependency}];
      if dependency !in dependents {
        dependents := dependents[dependency := {}];
      }
      dependents := dependents[dependency := dependents[dependency] + {dependent}];
      assert dependencies == WithEdge(old(dependencies), dependent, dependency);
      assert dependents == WithEdge(old(dependents), dependency, dependent);
    }

    method RemoveDependency(dependent: TaskId, dependency: TaskId)
      requires Valid()
      modifies this
      ensures Valid()
      ensures dependencies == WithoutEdge(old(dependencies), dependent, dependency)
      ensures dependents == WithoutEdge(old(dependents), dependency, dependent)
      ensures old(ExactlyMirrored(dependencies, dependents)) ==> ExactlyMirrored(dependencies, dependents)
    {
      if dependent in dependencies {
        dependencies := dependencies[dependent := dependencies[dependent] - {dependency}];
      }
      if dependency in dependents {
        dependents := dependents[dependency := dependents[dependency] - {dependent}];
      }
      assert dependencies == WithoutEdge(old(dependencies), dependent, dependency);
      assert dependents == WithoutEdge(old(dependents), dependency, dependent);
    }

    method RemoveTask(taskId: TaskId)
      requires Valid()
      modifies this
      ensures Valid()
      ensures dependencies == WithoutNode(old(dependencies), taskId)
      ensures dependents == old(dependents) - {taskId}
    {
      ghost var deps0 := dependencies;
      dependencies := dependencies - {taskId};
      var todo := dependencies.Keys;
      while todo != {}
        invariant dependents == old(dependents)
        invariant todo <= dependencies.Keys == deps0.Keys - {taskId}
        invariant forall n :: n in dependencies ==>
          dependencies[n] == if n in todo then deps0[n] else deps0[n] - {taskId}
      {
        var n :| n in todo;
        dependencies := dependencies[n := dependencies[n] - {taskId}];
        todo := todo - {n};
      }
      assert dependencies == WithoutNode(deps0, taskId);
      if taskId in dependents {
        var users := dependents[taskId];
        while users != {}
          invariant dependents == old(dependents)
          invariant dependencies == WithoutNode(deps0, taskId)
        {
          var dependent :| dependent in users;
          if dependent in dependencies {
            assert dependencies[dependent] - {taskId} == dependencies[dependent];
            dependencies := dependencies[dependent := dependencies[dependent] - {taskId}];
          }
          users := users - {dependent};
        }
        dependents := dependents - {taskId};
      }
      forall a, b | b in Succ(dependencies, a) ensures a in Succ(dependents, b) {
        assert b in Succ(deps0, a) && b != taskId;
        assert a in Succ(old(dependents), b);
      }
    }

    /** The keys are exactly the ids reachable from the root, each with all its dependencies. */
    method GetSubgraph(rootId: TaskId) returns (subgraph: Graph)
      ensures subgraph == SubgraphOf(dependencies, rootId)
      ensures Rooted(subgraph, rootId)
      ensures Cyclic(subgraph) <==> CycleBelow(dependencies, rootId)
    {
      var visited;
      visited, subgraph := BuildSubgraph(dependencies, rootId, {}, map[], Nodes(dependencies) + {rootId});
      forall n | Reachable(dependencies, rootId, n) ensures n in visited {
        var p :| PathFromTo(dependencies, p, rootId, n);
        ClosedSetHoldsPaths(dependencies, visited, p);
      }
      SubgraphIsRooted(dependencies, rootId);
      SubgraphCycle(dependencies, rootId);
    }
  }
}
