/** The critical path: cycle test, topological sort, relaxation, choice of the end, walk back. */
module CriticalPath {
  import opened Basics
  import opened Sequences
  import opened Graphs
  import opened CycleDetection
  import opened TaskGraphs
  import opened Kahn
  import opened Relaxation
  import opened Levels

  /** The first id, in traversal order, whose distance beats the start and everything before it. */
  function PickEnd(distance: map<TaskId, int>, ids: seq<TaskId>, current: TaskId): (e: TaskId)
    requires Elems(ids) <= distance.Keys && current in distance
    ensures e in distance && distance[e] >= distance[current]
    ensures forall n :: n in ids ==> distance[e] >= distance[n]
    ensures e == current || distance[e] > distance[current]
  {
    if ids == [] then current else
      assert ids[0] in Elems(ids);
      assert Elems(ids[1..]) <= Elems(ids);
      PickEnd(distance, ids[1..], if distance[ids[0]] > distance[current] then ids[0] else current)
  }

  method ChooseEnd(distance: map<TaskId, int>, ids: seq<TaskId>, start: TaskId) returns (endNode: TaskId)
    requires Elems(ids) <= distance.Keys && start in distance
    ensures endNode == PickEnd(distance, ids, start)
  {
    endNode := start;
    var i := 0;
    assert ids[0..] == ids;
    while i < |ids|
      invariant i <= |ids| && endNode in distance && Elems(ids[i..]) <= distance.Keys
      invariant PickEnd(distance, ids[i..], endNode) == PickEnd(distance, ids, start)
    {
      assert ids[i] in Elems(ids);
      assert ids[i..][1..] == ids[i + 1..];
      assert Elems(ids[i + 1..]) <= Elems(ids);
      if distance[ids[i]] > distance[endNode] {
        endNode := ids[i];
      }
      i := i + 1;
    }
  }

  lemma TablesReady(g: Graph, it: Iteration)
    requires Fits(g, it) && !Cyclic(g) && Closed(g)
    ensures Tables(g, KahnOrder(g, it), RelaxAll(g, Reverse(KahnOrder(g, it))))
  {
    KahnAgreesWithCycleTest(g, it);
    BackwardTables(g, KahnOrder(g, it));
  }

  /** The end of the path: the last id of the sort, unless its distance is beaten. */
  ghost function EndOf(g: Graph, it: Iteration): (e: TaskId)
    requires Fits(g, it) && !Cyclic(g) && Closed(g) && g != map[]
    ensures e in g
  {
    TablesReady(g, it);
    var order := KahnOrder(g, it);
    PickEnd(RelaxAll(g, Reverse(order)).distance, it.distances, order[|order| - 1])
  }

  /** The result of the computation for a given traversal of the hash tables. */
  ghost function CriticalPathOf(g: Graph, it: Iteration): seq<TaskId>
    requires Fits(g, it) && g != map[]
  {
    if Cyclic(g) || !Closed(g) then [] else
      TablesReady(g, it);
      WalkBack(g, RelaxAll(g, Reverse(KahnOrder(g, it))).parent, EndOf(g, it))
  }

  method FindCriticalPath(g: Graph, it: Iteration) returns (path: seq<TaskId>)
    requires Fits(g, it) && g != map[]
    ensures path == CriticalPathOf(g, it)
  {
    var cyclic := HasCycle(g);
    if cyclic {
      return [];
    }
    var order := KahnSort(g, it);
    KahnInit(g, it.degrees);
    KahnFromInv(g, it.deps, ReadyFrom(g, it.degrees, {}), []);
    KahnCompletes(g, order);
    ClosedSize(g);
    if |order| != |g| {
      return [];
    }
    TablesReady(g, it);
    ReverseElems(order);
    forall n | n in g ensures n !in g[n] {
      if n in g[n] {
        ReachableSelf(g, n);
        BackPathCycle(g, n, n);
      }
    }
    var backwards := Reverse(order);
    var r := Relax(g, backwards);
    var endNode := ChooseEnd(r.distance, it.distances, backwards[0]);
    path := BuildPath(g, r.parent, endNode);
  }

  /** `a` depends on `b` directly and no longer chain leads from `a` to `b`: the edge is no shortcut. */
  ghost predicate Covers(g: Graph, a: TaskId, b: TaskId) {
    b in Succ(g, a) && !exists p :: PathFromTo(g, p, a, b) && |p| > 2
  }

  /** A chain of edges without shortcuts from the root to a task with no dependencies. */
  ghost predicate CoveringChain(g: Graph, root: TaskId, c: seq<TaskId>) {
    IsPath(g, c) && c[0] == root && Succ(g, c[|c| - 1]) == {} && ShortcutFree(g, c)
  }

  lemma LastPredCovers(g: Graph, order: seq<TaskId>, n: TaskId, m: TaskId)
    requires NoDup(order) && Topological(g, order) && Nodes(g) <= Elems(order) && IsLastPred(g, order, n, m)
    ensures Covers(g, m, n)
  {
    if p :| PathFromTo(g, p, m, n) && |p| > 2 {
      var c := p[|p| - 2];
      assert p[|p| - 1] in Succ(g, c);
      EdgeNodes(g, c, n);
      EdgeNodes(g, m, n);
      assert c in Elems(order) && m in Elems(order);
      var a :| 0 <= a < |order| && order[a] == m && forall j :: a < j < |order| ==> order[j] !in Preds(g, n);
      var b :| 0 <= b < |order| && order[b] == c;
      SubPath(g, p, 0, |p| - 1);
      PathAscends(g, order, p[0..|p| - 1], a, b);
    }
  }

  /** No edge of the chain is a shortcut. */
  ghost predicate ShortcutFree(g: Graph, c: seq<TaskId>) {
    forall i, j :: 0 <= i && j == i + 1 && j < |c| ==> Covers(g, c[i], c[j])
  }

  lemma WalkShape(g: Graph, order: seq<TaskId>, r: Relaxed, e: TaskId)
    requires !Cyclic(g) && Closed(g) && Tables(g, order, r)
    ensures var path := WalkBack(g, r.parent, e);
      IsPath(g, path) && NoDup(path) && Preds(g, path[0]) == {} && ShortcutFree(g, path)
  {
    var path := WalkBack(g, r.parent, e);
    WalkBackPath(g, r.parent, e);
    WalkBackLinks(g, r.parent, e);
    PathNoDup(g, path);
    forall i, j | 0 <= i && j == i + 1 && j < |path| ensures Covers(g, path[i], path[j]) {
      assert IsParent(r.parent, path[j], path[i]);
      LastPredCovers(g, order, path[j], path[i]);
    }
  }

  /** Every non-empty result is a repeat-free chain of dependencies without shortcuts that starts
      at a task nothing depends on; it is empty exactly on a cycle or a dangling dependency. */
  lemma CriticalPathShape(g: Graph, it: Iteration)
    requires Fits(g, it) && g != map[]
    ensures var path := CriticalPathOf(g, it);
      && (path == [] <==> Cyclic(g) || !Closed(g))
      && (path != [] ==> IsPath(g, path) && NoDup(path) && Preds(g, path[0]) == {} && ShortcutFree(g, path))
      && (path != [] ==> |path| - 1 <= Level(g, path[0]))
  {
    if !Cyclic(g) && Closed(g) {
      TablesReady(g, it);
      WalkShape(g, KahnOrder(g, it), RelaxAll(g, Reverse(KahnOrder(g, it))), EndOf(g, it));
      LevelBoundsPaths(g, CriticalPathOf(g, it));
    }
  }

  lemma LastHasNoDeps(g: Graph, order: seq<TaskId>)
    requires Closed(g) && IsOrder(order, g.Keys) && Topological(g, order) && order != []
    ensures Succ(g, order[|order| - 1]) == {}
  {
    var last := order[|order| - 1];
    if m :| m in Succ(g, last) {
      EdgeNodes(g, last, m);
      assert false;
    }
  }

  lemma AloneWithoutDeps(g: Graph, root: TaskId)
    requires Rooted(g, root) && Succ(g, root) == {}
    ensures g.Keys == {root}
  {
    forall n | n in g ensures n == root {
      var p :| PathFromTo(g, p, root, n);
      ClosedSetHoldsPaths(g, {root}, p);
    }
  }

  /** In a rooted graph the last id of the sort has no dependencies and is the end of the path. */
  lemma EndIsLast(g: Graph, root: TaskId, order: seq<TaskId>, r: Relaxed, ids: seq<TaskId>)
    requires Rooted(g, root) && !Cyclic(g) && Tables(g, order, r) && IsOrder(ids, g.Keys)
    ensures order != [] && Succ(g, order[|order| - 1]) == {}
    ensures order[|order| - 1] in g && PickEnd(r.distance, ids, order[|order| - 1]) == order[|order| - 1]
  {
    LastHasNoDeps(g, order);
    LastIsFarthest(g, root, order[|order| - 1], r.distance);
  }

  lemma LastIsFarthest(g: Graph, root: TaskId, last: TaskId, d: map<TaskId, int>)
    requires Rooted(g, root) && !Cyclic(g) && last in g && Succ(g, last) == {}
    requires d.Keys == g.Keys && forall n :: n in g ==> d[n] == if Preds(g, n) == {} then 0 else 1
    ensures forall n :: n in d ==> d[n] <= d[last]
  {
    OnlyRootIsFree(g, root, last);
    if last == root {
      AloneWithoutDeps(g, root);
    }
  }

  lemma OnlyRootIsFree(g: Graph, root: TaskId, n: TaskId)
    requires Rooted(g, root) && !Cyclic(g) && n in g
    ensures Preds(g, n) == {} <==> n == root
  {
    if n != root {
      var p :| PathFromTo(g, p, root, n);
      assert p[|p| - 1] in Succ(g, p[|p| - 2]);
      EdgeNodes(g, p[|p| - 2], n);
    } else if Preds(g, root) != {} {
      var m :| m in Preds(g, root);
      EdgeNodes(g, m, root);
      BackPathCycle(g, m, root);
    }
  }

  lemma WalkFromLast(g: Graph, root: TaskId, order: seq<TaskId>, r: Relaxed, ids: seq<TaskId>)
    requires Rooted(g, root) && !Cyclic(g) && Tables(g, order, r) && IsOrder(ids, g.Keys) && order != []
    requires order[|order| - 1] in g
    ensures CoveringChain(g, root, WalkBack(g, r.parent, PickEnd(r.distance, ids, order[|order| - 1])))
  {
    EndIsLast(g, root, order, r, ids);
    var last := order[|order| - 1];
    WalkShape(g, order, r, last);
    var path := WalkBack(g, r.parent, last);
    if |path| > 1 {
      PathNodes(g, path);
    }
    OnlyRootIsFree(g, root, path[0]);
  }

  /** On the subgraph below a root, the result is a shortcut-free chain from the root to a task
      with no dependencies. */
  lemma OutcomeIsCoveringChain(g: Graph, root: TaskId, it: Iteration)
    requires Fits(g, it) && Rooted(g, root) && !Cyclic(g)
    ensures CoveringChain(g, root, CriticalPathOf(g, it))
  {
    TablesReady(g, it);
    WalkFromLast(g, root, KahnOrder(g, it), RelaxAll(g, Reverse(KahnOrder(g, it))), it.distances);
  }

  lemma SubgraphPath(deps: Graph, root: TaskId, p: seq<TaskId>)
    requires IsPath(SubgraphOf(deps, root), p)
    ensures IsPath(deps, p)
  {
  }

  /** The manager's query: empty exactly when the root can reach a cycle, otherwise a repeat-free
      chain of dependencies from the root down to a task with no dependencies. */
  method GetCriticalPath(graph: TaskGraph, rootId: TaskId, it: Iteration) returns (path: seq<TaskId>)
    requires Fits(SubgraphOf(graph.dependencies, rootId), it)
    ensures path == [] <==> CycleBelow(graph.dependencies, rootId)
    ensures path != [] ==> IsPath(graph.dependencies, path) && NoDup(path)
    ensures path != [] ==> path[0] == rootId && Succ(graph.dependencies, path[|path| - 1]) == {}
    ensures path != [] ==> CoveringChain(SubgraphOf(graph.dependencies, rootId), rootId, path)
  {
    var subgraph := graph.GetSubgraph(rootId);
    path := FindCriticalPath(subgraph, it);
    CriticalPathShape(subgraph, it);
    if path != [] {
      OutcomeIsCoveringChain(subgraph, rootId, it);
      SubgraphPath(graph.dependencies, rootId, path);
      if |path| > 1 {
        PathNodes(subgraph, path);
      }
    }
  }
}
