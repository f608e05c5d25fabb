/** The three-colour depth-first search for a dependency cycle. */
module CycleDetection {
  import opened Basics
  import opened Graphs

  datatype State = Unvisited | InProgress | Visited

  type States = map<TaskId, State>

  /** Looking up a missing id of the hash table yields the default colour. */
  function StateOf(states: States, n: TaskId): State {
    if n in states then states[n] else Unvisited
  }

  ghost function Unseen(g: Graph, states: States): set<TaskId> {
    set n | n in Nodes(g) && StateOf(states, n).Unvisited?
  }

  ghost predicate OnCycle(g: Graph, n: TaskId) {
    exists p :: IsCycle(g, p) && p[0] == n
  }

  /** Finished ids have only finished dependencies and lie on no cycle. */
  ghost predicate Finished(g: Graph, states: States) {
    forall n :: n in states && states[n].Visited? ==>
      !OnCycle(g, n) && forall m :: m in Succ(g, n) ==> StateOf(states, m).Visited?
  }

  /** The ids in progress are exactly the nodes of the path of pending calls. */
  ghost predicate Pending(g: Graph, states: States, path: seq<TaskId>) {
    && (path != [] ==> IsPath(g, path))
    && forall n :: StateOf(states, n).InProgress? <==> n in path
  }

  ghost predicate Later(states: States, states': States) {
    forall n :: n in states && !states[n].Unvisited? ==> n in states' && states'[n] == states[n]
  }

  lemma BackEdge(g: Graph, path: seq<TaskId>, n: TaskId)
    requires path != [] && IsPath(g, path)
    requires n in path && n in Succ(g, path[|path| - 1])
    ensures Cyclic(g)
  {
    var i :| 0 <= i < |path| && path[i] == n;
    SubPath(g, path, i, |path|);
    assert Reachable(g, n, path[|path| - 1]);
    BackPathCycle(g, path[|path| - 1], n);
  }

  lemma FinishedNotOnCycle(g: Graph, states: States, node: TaskId)
    requires Finished(g, states)
    requires !StateOf(states, node).Visited?
    requires forall m :: m in Succ(g, node) ==> StateOf(states, m).Visited?
    ensures !OnCycle(g, node)
  {
    if OnCycle(g, node) {
      var p :| IsCycle(g, p) && p[0] == node;
      var done := set n | n in states && states[n].Visited?;
      SubPath(g, p, 1, |p|);
      assert p[1] in Succ(g, p[0]);
      assert p[1] in done;
      forall n, m | n in done && m in Succ(g, n) ensures m in done {
        assert StateOf(states, m).Visited?;
      }
      ClosedSetHoldsPaths(g, done, p[1..]);
    }
  }

  lemma EnterNode(g: Graph, node: TaskId, states: States, path: seq<TaskId>)
    requires node in Nodes(g) && StateOf(states, node).Unvisited?
    requires Finished(g, states) && Pending(g, states, path)
    requires path != [] ==> node in Succ(g, path[|path| - 1])
    ensures var states' := states[node := InProgress];
      && Finished(g, states') && Pending(g, states', path + [node]) && Later(states, states')
      && Unseen(g, states') < Unseen(g, states)
  {
    var states' := states[node := InProgress];
    assert node in Unseen(g, states) && node !in Unseen(g, states');
  }

  lemma LeaveNode(g: Graph, node: TaskId, states0: States, states: States, path: seq<TaskId>)
    requires StateOf(states0, node).Unvisited? && Pending(g, states0, path) && Later(states0, states)
    requires Finished(g, states) && Pending(g, states, path + [node])
    requires forall m :: m in Succ(g, node) ==> StateOf(states, m).Visited?
    ensures var states' := states[node := Visited];
      Finished(g, states') && Pending(g, states', path) && Later(states0, states')
  {
    assert StateOf(states, node).InProgress? by { assert node in path + [node]; }
    FinishedNotOnCycle(g, states, node);
    assert node !in path by { assert !StateOf(states0, node).InProgress?; }
    forall n ensures StateOf(states[node := Visited], n).InProgress? <==> n in path {
      assert StateOf(states, n).InProgress? <==> n in path + [node];
    }
  }

  /** The search from one unvisited id. `path` lists the calls that are still pending. */
  method Dfs(g: Graph, node: TaskId, states0: States, ghost path: seq<TaskId>)
    returns (found: bool, states: States)
    requires node in Nodes(g) && StateOf(states0, node).Unvisited?
    requires Finished(g, states0) && Pending(g, states0, path)
    requires path != [] ==> node in Succ(g, path[|path| - 1])
    ensures found ==> Cyclic(g)
    ensures !found ==> Finished(g, states) && Pending(g, states, path)
    ensures !found ==> StateOf(states, node).Visited? && Later(states0, states)
    decreases Unseen(g, states0)
  {
    states := states0[node := InProgress];
    ghost var path' := path + [node];
    EnterNode(g, node, states0, path);
    ghost var entry := Unseen(g, states);

    if node in g {
      var todo := g[node];
      while todo != {}
        invariant todo <= g[node]
        invariant Finished(g, states) && Pending(g, states, path')
        invariant Later(states0, states) && Unseen(g, states) <= entry
        invariant forall m :: m in g[node] - todo ==> StateOf(states, m).Visited?
      {
        var neighbor :| neighbor in todo;
        if neighbor !in states {
          states := states[neighbor := Unvisited];
        }
        assert Finished(g, states) && Pending(g, states, path');
        if states[neighbor].InProgress? {
          BackEdge(g, path', neighbor);
          return true, states;
        }
        if states[neighbor].Unvisited? {
          EdgeNodes(g, node, neighbor);
          found, states := Dfs(g, neighbor, states, path');
          if found {
            return true, states;
          }
        }
        todo := todo - {neighbor};
      }
    }
    LeaveNode(g, node, states0, states, path);
    states := states[node := Visited];
    found := false;
  }

  /** The cycle test is exact, self-loops and dangling dependencies included. */
  method HasCycle(g: Graph) returns (found: bool)
    ensures found <==> Cyclic(g)
  {
    var states: States := map n | n in g :: Unvisited;
    var todo := g.Keys;
    while todo != {}
      invariant todo <= g.Keys
      invariant Finished(g, states) && Pending(g, states, [])
      invariant forall n :: n in g.Keys - todo ==> StateOf(states, n).Visited?
    {
      var id :| id in todo;
      if StateOf(states, id).Unvisited? {
        found, states := Dfs(g, id, states, []);
        if found {
          return true;
        }
      } else {
        assert !StateOf(states, id).InProgress?;
      }
      todo := todo - {id};
    }
    if Cyclic(g) {
      var p :| IsCycle(g, p);
      PathNodes(g, p);
      assert StateOf(states, p[0]).Visited?;
      assert OnCycle(g, p[0]);
    }
    found := false;
  }
}
