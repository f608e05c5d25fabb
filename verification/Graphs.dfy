/** Task dependency graphs: each key is mapped to the ids it depends on. */
module Graphs {
  import opened Basics
  import opened Sequences

  type Graph = map<TaskId, set<TaskId>>

  /** The dependencies of `n`; an id that is not a key has none. */
  function Succ(g: Graph, n: TaskId): set<TaskId> {
    if n in g then g[n] else {}
  }

  function Preds(g: Graph, n: TaskId): set<TaskId> {
    set m | m in g && n in g[m]
  }

  function Nodes(g: Graph): set<TaskId> {
    g.Keys + set n, m | n in g && m in g[n] :: m
  }

  ghost predicate Closed(g: Graph) {
    Nodes(g) == g.Keys
  }

  /** A chain of dependency edges, each node depending on the next. */
  ghost predicate IsPath(g: Graph, p: seq<TaskId>) {
    p != [] && forall i, j :: 0 <= i && j == i + 1 && j < |p| ==> p[j] in Succ(g, p[i])
  }

  ghost predicate PathFromTo(g: Graph, p: seq<TaskId>, a: TaskId, b: TaskId) {
    IsPath(g, p) && p[0] == a && p[|p| - 1] == b
  }

  ghost predicate Reachable(g: Graph, a: TaskId, b: TaskId) {
    exists p :: PathFromTo(g, p, a, b)
  }

  ghost predicate IsCycle(g: Graph, p: seq<TaskId>) {
    IsPath(g, p) && |p| >= 2 && p[0] == p[|p| - 1]
  }

  ghost predicate Cyclic(g: Graph) {
    exists p :: IsCycle(g, p)
  }

  /** A cycle can be reached from `n`. */
  ghost predicate CycleBelow(g: Graph, n: TaskId) {
    exists p :: IsCycle(g, p) && Reachable(g, n, p[0])
  }

  lemma EdgeNodes(g: Graph, a: TaskId, b: TaskId)
    requires b in Succ(g, a)
    ensures a in g && a in Nodes(g) && b in Nodes(g) && a in Preds(g, b)
  {
  }

  lemma PathConcat(g: Graph, p: seq<TaskId>, q: seq<TaskId>)
    requires IsPath(g, p) && IsPath(g, q) && p[|p| - 1] == q[0]
    ensures PathFromTo(g, p + q[1..], p[0], q[|q| - 1])
    ensures |p + q[1..]| == |p| + |q| - 1
  {
  }

  lemma SubPath(g: Graph, p: seq<TaskId>, i: nat, j: nat)
    requires IsPath(g, p) && i < j <= |p|
    ensures PathFromTo(g, p[i..j], p[i], p[j - 1])
  {
  }

  lemma EdgeIsPath(g: Graph, a: TaskId, b: TaskId)
    requires b in Succ(g, a)
    ensures PathFromTo(g, [a, b], a, b)
    ensures Reachable(g, a, b)
  {
    assert PathFromTo(g, [a, b], a, b);
  }

  lemma ReachableSelf(g: Graph, a: TaskId)
    ensures Reachable(g, a, a)
  {
    assert PathFromTo(g, [a], a, a);
  }

  lemma ReachableTrans(g: Graph, a: TaskId, b: TaskId, c: TaskId)
    requires Reachable(g, a, b) && Reachable(g, b, c)
    ensures Reachable(g, a, c)
  {
    var p :| PathFromTo(g, p, a, b);
    var q :| PathFromTo(g, q, b, c);
    PathConcat(g, p, q);
  }

  lemma ReachableStep(g: Graph, a: TaskId, b: TaskId, c: TaskId)
    requires Reachable(g, a, b) && c in Succ(g, b)
    ensures Reachable(g, a, c)
  {
    EdgeIsPath(g, b, c);
    ReachableTrans(g, a, b, c);
  }

  lemma PathNodes(g: Graph, p: seq<TaskId>)
    requires IsPath(g, p) && |p| >= 2
    ensures forall i :: 0 <= i < |p| ==> p[i] in Nodes(g)
    ensures forall i :: 0 <= i < |p| - 1 ==> p[i] in g
  {
    forall i | 0 <= i < |p| ensures p[i] in Nodes(g) && (i < |p| - 1 ==> p[i] in g) {
      if i < |p| - 1 {
        EdgeNodes(g, p[i], p[i + 1]);
      } else {
        EdgeNodes(g, p[i - 1], p[i]);
      }
    }
  }

  /** A set of ids that contains the dependencies of its members contains every path from them. */
  lemma {:induction false} ClosedSetHoldsPaths(g: Graph, s: set<TaskId>, p: seq<TaskId>)
    requires forall n, m :: n in s && m in Succ(g, n) ==> m in s
    requires IsPath(g, p) && p[0] in s
    ensures p[|p| - 1] in s
  {
    if |p| > 1 {
      SubPath(g, p, 1, |p|);
      assert p[1] in Succ(g, p[0]);
      ClosedSetHoldsPaths(g, s, p[1..]);
    }
  }

  /** An edge that can be travelled back closes a cycle. */
  lemma BackPathCycle(g: Graph, a: TaskId, b: TaskId)
    requires b in Succ(g, a) && Reachable(g, b, a)
    ensures Cyclic(g)
  {
    EdgeIsPath(g, a, b);
    var q :| PathFromTo(g, q, b, a);
    PathConcat(g, [a, b], q);
    assert IsCycle(g, [a, b] + q[1..]);
  }

  ghost function ReachSet(g: Graph, n: TaskId): set<TaskId> {
    set m | m in Nodes(g) && Reachable(g, n, m)
  }

  /** Below a node that reaches no cycle, every edge leads to another such node, from which strictly
      less can be reached. */
  lemma EdgeShrinksBelow(g: Graph, n: TaskId, m: TaskId)
    requires !CycleBelow(g, n) && m in Succ(g, n)
    ensures !CycleBelow(g, m) && ReachSet(g, m) < ReachSet(g, n)
  {
    EdgeNodes(g, n, m);
    EdgeIsPath(g, n, m);
    ReachableSelf(g, n);
    forall k | Reachable(g, m, k) ensures Reachable(g, n, k) {
      ReachableTrans(g, n, m, k);
    }
    assert n in ReachSet(g, n);
    if Reachable(g, m, n) {
      var q :| PathFromTo(g, q, m, n);
      PathConcat(g, [n, m], q);
      assert IsCycle(g, [n, m] + q[1..]);
    }
  }

  /** In an acyclic graph every edge leads to a node from which strictly less can be reached. */
  lemma EdgeShrinks(g: Graph, n: TaskId, m: TaskId)
    requires !Cyclic(g) && m in Succ(g, n)
    ensures ReachSet(g, m) < ReachSet(g, n)
  {
    EdgeShrinksBelow(g, n, m);
  }

  /** A cycle below a node is below one of its dependencies. */
  lemma CycleBelowStep(g: Graph, n: TaskId)
    requires CycleBelow(g, n)
    ensures exists m :: m in Succ(g, n) && CycleBelow(g, m)
  {
    var p :| IsCycle(g, p) && Reachable(g, n, p[0]);
    var q :| PathFromTo(g, q, n, p[0]);
    var r := if |q| > 1 then q else p;
    assert IsPath(g, r) && |r| > 1 && r[0] == n && r[|r| - 1] == p[0];
    assert r[1] in Succ(g, n);
    SubPath(g, r, 1, |r|);
    assert Reachable(g, r[1], p[0]);
  }

  lemma SubsetSize<T>(a: set<T>, b: set<T>)
    requires a < b
    ensures |a| < |b|
  {
    var x :| x in b && x !in a;
    SubsetSizeLe(a, b - {x});
  }

  lemma SubsetSizeLe<T>(a: set<T>, b: set<T>)
    requires a <= b
    ensures |a| <= |b|
  {
    assert b == a + (b - a);
  }

  /** Every non-empty set of nodes of an acyclic graph has a member none of whose
      predecessors is in the set. */
  lemma TopMember(g: Graph, s: set<TaskId>) returns (n: TaskId)
    requires !Cyclic(g) && s != {}
    ensures n in s && Preds(g, n) !! s
  {
    n :| n in s;
    while !(Preds(g, n) !! s)
      invariant n in s
      decreases |Nodes(g)| - |ReachSet(g, n)|
    {
      var m :| m in Preds(g, n) && m in s;
      EdgeShrinks(g, m, n);
      SubsetSize(ReachSet(g, n), ReachSet(g, m));
      SubsetSizeLe(ReachSet(g, m), Nodes(g));
      n := m;
    }
  }

  lemma RepeatIsCycle(g: Graph, p: seq<TaskId>, i: nat, j: nat)
    requires IsPath(g, p) && i < j < |p| && p[i] == p[j]
    ensures Cyclic(g)
  {
    SubPath(g, p, i, j + 1);
    assert IsCycle(g, p[i..j + 1]);
  }

  /** Paths of an acyclic graph never repeat a node. */
  lemma PathNoDup(g: Graph, p: seq<TaskId>)
    requires !Cyclic(g) && IsPath(g, p)
    ensures NoDup(p)
  {
    forall i, j | 0 <= i < j < |p| ensures p[i] != p[j] {
      if p[i] == p[j] {
        RepeatIsCycle(g, p, i, j);
      }
    }
  }
}
