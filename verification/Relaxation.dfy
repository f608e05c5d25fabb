/** Edge relaxation along a visiting order, and the walk back over the recorded parents. */
module Relaxation {
  import opened Basics
  import opened Sequences
  import opened Graphs
  import opened Kahn

  datatype Relaxed = Relaxed(distance: map<TaskId, int>, parent: map<TaskId, TaskId>)

  function Improves(g: Graph, distance: map<TaskId, int>, t: TaskId, n: TaskId): bool {
    n in distance && t in distance && n in Succ(g, t) && distance[n] < distance[t] + 1
  }

  /** The effect of relaxing every edge that leaves `t`. */
  function RelaxOne(g: Graph, r: Relaxed, t: TaskId): Relaxed {
    Relaxed(map n | n in r.distance :: if Improves(g, r.distance, t, n) then r.distance[t] + 1 else r.distance[n],
            map n | n in r.parent.Keys + r.distance.Keys && (n in r.parent || Improves(g, r.distance, t, n))
              :: if Improves(g, r.distance, t, n) then t else r.parent[n])
  }

  function RelaxAll(g: Graph, order: seq<TaskId>): Relaxed {
    if order == [] then Relaxed(map n | n in g :: 0, map[]) else
      RelaxOne(g, RelaxAll(g, order[..|order| - 1]), order[|order| - 1])
  }

  /** The relaxation loop, whatever the order in which each dependency set is traversed. */
  method Relax(g: Graph, order: seq<TaskId>) returns (r: Relaxed)
    requires Closed(g) && Elems(order) <= g.Keys
    requires forall n :: n in g ==> n !in g[n]
    ensures r == RelaxAll(g, order)
  {
    r := Relaxed(map n | n in g :: 0, map[]);
    var k := 0;
    assert order[..0] == [];
    while k < |order|
      invariant k <= |order| && r == RelaxAll(g, order[..k]) && r.distance.Keys == g.Keys
    {
      assert order[..k + 1][..k] == order[..k];
      assert order[k] in Elems(order);
      r := RelaxEdges(g, order[k], r);
      k := k + 1;
    }
    assert order[..k] == order;
  }

  method RelaxEdges(g: Graph, t: TaskId, r0: Relaxed) returns (r: Relaxed)
    requires t in g && t !in g[t] && r0.distance.Keys == g.Keys && Closed(g)
    ensures r == RelaxOne(g, r0, t) && r.distance.Keys == g.Keys
  {
    r := r0;
    var todo := g[t];
    ghost var raised: set<TaskId> := {};
    while todo != {}
      invariant todo <= g[t] && raised !! todo && r.distance.Keys == g.Keys
      invariant forall n :: n in raised ==> Improves(g, r0.distance, t, n)
      invariant forall n :: Improves(g, r0.distance, t, n) ==> n in raised || n in todo
      invariant forall n :: n in g ==> r.distance[n] == (if n in raised then r0.distance[t] + 1 else r0.distance[n])
      invariant forall n :: n in r.parent <==> n in r0.parent || n in raised
      invariant forall n :: n in r.parent ==> r.parent[n] == (if n in raised then t else r0.parent[n])
    {
      var n :| n in todo;
      EdgeNodes(g, t, n);
      if r.distance[n] < r.distance[t] + 1 {
        r := Relaxed(r.distance[n := r.distance[t] + 1], r.parent[n := t]);
        raised := raised + {n};
      }
      todo := todo - {n};
    }
    RelaxOneIs(g, r0, t, r, raised);
  }

  lemma RelaxOneIs(g: Graph, r0: Relaxed, t: TaskId, r: Relaxed, raised: set<TaskId>)
    requires r.distance.Keys == r0.distance.Keys && t in r0.distance
    requires forall n :: n in raised <==> Improves(g, r0.distance, t, n)
    requires forall n :: n in r.distance ==>
      r.distance[n] == (if n in raised then r0.distance[t] + 1 else r0.distance[n])
    requires forall n :: n in r.parent <==> n in r0.parent || n in raised
    requires forall n :: n in r.parent ==> r.parent[n] == (if n in raised then t else r0.parent[n])
    ensures r == RelaxOne(g, r0, t)
  {
    assert r.distance == RelaxOne(g, r0, t).distance;
    assert r.parent == RelaxOne(g, r0, t).parent;
  }

  // ----- Walking back

  ghost predicate ParentsOk(g: Graph, parent: map<TaskId, TaskId>) {
    forall n :: n in parent ==> n in Succ(g, parent[n])
  }

  lemma StepBack(g: Graph, parent: map<TaskId, TaskId>, n: TaskId)
    requires ParentsOk(g, parent) && !Cyclic(g) && n in parent
    ensures |ReachSet(g, n)| < |ReachSet(g, parent[n])| <= |Nodes(g)|
  {
    EdgeShrinks(g, parent[n], n);
    SubsetSize(ReachSet(g, n), ReachSet(g, parent[n]));
    SubsetSizeLe(ReachSet(g, parent[n]), Nodes(g));
  }

  /** The chain of parents that ends at `n`, oldest ancestor first. */
  ghost function WalkBack(g: Graph, parent: map<TaskId, TaskId>, n: TaskId): (p: seq<TaskId>)
    requires ParentsOk(g, parent) && !Cyclic(g)
    ensures p != [] && p[|p| - 1] == n && p[0] !in parent
    decreases |Nodes(g)| - |ReachSet(g, n)|
  {
    if n !in parent then [n] else
      StepBack(g, parent, n);
      WalkBack(g, parent, parent[n]) + [n]
  }

  ghost predicate IsParent(parent: map<TaskId, TaskId>, n: TaskId, m: TaskId) {
    n in parent && parent[n] == m
  }

  ghost predicate LinkedByParents(parent: map<TaskId, TaskId>, p: seq<TaskId>) {
    forall i, j :: 0 <= i && j == i + 1 && j < |p| ==> IsParent(parent, p[j], p[i])
  }

  lemma {:induction false} WalkBackLinks(g: Graph, parent: map<TaskId, TaskId>, n: TaskId)
    requires ParentsOk(g, parent) && !Cyclic(g)
    ensures LinkedByParents(parent, WalkBack(g, parent, n))
    decreases |Nodes(g)| - |ReachSet(g, n)|
  {
    if n in parent {
      StepBack(g, parent, n);
      WalkBackLinks(g, parent, parent[n]);
      var q := WalkBack(g, parent, parent[n]);
      var p := q + [n];
      forall i, j | 0 <= i && j == i + 1 && j < |p| ensures IsParent(parent, p[j], p[i]) {
        if j < |q| {
          assert IsParent(parent, q[j], q[i]);
        }
      }
    }
  }

  lemma WalkBackPath(g: Graph, parent: map<TaskId, TaskId>, n: TaskId)
    requires ParentsOk(g, parent) && !Cyclic(g)
    ensures IsPath(g, WalkBack(g, parent, n))
  {
    WalkBackLinks(g, parent, n);
    var p := WalkBack(g, parent, n);
    forall i, j | 0 <= i && j == i + 1 && j < |p| ensures p[j] in Succ(g, p[i]) {
      assert IsParent(parent, p[j], p[i]);
    }
  }

  /** The walk back is the only parent-linked sequence from a parentless id to `n`. */
  lemma {:induction false} WalkBackUnique(g: Graph, parent: map<TaskId, TaskId>, p: seq<TaskId>)
    requires ParentsOk(g, parent) && !Cyclic(g)
    requires p != [] && LinkedByParents(parent, p) && p[0] !in parent
    ensures WalkBack(g, parent, p[|p| - 1]) == p
    decreases |p|
  {
    if |p| > 1 {
      var q := p[..|p| - 1];
      assert IsParent(parent, p[|p| - 1], p[|p| - 2]);
      WalkBackUnique(g, parent, q);
      assert p == q + [p[|p| - 1]];
    }
  }

  method BuildPath(g: Graph, parent: map<TaskId, TaskId>, endNode: TaskId) returns (path: seq<TaskId>)
    requires ParentsOk(g, parent) && !Cyclic(g)
    ensures path == WalkBack(g, parent, endNode)
  {
    var backwards: seq<TaskId> := [];
    var current := endNode;
    while current in parent
      invariant WalkBack(g, parent, endNode) == WalkBack(g, parent, current) + Reverse(backwards)
      decreases |Nodes(g)| - |ReachSet(g, current)|
    {
      StepBack(g, parent, current);
      ReverseSnoc(backwards, current);
      assert WalkBack(g, parent, parent[current]) + [current] + Reverse(backwards)
          == WalkBack(g, parent, parent[current]) + ([current] + Reverse(backwards));
      backwards := backwards + [current];
      current := parent[current];
    }
    ReverseSnoc(backwards, current);
    backwards := backwards + [current];
    path := Reverse(backwards);
  }

  // ----- Relaxing in topological order: the evident intent

  ghost predicate LongestEndingAt(g: Graph, n: TaskId, d: int) {
    && (exists p :: IsPath(g, p) && p[|p| - 1] == n && |p| - 1 == d)
    && (forall p :: IsPath(g, p) && p[|p| - 1] == n ==> |p| - 1 <= d)
  }

  /** Every edge leaving a visited id has been relaxed. */
  ghost predicate EdgesRelaxed(g: Graph, done: set<TaskId>, distance: map<TaskId, int>) {
    forall m, n :: m in done && n in Succ(g, m) && n in distance && m in distance ==> distance[n] >= distance[m] + 1
  }

  ghost predicate ParentsTight(g: Graph, done: set<TaskId>, r: Relaxed) {
    && ParentsOk(g, r.parent)
    && (forall n :: n in r.parent ==> r.parent[n] in done && n in r.distance && r.parent[n] in r.distance)
    && (forall n :: n in r.parent ==> r.distance[n] == r.distance[r.parent[n]] + 1)
    && (forall n :: n in r.distance && n !in r.parent ==> r.distance[n] == 0)
  }

  /** What holds of the tables once the ids in `done` have been visited in topological order. */
  ghost predicate ForwardInv(g: Graph, done: set<TaskId>, r: Relaxed) {
    && r.distance.Keys == g.Keys
    && (forall n :: n in r.distance ==> r.distance[n] >= 0)
    && EdgesRelaxed(g, done, r.distance)
    && ParentsTight(g, done, r)
  }

  lemma ForwardStep(g: Graph, done: set<TaskId>, r: Relaxed, t: TaskId)
    requires ForwardInv(g, done, r) && t in g && t !in g[t]
    requires forall m :: m in done ==> m !in g[t]
    ensures ForwardInv(g, done + {t}, RelaxOne(g, r, t))
  {
    ForwardStepEdges(g, done, r, t);
    ForwardStepParents(g, done, r, t);
  }

  lemma ForwardStepParents(g: Graph, done: set<TaskId>, r: Relaxed, t: TaskId)
    requires r.distance.Keys == g.Keys && ParentsTight(g, done, r) && t in g
    requires forall m :: m in done + {t} ==> m !in g[t]
    ensures ParentsTight(g, done + {t}, RelaxOne(g, r, t))
  {
    var r' := RelaxOne(g, r, t);
    forall n | n in r'.parent
      ensures n in Succ(g, r'.parent[n]) && r'.parent[n] in done + {t} && n in r'.distance
      ensures r'.parent[n] in r'.distance && r'.distance[n] == r'.distance[r'.parent[n]] + 1
    {
      var m := r'.parent[n];
      assert m in r.distance && r'.distance[m] == r.distance[m];
    }
  }

  lemma ForwardStepEdges(g: Graph, done: set<TaskId>, r: Relaxed, t: TaskId)
    requires r.distance.Keys == g.Keys && EdgesRelaxed(g, done, r.distance) && t in g
    requires forall m :: m in done + {t} ==> m !in g[t]
    ensures EdgesRelaxed(g, done + {t}, RelaxOne(g, r, t).distance)
  {
    var d, d' := r.distance, RelaxOne(g, r, t).distance;
    forall m, n | m in done + {t} && n in Succ(g, m) && n in d' && m in d' ensures d'[n] >= d'[m] + 1 {
      assert d'[m] == d[m];
      assert d'[n] >= d[n];
    }
  }

  lemma {:induction false} ForwardAll(g: Graph, order: seq<TaskId>)
    requires Closed(g) && NoDup(order) && Elems(order) <= g.Keys && Topological(g, order)
    ensures ForwardInv(g, Elems(order), RelaxAll(g, order))
  {
    if order != [] {
      var s, t := order[..|order| - 1], order[|order| - 1];
      assert order == s + [t];
      ElemsSnoc(s, t);
      forall i | 0 <= i < |s| ensures Preds(g, s[i]) <= Elems(s[..i]) {
        assert s[..i] == order[..i];
      }
      ForwardAll(g, s);
      assert t in Elems(order) && t !in s;
      assert Preds(g, t) <= Elems(s) by { assert s == order[..|s|]; }
      forall m | m in s ensures m !in g[t] {
        var i :| 0 <= i < |s| && s[i] == m;
        assert t !in Elems(s[..i]);
        assert t !in Preds(g, m);
      }
      assert t !in Preds(g, t);
      ForwardStep(g, Elems(s), RelaxAll(g, s), t);
    }
  }

  lemma {:induction false} DistanceBoundsPaths(g: Graph, r: Relaxed, p: seq<TaskId>)
    requires Closed(g) && ForwardInv(g, g.Keys, r) && IsPath(g, p) && p[|p| - 1] in g
    ensures |p| - 1 <= r.distance[p[|p| - 1]]
    decreases |p|
  {
    if |p| > 1 {
      var m := p[|p| - 2];
      assert p[|p| - 1] in Succ(g, m);
      SubPath(g, p, 0, |p| - 1);
      DistanceBoundsPaths(g, r, p[0..|p| - 1]);
    }
  }

  lemma {:induction false} WalkBackLength(g: Graph, r: Relaxed, n: TaskId)
    requires ForwardInv(g, g.Keys, r) && ParentsOk(g, r.parent) && !Cyclic(g) && n in g
    ensures |WalkBack(g, r.parent, n)| - 1 == r.distance[n]
    decreases |Nodes(g)| - |ReachSet(g, n)|
  {
    if n in r.parent {
      StepBack(g, r.parent, n);
      WalkBackLength(g, r, r.parent[n]);
    }
  }

  /** Visiting in topological order, every distance is the length of the longest chain that ends there. */
  lemma ForwardIsLongest(g: Graph, order: seq<TaskId>)
    requires Closed(g) && !Cyclic(g) && IsOrder(order, g.Keys) && Topological(g, order)
    ensures var r := RelaxAll(g, order);
      r.distance.Keys == g.Keys && forall n :: n in g ==> LongestEndingAt(g, n, r.distance[n])
  {
    var r := RelaxAll(g, order);
    ForwardAll(g, order);
    forall n | n in g ensures LongestEndingAt(g, n, r.distance[n]) {
      WalkBackLength(g, r, n);
      WalkBackPath(g, r.parent, n);
      forall p | IsPath(g, p) && p[|p| - 1] == n ensures |p| - 1 <= r.distance[n] {
        DistanceBoundsPaths(g, r, p);
      }
    }
  }

  /** ... and walking back from an id of greatest distance yields a longest chain of the graph. */
  lemma ForwardWalkIsLongest(g: Graph, order: seq<TaskId>, e: TaskId, p: seq<TaskId>)
    requires Closed(g) && !Cyclic(g) && IsOrder(order, g.Keys) && Topological(g, order)
    requires e in g && IsPath(g, p) && p[|p| - 1] in g
    requires var d := RelaxAll(g, order).distance; forall n :: n in g && n in d && e in d ==> d[n] <= d[e]
    ensures var parent := RelaxAll(g, order).parent;
      ParentsOk(g, parent) && IsPath(g, WalkBack(g, parent, e)) && |p| <= |WalkBack(g, parent, e)|
  {
    var r := RelaxAll(g, order);
    ForwardAll(g, order);
    WalkBackLength(g, r, e);
    WalkBackPath(g, r.parent, e);
    DistanceBoundsPaths(g, r, p);
  }

  // ----- Relaxing in reverse topological order: the code as written

  /** `m` is the first of the visited ids that depends on `n`. */
  ghost predicate IsFirstPred(g: Graph, s: seq<TaskId>, n: TaskId, m: TaskId) {
    m in Preds(g, n) && exists i :: 0 <= i < |s| && s[i] == m && forall j :: 0 <= j < i ==> s[j] !in Preds(g, n)
  }

  /** `m` is the last id of the order that depends on `n`. */
  ghost predicate IsLastPred(g: Graph, order: seq<TaskId>, n: TaskId, m: TaskId) {
    && m in Preds(g, n)
    && exists i :: 0 <= i < |order| && order[i] == m && forall j :: i < j < |order| ==> order[j] !in Preds(g, n)
  }

  ghost predicate BackwardInv(g: Graph, s: seq<TaskId>, r: Relaxed) {
    && r.distance.Keys == g.Keys
    && (forall n :: n in g ==> r.distance[n] == if Preds(g, n) !! Elems(s) then 0 else 1)
    && (forall n :: n in r.parent <==> n in g && !(Preds(g, n) !! Elems(s)))
    && (forall n :: n in r.parent ==> IsFirstPred(g, s, n, r.parent[n]))
  }

  lemma FirstPredSnoc(g: Graph, s: seq<TaskId>, t: TaskId, n: TaskId, m: TaskId)
    ensures IsFirstPred(g, s, n, m) ==> IsFirstPred(g, s + [t], n, m)
    ensures Preds(g, n) !! Elems(s) && t in Preds(g, n) ==> IsFirstPred(g, s + [t], n, t)
  {
    if IsFirstPred(g, s, n, m) {
      var i :| 0 <= i < |s| && s[i] == m && forall j :: 0 <= j < i ==> s[j] !in Preds(g, n);
      assert (s + [t])[i] == m;
    }
    if Preds(g, n) !! Elems(s) && t in Preds(g, n) {
      forall j | 0 <= j < |s| ensures s[j] !in Preds(g, n) { assert s[j] in Elems(s); }
      assert (s + [t])[|s|] == t;
    }
  }

  lemma BackwardStep(g: Graph, s: seq<TaskId>, r: Relaxed, t: TaskId)
    requires Closed(g) && BackwardInv(g, s, r) && t in g && Preds(g, t) !! Elems(s)
    ensures BackwardInv(g, s + [t], RelaxOne(g, r, t))
  {
    var r' := RelaxOne(g, r, t);
    ElemsSnoc(s, t);
    forall n | n in g ensures n in Succ(g, t) <==> t in Preds(g, n) {}
    forall n | n in g ensures Improves(g, r.distance, t, n) <==> t in Preds(g, n) && Preds(g, n) !! Elems(s) {}
    forall n | n in r'.parent ensures IsFirstPred(g, s + [t], n, r'.parent[n]) {
      FirstPredSnoc(g, s, t, n, r'.parent[n]);
    }
  }

  lemma {:induction false} BackwardAll(g: Graph, s: seq<TaskId>)
    requires Closed(g) && Elems(s) <= g.Keys
    requires forall i, j :: 0 <= i <= j < |s| ==> s[i] !in Preds(g, s[j])
    ensures BackwardInv(g, s, RelaxAll(g, s))
  {
    if s != [] {
      var s', t := s[..|s| - 1], s[|s| - 1];
      assert s == s' + [t];
      ElemsSnoc(s', t);
      BackwardAll(g, s');
      assert t in Elems(s);
      BackwardStep(g, s', RelaxAll(g, s'), t);
    }
  }

  /** What the sort and the relaxation tables look like when the walk back starts: an id's
      distance only says whether anything depends on it, and its parent is its last dependent in
      the sort's output. */
  ghost predicate Tables(g: Graph, order: seq<TaskId>, r: Relaxed) {
    && IsOrder(order, g.Keys) && Topological(g, order)
    && r.distance.Keys == g.Keys && ParentsOk(g, r.parent)
    && (forall n :: n in g ==> r.distance[n] == if Preds(g, n) == {} then 0 else 1)
    && (forall n :: n in r.parent <==> Preds(g, n) != {})
    && (forall n :: n in r.parent ==> IsLastPred(g, order, n, r.parent[n]))
  }

  /** Visiting the sort's output backwards, as the code does, leaves those tables. */
  lemma BackwardTables(g: Graph, order: seq<TaskId>)
    requires Closed(g) && IsOrder(order, g.Keys) && Topological(g, order)
    ensures Tables(g, order, RelaxAll(g, Reverse(order)))
  {
    var s := Reverse(order);
    ReverseElems(order);
    forall i, j | 0 <= i <= j < |s| ensures s[i] !in Preds(g, s[j]) {
      var a, b := |s| - 1 - i, |s| - 1 - j;
      assert s[i] == order[a] && s[j] == order[b] && b <= a;
      assert order[a] !in Elems(order[..b]);
    }
    BackwardAll(g, s);
    var r := RelaxAll(g, s);
    forall n ensures Preds(g, n) !! Elems(s) <==> Preds(g, n) == {} {
      assert Preds(g, n) <= Elems(s);
    }
    forall n ensures n in r.parent <==> Preds(g, n) != {} {
      if Preds(g, n) != {} {
        var m :| m in Preds(g, n);
        EdgeNodes(g, m, n);
      }
    }
    forall n | n in r.parent ensures IsLastPred(g, order, n, r.parent[n]) && n in Succ(g, r.parent[n]) {
      FirstIsLast(g, order, n, r.parent[n]);
      assert r.parent[n] in Preds(g, n);
    }
  }

  lemma FirstIsLast(g: Graph, order: seq<TaskId>, n: TaskId, m: TaskId)
    requires IsFirstPred(g, Reverse(order), n, m)
    ensures IsLastPred(g, order, n, m)
  {
    var s := Reverse(order);
    var i :| 0 <= i < |s| && s[i] == m && forall j :: 0 <= j < i ==> s[j] !in Preds(g, n);
    var k := |s| - 1 - i;
    assert order[k] == m;
    forall j | k < j < |order| ensures order[j] !in Preds(g, n) {
      assert s[|s| - 1 - j] == order[j];
    }
  }
}
