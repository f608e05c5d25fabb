/** Which critical paths can come out: every traversal yields a shortcut-free chain from the root,
    every such chain comes out of some traversal, and hence exactly when the result is a longest chain. */
module Steering {
  import opened Basics
  import opened Sequences
  import opened Graphs
  import opened TaskGraphs
  import opened Kahn
  import opened Relaxation
  import opened Levels
  import opened CriticalPath

  /** Each dependency set on the chain is traversed starting with the chain's next task. */
  ghost predicate Steers(chain: seq<TaskId>, deps: map<TaskId, seq<TaskId>>) {
    forall i, j :: 0 <= i && j == i + 1 && j < |chain| ==> Leads(deps, chain[i], chain[j])
  }

  ghost predicate Leads(deps: map<TaskId, seq<TaskId>>, a: TaskId, b: TaskId) {
    a in deps && deps[a] != [] && deps[a][0] == b
  }

  lemma AnyDeps(g: Graph, todo: set<TaskId>) returns (deps: map<TaskId, seq<TaskId>>)
    requires todo <= g.Keys
    ensures deps.Keys == todo && forall n :: n in todo ==> IsOrder(deps[n], g[n])
  {
    if todo == {} {
      deps := map[];
    } else {
      var n :| n in todo;
      var rest := AnyDeps(g, todo - {n});
      var o := OrderExists(g[n]);
      deps := rest[n := o];
    }
  }

  lemma {:induction false} SteeredDeps(g: Graph, chain: seq<TaskId>) returns (deps: map<TaskId, seq<TaskId>>)
    requires IsPath(g, chain) && NoDup(chain)
    ensures FitsDeps(g, deps) && Steers(chain, deps)
  {
    if |chain| == 1 {
      deps := AnyDeps(g, g.Keys);
    } else {
      var a, b := chain[0], chain[1];
      assert b in Succ(g, a);
      SubPath(g, chain, 1, |chain|);
      var deps' := SteeredDeps(g, chain[1..]);
      var o := OrderExists(g[a] - {b});
      ElemsCons(b, o);
      assert b !in o by { assert b !in Elems(o); }
      deps := deps'[a := [b] + o];
      forall i, j | 0 <= i && j == i + 1 && j < |chain| ensures Leads(deps, chain[i], chain[j]) {
        if i > 0 {
          assert Leads(deps', chain[1..][i - 1], chain[1..][j - 1]);
        }
      }
    }
  }

  /** When only `c` is left on the stack, everything that does not depend on its completion is done. */
  lemma OnlyBelowRemains(g: Graph, c: TaskId, order: seq<TaskId>, n: TaskId)
    requires !Cyclic(g) && KahnInv(g, [c], order) && n in Nodes(g) && !Reachable(g, c, n)
    ensures n in order
  {
    var s := set k | k in Nodes(g) && k !in order && !Reachable(g, c, k);
    if n !in order {
      assert n in s;
      var k := TopMember(g, s);
      forall m | m in Preds(g, k) ensures m in Elems(order) {
        EdgeNodes(g, m, k);
        if Reachable(g, c, m) {
          ReachableStep(g, c, m, k);
        }
      }
      assert k in [c] || k in order;
      ReachableSelf(g, c);
    }
  }

  /** The other dependents of the chain's next task are done before the current one. */
  lemma NextBecomesReady(g: Graph, c: TaskId, next: TaskId, order: seq<TaskId>)
    requires !Cyclic(g) && KahnInv(g, [c], order) && Covers(g, c, next)
    ensures Preds(g, next) <= Elems(order + [c])
  {
    ElemsSnoc(order, c);
    forall q | q in Preds(g, next) && q != c ensures q in order {
      EdgeNodes(g, q, next);
      if Reachable(g, c, q) {
        var p :| PathFromTo(g, p, c, q);
        EdgeIsPath(g, q, next);
        PathConcat(g, p, [q, next]);
        assert false;
      } else {
        OnlyBelowRemains(g, c, order, q);
      }
    }
  }

  lemma ReadyFirst(g: Graph, s: seq<TaskId>, done: set<TaskId>)
    requires s != [] && Preds(g, s[0]) <= done
    ensures ReadyFrom(g, s, done) != [] && ReadyFrom(g, s, done)[0] == s[0]
  {
  }

  lemma NoDepsToTraverse(g: Graph, deps: map<TaskId, seq<TaskId>>, c: TaskId)
    requires FitsDeps(g, deps) && Succ(g, c) == {}
    ensures DepsOf(deps, c) == []
  {
    if c in g {
      assert IsOrder(deps[c], g[c]);
      NoDupSize(deps[c]);
    }
  }

  lemma EmittedLast(g: Graph, order: seq<TaskId>, c: TaskId, next: TaskId, final: seq<TaskId>)
    requires order + [c] <= final && NoDup(final) && Preds(g, next) <= Elems(order + [c]) && c in Preds(g, next)
    ensures IsLastPred(g, final, next, c)
  {
    assert final[|order|] == c;
    forall j | |order| < j < |final| ensures final[j] !in Preds(g, next) {
      assert final[j] !in order + [c];
    }
  }

  /** From a stack with the chain's task at the bottom, the sort ends at the chain's end, and each
      later task of the chain is preceded last by its chain predecessor. */
  lemma {:induction false} Steered(g: Graph, root: TaskId, chain: seq<TaskId>, deps: map<TaskId, seq<TaskId>>,
                                   i: nat, stack: seq<TaskId>, order: seq<TaskId>)
    requires !Cyclic(g) && CoveringChain(g, root, chain) && FitsDeps(g, deps) && Steers(chain, deps)
    requires KahnInv(g, stack, order) && i < |chain| && stack != [] && stack[0] == chain[i]
    ensures var final := KahnFrom(g, deps, stack, order);
      && final != [] && final[|final| - 1] == chain[|chain| - 1]
      && forall k :: i < k < |chain| ==> IsLastPred(g, final, chain[k], chain[k - 1])
    decreases |Nodes(g)| - |order|
  {
    var c := stack[|stack| - 1];
    var stack', order' := NextStack(g, deps, stack, order), order + [c];
    KahnStep(g, deps, stack, order);
    KahnBound(g, stack', order');
    if |stack| > 1 {
      Steered(g, root, chain, deps, i, stack', order');
    } else {
      assert stack == [c];
      assert stack' == ReadyFrom(g, DepsOf(deps, c), Elems(order'));
      if i == |chain| - 1 {
        NoDepsToTraverse(g, deps, c);
      } else {
        var next := chain[i + 1];
        assert Covers(g, chain[i], next) && Leads(deps, chain[i], next);
        NextBecomesReady(g, c, next, order);
        ReadyFirst(g, DepsOf(deps, c), Elems(order'));
        Steered(g, root, chain, deps, i + 1, stack', order');
        KahnFromInv(g, deps, stack', order');
        EdgeNodes(g, c, next);
        EmittedLast(g, order, c, next, KahnFrom(g, deps, stack', order'));
      }
    }
  }

  lemma StartsAtRoot(g: Graph, root: TaskId, degrees: seq<TaskId>)
    requires Rooted(g, root) && !Cyclic(g) && IsOrder(degrees, Nodes(g))
    ensures ReadyFrom(g, degrees, {}) != [] && ReadyFrom(g, degrees, {})[0] == root
  {
    var s := ReadyFrom(g, degrees, {});
    ReadyFromElems(g, degrees, {});
    OnlyRootIsFree(g, root, root);
    assert root in Elems(degrees);
    assert root in s;
    assert s[0] in degrees && s[0] in Elems(degrees);
    OnlyRootIsFree(g, root, s[0]);
  }

  /** The walk back retraces a chain whose every task is preceded last by its chain predecessor. */
  lemma RetracesChain(g: Graph, order: seq<TaskId>, r: Relaxed, chain: seq<TaskId>)
    requires !Cyclic(g) && Tables(g, order, r) && chain != [] && Preds(g, chain[0]) == {}
    requires forall k :: 0 < k < |chain| ==> IsLastPred(g, order, chain[k], chain[k - 1])
    ensures WalkBack(g, r.parent, chain[|chain| - 1]) == chain
  {
    forall i, j | 0 <= i && j == i + 1 && j < |chain| ensures IsParent(r.parent, chain[j], chain[i]) {
      assert IsLastPred(g, order, chain[j], chain[j - 1]);
      LastPredUnique(g, order, chain[j], chain[i], r.parent[chain[j]]);
    }
    WalkBackUnique(g, r.parent, chain);
  }

  lemma LastPredUnique(g: Graph, order: seq<TaskId>, n: TaskId, a: TaskId, b: TaskId)
    requires IsLastPred(g, order, n, a) && IsLastPred(g, order, n, b)
    ensures a == b
  {
  }

  /** Every shortcut-free chain from the root to a task with no dependencies is the result for
      some traversal of the hash tables. */
  lemma EveryCoveringChainOccurs(g: Graph, root: TaskId, chain: seq<TaskId>) returns (it: Iteration)
    requires Rooted(g, root) && !Cyclic(g) && CoveringChain(g, root, chain)
    ensures Fits(g, it) && CriticalPathOf(g, it) == chain
  {
    PathNoDup(g, chain);
    var deps := SteeredDeps(g, chain);
    var degrees := OrderExists(Nodes(g));
    var distances := OrderExists(g.Keys);
    it := Iteration(deps, degrees, distances);
    KahnInit(g, degrees);
    StartsAtRoot(g, root, degrees);
    Steered(g, root, chain, deps, 0, ReadyFrom(g, degrees, {}), []);
    var order := KahnOrder(g, it);
    var r := RelaxAll(g, Reverse(order));
    TablesReady(g, it);
    OnlyRootIsFree(g, root, root);
    RetracesChain(g, order, r, chain);
    EndIsLast(g, root, order, r, distances);
  }

  /** The result is a longest chain whatever the traversal exactly when all shortcut-free chains
      from the root to a task with no dependencies are equally long. */
  lemma LongestExactlyWhen(g: Graph, root: TaskId)
    requires Rooted(g, root) && !Cyclic(g)
    ensures (forall it :: Fits(g, it) ==> |CriticalPathOf(g, it)| - 1 == Level(g, root))
       <==> (forall c, d :: CoveringChain(g, root, c) && CoveringChain(g, root, d) ==> |c| == |d|)
  {
    var longest := LongestCoveringChain(g, root);
    hide CriticalPathOf, CoveringChain, Cyclic, Level;
    if forall it :: Fits(g, it) ==> |CriticalPathOf(g, it)| - 1 == Level(g, root) {
      forall c | CoveringChain(g, root, c) ensures |c| == |longest| {
        var it := EveryCoveringChainOccurs(g, root, c);
      }
    }
    forall it | Fits(g, it) ensures CoveringChain(g, root, CriticalPathOf(g, it)) {
      OutcomeIsCoveringChain(g, root, it);
    }
  }

  /** A longest chain below the root is shortcut-free and ends at a task with no dependencies. */
  lemma LongestCoveringChain(g: Graph, root: TaskId) returns (c: seq<TaskId>)
    requires Rooted(g, root) && !Cyclic(g)
    ensures CoveringChain(g, root, c) && |c| - 1 == Level(g, root)
  {
    c := LevelIsAttained(g, root);
    var last := c[|c| - 1];
    if m :| m in Succ(g, last) {
      EdgeIsPath(g, last, m);
      PathConcat(g, c, [last, m]);
      LevelBoundsPaths(g, c + [last, m][1..]);
    }
    forall i, j | 0 <= i && j == i + 1 && j < |c| ensures Covers(g, c[i], c[j]) {
      if p :| PathFromTo(g, p, c[i], c[j]) && |p| > 2 {
        Detour(g, c, i, p);
        LevelBoundsPaths(g, c[0..i + 1] + p[1..] + c[j..][1..]);
      }
    }
  }

  lemma Detour(g: Graph, c: seq<TaskId>, i: nat, p: seq<TaskId>)
    requires IsPath(g, c) && i + 1 < |c| && PathFromTo(g, p, c[i], c[i + 1])
    ensures var q := c[0..i + 1] + p[1..] + c[i + 1..][1..];
      IsPath(g, q) && q[0] == c[0] && |q| == |c| + |p| - 2
  {
  }

  lemma AscendingIsAcyclic(g: Graph)
    requires forall n, m :: n in g && m in g[n] ==> n < m
    ensures !Cyclic(g)
  {
    if p :| IsCycle(g, p) {
      SubPath(g, p, 1, |p|);
      assert p[1] in Succ(g, p[0]);
      AscendingPath(g, p[1..]);
    }
  }

  lemma {:induction false} AscendingPath(g: Graph, p: seq<TaskId>)
    requires IsPath(g, p) && forall n, m :: n in g && m in g[n] ==> n < m
    ensures p[0] <= p[|p| - 1]
  {
    if |p| > 1 {
      SubPath(g, p, 1, |p|);
      assert p[1] in Succ(g, p[0]);
      AscendingPath(g, p[1..]);
    }
  }

  lemma SoleDependentCovers(g: Graph, a: TaskId, b: TaskId)
    requires !Cyclic(g) && Preds(g, b) == {a}
    ensures Covers(g, a, b)
  {
    assert a in Preds(g, b);
    forall p | PathFromTo(g, p, a, b) ensures |p| <= 2 {
      if |p| >= 2 {
        assert p[|p| - 1] in Succ(g, p[|p| - 2]);
        EdgeNodes(g, p[|p| - 2], b);
        PathNoDup(g, p);
      }
    }
  }

  /** Task 1 needs 2 and 4, and 2 needs 3. */
  const FORK: Graph := map[1 := {2, 4}, 2 := {3}, 3 := {}, 4 := {}]

  /** On the fork the result can be the chain 1, 4, though 1, 2, 3 is longer. */
  lemma ShortResult() returns (it: Iteration)
    ensures Rooted(FORK, 1) && !Cyclic(FORK) && Fits(FORK, it)
    ensures CriticalPathOf(FORK, it) == [1, 4] && Level(FORK, 1) >= 2
  {
    AscendingIsAcyclic(FORK);
    ReachableSelf(FORK, 1);
    EdgeIsPath(FORK, 1, 2);
    EdgeIsPath(FORK, 1, 4);
    ReachableStep(FORK, 1, 2, 3);
    assert Nodes(FORK) == FORK.Keys;
    LevelAboveDeps(FORK, 2, 3);
    LevelAboveDeps(FORK, 1, 2);
    assert Preds(FORK, 4) == {1};
    SoleDependentCovers(FORK, 1, 4);
    assert ShortcutFree(FORK, [1, 4]);
    it := EveryCoveringChainOccurs(FORK, 1, [1, 4]);
  }
}
