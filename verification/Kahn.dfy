/** In-degree counting and the topological sort that repeatedly pops a ready task off a stack. */
module Kahn {
  import opened Basics
  import opened Sequences
  import opened Graphs

  /** The orders in which the hash tables of one call are traversed, where they can show in the
      result: each dependency set, the in-degree table and the distance table. Any order is possible. */
  datatype Iteration = Iteration(deps: map<TaskId, seq<TaskId>>, degrees: seq<TaskId>, distances: seq<TaskId>)

  ghost predicate FitsDeps(g: Graph, deps: map<TaskId, seq<TaskId>>) {
    deps.Keys == g.Keys && forall n :: n in g ==> IsOrder(deps[n], g[n])
  }

  ghost predicate Fits(g: Graph, it: Iteration) {
    && FitsDeps(g, it.deps)
    && IsOrder(it.degrees, Nodes(g))
    && IsOrder(it.distances, g.Keys)
  }

  function DepsOf(deps: map<TaskId, seq<TaskId>>, n: TaskId): seq<TaskId> {
    if n in deps then deps[n] else []
  }

  /** Every dependent comes before its dependencies. */
  ghost predicate Topological(g: Graph, order: seq<TaskId>) {
    forall i :: 0 <= i < |order| ==> Preds(g, order[i]) <= Elems(order[..i])
  }

  /** The members of `s` all of whose dependents are done, in the order of `s`. */
  function ReadyFrom(g: Graph, s: seq<TaskId>, done: set<TaskId>): seq<TaskId> {
    if s == [] then [] else
      var rest := ReadyFrom(g, s[1..], done);
      if Preds(g, s[0]) <= done then [s[0]] + rest else rest
  }

  lemma {:induction false} ReadyFromElems(g: Graph, s: seq<TaskId>, done: set<TaskId>)
    ensures forall n :: n in ReadyFrom(g, s, done) <==> n in s && Preds(g, n) <= done
    ensures NoDup(s) ==> NoDup(ReadyFrom(g, s, done))
  {
    if s != [] {
      ReadyFromElems(g, s[1..], done);
      assert s == [s[0]] + s[1..];
      if NoDup(s) {
        assert s[0] !in s[1..];
      }
    }
  }

  lemma {:induction false} ReadyFromSnoc(g: Graph, s: seq<TaskId>, x: TaskId, done: set<TaskId>)
    ensures ReadyFrom(g, s + [x], done) == ReadyFrom(g, s, done) + if Preds(g, x) <= done then [x] else []
  {
    if s == [] {
      assert s + [x] == [x];
    } else {
      assert (s + [x])[1..] == s[1..] + [x];
      ReadyFromSnoc(g, s[1..], x, done);
    }
  }

  /** The stack and the output hold each ready task once, and nothing else. */
  ghost predicate KahnInv(g: Graph, stack: seq<TaskId>, order: seq<TaskId>) {
    && NoDup(stack) && NoDup(order) && Elems(stack) !! Elems(order)
    && (forall n :: n in stack || n in order <==> n in Nodes(g) && Preds(g, n) <= Elems(order))
    && Topological(g, order)
  }

  ghost function NextStack(g: Graph, deps: map<TaskId, seq<TaskId>>, stack: seq<TaskId>,
                           order: seq<TaskId>): seq<TaskId>
    requires stack != []
  {
    var c := stack[|stack| - 1];
    stack[..|stack| - 1] + ReadyFrom(g, DepsOf(deps, c), Elems(order + [c]))
  }

  lemma ElemsSnoc<T>(s: seq<T>, x: T)
    ensures Elems(s + [x]) == Elems(s) + {x}
  {
  }

  lemma KahnInit(g: Graph, degrees: seq<TaskId>)
    requires IsOrder(degrees, Nodes(g))
    ensures KahnInv(g, ReadyFrom(g, degrees, {}), [])
  {
    ReadyFromElems(g, degrees, {});
    assert Elems<TaskId>([]) == {};
    forall n ensures n in degrees <==> n in Nodes(g) {
      assert n in Elems(degrees) <==> n in degrees;
    }
  }

  /** A dependency that becomes ready was not ready before. */
  lemma NewlyReady(g: Graph, stack: seq<TaskId>, order: seq<TaskId>, c: TaskId, n: TaskId)
    requires KahnInv(g, stack, order) && c !in order && n in Succ(g, c)
    ensures n !in stack && n !in order && n in Nodes(g)
  {
    EdgeNodes(g, c, n);
    assert c in Preds(g, n) && c !in Elems(order);
  }

  lemma TopologicalSnoc(g: Graph, order: seq<TaskId>, c: TaskId)
    requires Topological(g, order) && Preds(g, c) <= Elems(order)
    ensures Topological(g, order + [c])
  {
    var order' := order + [c];
    forall i | 0 <= i < |order'| ensures Preds(g, order'[i]) <= Elems(order'[..i]) {
      if i < |order| {
        assert order'[..i] == order[..i];
      } else {
        assert order'[..i] == order;
      }
    }
  }

  lemma KahnStepDistinct(g: Graph, stack: seq<TaskId>, order: seq<TaskId>, ready: seq<TaskId>)
    requires KahnInv(g, stack, order) && stack != [] && NoDup(ready)
    requires forall n :: n in ready ==> n in Succ(g, stack[|stack| - 1])
    ensures var c := stack[|stack| - 1]; var stack' := stack[..|stack| - 1] + ready;
      NoDup(stack') && NoDup(order + [c]) && Elems(stack') !! Elems(order + [c])
  {
    var c := stack[|stack| - 1];
    var base := stack[..|stack| - 1];
    assert c in stack && c !in order by { assert c in Elems(stack); }
    forall n | n in ready ensures n !in stack && n !in order {
      NewlyReady(g, stack, order, c, n);
    }
    var stack' := base + ready;
    forall i, j | 0 <= i < j < |stack'| ensures stack'[i] != stack'[j] {
      if i < |base| <= j {
        assert stack'[i] == stack[i] && stack'[j] in ready;
      }
    }
    forall n | n in stack' ensures n !in order + [c] {
      if n in base {
        assert n in stack && n in Elems(stack);
      }
    }
  }

  lemma KahnStep(g: Graph, deps: map<TaskId, seq<TaskId>>, stack: seq<TaskId>, order: seq<TaskId>)
    requires FitsDeps(g, deps) && KahnInv(g, stack, order) && stack != []
    ensures KahnInv(g, NextStack(g, deps, stack, order), order + [stack[|stack| - 1]])
  {
    var c := stack[|stack| - 1];
    assert c in stack;
    ReadyFromElems(g, DepsOf(deps, c), Elems(order + [c]));
    var ready := ReadyFrom(g, DepsOf(deps, c), Elems(order + [c]));
    KahnStepDistinct(g, stack, order, ready);
    TopologicalSnoc(g, order, c);
  }

  lemma KahnBound(g: Graph, stack: seq<TaskId>, order: seq<TaskId>)
    requires KahnInv(g, stack, order)
    ensures |order| <= |Nodes(g)|
  {
    NoDupSize(order);
    assert Elems(order) <= Nodes(g);
    SubsetSizeLe(Elems(order), Nodes(g));
  }

  /** The output of the sort, continued from the given stack and output so far. */
  ghost function KahnFrom(g: Graph, deps: map<TaskId, seq<TaskId>>, stack: seq<TaskId>, order: seq<TaskId>): seq<TaskId>
    requires FitsDeps(g, deps) && KahnInv(g, stack, order)
    decreases |Nodes(g)| - |order|
  {
    if stack == [] then order else
      KahnStep(g, deps, stack, order);
      KahnBound(g, NextStack(g, deps, stack, order), order + [stack[|stack| - 1]]);
      KahnFrom(g, deps, NextStack(g, deps, stack, order), order + [stack[|stack| - 1]])
  }

  ghost function KahnOrder(g: Graph, it: Iteration): seq<TaskId>
    requires Fits(g, it)
  {
    KahnInit(g, it.degrees);
    KahnFrom(g, it.deps, ReadyFrom(g, it.degrees, {}), [])
  }

  lemma {:induction false} KahnFromInv(g: Graph, deps: map<TaskId, seq<TaskId>>, stack: seq<TaskId>, order: seq<TaskId>)
    requires FitsDeps(g, deps) && KahnInv(g, stack, order)
    ensures KahnInv(g, [], KahnFrom(g, deps, stack, order))
    ensures order <= KahnFrom(g, deps, stack, order)
    decreases |Nodes(g)| - |order|
  {
    if stack != [] {
      KahnStep(g, deps, stack, order);
      KahnBound(g, NextStack(g, deps, stack, order), order + [stack[|stack| - 1]]);
      KahnFromInv(g, deps, NextStack(g, deps, stack, order), order + [stack[|stack| - 1]]);
    }
  }

  /** Along a path, positions in a topological order increase. */
  lemma {:induction false} PathAscends(g: Graph, order: seq<TaskId>, p: seq<TaskId>, a: nat, b: nat)
    requires NoDup(order) && Topological(g, order)
    requires IsPath(g, p) && |p| >= 2
    requires a < |order| && b < |order| && p[0] == order[a] && p[|p| - 1] == order[b]
    ensures a < b
    decreases |p|
  {
    var m := p[|p| - 2];
    assert p[|p| - 1] in Succ(g, m);
    EdgeNodes(g, m, p[|p| - 1]);
    assert m in Elems(order[..b]);
    var b' :| 0 <= b' < b && order[b'] == m;
    if |p| > 2 {
      SubPath(g, p, 0, |p| - 1);
      PathAscends(g, order, p[0..|p| - 1], a, b');
    }
  }

  lemma KahnCoversAcyclic(g: Graph, order: seq<TaskId>)
    requires KahnInv(g, [], order) && !Cyclic(g)
    ensures Nodes(g) <= Elems(order)
  {
    var missing := Nodes(g) - Elems(order);
    if missing != {} {
      var n := TopMember(g, missing);
      assert false;
    }
    forall n | n in Nodes(g) ensures n in Elems(order) {
      assert n !in missing;
    }
  }

  lemma KahnMissesCycle(g: Graph, order: seq<TaskId>)
    requires KahnInv(g, [], order) && Nodes(g) <= Elems(order)
    ensures !Cyclic(g)
  {
    if Cyclic(g) {
      var p :| IsCycle(g, p);
      PathNodes(g, p);
      assert p[0] in Elems(order);
      var a :| 0 <= a < |order| && order[a] == p[0];
      PathAscends(g, order, p, a, a);
    }
  }

  /** When the loop ends, every node has been emitted exactly when the graph has no cycle. */
  lemma KahnCompletes(g: Graph, order: seq<TaskId>)
    requires KahnInv(g, [], order)
    ensures Elems(order) == Nodes(g) <==> !Cyclic(g)
    ensures |order| == |Nodes(g)| <==> !Cyclic(g)
  {
    assert Elems(order) <= Nodes(g);
    NoDupSize(order);
    if !Cyclic(g) {
      KahnCoversAcyclic(g, order);
    } else {
      if Elems(order) == Nodes(g) {
        KahnMissesCycle(g, order);
      }
      SubsetSize(Elems(order), Nodes(g));
    }
  }

  lemma ClosedSize(g: Graph)
    ensures |g| == |Nodes(g)| <==> Closed(g)
  {
    assert |g| == |g.Keys|;
    if g.Keys != Nodes(g) {
      SubsetSize(g.Keys, Nodes(g));
    }
  }

  /** On a closed graph the size guard after the sort repeats the verdict of the cycle test,
      so after a negative cycle test it never fires and each task is emitted exactly once,
      dependents first. */
  lemma KahnAgreesWithCycleTest(g: Graph, it: Iteration)
    requires Fits(g, it) && Closed(g)
    ensures |KahnOrder(g, it)| != |g| <==> Cyclic(g)
    ensures !Cyclic(g) ==> IsOrder(KahnOrder(g, it), g.Keys) && Topological(g, KahnOrder(g, it))
  {
    KahnInit(g, it.degrees);
    KahnFromInv(g, it.deps, ReadyFrom(g, it.degrees, {}), []);
    KahnCompletes(g, KahnOrder(g, it));
    ClosedSize(g);
  }

  /** How many of the keys in `s` depend on `n`. */
  ghost function Incoming(g: Graph, n: TaskId, s: set<TaskId>): nat {
    |Preds(g, n) * s|
  }

  /** The ids that have an entry once the keys in `s` have been counted. */
  ghost function Touched(g: Graph, s: set<TaskId>): set<TaskId> {
    s + set n, m | n in s && n in g && m in g[n] :: m
  }

  /** Counting one more key adds one dependent to each of its dependencies. */
  lemma OneMoreKey(g: Graph, t: TaskId, done: set<TaskId>, n: TaskId)
    requires t in g && t !in done
    ensures Incoming(g, n, done + {t}) == Incoming(g, n, done) + if n in g[t] then 1 else 0
    ensures n !in Touched(g, done) ==> Incoming(g, n, done) == 0
  {
    if n in g[t] {
      assert Preds(g, n) * (done + {t}) == Preds(g, n) * done + {t};
    } else {
      assert Preds(g, n) * (done + {t}) == Preds(g, n) * done;
    }
    if Preds(g, n) * done != {} {
      var m :| m in Preds(g, n) * done;
      assert m in done && m in g && n in g[m];
    }
  }

  lemma AllOneMoreKey(g: Graph, t: TaskId, done: set<TaskId>)
    requires t in g && t !in done
    ensures forall n :: Incoming(g, n, done + {t}) == Incoming(g, n, done) + if n in g[t] then 1 else 0
    ensures forall n :: n !in Touched(g, done) ==> Incoming(g, n, done) == 0
    ensures Touched(g, done + {t}) == Touched(g, done) + {t} + g[t]
  {
    forall n ensures Incoming(g, n, done + {t}) == Incoming(g, n, done) + if n in g[t] then 1 else 0
             ensures n !in Touched(g, done) ==> Incoming(g, n, done) == 0 {
      OneMoreKey(g, t, done, n);
    }
  }

  lemma AllKeysCounted(g: Graph)
    ensures Touched(g, g.Keys) == Nodes(g)
    ensures forall n :: Incoming(g, n, g.Keys) == |Preds(g, n)|
  {
    forall n ensures Incoming(g, n, g.Keys) == |Preds(g, n)| {
      assert Preds(g, n) * g.Keys == Preds(g, n);
    }
  }

  ghost predicate Counted(g: Graph, done: set<TaskId>, inDegree: map<TaskId, int>) {
    inDegree.Keys == Touched(g, done) && forall n :: n in inDegree ==> inDegree[n] == Incoming(g, n, done)
  }

  /** The table maps every node to the number of its dependents. */
  method CountIncoming(g: Graph) returns (inDegree: map<TaskId, int>)
    ensures inDegree.Keys == Nodes(g)
    ensures forall n :: n in inDegree ==> inDegree[n] == |Preds(g, n)|
  {
    inDegree := map[];
    var todo := g.Keys;
    ghost var done: set<TaskId> := {};
    while todo != {}
      invariant forall n :: n in g <==> n in done || n in todo
      invariant forall n :: n in todo ==> n !in done
      invariant Counted(g, done, inDegree)
    {
      var t :| t in todo;
      inDegree := CountKey(g, t, inDegree, done);
      todo, done := todo - {t}, done + {t};
    }
    assert done == g.Keys;
    AllKeysCounted(g);
  }

  /** One round of the count: an entry for `t`, and one more dependent for each dependency of `t`. */
  method CountKey(g: Graph, t: TaskId, inDegree0: map<TaskId, int>, ghost done: set<TaskId>)
    returns (inDegree: map<TaskId, int>)
    requires t in g && t !in done && Counted(g, done, inDegree0)
    ensures Counted(g, done + {t}, inDegree)
  {
    hide Incoming, Touched, Preds, Nodes;
    inDegree := inDegree0;
    if t !in inDegree {
      inDegree := inDegree[t := 0];
    }
    var todo := g[t];
    while todo != {}
      invariant todo <= g[t]
      invariant inDegree.Keys == inDegree0.Keys + {t} + (g[t] - todo)
      invariant forall n :: n in inDegree ==>
        inDegree[n] == (if n in inDegree0 then inDegree0[n] else 0) + (if n in g[t] - todo then 1 else 0)
    {
      var d :| d in todo;
      if d !in inDegree {
        inDegree := inDegree[d := 0];
      }
      inDegree := inDegree[d := inDegree[d] + 1];
      todo := todo - {d};
    }
    AllOneMoreKey(g, t, done);
  }

  method InitialStack(g: Graph, it: Iteration, inDegree: map<TaskId, int>) returns (stack: seq<TaskId>)
    requires IsOrder(it.degrees, Nodes(g)) && inDegree.Keys == Nodes(g)
    requires forall n :: n in inDegree ==> inDegree[n] == |Preds(g, n)|
    ensures stack == ReadyFrom(g, it.degrees, {})
  {
    stack := [];
    var i := 0;
    while i < |it.degrees|
      invariant i <= |it.degrees|
      invariant stack == ReadyFrom(g, it.degrees[..i], {})
    {
      var n := it.degrees[i];
      assert n in Elems(it.degrees);
      assert it.degrees[..i + 1] == it.degrees[..i] + [n];
      ReadyFromSnoc(g, it.degrees[..i], n, {});
      if inDegree[n] == 0 {
        stack := stack + [n];
      }
      i := i + 1;
    }
    assert it.degrees[..i] == it.degrees;
  }

  /** How many dependents of `n` have not been emitted yet. */
  ghost function Waiting(g: Graph, order: seq<TaskId>, n: TaskId): nat {
    |Preds(g, n) - Elems(order)|
  }

  /** Emitting `c` leaves one dependent fewer to wait for, for each of its dependencies. */
  lemma OneLessPending(g: Graph, c: TaskId, order: seq<TaskId>, n: TaskId)
    requires c !in order
    ensures Waiting(g, order, n) == Waiting(g, order + [c], n) + if n in Succ(g, c) then 1 else 0
    ensures Waiting(g, order + [c], n) == 0 <==> Preds(g, n) <= Elems(order + [c])
  {
    ElemsSnoc(order, c);
    var left, left' := Preds(g, n) - Elems(order), Preds(g, n) - Elems(order + [c]);
    if n in Succ(g, c) {
      assert left == left' + {c};
    } else {
      assert left == left';
    }
  }

  lemma AllOneLessPending(g: Graph, c: TaskId, order: seq<TaskId>)
    requires c !in order
    ensures forall n :: Waiting(g, order, n) == Waiting(g, order + [c], n) + if n in Succ(g, c) then 1 else 0
    ensures forall n :: Waiting(g, order + [c], n) == 0 <==> Preds(g, n) <= Elems(order + [c])
  {
    forall n ensures Waiting(g, order, n) == Waiting(g, order + [c], n) + if n in Succ(g, c) then 1 else 0
             ensures Waiting(g, order + [c], n) == 0 <==> Preds(g, n) <= Elems(order + [c]) {
      OneLessPending(g, c, order, n);
    }
  }

  /** The inner loop of the sort: decrement each dependency's counter, pushing those that reach zero. */
  method Release(g: Graph, current: TaskId, deps: seq<TaskId>, inDegree0: map<TaskId, int>, rest: seq<TaskId>,
                 ghost done: set<TaskId>)
    returns (inDegree: map<TaskId, int>, stack: seq<TaskId>)
    requires current in g && IsOrder(deps, g[current]) && g[current] <= inDegree0.Keys
    requires forall n :: n in g[current] ==> (inDegree0[n] == 1 <==> Preds(g, n) <= done)
    ensures inDegree.Keys == inDegree0.Keys
    ensures forall n :: n in inDegree ==> inDegree[n] == inDegree0[n] - if n in g[current] then 1 else 0
    ensures stack == rest + ReadyFrom(g, deps, done)
  {
    inDegree, stack := inDegree0, rest;
    ghost var seen: set<TaskId> := {};
    var i := 0;
    while i < |deps|
      invariant i <= |deps| && seen <= g[current]
      invariant forall j :: 0 <= j < |deps| ==> (deps[j] in seen <==> j < i)
      invariant inDegree.Keys == inDegree0.Keys
      invariant forall n :: n in inDegree ==> inDegree[n] == inDegree0[n] - if n in seen then 1 else 0
      invariant stack == rest + ReadyFrom(g, deps[..i], done)
    {
      var n := deps[i];
      assert n in Elems(deps);
      assert deps[..i + 1] == deps[..i] + [n];
      ReadyFromSnoc(g, deps[..i], n, done);
      inDegree := inDegree[n := inDegree[n] - 1];
      if inDegree[n] == 0 {
        stack := stack + [n];
      }
      seen := seen + {n};
      i := i + 1;
    }
    assert deps[..i] == deps;
    assert seen == g[current] by {
      forall d | d in g[current] ensures d in seen { assert d in Elems(deps); }
    }
  }

  /** The whole sort, with in-degree counters, computes `KahnOrder`. */
  method KahnSort(g: Graph, it: Iteration) returns (order: seq<TaskId>)
    requires Fits(g, it)
    ensures order == KahnOrder(g, it)
  {
    var inDegree := CountIncoming(g);
    var stack := InitialStack(g, it, inDegree);
    KahnInit(g, it.degrees);
    order := [];
    forall n ensures Waiting(g, [], n) == |Preds(g, n)| {
      assert Preds(g, n) - Elems<TaskId>([]) == Preds(g, n);
    }
    hide Waiting, Preds, Nodes, ReadyFrom, Topological;
    while stack != []
      invariant KahnInv(g, stack, order)
      invariant KahnFrom(g, it.deps, stack, order) == KahnOrder(g, it)
      invariant inDegree.Keys == Nodes(g)
      invariant forall n :: n in inDegree ==> inDegree[n] == Waiting(g, order, n)
      decreases |Nodes(g)| - |order|
    {
      KahnStep(g, it.deps, stack, order);
      assert stack[|stack| - 1] !in order by { assert stack[|stack| - 1] in Elems(stack); }
      inDegree, stack, order := EmitOne(g, it.deps, inDegree, stack, order);
      KahnBound(g, stack, order);
    }
  }

  /** One round of the sort. */
  method EmitOne(g: Graph, deps: map<TaskId, seq<TaskId>>, inDegree0: map<TaskId, int>,
                 stack0: seq<TaskId>, order0: seq<TaskId>)
    returns (inDegree: map<TaskId, int>, stack: seq<TaskId>, order: seq<TaskId>)
    requires FitsDeps(g, deps) && stack0 != [] && stack0[|stack0| - 1] !in order0
    requires inDegree0.Keys == Nodes(g)
    requires forall n :: n in inDegree0 ==> inDegree0[n] == Waiting(g, order0, n)
    ensures inDegree.Keys == Nodes(g)
    ensures forall n :: n in inDegree ==> inDegree[n] == Waiting(g, order, n)
    ensures order == order0 + [stack0[|stack0| - 1]] && stack == NextStack(g, deps, stack0, order0)
  {
    hide Waiting, Elems, Preds;
    var current := stack0[|stack0| - 1];
    inDegree, stack, order := inDegree0, stack0[..|stack0| - 1], order0 + [current];
    AllOneLessPending(g, current, order0);
    if current in g {
      forall n | n in g[current] ensures n in inDegree {
        EdgeNodes(g, current, n);
      }
      inDegree, stack := Release(g, current, deps[current], inDegree, stack, Elems(order));
    }
    assert stack == NextStack(g, deps, stack0, order0);
  }
}
