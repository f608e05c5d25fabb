/** The memoised task levels: how long a chain of dependencies lies below each id. */
module Levels {
  import opened Basics
  import opened Graphs

  ghost predicate IsMax(s: set<nat>, m: nat) {
    m in s && forall x :: x in s ==> x <= m
  }

  lemma {:induction false} MaxExists(s: set<nat>)
    requires s != {}
    ensures exists m :: IsMax(s, m)
  {
    var m :| m in s;
    var rest := s - {m};
    assert s == rest + {m};
    if rest == {} {
      assert IsMax(s, m);
    } else {
      MaxExists(rest);
      var k :| IsMax(rest, k);
      assert IsMax(s, if k > m then k else m);
    }
  }

  ghost function MaxOf(s: set<nat>): (m: nat)
    requires s != {}
    ensures m in s && forall x :: x in s ==> x <= m
  {
    MaxExists(s);
    var m :| IsMax(s, m);
    m
  }

  /** The plain recursion, without the memo. */
  ghost function Level(g: Graph, n: TaskId): nat
    requires !Cyclic(g)
    decreases ReachSet(g, n)
  {
    if Succ(g, n) == {} then 0 else 1 + MaxOf(LevelsBelow(g, n))
  }

  ghost function LevelsBelow(g: Graph, n: TaskId): (s: set<nat>)
    requires !Cyclic(g)
    ensures Succ(g, n) != {} ==> s != {}
    decreases ReachSet(g, n), 0
  {
    var s := set m | m in Succ(g, n) :: (EdgeShrinks(g, n, m); Level(g, m));
    assert forall m :: m in Succ(g, n) ==> (EdgeShrinks(g, n, m); Level(g, m)) in s;
    s
  }

  lemma LevelAboveDeps(g: Graph, n: TaskId, m: TaskId)
    requires !Cyclic(g) && m in Succ(g, n)
    ensures Level(g, m) < Level(g, n)
  {
    EdgeShrinks(g, n, m);
    assert Level(g, m) in LevelsBelow(g, n);
  }

  lemma LevelAttained(g: Graph, n: TaskId) returns (m: TaskId)
    requires !Cyclic(g) && Succ(g, n) != {}
    ensures m in Succ(g, n) && Level(g, n) == 1 + Level(g, m)
  {
    var l := MaxOf(LevelsBelow(g, n));
    m :| m in Succ(g, n) && Level(g, m) == l;
  }

  /** No chain of dependencies below `n` has more edges than its level. */
  lemma {:induction false} LevelBoundsPaths(g: Graph, p: seq<TaskId>)
    requires !Cyclic(g) && IsPath(g, p)
    ensures |p| - 1 <= Level(g, p[0])
  {
    if |p| > 1 {
      SubPath(g, p, 1, |p|);
      assert p[1] in Succ(g, p[0]);
      LevelBoundsPaths(g, p[1..]);
      LevelAboveDeps(g, p[0], p[1]);
    }
  }

  /** Some chain of dependencies below `n` has as many edges as its level. */
  lemma {:induction false} LevelIsAttained(g: Graph, n: TaskId) returns (p: seq<TaskId>)
    requires !Cyclic(g)
    ensures IsPath(g, p) && p[0] == n && |p| - 1 == Level(g, n)
    decreases Level(g, n)
  {
    if Succ(g, n) == {} {
      p := [n];
    } else {
      var m := LevelAttained(g, n);
      var q := LevelIsAttained(g, m);
      EdgeIsPath(g, n, m);
      PathConcat(g, [n, m], q);
      p := [n, m] + q[1..];
    }
  }

  /** The memo holds correct levels of nodes, together with those of all their dependencies. */
  ghost predicate Memo(g: Graph, levels: map<TaskId, int>)
    requires !Cyclic(g)
  {
    && levels.Keys <= Nodes(g)
    && (forall n :: n in levels ==> levels[n] == Level(g, n))
    && (forall n, m :: n in levels && m in Succ(g, n) ==> m in levels)
  }

  method CalcLevel(g: Graph, id: TaskId, levels0: map<TaskId, int>) returns (level: int, levels: map<TaskId, int>)
    requires !Cyclic(g) && id in Nodes(g) && Memo(g, levels0)
    ensures level == Level(g, id)
    ensures Memo(g, levels) && levels0.Keys + {id} <= levels.Keys
    decreases ReachSet(g, id)
  {
    levels := levels0;
    if id in levels {
      return levels[id], levels;
    }
    if id !in g || g[id] == {} {
      levels := levels[id := 0];
      return 0, levels;
    }
    var maxLevel := -1;
    var todo := g[id];
    ghost var best := id;
    while todo != {}
      invariant todo <= g[id] && Memo(g, levels) && levels0.Keys <= levels.Keys
      invariant forall m :: m in g[id] && m !in todo ==> m in levels && Level(g, m) <= maxLevel
      invariant maxLevel == -1 ==> todo == g[id]
      invariant maxLevel != -1 ==> best in g[id] && maxLevel == Level(g, best)
    {
      var depId :| depId in todo;
      EdgeNodes(g, id, depId);
      EdgeShrinks(g, id, depId);
      var l;
      l, levels := CalcLevel(g, depId, levels);
      if l > maxLevel {
        maxLevel, best := l, depId;
      }
      todo := todo - {depId};
    }
    var m := LevelAttained(g, id);
    LevelAboveDeps(g, id, best);
    levels := levels[id := maxLevel + 1];
    level := maxLevel + 1;
  }

  /** Every node of the graph gets its level, and nothing else does. */
  method CalculateTaskLevels(g: Graph) returns (levels: map<TaskId, int>)
    requires !Cyclic(g)
    ensures levels.Keys == Nodes(g)
    ensures forall n :: n in levels ==> levels[n] == Level(g, n)
  {
    levels := map[];
    var todo := g.Keys;
    while todo != {}
      invariant todo <= g.Keys && Memo(g, levels)
      invariant forall n :: n in g && n !in todo ==> n in levels
    {
      var taskId :| taskId in todo;
      var _, levels' := CalcLevel(g, taskId, levels);
      levels := levels';
      todo := todo - {taskId};
    }
    forall n | n in Nodes(g) ensures n in levels {
      if n !in g {
        var m :| m in g && n in g[m];
        assert n in Succ(g, m);
      }
    }
  }
}
