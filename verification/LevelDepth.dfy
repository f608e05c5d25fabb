/** The memoised level recursion with a bound on its depth: when it comes to an end. */
module LevelDepth {
  import opened Basics
  import opened Sequences
  import opened Graphs
  import opened Kahn
  import opened Levels

  datatype Answer = Answer(level: int, levels: map<TaskId, int>)

  /** The recursion, given up below `depth` nested calls that are not answered from the memo. */
  function CalcWithin(g: Graph, deps: map<TaskId, seq<TaskId>>, id: TaskId, levels: map<TaskId, int>,
                      depth: nat): Option<Answer>
    decreases depth, 0
  {
    if id in levels then Some(Answer(levels[id], levels))
    else if depth == 0 then None
    else if Succ(g, id) == {} then Some(Answer(0, levels[id := 0]))
    else
      match EachWithin(g, deps, DepsOf(deps, id), levels, -1, depth - 1)
      case None => None
      case Some(a) => Some(Answer(a.level + 1, a.levels[id := a.level + 1]))
  }

  /** One call after the other, keeping the highest level. */
  function EachWithin(g: Graph, deps: map<TaskId, seq<TaskId>>, ids: seq<TaskId>, levels: map<TaskId, int>,
                      best: int, depth: nat): Option<Answer>
    decreases depth, |ids| + 1
  {
    if ids == [] then Some(Answer(best, levels)) else
      match CalcWithin(g, deps, ids[0], levels, depth)
      case None => None
      case Some(a) => EachWithin(g, deps, ids[1..], a.levels, if a.level > best then a.level else best, depth)
  }

  // ----- An answer means no cycle

  lemma DepsAreSucc(g: Graph, deps: map<TaskId, seq<TaskId>>, id: TaskId)
    requires FitsDeps(g, deps) && Succ(g, id) != {}
    ensures id in deps && Elems(deps[id]) == Succ(g, id) <= Nodes(g)
  {
    forall m | m in Succ(g, id) ensures m in Nodes(g) {
      EdgeNodes(g, id, m);
    }
  }

  ghost predicate NoneCyclic(g: Graph, ids: set<TaskId>) {
    forall n :: n in ids ==> !CycleBelow(g, n)
  }

  lemma {:induction false} AnswerMeansNoCycle(g: Graph, deps: map<TaskId, seq<TaskId>>, id: TaskId,
                                              levels: map<TaskId, int>, depth: nat)
    requires FitsDeps(g, deps) && NoneCyclic(g, levels.Keys) && CalcWithin(g, deps, id, levels, depth).Some?
    ensures NoneCyclic(g, {id} + CalcWithin(g, deps, id, levels, depth).value.levels.Keys)
    decreases depth, 0
  {
    if id !in levels {
      if Succ(g, id) != {} {
        EachMeansNoCycle(g, deps, deps[id], levels, -1, depth - 1);
      }
      if CycleBelow(g, id) {
        CycleBelowStep(g, id);
      }
    }
  }

  lemma {:induction false} EachMeansNoCycle(g: Graph, deps: map<TaskId, seq<TaskId>>, ids: seq<TaskId>,
                                            levels: map<TaskId, int>, best: int, depth: nat)
    requires FitsDeps(g, deps) && NoneCyclic(g, levels.Keys) && EachWithin(g, deps, ids, levels, best, depth).Some?
    ensures NoneCyclic(g, Elems(ids) + EachWithin(g, deps, ids, levels, best, depth).value.levels.Keys)
    decreases depth, |ids| + 1
  {
    if ids != [] {
      AnswerMeansNoCycle(g, deps, ids[0], levels, depth);
      var a := CalcWithin(g, deps, ids[0], levels, depth).value;
      EachMeansNoCycle(g, deps, ids[1..], a.levels, if a.level > best then a.level else best, depth);
      ElemsCons(ids[0], ids[1..]);
      assert ids == [ids[0]] + ids[1..];
    }
  }

  // ----- No cycle means an answer

  lemma {:induction false} NoCycleMeansAnswer(g: Graph, deps: map<TaskId, seq<TaskId>>, id: TaskId,
                                              levels: map<TaskId, int>, depth: nat)
    requires FitsDeps(g, deps) && !CycleBelow(g, id) && depth > |ReachSet(g, id)|
    ensures CalcWithin(g, deps, id, levels, depth).Some?
    decreases depth, 0
  {
    hide ReachSet, CycleBelow, FitsDeps, Elems;
    if id !in levels && Succ(g, id) != {} {
      DepsAreSucc(g, deps, id);
      forall m | m in Elems(deps[id]) ensures !CycleBelow(g, m) && depth - 1 > |ReachSet(g, m)| {
        EdgeShrinksBelow(g, id, m);
        SubsetSize(ReachSet(g, m), ReachSet(g, id));
      }
      NoCycleMeansAnswers(g, deps, deps[id], levels, -1, depth - 1);
    }
  }

  lemma {:induction false} NoCycleMeansAnswers(g: Graph, deps: map<TaskId, seq<TaskId>>, ids: seq<TaskId>,
                                               levels: map<TaskId, int>, best: int, depth: nat)
    requires FitsDeps(g, deps)
    requires forall m :: m in Elems(ids) ==> !CycleBelow(g, m) && depth > |ReachSet(g, m)|
    ensures EachWithin(g, deps, ids, levels, best, depth).Some?
    decreases depth, |ids| + 1
  {
    if ids != [] {
      ElemsCons(ids[0], ids[1..]);
      assert ids == [ids[0]] + ids[1..];
      hide ReachSet, CycleBelow, FitsDeps, Elems;
      NoCycleMeansAnswer(g, deps, ids[0], levels, depth);
      var a := CalcWithin(g, deps, ids[0], levels, depth).value;
      NoCycleMeansAnswers(g, deps, ids[1..], a.levels, if a.level > best then a.level else best, depth);
    }
  }

  /** A single call comes to an end exactly when no cycle can be reached from its id. */
  lemma CallEndsExactlyWhen(g: Graph, deps: map<TaskId, seq<TaskId>>, id: TaskId)
    requires FitsDeps(g, deps)
    ensures (exists depth :: CalcWithin(g, deps, id, map[], depth).Some?) <==> !CycleBelow(g, id)
  {
    if depth :| CalcWithin(g, deps, id, map[], depth).Some? {
      AnswerMeansNoCycle(g, deps, id, map[], depth);
    }
    if !CycleBelow(g, id) {
      NoCycleMeansAnswer(g, deps, id, map[], |ReachSet(g, id)| + 1);
    }
  }

  lemma CycleAtKey(g: Graph) returns (n: TaskId)
    requires Cyclic(g)
    ensures n in g && CycleBelow(g, n)
  {
    var p :| IsCycle(g, p);
    PathNodes(g, p);
    ReachableSelf(g, p[0]);
    n := p[0];
  }

  /** The whole computation, which calls each key in turn, comes to an end exactly when the graph is
      acyclic. */
  lemma EndsExactlyWhenAcyclic(g: Graph, deps: map<TaskId, seq<TaskId>>, keys: seq<TaskId>)
    requires FitsDeps(g, deps) && IsOrder(keys, g.Keys)
    ensures (exists depth :: EachWithin(g, deps, keys, map[], -1, depth).Some?) <==> !Cyclic(g)
  {
    if depth :| EachWithin(g, deps, keys, map[], -1, depth).Some? {
      EachMeansNoCycle(g, deps, keys, map[], -1, depth);
      if Cyclic(g) {
        var n := CycleAtKey(g);
      }
    }
    if !Cyclic(g) {
      var depth := |Nodes(g)| + 1;
      forall m | m in Elems(keys) ensures !CycleBelow(g, m) && depth > |ReachSet(g, m)| {
        SubsetSizeLe(ReachSet(g, m), Nodes(g));
      }
      NoCycleMeansAnswers(g, deps, keys, map[], -1, depth);
    }
  }

  // ----- What the answers are

  lemma {:induction false} AnswerIsLevel(g: Graph, deps: map<TaskId, seq<TaskId>>, id: TaskId,
                                         levels: map<TaskId, int>, depth: nat)
    requires FitsDeps(g, deps) && !Cyclic(g) && id in Nodes(g) && Memo(g, levels)
    requires CalcWithin(g, deps, id, levels, depth).Some?
    ensures var a := CalcWithin(g, deps, id, levels, depth).value;
      a.level == Level(g, id) && Memo(g, a.levels) && levels.Keys + {id} <= a.levels.Keys
    decreases depth, 0
  {
    hide Level, Memo, Highest, Elems, Cyclic, Nodes, FitsDeps;
    MemoHit(g, levels, id);
    if id !in levels {
      if Succ(g, id) == {} {
        LeafLevel(g, id);
        MemoExtend(g, levels, id);
      } else {
        DepsAreSucc(g, deps, id);
        EachIsLevel(g, deps, deps[id], levels, -1, depth - 1);
        var a := EachWithin(g, deps, deps[id], levels, -1, depth - 1).value;
        HighestIsLevel(g, id, a.level);
        MemoExtend(g, a.levels, id);
      }
    }
  }

  lemma MemoHit(g: Graph, levels: map<TaskId, int>, id: TaskId)
    requires !Cyclic(g) && Memo(g, levels)
    ensures id in levels ==> levels[id] == Level(g, id)
  {
  }

  lemma LeafLevel(g: Graph, id: TaskId)
    requires !Cyclic(g) && Succ(g, id) == {}
    ensures Level(g, id) == 0
  {
  }

  lemma HighestIsLevel(g: Graph, id: TaskId, level: int)
    requires !Cyclic(g) && Succ(g, id) != {} && Highest(g, Succ(g, id), -1, level)
    ensures level + 1 == Level(g, id)
  {
    var m := LevelAttained(g, id);
    assert Level(g, m) <= level;
    var k :| k in Succ(g, id) && Level(g, k) == level;
    LevelAboveDeps(g, id, k);
  }

  lemma MemoExtend(g: Graph, levels: map<TaskId, int>, id: TaskId)
    requires !Cyclic(g) && id in Nodes(g) && Memo(g, levels) && Succ(g, id) <= levels.Keys
    ensures Memo(g, levels[id := Level(g, id)])
  {
    hide Level;
  }

  ghost predicate Highest(g: Graph, ids: set<TaskId>, best: int, level: int)
    requires !Cyclic(g)
  {
    && level >= best && (forall m :: m in ids ==> Level(g, m) <= level)
    && (level == best || exists m :: m in ids && Level(g, m) == level)
  }

  lemma {:induction false} EachIsLevel(g: Graph, deps: map<TaskId, seq<TaskId>>, ids: seq<TaskId>,
                                       levels: map<TaskId, int>, best: int, depth: nat)
    requires FitsDeps(g, deps) && !Cyclic(g) && Elems(ids) <= Nodes(g) && Memo(g, levels)
    requires EachWithin(g, deps, ids, levels, best, depth).Some?
    ensures var a := EachWithin(g, deps, ids, levels, best, depth).value;
      Highest(g, Elems(ids), best, a.level) && Memo(g, a.levels) && levels.Keys + Elems(ids) <= a.levels.Keys
    decreases depth, |ids| + 1
  {
    if ids != [] {
      var id, rest := ids[0], ids[1..];
      ElemsCons(id, rest);
      assert ids == [id] + rest;
      hide Level, Memo, Elems, FitsDeps, Nodes, Cyclic, Highest;
      AnswerIsLevel(g, deps, id, levels, depth);
      var a := CalcWithin(g, deps, id, levels, depth).value;
      var best' := if a.level > best then a.level else best;
      EachIsLevel(g, deps, rest, a.levels, best', depth);
    } else {
      hide Level, Memo;
    }
  }

  /** Where it comes to an end, every node of the graph and nothing else has its level. */
  lemma EndsWithLevels(g: Graph, deps: map<TaskId, seq<TaskId>>, keys: seq<TaskId>, depth: nat)
    requires FitsDeps(g, deps) && IsOrder(keys, g.Keys) && EachWithin(g, deps, keys, map[], -1, depth).Some?
    ensures !Cyclic(g)
    ensures var levels := EachWithin(g, deps, keys, map[], -1, depth).value.levels;
      levels.Keys == Nodes(g) && forall n :: n in levels ==> levels[n] == Level(g, n)
  {
    EndsExactlyWhenAcyclic(g, deps, keys);
    EachIsLevel(g, deps, keys, map[], -1, depth);
    var levels := EachWithin(g, deps, keys, map[], -1, depth).value.levels;
    forall n | n in Nodes(g) ensures n in levels {
      if n !in g {
        var m :| m in g && n in g[m];
        assert n in Succ(g, m);
      }
    }
  }
}
