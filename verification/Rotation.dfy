/** Whose turn comes next: the rotation goes through the groups in the order of their first names. */
module Rotation {
  import opened Basics
  import opened Sequences
  import opened QueueModel
  import opened Serving
  import opened RoundRobin
  import opened Chronicle

  /** The groups from the one behind `a` on, and around to `a` itself. */
  function TurnsAfter(groups: seq<string>, a: nat): seq<string>
    requires a < |groups|
  {
    groups[a + 1..] + groups[..a + 1]
  }

  lemma ModPlus(x: nat, k: nat, n: nat)
    requires n > 0
    ensures (x + k) % n == (x % n + k) % n
  {
    assert x == n * (x / n) + x % n;
    ModShift(x % n + k, n, x / n);
  }

  lemma SmallMod(x: nat, n: nat)
    requires n > 0 && x < 2 * n
    ensures x % n == if x < n then x else x - n
  {
    if x < n {
      ModOfMultiple(0, n, x);
    } else {
      ModShift(x - n, n, 1);
      ModOfMultiple(0, n, x - n);
    }
  }

  lemma TurnAtOffset(groups: seq<string>, a: nat, v: nat, k: nat)
    requires a < |groups| && k < |groups| && v % |groups| == (a + 1) % |groups|
    ensures GroupAt(groups, v + k) == TurnsAfter(groups, a)[k]
  {
    var n := |groups|;
    ModPlus(v, k, n);
    ModPlus(a + 1, k, n);
    SmallMod(a + 1 + k, n);
  }

  /** Within a steady round the width of the cursor does not show in the index. */
  lemma SteadyIndex(cursor: nat, n: nat, d: nat)
    requires n > 0 && Steady(cursor, n) && d <= n
    ensures Wrap(cursor + d) % n == (cursor + d) % n
  {
    if TWO64 % n == 0 {
      WrapKeepsIndex(cursor + d, n);
    } else {
      assert Wrap(cursor + d) == cursor + d;
    }
  }

  /** The cursor behind a served group stands for the group behind it. */
  lemma CursorBehind(groups: seq<string>, cursor: nat, d: nat) returns (x: nat)
    requires groups != [] && cursor < TWO64 && Steady(cursor, |groups|) && d < |groups|
    ensures x < |groups| && TriedAt(groups, cursor, d) == groups[x]
    ensures Wrap(cursor + d + 1) % |groups| == (x + 1) % |groups|
  {
    hide Wrap, Steady;
    var n := |groups|;
    x := Wrap(cursor + d) % n;
    SteadyIndex(cursor, n, d);
    SteadyIndex(cursor, n, d + 1);
    ModPlus(cursor + d, 1, n);
  }

  /** A dequeue in round robin that serves someone does so at its first try that finds work. */
  lemma ServedAtTry<T>(s: State<T>) returns (d: nat)
    requires Inv(s) && s.mode.RoundRobin? && DequeueOf(s).served.Some?
    ensures s.groups != [] && FirstTry(s.fifo.queues, s.groups, s.cursor, |s.groups|, d)
    ensures DequeueOf(s).served == Some(TriedAt(s.groups, s.cursor, d))
    ensures DequeueOf(s).state.cursor == Wrap(s.cursor + d + 1)
  {
    var q, groups := s.fifo.queues, s.groups;
    TurnHits(s);
    assert s.total != 0;
    hide DequeueOf, Inv, TriedAt;
    var k :| 0 <= k < |groups| && Get(q, TriedAt(groups, s.cursor, k)) != [];
    d := FirstTryExists(q, groups, s.cursor, |groups|, k);
    TurnOutcome(s, d);
  }

  lemma FirstOfTurns<T>(s: State<T>, a: nat) returns (d: nat)
    requires Inv(s) && s.mode.RoundRobin? && DequeueOf(s).served.Some? && a < |s.groups|
    requires Steady(s.cursor, |s.groups|) && s.cursor % |s.groups| == (a + 1) % |s.groups|
    ensures var turns := TurnsAfter(s.groups, a);
      FirstWithWork(s.fifo.queues, turns, d) && DequeueOf(s).served == Some(turns[d])
  {
    var groups, c := s.groups, s.cursor;
    assert c < TWO64;
    hide Inv, DequeueOf, TriedAt, Steady, TurnsAfter, Wrap;
    d := ServedAtTry(s);
    assert |TurnsAfter(groups, a)| == |groups| by {
      TurnsLength(groups, a);
    }
    forall k: nat | k < |groups| ensures TriedAt(groups, c, k) == TurnsAfter(groups, a)[k] {
      TriedIsTurn(groups, c, a, k);
    }
  }

  lemma TurnsLength(groups: seq<string>, a: nat)
    requires a < |groups|
    ensures |TurnsAfter(groups, a)| == |groups|
  {
  }

  lemma TriedIsTurn(groups: seq<string>, c: nat, a: nat, k: nat)
    requires a < |groups| && k < |groups| && c < TWO64 && Steady(c, |groups|) && c % |groups| == (a + 1) % |groups|
    ensures TriedAt(groups, c, k) == TurnsAfter(groups, a)[k]
  {
    assert Wrap(c) == c;
    assert StandsFor(c, c, |groups|);
    hide TriedAt, GroupAt, Steady, StandsFor, Wrap;
    TriedIs(groups, c, c, k);
    TurnAtOffset(groups, a, c, k);
  }

  /** In every run, between two round robin dequeues with none in between, the same groups and a cursor
      that does not wrap (or wraps without effect): after the group at `a` the next one served is the
      first with something queued among those behind `a`, around to `a` itself. */
  lemma NextInTurn<T>(ops: seq<Op<T>>, states: seq<State<T>>, i: nat, j: nat, a: nat) returns (d: nat)
    requires IsRun(ops, states) && i < j < |ops| && ops[i].Dequeue? && ops[j].Dequeue?
    requires forall k :: i < k < j ==> !ops[k].Dequeue?
    requires states[i].mode.RoundRobin? && states[j].mode.RoundRobin? && states[i].groups == states[j].groups
    requires a < |states[i].groups| && DequeueOf(states[i]).served == Some(states[i].groups[a])
    requires DequeueOf(states[j]).served.Some?
    requires Steady(states[i].cursor, |states[i].groups|) && Steady(states[j].cursor, |states[i].groups|)
    ensures var turns := TurnsAfter(states[j].groups, a);
      FirstWithWork(states[j].fifo.queues, turns, d) && DequeueOf(states[j]).served == Some(turns[d])
  {
    var s, s', groups := states[i], states[j], states[i].groups;
    assert Step(s, ops[i], states[i + 1]);
    InvRun(ops, states, i);
    InvRun(ops, states, j);
    CursorRun(ops, states, i + 1, j);
    BehindServed(s, a);
    hide Step, IsRun, DequeueOf, Inv, Steady;
    d := FirstOfTurns(s', a);
  }

  lemma BehindServed<T>(s: State<T>, a: nat)
    requires Inv(s) && s.mode.RoundRobin? && a < |s.groups| && DequeueOf(s).served == Some(s.groups[a])
    requires Steady(s.cursor, |s.groups|)
    ensures DequeueOf(s).state.cursor % |s.groups| == (a + 1) % |s.groups|
  {
    var groups := s.groups;
    assert NoDup(groups) && s.cursor < TWO64;
    hide Inv, DequeueOf, Wrap, Steady, TriedAt, Get;
    var d := ServedAtTry(s);
    var x := CursorBehind(groups, s.cursor, d);
    OnePlace(groups, a, x);
  }

  lemma OnePlace(groups: seq<string>, a: nat, x: nat)
    requires NoDup(groups) && a < |groups| && x < |groups|
    ensures groups[a] == groups[x] <==> a == x
  {
  }
}
