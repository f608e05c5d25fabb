/** Round robin: whose turn it is, and that nobody with work waits for more than one round. */
module RoundRobin {
  import opened Basics
  import opened Sequences
  import opened PriorityOrder
  import opened QueueModel
  import opened Serving
  import opened Runs

  lemma {:induction false} MultipleAtLeast(n: nat, k: nat)
    requires k >= 1
    ensures n * k >= n
  {
    if k > 1 {
      MultipleAtLeast(n, k - 1);
      assert n * k == n * (k - 1) + n;
    }
  }

  lemma SmallMultiple(n: int, k: int)
    requires 0 - n < n * k < n
    ensures k == 0
  {
    assert n * (-k) == -(n * k);
    if k >= 1 {
      MultipleAtLeast(n, k);
    } else if k <= -1 {
      MultipleAtLeast(n, -k);
    }
  }

  lemma ModOfMultiple(k: nat, n: nat, j: nat)
    requires j < n
    ensures (n * k + j) % n == j
  {
    var x := n * k + j;
    var q, r := x / n, x % n;
    assert x == n * q + r;
    assert n * (q - k) == n * q - n * k;
    SmallMultiple(n, q - k);
  }

  /** Any `n` consecutive cursor values hit every index below `n`. */
  lemma Residue(c: nat, n: nat, j: nat) returns (v: nat)
    requires j < n
    ensures c <= v < c + n && v % n == j
  {
    var k, r := c / n, c % n;
    assert c == n * k + r;
    if r <= j {
      v := c + (j - r);
      ModOfMultiple(k, n, j);
    } else {
      v := c + n - r + j;
      assert v == n * (k + 1) + j;
      ModOfMultiple(k + 1, n, j);
    }
  }

  /** Different cursor values within a round give different indices. */
  lemma ModDistinct(a: nat, b: nat, n: nat)
    requires a < b < a + n
    ensures a % n != b % n
  {
    if a % n == b % n {
      assert b - a == n * (b / n) - n * (a / n) == n * (b / n - a / n);
      SmallMultiple(n, b / n - a / n);
    }
  }

  /** A turn serves someone exactly when one of the cursor values it tries stands for a group with
      something queued, wrap-around included. */
  lemma {:induction false} TurnTries<T>(q: Queues<T>, groups: seq<string>, cursor: nat, tries: nat)
    requires groups != [] && cursor < TWO64
    ensures TakeTurn(q, groups, cursor, tries).served.Some? <==>
      exists d :: 0 <= d < tries && Get(q, TriedAt(groups, cursor, d)) != []
    ensures var t := TakeTurn(q, groups, cursor, tries); t.served.Some? ==> Get(q, t.served.value) != []
    decreases tries
  {
    hide GroupAt;
    if tries > 0 {
      assert Wrap(cursor) == cursor;
      assert TriedAt(groups, cursor, 0) == GroupAt(groups, cursor);
      var next := Wrap(cursor + 1);
      forall d: nat ensures TriedAt(groups, next, d) == TriedAt(groups, cursor, d + 1) {
        WrapPlus(cursor + 1, d);
      }
      TurnTries(q, groups, next, tries - 1);
      hide TriedAt, Wrap;
      if d :| 0 <= d < tries && Get(q, TriedAt(groups, cursor, d)) != [] && Get(q, GroupAt(groups, cursor)) == [] {
        assert TriedAt(groups, next, d - 1) == TriedAt(groups, cursor, d);
      }
    }
  }

  function TriedAt(groups: seq<string>, cursor: nat, d: nat): string
    requires groups != []
  {
    GroupAt(groups, Wrap(cursor + d))
  }

  /** A round from this cursor stands for every group: it does not wrap, or the number of groups
      divides 2^64. */
  predicate WholeRound(cursor: nat, n: nat)
    requires n > 0
  {
    cursor + n <= TWO64 || TWO64 % n == 0
  }

  lemma ModShift(x: nat, n: nat, k: nat)
    requires n > 0
    ensures (x + n * k) % n == x % n
  {
    assert x + n * k == n * (x / n + k) + x % n;
    ModOfMultiple(x / n + k, n, x % n);
  }

  lemma WholeRoundVisits(cursor: nat, n: nat, j: nat) returns (d: nat)
    requires n > 0 && j < n && cursor < TWO64 && WholeRound(cursor, n)
    ensures d < n && Wrap(cursor + d) % n == j
  {
    var v := Residue(cursor, n, j);
    d := v - cursor;
    if v >= TWO64 {
      assert TWO64 == n * (TWO64 / n);
      assert n <= TWO64;
      assert Wrap(v) == v - TWO64;
      ModShift(v - TWO64, n, TWO64 / n);
    }
  }

  /** The index a wrapping round never stands for, when the number of groups does not divide 2^64. */
  function Missed(cursor: nat, n: nat): nat
    requires cursor < TWO64 && n > 0 && !WholeRound(cursor, n)
  {
    var k, r := TWO64 - cursor, TWO64 % n;
    if n > TWO64 then TWO64 else if r >= k then n - 1 else n - k + r - 1
  }

  lemma WrappingRoundMisses(cursor: nat, n: nat, d: nat)
    requires cursor < TWO64 && n > 0 && !WholeRound(cursor, n) && d < n
    ensures Missed(cursor, n) < n && Wrap(cursor + d) % n != Missed(cursor, n)
  {
    var k, r, m, v := TWO64 - cursor, TWO64 % n, TWO64 / n, Wrap(cursor + d);
    if n > TWO64 {
      ModOfMultiple(0, n, v);
    } else if d >= k {
      assert v == d - k;
      ModOfMultiple(0, n, v);
    } else {
      assert v == cursor + d;
      var i := TWO64 - 1 - v;
      assert TWO64 == n * m + r;
      if i < r {
        ModOfMultiple(m, n, r - 1 - i);
      } else {
        assert m >= 1;
        assert v == n * (m - 1) + (n + r - 1 - i);
        ModOfMultiple(m - 1, n, n + r - 1 - i);
      }
    }
  }

  /** A whole round tries a cursor value that stands for `g`. */
  lemma WholeRoundTries(groups: seq<string>, cursor: nat, g: string) returns (d: nat)
    requires g in groups && cursor < TWO64 && WholeRound(cursor, |groups|)
    ensures d < |groups| && TriedAt(groups, cursor, d) == g
  {
    var j :| 0 <= j < |groups| && groups[j] == g;
    d := WholeRoundVisits(cursor, |groups|, j);
  }

  /** One of the cursor values of the next round stands for a group with something queued. */
  ghost predicate RoundHits<T>(s: State<T>) {
    s.groups != [] && exists d :: 0 <= d < |s.groups| && Get(s.fifo.queues, TriedAt(s.groups, s.cursor, d)) != []
  }

  /** In round robin a dequeue returns a task exactly when the total is not zero and the round hits
      a group with something queued. */
  lemma TurnHits<T>(s: State<T>)
    requires Inv(s) && s.mode.RoundRobin?
    ensures DequeueOf(s).task.Some? <==> s.total != 0 && RoundHits(s)
  {
    hide GroupAt, TriedAt, Wrap;
    if s.groups != [] {
      TurnTries(s.fifo.queues, s.groups, s.cursor, |s.groups|);
    }
  }

  /** Where the round stands for every group, that is when the total is not zero and something is
      queued. */
  lemma TurnServes<T>(s: State<T>)
    requires Inv(s) && s.mode.RoundRobin? && (s.groups != [] ==> WholeRound(s.cursor, |s.groups|))
    ensures DequeueOf(s).task.Some? <==> s.total != 0 && AnyQueued(s.fifo.queues)
  {
    hide GroupAt, TriedAt, WholeRound, Wrap, DequeueOf;
    TurnHits(s);
    var q, groups := s.fifo.queues, s.groups;
    if g :| g in q && q[g] != [] {
      assert g in groups;
      var d := WholeRoundTries(groups, s.cursor, g);
    }
  }

  /** The state ends a run without a clear in round robin mode, with these groups and this cursor,
      something queued and a total that is not zero. */
  ghost predicate HasWork<T(!new)>(s: State<T>, groups: seq<string>, cursor: nat) {
    && Arises(s) && s.mode.RoundRobin? && s.groups == groups && s.cursor == cursor
    && s.total != 0 && AnyQueued(s.fifo.queues)
  }

  /** Where the round does not stand for every group, a run leads to a state in which the only task
      is in a missed group and is not found. */
  lemma WrapMisses<T(!new)>(groups: seq<string>, cursor: nat, e: Entry<T>) returns (s: State<T>)
    requires groups != [] && NoDup(groups) && cursor < TWO64 && !WholeRound(cursor, |groups|)
    ensures HasWork(s, groups, cursor) && DequeueOf(s).task.None?
  {
    var n := |groups|;
    WrappingRoundMisses(cursor, n, 0);
    var g := groups[Missed(cursor, n)];
    s := AnyTurn(groups, cursor, g, e);
    var q := s.fifo.queues;
    assert g in q && q[g] != [];
    forall d: nat | d < n ensures Get(q, TriedAt(groups, cursor, d)) == [] {
      WrappingRoundMisses(cursor, n, d);
    }
    hide Arises, WholeRound, Missed, TriedAt;
    TurnTries(q, groups, cursor, n);
  }

  /** In the states that runs reach with these groups and this cursor, a dequeue finds a task
      whenever there is one exactly when the round does not wrap or the number of groups divides
      2^64. */
  lemma RoundServesExactlyWhen<T(!new)>(groups: seq<string>, cursor: nat, e: Entry<T>)
    requires groups != [] && NoDup(groups) && cursor < TWO64
    ensures (forall s: State<T> :: HasWork(s, groups, cursor) ==> DequeueOf(s).task.Some?)
      <==> WholeRound(cursor, |groups|)
  {
    hide Arises, DequeueOf, WholeRound;
    if WholeRound(cursor, |groups|) {
      forall s: State<T> | HasWork(s, groups, cursor) ensures DequeueOf(s).task.Some? {
        ArisesInv(s);
        TurnServes(s);
      }
    } else {
      var s := WrapMisses(groups, cursor, e);
    }
  }

  // ----- Peek

  /** The first of the cursor values tried that stands for a group with something queued. */
  ghost predicate FirstTry<T>(q: Queues<T>, groups: seq<string>, cursor: nat, tries: nat, d: nat)
    requires groups != []
  {
    && d < tries && Get(q, TriedAt(groups, cursor, d)) != []
    && forall k :: 0 <= k < d ==> Get(q, TriedAt(groups, cursor, k)) == []
  }

  /** The turn goes to the first group with something queued at or after the cursor, and leaves the
      cursor just behind it, wrap-around included. */
  lemma {:induction false} FirstTryServes<T>(q: Queues<T>, groups: seq<string>, cursor: nat, tries: nat, d: nat)
    requires groups != [] && cursor < TWO64 && FirstTry(q, groups, cursor, tries, d)
    ensures TakeTurn(q, groups, cursor, tries) == Turn(Wrap(cursor + d + 1), Some(TriedAt(groups, cursor, d)))
    decreases tries
  {
    hide GroupAt;
    assert Wrap(cursor) == cursor;
    WrapPlus(cursor + 1, d);
    assert TriedAt(groups, cursor, 0) == GroupAt(groups, cursor);
    if d > 0 {
      var next := Wrap(cursor + 1);
      forall k: nat ensures TriedAt(groups, next, k) == TriedAt(groups, cursor, k + 1) {
        WrapPlus(cursor + 1, k);
      }
      hide TriedAt, Wrap;
      forall k | 0 <= k < d - 1 ensures Get(q, TriedAt(groups, next, k)) == [] {
        assert TriedAt(groups, next, k) == TriedAt(groups, cursor, k + 1);
      }
      FirstTryServes(q, groups, next, tries - 1, d - 1);
    }
  }

  lemma {:induction false} FirstTryExists<T>(q: Queues<T>, groups: seq<string>, cursor: nat, tries: nat, d: nat)
      returns (k: nat)
    requires groups != [] && d < tries && Get(q, TriedAt(groups, cursor, d)) != []
    ensures FirstTry(q, groups, cursor, tries, k)
  {
    if j :| 0 <= j < d && Get(q, TriedAt(groups, cursor, j)) != [] {
      k := FirstTryExists(q, groups, cursor, tries, j);
    } else {
      k := d;
    }
  }

  /** The first group with work that the turn tries has the same task in front as the first group
      with work in traversal order. */
  ghost predicate SameFront<T>(q: Queues<T>, order: seq<string>, groups: seq<string>, cursor: nat)
    requires groups != []
  {
    var g := FirstNonEmpty(q, order);
    g.Some? && exists d :: FirstTry(q, groups, cursor, |groups|, d)
                           && FrontOf(q, TriedAt(groups, cursor, d)) == FrontOf(q, g.value)
  }

  /** What the turn's dequeue does, in terms of the first try. */
  lemma TurnOutcome<T>(s: State<T>, d: nat)
    requires Inv(s) && s.mode.RoundRobin? && s.total != 0 && s.groups != []
    requires FirstTry(s.fifo.queues, s.groups, s.cursor, |s.groups|, d)
    ensures var out, g := DequeueOf(s), TriedAt(s.groups, s.cursor, d);
      && out.served == Some(g) && out.task == FrontOf(s.fifo.queues, g)
      && out.state.cursor == Wrap(s.cursor + d + 1)
  {
    FirstTryServes(s.fifo.queues, s.groups, s.cursor, |s.groups|, d);
    hide TriedAt, TakeTurn, Inv;
  }

  /** By index: the dequeue serves the first group with something queued among those that the cursor
      values from the present one on stand for, and leaves the cursor just behind it. */
  lemma TurnByIndex<T>(s: State<T>, d: nat)
    requires Inv(s) && s.mode.RoundRobin? && s.total != 0 && d < |s.groups|
    requires Get(s.fifo.queues, s.groups[Wrap(s.cursor + d) % |s.groups|]) != []
    requires forall v: nat :: s.cursor <= v < s.cursor + d ==> Get(s.fifo.queues, s.groups[Wrap(v) % |s.groups|]) == []
    ensures var out, g := DequeueOf(s), s.groups[Wrap(s.cursor + d) % |s.groups|];
      && out.served == Some(g) && out.task == Some(Get(s.fifo.queues, g)[0])
      && out.state.cursor == Wrap(s.cursor + d + 1)
  {
    forall k | 0 <= k < d ensures Get(s.fifo.queues, TriedAt(s.groups, s.cursor, k)) == [] {
      var v: nat := s.cursor + k;
      assert Get(s.fifo.queues, s.groups[Wrap(v) % |s.groups|]) == [];
    }
    hide Inv, DequeueOf;
    TurnOutcome(s, d);
  }

  lemma {:induction false} TurnRunsOut<T>(q: Queues<T>, groups: seq<string>, cursor: nat, tries: nat)
    requires groups != [] && cursor < TWO64
    requires forall d :: 0 <= d < tries ==> Get(q, TriedAt(groups, cursor, d)) == []
    ensures TakeTurn(q, groups, cursor, tries) == Turn(Wrap(cursor + tries), None)
    decreases tries
  {
    hide GroupAt;
    assert Wrap(cursor) == cursor;
    if tries > 0 {
      assert TriedAt(groups, cursor, 0) == GroupAt(groups, cursor);
      var next := Wrap(cursor + 1);
      forall k: nat ensures TriedAt(groups, next, k) == TriedAt(groups, cursor, k + 1) {
        WrapPlus(cursor + 1, k);
      }
      WrapPlus(cursor + 1, tries - 1);
      hide TriedAt, Wrap;
      forall k | 0 <= k < tries - 1 ensures Get(q, TriedAt(groups, next, k)) == [] {
        assert TriedAt(groups, next, k) == TriedAt(groups, cursor, k + 1);
      }
      TurnRunsOut(q, groups, next, tries - 1);
    }
  }

  /** A round that finds nothing moves the cursor by a whole round and changes nothing else. */
  lemma TurnMisses<T>(s: State<T>)
    requires Inv(s) && s.mode.RoundRobin? && s.total != 0 && s.groups != []
    requires forall v: nat :: s.cursor <= v < s.cursor + |s.groups| ==>
      Get(s.fifo.queues, s.groups[Wrap(v) % |s.groups|]) == []
    ensures DequeueOf(s) == Outcome(s.(cursor := Wrap(s.cursor + |s.groups|)), None, None)
  {
    var n := |s.groups|;
    forall k | 0 <= k < n ensures Get(s.fifo.queues, TriedAt(s.groups, s.cursor, k)) == [] {
      var v: nat := s.cursor + k;
      assert Get(s.fifo.queues, s.groups[Wrap(v) % |s.groups|]) == [];
    }
    TurnRunsOut(s.fifo.queues, s.groups, s.cursor, n);
    hide TriedAt, TakeTurn, Inv, Wrap;
  }

  /** In round robin peek looks in traversal order and dequeue goes by the cursor: they agree exactly
      when nothing is queued, or the total is not zero and both come upon the same task first. */
  lemma PeekForetellsTurn<T>(s: State<T>)
    requires Inv(s) && s.mode.RoundRobin?
    ensures PeekOf(s) == DequeueOf(s).task <==>
      || !AnyQueued(s.fifo.queues)
      || (s.total != 0 && s.groups != [] && SameFront(s.fifo.queues, s.fifo.order, s.groups, s.cursor))
  {
    var q, order, groups := s.fifo.queues, s.fifo.order, s.groups;
    FirstNonEmptyFinds(q, order);
    forall g ensures g in order <==> g in q {
      assert g in Elems(order) <==> g in order;
    }
    if AnyQueued(q) {
      var g := FirstNonEmpty(q, order).value;
      assert g in groups && PeekOf(s) == FrontOf(q, g);
      if s.total != 0 {
        TurnTries(q, groups, s.cursor, |groups|);
        hide TriedAt, Inv, TakeTurn, FirstNonEmpty;
        if k :| 0 <= k < |groups| && Get(q, TriedAt(groups, s.cursor, k)) != [] {
          var d := FirstTryExists(q, groups, s.cursor, |groups|, k);
          TurnOutcome(s, d);
          forall d' | FirstTry(q, groups, s.cursor, |groups|, d') ensures d' == d {}
        }
      }
    } else if groups != [] {
      TurnTries(q, groups, s.cursor, |groups|);
      hide TriedAt, Inv;
    }
  }

  // ----- Fairness

  /** A stretch of a run in round robin mode during which the groups do not change, a wrap of the
      cursor does not disturb the rotation, and group `g` always has something queued. */
  ghost predicate Waiting<T>(ops: seq<Op<T>>, states: seq<State<T>>, g: string) {
    && |states| == |ops| + 1
    && (forall i, j :: 0 <= i && j == i + 1 && j < |states| ==> Step(states[i], ops[i], states[j]))
    && (forall i :: 0 <= i < |states| ==> WaitingState(states[i], states[0].groups, g))
  }

  ghost predicate WaitingState<T>(s: State<T>, groups: seq<string>, g: string) {
    && Inv(s) && s.mode.RoundRobin? && s.groups == groups && Get(s.fifo.queues, g) != []
    && (groups != [] ==> Steady(s.cursor, |groups|))
  }

  /** The next round does not wrap, or the number of groups divides 2^64. */
  predicate Steady(cursor: nat, n: nat)
    requires n > 0
  {
    cursor + n < TWO64 || TWO64 % n == 0
  }

  /** The cursor as it would be without its width, as far as the rotation can tell. */
  predicate StandsFor(v: nat, cursor: nat, n: nat)
    requires n > 0
  {
    Wrap(v) == cursor && (TWO64 % n == 0 || v == cursor)
  }

  lemma WrapKeepsIndex(x: nat, n: nat)
    requires n > 0 && TWO64 % n == 0
    ensures Wrap(x) % n == x % n
  {
    var k, m := x / TWO64, TWO64 / n;
    assert TWO64 == n * m;
    assert x == Wrap(x) + TWO64 * k;
    assert TWO64 * k == n * (m * k);
    ModShift(Wrap(x), n, m * k);
  }

  lemma TriedIs(groups: seq<string>, cursor: nat, v: nat, d: nat)
    requires groups != [] && cursor < TWO64 && d < |groups|
    requires Steady(cursor, |groups|) && StandsFor(v, cursor, |groups|)
    ensures TriedAt(groups, cursor, d) == GroupAt(groups, v + d)
  {
    WrapPlus(v, d);
    if TWO64 % |groups| == 0 {
      WrapKeepsIndex(v + d, |groups|);
      hide Wrap, Steady;
    } else {
      assert Wrap(cursor + d) == cursor + d;
      hide Wrap;
    }
  }

  lemma StandsAfter(cursor: nat, v: nat, n: nat, d: nat)
    requires n > 0 && cursor < TWO64 && Steady(cursor, n) && StandsFor(v, cursor, n) && d < n
    ensures StandsFor(v + d + 1, Wrap(cursor + d + 1), n)
  {
    WrapPlus(v, d + 1);
    if TWO64 % n != 0 {
      assert Wrap(cursor + d + 1) == cursor + d + 1;
    }
    hide Wrap;
  }

  /** The group served by each step, where it is a successful dequeue. */
  function Served<T>(ops: seq<Op<T>>, states: seq<State<T>>): seq<Option<string>>
    requires |states| == |ops| + 1
  {
    seq(|ops|, i requires 0 <= i < |ops| => if ops[i].Dequeue? then DequeueOf(states[i]).served else None)
  }

  function CountServed(served: seq<Option<string>>): nat {
    if served == [] then 0 else CountServed(served[..|served| - 1]) + if served[|served| - 1].Some? then 1 else 0
  }

  /** One step of the stretch, as far as the cursor is concerned. */
  ghost predicate CursorStep(groups: seq<string>, g: string, c: nat, c': nat, served: Option<string>)
    requires groups != []
  {
    && (served.None? ==> c' == c)
    && (served.Some? ==> c < c' && served.value == GroupAt(groups, c' - 1))
    && (served != Some(g) ==> forall v :: c <= v < c' ==> GroupAt(groups, v) != g)
  }

  ghost predicate CursorTrace(groups: seq<string>, g: string, cursors: seq<nat>, served: seq<Option<string>>)
    requires groups != []
  {
    && |cursors| == |served| + 1
    && forall i, j :: 0 <= i && j == i + 1 && j < |cursors| ==> CursorStep(groups, g, cursors[i], cursors[j], served[i])
  }

  lemma TurnCursorStep<T>(s: State<T>, g: string, v: nat) returns (v': nat)
    requires WaitingState(s, s.groups, g) && s.total != 0 && s.groups != [] && StandsFor(v, s.cursor, |s.groups|)
    ensures CursorStep(s.groups, g, v, v', DequeueOf(s).served)
    ensures StandsFor(v', DequeueOf(s).state.cursor, |s.groups|)
  {
    var q, groups, cursor := s.fifo.queues, s.groups, s.cursor;
    assert g in groups && cursor < TWO64;
    assert WholeRound(cursor, |groups|);
    hide Inv, TriedAt, GroupAt, DequeueOf, Steady, StandsFor, WholeRound, Wrap;
    var k := WholeRoundTries(groups, cursor, g);
    var d := FirstTryExists(q, groups, cursor, |groups|, k);
    TurnOutcome(s, d);
    forall j: nat | j <= d ensures TriedAt(groups, cursor, j) == GroupAt(groups, v + j) {
      TriedIs(groups, cursor, v, j);
    }
    StandsAfter(cursor, v, |groups|, d);
    v' := v + d + 1;
    forall x | v <= x < v' && DequeueOf(s).served != Some(g) ensures GroupAt(groups, x) != g {
      assert TriedAt(groups, cursor, x - v) == GroupAt(groups, v + (x - v));
    }
  }

  lemma StepCursor<T>(s: State<T>, op: Op<T>, s': State<T>, g: string, v: nat) returns (v': nat)
    requires Step(s, op, s') && WaitingState(s, s.groups, g) && WaitingState(s', s.groups, g)
    requires s.groups != [] && StandsFor(v, s.cursor, |s.groups|)
    ensures CursorStep(s.groups, g, v, v', if op.Dequeue? then DequeueOf(s).served else None)
    ensures StandsFor(v', s'.cursor, |s.groups|)
  {
    if op.Dequeue? && s.total != 0 {
      v' := TurnCursorStep(s, g, v);
      hide CursorStep, StandsFor;
    } else {
      v' := v;
      hide StandsFor, Inv;
    }
  }

  lemma WaitingPrefix<T>(ops: seq<Op<T>>, states: seq<State<T>>, g: string)
    requires Waiting(ops, states, g) && ops != []
    ensures var n, groups := |ops| - 1, states[0].groups;
      && Waiting(ops[..n], states[..n + 1], g) && Step(states[n], ops[n], states[n + 1])
      && WaitingState(states[n], groups, g) && WaitingState(states[n + 1], groups, g)
  {
    hide Step, WaitingState;
    var n := |ops| - 1;
    var ops', states' := ops[..n], states[..n + 1];
    forall i, j | 0 <= i && j == i + 1 && j < |states'| ensures Step(states'[i], ops'[i], states'[j]) {
      assert states'[i] == states[i] && states'[j] == states[j] && ops'[i] == ops[i];
    }
    forall i | 0 <= i < |states'| ensures WaitingState(states'[i], states[0].groups, g) {
      assert states'[i] == states[i];
    }
  }

  lemma WaitingStart<T>(ops: seq<Op<T>>, states: seq<State<T>>, g: string)
    requires Waiting(ops, states, g)
    ensures var s := states[0]; NoDup(s.groups) && g in s.groups && StandsFor(s.cursor, s.cursor, |s.groups|)
  {
    var s := states[0];
    assert WaitingState(s, s.groups, g);
    assert g in s.fifo.queues;
    assert Wrap(s.cursor) == s.cursor;
  }

  /** The cursors of the stretch without their width. */
  lemma {:induction false} WidthlessCursors<T>(ops: seq<Op<T>>, states: seq<State<T>>, g: string)
      returns (vs: seq<nat>)
    requires Waiting(ops, states, g)
    ensures |states| == |ops| + 1 && g in states[0].groups
    ensures CursorTrace(states[0].groups, g, vs, Served(ops, states))
    ensures |vs| == |ops| + 1 && StandsFor(vs[|ops|], states[|ops|].cursor, |states[0].groups|)
  {
    var n := |ops|;
    WaitingStart(ops, states, g);
    if n == 0 {
      vs := [states[0].cursor];
    } else {
      assert states[..n][n - 1] == states[n - 1];
      hide Step, WaitingState, CursorStep, DequeueOf, StandsFor, CursorTrace, Served;
      WaitingPrefix(ops, states, g);
      hide Waiting;
      var init := WidthlessCursors(ops[..n - 1], states[..n], g);
      var v := StepCursor(states[n - 1], ops[n - 1], states[n], g, init[n - 1]);
      vs := init + [v];
      ServedAt(ops, states, n - 1);
      TraceSnoc(ops, states, g, init, v);
    }
  }

  lemma ServedAt<T>(ops: seq<Op<T>>, states: seq<State<T>>, i: nat)
    requires |states| == |ops| + 1 && i < |ops|
    ensures |Served(ops, states)| == |ops|
    ensures Served(ops, states)[i] == if ops[i].Dequeue? then DequeueOf(states[i]).served else None
  {
  }

  lemma TraceSnoc<T>(ops: seq<Op<T>>, states: seq<State<T>>, g: string, init: seq<nat>, v: nat)
    requires ops != [] && |states| == |ops| + 1 && states[0].groups != []
    requires CursorTrace(states[0].groups, g, init, Served(ops[..|ops| - 1], states[..|ops|]))
    requires CursorStep(states[0].groups, g, init[|ops| - 1], v, Served(ops, states)[|ops| - 1])
    ensures CursorTrace(states[0].groups, g, init + [v], Served(ops, states))
  {
    hide CursorStep, DequeueOf;
    var vs, served := init + [v], Served(ops, states);
    var before := Served(ops[..|ops| - 1], states[..|ops|]);
    forall i, j | 0 <= i && j == i + 1 && j < |vs|
      ensures CursorStep(states[0].groups, g, vs[i], vs[j], served[i])
    {
      if j < |init| {
        assert before[i] == served[i];
      }
    }
  }

  lemma {:induction false} CursorGrows(groups: seq<string>, g: string, cursors: seq<nat>,
                                       served: seq<Option<string>>, i: nat, k: nat)
    requires groups != [] && CursorTrace(groups, g, cursors, served) && i <= k < |cursors|
    ensures cursors[i] <= cursors[k]
    decreases k
  {
    if i < k {
      assert CursorStep(groups, g, cursors[k - 1], cursors[k], served[k - 1]);
      CursorGrows(groups, g, cursors, served, i, k - 1);
    }
  }

  /** While `g` is passed over, the cursor does not cross it. */
  lemma {:induction false} CursorAvoids(groups: seq<string>, g: string, cursors: seq<nat>, served: seq<Option<string>>)
    requires groups != [] && CursorTrace(groups, g, cursors, served)
    requires forall i :: 0 <= i < |served| ==> served[i] != Some(g)
    ensures forall v :: cursors[0] <= v < cursors[|served|] ==> GroupAt(groups, v) != g
    ensures cursors[0] + CountServed(served) <= cursors[|served|]
    decreases |served|
  {
    var k := |served|;
    if k > 0 {
      assert CursorStep(groups, g, cursors[k - 1], cursors[k], served[k - 1]);
      assert CursorTrace(groups, g, cursors[..k], served[..k - 1]);
      CursorAvoids(groups, g, cursors[..k], served[..k - 1]);
    }
  }

  lemma ShortOfRound(groups: seq<string>, g: string, cursors: seq<nat>, served: seq<Option<string>>)
    requires g in groups && CursorTrace(groups, g, cursors, served)
    requires forall i :: 0 <= i < |served| ==> served[i] != Some(g)
    ensures cursors[|served|] - cursors[0] < |groups|
  {
    CursorAvoids(groups, g, cursors, served);
    var j :| 0 <= j < |groups| && groups[j] == g;
    var v := Residue(cursors[0], |groups|, j);
    assert GroupAt(groups, v) == g;
  }

  lemma ServedApart(groups: seq<string>, g: string, cursors: seq<nat>, served: seq<Option<string>>, i: nat, j: nat)
    requires groups != [] && NoDup(groups) && CursorTrace(groups, g, cursors, served) && i < j < |served|
    requires cursors[|served|] - cursors[0] < |groups| && served[i].Some? && served[j].Some?
    ensures served[i] != served[j]
  {
    CursorGrows(groups, g, cursors, served, 0, i);
    CursorGrows(groups, g, cursors, served, i + 1, j);
    CursorGrows(groups, g, cursors, served, j + 1, |served|);
    assert CursorStep(groups, g, cursors[i], cursors[i + 1], served[i]);
    assert CursorStep(groups, g, cursors[j], cursors[j + 1], served[j]);
    ModDistinct(cursors[i + 1] - 1, cursors[j + 1] - 1, |groups|);
  }

  lemma TraceFair(groups: seq<string>, g: string, cursors: seq<nat>, served: seq<Option<string>>)
    requires g in groups && NoDup(groups) && CursorTrace(groups, g, cursors, served)
    requires forall i :: 0 <= i < |served| ==> served[i] != Some(g)
    ensures CountServed(served) < |groups|
    ensures forall i, j :: 0 <= i < j < |served| && served[i].Some? ==> served[i] != served[j]
  {
    ShortOfRound(groups, g, cursors, served);
    CursorAvoids(groups, g, cursors, served);
    forall i, j | 0 <= i < j < |served| && served[i].Some? ensures served[i] != served[j] {
      if served[j].Some? {
        ServedApart(groups, g, cursors, served, i, j);
      }
    }
  }

  /** While a group with work is not served, fewer tasks than there are groups are handed out, and
      no other group gets two of them: it is served within one round. */
  lemma Fairness<T>(ops: seq<Op<T>>, states: seq<State<T>>, g: string)
    requires Waiting(ops, states, g)
    requires forall i :: 0 <= i < |ops| ==> Served(ops, states)[i] != Some(g)
    ensures CountServed(Served(ops, states)) < |states[0].groups|
    ensures forall i, j :: 0 <= i < j < |ops| && Served(ops, states)[i].Some? ==>
      Served(ops, states)[i] != Served(ops, states)[j]
  {
    var groups, served := states[0].groups, Served(ops, states);
    var cursors := WidthlessCursors(ops, states, g);
    WaitingStart(ops, states, g);
    hide Waiting, CursorTrace, NoDup, StandsFor;
    TraceFair(groups, g, cursors, served);
  }
}
