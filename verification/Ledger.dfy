/** The manager's counters against what is actually queued. */
module Ledger {
  import opened Basics
  import opened Sequences
  import opened PriorityOrder
  import opened QueueModel
  import opened Migration

  /** One slot for every queued entry. */
  ghost function Slots<T>(q: Queues<T>): set<(string, int)> {
    set g, i | g in q && 0 <= i < |q[g]| :: (g, i)
  }

  ghost function Row(g: string, n: nat): set<(string, int)> {
    set i | 0 <= i < n :: (g, i)
  }

  lemma {:induction false} RowSize(g: string, n: nat)
    ensures |Row(g, n)| == n
  {
    if n > 0 {
      RowSize(g, n - 1);
      assert Row(g, n) == Row(g, n - 1) + {(g, n - 1)};
    }
  }

  lemma SlotsSplit<T>(q: Queues<T>, g: string)
    ensures |Slots(q)| == |Slots(q - {g})| + |Get(q, g)|
  {
    RowSize(g, |Get(q, g)|);
    assert Slots(q - {g}) !! Row(g, |Get(q, g)|);
    assert Slots(q) == Slots(q - {g}) + Row(g, |Get(q, g)|);
  }

  /** Replacing one queue changes the number of slots by the difference in length. */
  lemma SlotsUpdate<T>(q: Queues<T>, g: string, r: seq<Entry<T>>)
    ensures |Slots(q[g := r])| == |Slots(q)| - |Get(q, g)| + |r|
  {
    SlotsSplit(q, g);
    SlotsSplit(q[g := r], g);
    assert q[g := r] - {g} == q - {g};
  }

  lemma SlotsByLength<T>(q: Queues<T>, q': Queues<T>)
    requires forall g :: |Get(q, g)| == |Get(q', g)|
    ensures Slots(q) == Slots(q')
  {
    forall x | x in Slots(q) ensures x in Slots(q') {
      assert |Get(q, x.0)| == |Get(q', x.0)|;
    }
    forall x | x in Slots(q') ensures x in Slots(q) {
      assert |Get(q, x.0)| == |Get(q', x.0)|;
    }
  }

  function SumLengths<T>(q: Queues<T>, order: seq<string>): nat {
    if order == [] then 0 else |Get(q, order[0])| + SumLengths(q, order[1..])
  }

  /** The slots count the summed lengths of all queues. */
  lemma {:induction false} SlotsAreLengths<T>(q: Queues<T>, order: seq<string>)
    requires IsOrder(order, q.Keys)
    ensures |Slots(q)| == SumLengths(q, order)
  {
    if order == [] {
      assert q.Keys == {};
      assert Slots(q) == {};
    } else {
      var g, rest := order[0], order[1..];
      assert g in Elems(order);
      assert g !in rest;
      ElemsCons(g, rest);
      assert order == [g] + rest;
      var q' := q - {g};
      assert Elems(rest) == q'.Keys;
      SlotsAreLengths(q', rest);
      SumFrame(q, q', rest);
      SlotsSplit(q, g);
    }
  }

  lemma {:induction false} SumFrame<T>(q: Queues<T>, q': Queues<T>, order: seq<string>)
    requires forall i :: 0 <= i < |order| ==> Get(q, order[i]) == Get(q', order[i])
    ensures SumLengths(q, order) == SumLengths(q', order)
  {
    if order != [] {
      SumFrame(q, q', order[1..]);
    }
  }

  /** The books since `b` balance, modulo the width of the counters: the total is what was enqueued
      less what was dequeued and cancelled, and the queues hold the total plus the cancelled tasks. */
  ghost predicate Balanced<T>(s: State<T>, b: State<T>) {
    && s.total == Wrap((s.enqueued - b.enqueued) - (s.dequeued - b.dequeued) - (s.cancelled - b.cancelled))
    && Wrap(|Slots(Current(s).queues)|) == Wrap(s.total + (s.cancelled - b.cancelled))
  }

  /** One more on both sides keeps the books balanced. */
  lemma CountUp(enqueued: int, rest: int, cancelled: int, total: int, slots: int)
    requires total == Wrap(enqueued + rest) && Wrap(slots) == Wrap(total + cancelled)
    ensures Wrap(total + 1) == Wrap(Wrap(enqueued + 1) + rest)
    ensures Wrap(slots + 1) == Wrap(Wrap(total + 1) + cancelled)
  {
    hide Wrap;
    WrapPlus(enqueued + rest, 1);
    WrapPlus(enqueued + 1, rest);
    WrapPlus(slots, 1);
    WrapPlus(total + cancelled, 1);
    WrapPlus(total + 1, cancelled);
  }

  /** One less on both sides keeps the books balanced. */
  lemma CountDown(dequeued: int, rest: int, cancelled: int, total: int, slots: int)
    requires total == Wrap(rest - dequeued) && Wrap(slots) == Wrap(total + cancelled)
    ensures Wrap(total - 1) == Wrap(rest - Wrap(dequeued + 1))
    ensures Wrap(slots - 1) == Wrap(Wrap(total - 1) + cancelled)
  {
    hide Wrap;
    WrapPlus(rest - dequeued, -1);
    WrapPlus(dequeued + 1, rest);
    WrapPlus(slots, -1);
    WrapPlus(total + cancelled, -1);
    WrapPlus(total - 1, cancelled);
  }

  /** Cancelling moves one task from the total to the cancelled ones. */
  lemma CountCancel(cancelled: int, rest: int, since: int, total: int, slots: int)
    requires total == Wrap(rest - cancelled) && Wrap(slots) == Wrap(total + (cancelled - since))
    ensures Wrap(total - 1) == Wrap(rest - Wrap(cancelled + 1))
    ensures Wrap(slots) == Wrap(Wrap(total - 1) + (Wrap(cancelled + 1) - since))
  {
    hide Wrap;
    WrapPlus(rest - cancelled, -1);
    WrapPlus(cancelled + 1, rest);
    WrapPlus(total - 1, Wrap(cancelled + 1) - since);
    WrapPlus(cancelled + 1, total - 1 - since);
  }

  lemma BalancedEnqueue<T>(s: State<T>, g: string, e: Entry<T>, s': State<T>, b: State<T>)
    requires Inv(s) && Balanced(s, b) && EnqueueStep(s, g, e, s')
    ensures Balanced(s', b)
  {
    var q := Current(s).queues;
    SlotsUpdate(q, g, Add(s.mode, Get(q, g), e));
    var rest: int := 0 - b.enqueued - (s.dequeued - b.dequeued) - (s.cancelled - b.cancelled);
    CountUp(s.enqueued, rest, s.cancelled - b.cancelled, s.total, |Slots(q)|);
    hide Wrap, Slots;
  }

  lemma BalancedDequeue<T>(s: State<T>, b: State<T>)
    requires Inv(s) && Balanced(s, b)
    ensures Balanced(DequeueOf(s).state, b)
  {
    hide Choose, Inv, Sorted;
    var out := DequeueOf(s);
    if out.served.Some? {
      var q, g := Current(s).queues, out.served.value;
      SlotsUpdate(q, g, q[g][1..]);
      var rest := (s.enqueued - b.enqueued) + b.dequeued - (s.cancelled - b.cancelled);
      CountDown(s.dequeued, rest, s.cancelled - b.cancelled, s.total, |Slots(q)|);
      hide Wrap, Slots;
    }
  }

  lemma SetModeCounts<T>(s: State<T>, mode: Mode, s': State<T>)
    requires SetModeStep(s, mode, s')
    ensures s'.total == s.total && s'.enqueued == s.enqueued && s'.dequeued == s.dequeued && s'.cancelled == s.cancelled
  {
  }

  lemma BalancedSetMode<T>(s: State<T>, mode: Mode, s': State<T>, b: State<T>)
    requires Inv(s) && Balanced(s, b) && SetModeStep(s, mode, s')
    ensures Balanced(s', b)
  {
    hide Inv, SetModeStep, Slots, Wrap;
    forall g ensures |Get(Current(s).queues, g)| == |Get(Current(s').queues, g)| {
      SetModeConserves(s, mode, s', g);
    }
    SetModeCounts(s, mode, s');
    SlotsByLength(Current(s).queues, Current(s').queues);
  }

  lemma BalancedStep<T>(s: State<T>, op: Op<T>, s': State<T>, b: State<T>)
    requires Inv(s) && Balanced(s, b) && Step(s, op, s')
    ensures Balanced(s', if op.Clear? then s' else b)
  {
    match op
    case Enqueue(g, e) => BalancedEnqueue(s, g, e, s', b);
    case Dequeue => BalancedDequeue(s, b);
    case Peek =>
    case Cancel(hit) =>
      var rest := (s.enqueued - b.enqueued) - (s.dequeued - b.dequeued) + b.cancelled;
      CountCancel(s.cancelled, rest, b.cancelled, s.total, |Slots(Current(s).queues)|);
      hide Wrap, Slots;
    case SetMode(mode) => BalancedSetMode(s, mode, s', b);
    case Clear => BalancedEmpty(s');
  }

  lemma BalancedEmpty<T>(s: State<T>)
    requires s.total == 0 && Current(s).queues == map[]
    ensures Balanced(s, s)
  {
    assert Slots<T>(map[]) == {};
  }

  lemma LengthsBalance<T>(s: State<T>, b: State<T>)
    requires Inv(s) && Balanced(s, b)
    ensures Wrap(SumLengths(Current(s).queues, Current(s).order)) == Wrap(s.total + (s.cancelled - b.cancelled))
  {
    SlotsAreLengths(Current(s).queues, Current(s).order);
  }

  /** Where the last clear among the first `i` operations left the run; the start without one. */
  function SinceClear<T>(ops: seq<Op<T>>, i: nat): (k: nat)
    requires i <= |ops|
    ensures k <= i
  {
    if i == 0 || ops[i - 1].Clear? then i else SinceClear(ops, i - 1)
  }

  /** In every run the books since the last clear balance, across mode changes. */
  lemma {:induction false} LedgerRun<T>(ops: seq<Op<T>>, states: seq<State<T>>, i: nat)
    requires IsRun(ops, states) && i < |states|
    ensures var s, b := states[i], states[SinceClear(ops, i)];
      && Balanced(s, b)
      && Wrap(SumLengths(Current(s).queues, Current(s).order)) == Wrap(s.total + (s.cancelled - b.cancelled))
  {
    hide Inv, Balanced, SumLengths, Wrap, Step;
    InvRun(ops, states, i);
    if i == 0 {
      BalancedEmpty(states[0]);
    } else {
      LedgerRun(ops, states, i - 1);
      InvRun(ops, states, i - 1);
      assert Step(states[i - 1], ops[i - 1], states[i]);
      BalancedStep(states[i - 1], ops[i - 1], states[i], states[SinceClear(ops, i - 1)]);
    }
    LengthsBalance(states[i], states[SinceClear(ops, i)]);
  }
}
