/** Runs in which a queued task does not come out, and when that happens. */
module Shortfalls {
  import opened Basics
  import opened Sequences
  import opened PriorityOrder
  import opened QueueModel
  import opened Serving
  import opened RoundRobin
  import opened Ledger

  ghost function Queued<T>(s: State<T>): nat {
    SumLengths(Current(s).queues, Current(s).order)
  }

  /** How many tasks have been cancelled since the last clear, as far as the counter tells. */
  ghost function Dropped<T>(ops: seq<Op<T>>, states: seq<State<T>>, i: nat): nat
    requires IsRun(ops, states) && i < |states|
  {
    Wrap(states[i].cancelled - states[SinceClear(ops, i)].cancelled)
  }

  /** In every run the total is zero exactly when, modulo 2^64, as many tasks are queued as have been
      cancelled since the last clear. */
  lemma ZeroTotalExactlyWhen<T>(ops: seq<Op<T>>, states: seq<State<T>>, i: nat)
    requires IsRun(ops, states) && i < |states|
    ensures states[i].total == 0 <==> Wrap(Queued(states[i])) == Dropped(ops, states, i)
  {
    hide *;
    RunLength(ops, states);
    TotalFits(ops, states, i);
    LedgerRun(ops, states, i);
    CountsAgree(ops, states, i);
    ZeroSum(states[i].total, states[i].cancelled - states[SinceClear(ops, i)].cancelled);
  }

  lemma CountsAgree<T>(ops: seq<Op<T>>, states: seq<State<T>>, i: nat)
    requires IsRun(ops, states) && i < |states|
    ensures var s := states[i]; Queued(s) == SumLengths(Current(s).queues, Current(s).order)
    ensures Dropped(ops, states, i) == Wrap(states[i].cancelled - states[SinceClear(ops, i)].cancelled)
  {
    hide IsRun, SumLengths, Wrap, SinceClear, Current;
    RunLength(ops, states);
  }

  lemma TotalFits<T>(ops: seq<Op<T>>, states: seq<State<T>>, i: nat)
    requires IsRun(ops, states) && i < |states|
    ensures states[i].total < TWO64
  {
    InvRun(ops, states, i);
  }

  lemma ZeroSum(total: nat, c: int)
    requires total < TWO64
    ensures Wrap(total + c) == Wrap(c) <==> total == 0
  {
  }

  /** Something is queued that the mode does not pass over. */
  ghost predicate Available<T>(s: State<T>) {
    match s.mode
    case Fifo => AnyQueued(s.fifo.queues)
    case Lifo => AnyQueued(s.lifo.queues)
    case RoundRobin => RoundHits(s)
    case Priority =>
      (exists g :: g in s.prio.queues && Candidate(s.prio.queues, g)) && !Wins(s.prio.queues, s.prio.order, "")
  }

  /** In every run a dequeue returns a task exactly when something is queued that the mode does not
      pass over and the number queued is not that of the tasks cancelled since the last clear. */
  lemma RunServesExactlyWhen<T>(ops: seq<Op<T>>, states: seq<State<T>>, i: nat)
    requires IsRun(ops, states) && i < |states|
    ensures DequeueOf(states[i]).task.Some? <==>
      Available(states[i]) && Wrap(Queued(states[i])) != Dropped(ops, states, i)
  {
    var s := states[i];
    ZeroTotalExactlyWhen(ops, states, i);
    InvRun(ops, states, i);
    hide IsRun, Inv, DequeueOf, Wins, Wrap, RoundHits, Candidate, Queued, Dropped;
    match s.mode
    case Fifo => ScanServes(s);
    case Lifo => ScanServes(s);
    case RoundRobin => TurnHits(s);
    case Priority => PriorityServes(s);
  }

  // ----- Small runs

  /** A family with one entry. */
  function Single<T>(g: string, e: Entry<T>): Family<T> {
    Family(map[g := [e]], [g])
  }

  /** The manager after one enqueue in a mode entered at the start. */
  function WithOne<T>(mode: Mode, g: string, e: Entry<T>): State<T> {
    WithCurrent(Init<T>().(mode := mode), Single(g, e)).(groups := [g], enqueued := 1, total := 1)
  }

  lemma EnterMode<T>(mode: Mode)
    ensures SetModeStep(Init<T>(), mode, Init<T>().(mode := mode))
  {
  }

  lemma FirstEntry<T>(mode: Mode, g: string, e: Entry<T>)
    ensures Added(EmptyFamily(), Single(g, e), mode, g, e)
  {
    assert Add(mode, [], e) == [e];
  }

  lemma FirstEnqueue<T>(mode: Mode, g: string, e: Entry<T>)
    ensures EnqueueStep(Init<T>().(mode := mode), g, e, WithOne(mode, g, e))
  {
    FirstEntry(mode, g, e);
    hide Added, Single;
  }

  /** The manager after two enqueues into one group. */
  function WithTwo<T>(g: string, e: Entry<T>, e': Entry<T>): State<T> {
    Init<T>().(fifo := Family(map[g := [e, e']], [g]), groups := [g], enqueued := 2, total := 2)
  }

  lemma SecondEnqueue<T>(g: string, e: Entry<T>, e': Entry<T>)
    ensures EnqueueStep(WithOne(Fifo, g, e), g, e', WithTwo(g, e, e'))
  {
    assert [e] + [e'] == [e, e'];
    assert map[g := [e, e']] == map[g := [e]][g := [e, e']];
  }

  /** One of two tasks cancelled, one out: the total is zero and the other task does not come out. */
  lemma OneLeft<T>(g: string, e: Entry<T>, e': Entry<T>)
    ensures var out := DequeueOf(CancelOf(WithTwo(g, e, e'), true));
      out.task == Some(e) && AnyQueued(out.state.fifo.queues) && DequeueOf(out.state).task.None?
  {
    var s := CancelOf(WithTwo(g, e, e'), true);
    assert FirstNonEmpty(s.fifo.queues, s.fifo.order) == Some(g);
    assert g in DequeueOf(s).state.fifo.queues;
  }

  /** The only task is in the group with the empty name: peek shows it, a dequeue does not return it. */
  lemma EmptyNameNotServed<T>(e: Entry<T>) returns (states: seq<State<T>>)
    requires e.priority > INT_MIN
    ensures IsRun([SetMode(Priority), Enqueue("", e)], states)
    ensures PeekOf(states[2]) == Some(e) && DequeueOf(states[2]).task.None? && states[2].total == 1
  {
    var s := WithOne(Priority, "", e);
    states := [Init(), Init<T>().(mode := Priority), s];
    EnterMode<T>(Priority);
    FirstEnqueue(Priority, "", e);
    hide EnqueueStep, SetModeStep;
    assert s.prio.order[1..] == [];
    assert Select(s.prio.queues, s.prio.order, NOBODY) == Choice("", e.priority);
  }

  /** In round robin peek can name a task of another group than the one whose turn it is. */
  lemma PeekMisleads<T>(e: Entry<T>, e': Entry<T>) returns (states: seq<State<T>>)
    ensures IsRun([SetMode(RoundRobin), Enqueue("a", e), Enqueue("b", e')], states)
    ensures PeekOf(states[3]) == Some(e') && DequeueOf(states[3]).task == Some(e)
  {
    var s3 := TwoGroups(e, e');
    states := [Init(), Init<T>().(mode := RoundRobin), WithOne(RoundRobin, "a", e), s3];
    EnterMode<T>(RoundRobin);
    FirstEnqueue(RoundRobin, "a", e);
    OtherGroup(e, e');
    CursorFirst(e, e');
    hide EnqueueStep, SetModeStep, WithOne, TwoGroups, PeekOf, DequeueOf;
  }

  function TwoGroups<T>(e: Entry<T>, e': Entry<T>): State<T> {
    Init<T>().(mode := RoundRobin, fifo := Family(map["a" := [e], "b" := [e']], ["b", "a"]),
               groups := ["a", "b"], enqueued := 2, total := 2)
  }

  lemma OtherGroup<T>(e: Entry<T>, e': Entry<T>)
    ensures EnqueueStep(WithOne(RoundRobin, "a", e), "b", e', TwoGroups(e, e'))
  {
    var q, q' := Single("a", e).queues, map["a" := [e], "b" := [e']];
    assert "a" != "b" && Get(q, "b") == [];
    assert [] + [e'] == [e'];
    assert q' == q["b" := [e']];
    assert Elems(["b", "a"]) == {"a", "b"} == q'.Keys;
  }

  lemma CursorFirst<T>(e: Entry<T>, e': Entry<T>)
    ensures PeekOf(TwoGroups(e, e')) == Some(e') && DequeueOf(TwoGroups(e, e')).task == Some(e)
  {
    assert GroupAt(["a", "b"], 0) == "a" && "a" != "b";
  }
}
