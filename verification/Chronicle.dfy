/** What each operation leaves alone, told over whole runs: mode, groups, cursor, counts and tables. */
module Chronicle {
  import opened Basics
  import opened Sequences
  import opened QueueModel

  // ----- The mode

  /** The mode last set, FIFO if none was. */
  function LastMode<T>(ops: seq<Op<T>>, i: nat): Mode
    requires i <= |ops|
  {
    if i == 0 then Fifo else if ops[i - 1].SetMode? then ops[i - 1].mode else LastMode(ops, i - 1)
  }

  /** In every run the mode is the one last set, clears notwithstanding. */
  lemma {:induction false} ModeRun<T>(ops: seq<Op<T>>, states: seq<State<T>>, i: nat)
    requires IsRun(ops, states) && i < |states|
    ensures states[i].mode == LastMode(ops, i)
  {
    hide IsRun, Step;
    RunLength(ops, states);
    if i > 0 {
      StepAt(ops, states, i - 1);
      ModeRun(ops, states, i - 1);
      ModeStep(states[i - 1], ops[i - 1], states[i]);
    }
  }

  lemma ModeStep<T>(s: State<T>, op: Op<T>, s': State<T>)
    requires Step(s, op, s')
    ensures s'.mode == if op.SetMode? then op.mode else s.mode
  {
    hide Choose, Refill, Drain, RemoveFront;
  }

  // ----- The groups

  predicate Names<T>(op: Op<T>, g: string) {
    op.Enqueue? && op.group == g
  }

  /** Among the first `i` operations `a` is named, and not after `b`. */
  ghost predicate NamedBefore<T>(ops: seq<Op<T>>, i: nat, a: string, b: string)
    requires i <= |ops|
  {
    exists k :: 0 <= k < i && Names(ops[k], a) && forall m :: 0 <= m <= k ==> !Names(ops[m], b)
  }

  ghost predicate Named<T>(ops: seq<Op<T>>, i: nat, g: string)
    requires i <= |ops|
  {
    exists k :: 0 <= k < i && Names(ops[k], g)
  }

  /** The groups are the names given, each once, in the order in which they first appeared. */
  ghost predicate ByName<T>(ops: seq<Op<T>>, i: nat, groups: seq<string>)
    requires i <= |ops|
  {
    && NoDup(groups) && (forall g :: g in groups <==> Named(ops, i, g))
    && forall a, b :: 0 <= a < b < |groups| ==> NamedBefore(ops, i, groups[a], groups[b])
  }

  lemma GroupsStep<T>(s: State<T>, op: Op<T>, s': State<T>)
    requires Step(s, op, s')
    ensures s'.groups == if op.Enqueue? && op.group !in s.groups then s.groups + [op.group] else s.groups
  {
  }

  /** In every run the groups are the names of the enqueues, each once, in the order in which they
      first appeared; nothing else adds, drops or moves one, clears included. */
  lemma {:induction false} GroupsRun<T>(ops: seq<Op<T>>, states: seq<State<T>>, i: nat)
    requires IsRun(ops, states) && i < |states|
    ensures ByName(ops, i, states[i].groups)
  {
    hide IsRun, Step;
    RunLength(ops, states);
    if i > 0 {
      StepAt(ops, states, i - 1);
      GroupsRun(ops, states, i - 1);
      GroupsStep(states[i - 1], ops[i - 1], states[i]);
      NamesGrow(ops, i, states[i - 1].groups, states[i].groups);
    }
  }

  lemma NamesGrow<T>(ops: seq<Op<T>>, i: nat, gs: seq<string>, gs': seq<string>)
    requires 0 < i <= |ops| && ByName(ops, i - 1, gs)
    requires gs' == if ops[i - 1].Enqueue? && ops[i - 1].group !in gs then gs + [ops[i - 1].group] else gs
    ensures ByName(ops, i, gs')
  {
    forall g ensures g in gs' <==> Named(ops, i, g) {
      assert g in gs <==> Named(ops, i - 1, g);
      assert Names(ops[i - 1], g) ==> Named(ops, i, g);
    }
    forall a, b | 0 <= a < b < |gs'| ensures NamedBefore(ops, i, gs'[a], gs'[b]) {
      if b < |gs| {
        assert NamedBefore(ops, i - 1, gs[a], gs[b]);
      } else {
        assert Named(ops, i - 1, gs[a]) && !Named(ops, i - 1, gs'[b]);
      }
    }
  }

  // ----- The cursor

  /** Only a dequeue in round robin with a total that is not zero moves the cursor. */
  lemma CursorStays<T>(s: State<T>, op: Op<T>, s': State<T>)
    requires Step(s, op, s') && !(op.Dequeue? && s.mode.RoundRobin? && s.total != 0)
    ensures s'.cursor == s.cursor
  {
  }

  lemma {:induction false} CursorRun<T>(ops: seq<Op<T>>, states: seq<State<T>>, i: nat, j: nat)
    requires IsRun(ops, states) && i <= j < |states|
    requires forall k :: i <= k < j ==> !(ops[k].Dequeue? && states[k].mode.RoundRobin? && states[k].total != 0)
    ensures states[j].cursor == states[i].cursor
    decreases j
  {
    if i < j {
      CursorRun(ops, states, i, j - 1);
      assert Step(states[j - 1], ops[j - 1], states[j]);
      CursorStays(states[j - 1], ops[j - 1], states[j]);
    }
  }

  // ----- The running counts

  datatype Counts = Counts(enqueued: nat, dequeued: nat, cancelled: nat, peeked: nat)

  function Counted<T>(c: Counts, s: State<T>, op: Op<T>): Counts {
    match op
    case Enqueue(_, _) => c.(enqueued := c.enqueued + 1)
    case Dequeue => if DequeueOf(s).task.Some? then c.(dequeued := c.dequeued + 1) else c
    case Cancel(hit) => if hit then c.(cancelled := c.cancelled + 1) else c
    case Peek => c.(peeked := c.peeked + 1)
    case _ => c
  }

  /** What has been done so far: enqueues, dequeues that returned a task, cancellations that
      succeeded, and peeks. */
  function Done<T>(ops: seq<Op<T>>, states: seq<State<T>>, i: nat): Counts
    requires i <= |ops| <= |states|
  {
    if i == 0 then Counts(0, 0, 0, 0) else Counted(Done(ops, states, i - 1), states[i - 1], ops[i - 1])
  }

  ghost predicate Shows<T>(s: State<T>, c: Counts) {
    && s.enqueued == Wrap(c.enqueued) && s.dequeued == Wrap(c.dequeued)
    && s.cancelled == Wrap(c.cancelled) && s.peeked == Wrap(c.peeked)
  }

  lemma CountsStep<T>(s: State<T>, op: Op<T>, s': State<T>, c: Counts)
    requires Step(s, op, s') && Shows(s, c)
    ensures Shows(s', Counted(c, s, op))
  {
    WrapPlus(c.enqueued, 1);
    WrapPlus(c.dequeued, 1);
    WrapPlus(c.cancelled, 1);
    WrapPlus(c.peeked, 1);
    hide Wrap, Choose, RemoveFront, Refill, Drain;
  }

  /** In every run the four running counts tell what has been done, modulo 2^64, clears and changes of
      mode notwithstanding. */
  lemma {:induction false} CountsRun<T>(ops: seq<Op<T>>, states: seq<State<T>>, i: nat)
    requires IsRun(ops, states) && i < |states|
    ensures Shows(states[i], Done(ops, states, i))
  {
    hide IsRun, Step;
    RunLength(ops, states);
    if i > 0 {
      StepAt(ops, states, i - 1);
      hide Shows, Counted, DequeueOf;
      CountsRun(ops, states, i - 1);
      CountsStep(states[i - 1], ops[i - 1], states[i], Done(ops, states, i - 1));
    }
  }

  // ----- The tables

  ghost function WithWork<T>(q: Queues<T>): set<string> {
    set g | g in q && q[g] != []
  }

  ghost predicate HasGroup<T>(all: seq<Tagged<T>>, g: string) {
    exists i :: 0 <= i < |all| && all[i].group == g
  }

  lemma HasGroupConcat<T>(a: seq<Tagged<T>>, b: seq<Tagged<T>>, g: string)
    ensures HasGroup(a + b, g) <==> HasGroup(a, g) || HasGroup(b, g)
  {
    if i :| 0 <= i < |a| && a[i].group == g {
      assert (a + b)[i].group == g;
    }
    if i :| 0 <= i < |b| && b[i].group == g {
      assert (a + b)[|a| + i].group == g;
    }
  }

  lemma {:induction false} RefillKeys<T>(mode: Mode, all: seq<Tagged<T>>, g: string)
    ensures g in Refill(mode, all) <==> HasGroup(all, g)
  {
    if all != [] {
      var n := |all| - 1;
      RefillKeys(mode, all[..n], g);
      HasGroupConcat(all[..n], [all[n]], g);
      assert all == all[..n] + [all[n]];
      assert HasGroup([all[n]], g) <==> all[n].group == g by {
        assert [all[n]][0] == all[n];
      }
    }
  }

  lemma {:induction false} DrainNames<T>(q: Queues<T>, order: seq<string>, g: string)
    ensures HasGroup(Drain(q, order), g) <==> g in order && Get(q, g) != []
  {
    if order != [] {
      var init, k := order[..|order| - 1], order[|order| - 1];
      assert order == init + [k];
      DrainNames(q, init, g);
      var tagged := Tag(k, Get(q, k));
      HasGroupConcat(Drain(q, init), tagged, g);
      assert HasGroup(tagged, g) <==> g == k && Get(q, k) != [] by {
        if g == k && Get(q, k) != [] {
          assert tagged[0].group == g;
        }
      }
    }
  }

  /** Which groups have a table entry, and when the traversal order may change: a clear empties every
      table, a change of mode keeps the groups with work, and otherwise only an enqueue under a new name
      adds an entry and may reorder the table. */
  lemma TableStep<T>(s: State<T>, op: Op<T>, s': State<T>)
    requires Inv(s) && Step(s, op, s')
    ensures op.Clear? ==> s'.fifo.queues == s'.lifo.queues == s'.prio.queues == map[]
    ensures op.SetMode? && op.mode != s.mode ==> Current(s').queues.Keys == WithWork(Current(s).queues)
    ensures !op.Clear? && !(op.SetMode? && op.mode != s.mode) ==>
      && Current(s').queues.Keys == Current(s).queues.Keys + (if op.Enqueue? then {op.group} else {})
      && (Current(s').queues.Keys == Current(s).queues.Keys ==> Current(s').order == Current(s).order)
  {
    var q, order := Current(s).queues, Current(s).order;
    match op
    case SetMode(mode) =>
      if mode != s.mode {
        SetModeTable(s, mode, s');
        hide SetModeStep;
      }
    case Dequeue =>
      DequeueTable(s);
      hide DequeueOf;
    case Enqueue(g, e) =>
      assert Current(s').queues.Keys == q.Keys + {g};
    case Clear =>
    case _ =>
  }

  lemma SetModeTable<T>(s: State<T>, mode: Mode, s': State<T>)
    requires Inv(s) && SetModeStep(s, mode, s') && mode != s.mode
    ensures Current(s').queues.Keys == WithWork(Current(s).queues)
  {
    var q, order := Current(s).queues, Current(s).order;
    forall g ensures g in Current(s').queues <==> g in WithWork(q) {
      RefillKeys(mode, Drain(q, order), g);
      DrainNames(q, order, g);
      assert g in Elems(order) <==> g in order;
    }
  }

  lemma DequeueTable<T>(s: State<T>)
    ensures var s' := DequeueOf(s).state;
      s'.mode == s.mode && Current(s').queues.Keys == Current(s).queues.Keys && Current(s').order == Current(s).order
  {
    hide Choose;
  }
}
