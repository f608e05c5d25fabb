/** The queue manager as a state machine: four disciplines over groups of tasks. */
module QueueModel {
  import opened Basics
  import opened Sequences
  import opened PriorityOrder

  datatype Mode = Fifo | Lifo | RoundRobin | Priority

  /** The queues of one family, each in removal order. */
  type Queues<T> = map<string, seq<Entry<T>>>

  /** A family of queues and the order in which its hash table is traversed, which is arbitrary
      but stays fixed as long as no key is added. */
  datatype Family<T> = Family(queues: Queues<T>, order: seq<string>)

  datatype State<T> = State(mode: Mode, fifo: Family<T>, lifo: Family<T>, prio: Family<T>,
                            groups: seq<string>, cursor: nat,
                            total: nat, enqueued: nat, dequeued: nat, cancelled: nat, peeked: nat)

  function EmptyFamily<T>(): Family<T> {
    Family(map[], [])
  }

  function Init<T>(): State<T> {
    State(Fifo, EmptyFamily(), EmptyFamily(), EmptyFamily(), [], 0, 0, 0, 0, 0, 0)
  }

  function Get<T>(q: Queues<T>, g: string): seq<Entry<T>> {
    if g in q then q[g] else []
  }

  /** The family that the current mode uses; FIFO and round robin share one. */
  function Current<T>(s: State<T>): Family<T> {
    match s.mode
    case Fifo => s.fifo
    case RoundRobin => s.fifo
    case Lifo => s.lifo
    case Priority => s.prio
  }

  function WithCurrent<T>(s: State<T>, f: Family<T>): State<T> {
    match s.mode
    case Fifo => s.(fifo := f)
    case RoundRobin => s.(fifo := f)
    case Lifo => s.(lifo := f)
    case Priority => s.(prio := f)
  }

  // ----- Enqueue

  /** Where the discipline puts a new entry. */
  function Add<T>(mode: Mode, q: seq<Entry<T>>, e: Entry<T>): seq<Entry<T>> {
    match mode
    case Fifo => q + [e]
    case RoundRobin => q + [e]
    case Lifo => [e] + q
    case Priority => Insert(q, e)
  }

  ghost predicate Added<T>(f: Family<T>, f': Family<T>, mode: Mode, g: string, e: Entry<T>) {
    && f'.queues == f.queues[g := Add(mode, Get(f.queues, g), e)]
    && IsOrder(f'.order, f'.queues.Keys)
    && (g in f.queues ==> f'.order == f.order)
  }

  ghost predicate EnqueueStep<T>(s: State<T>, g: string, e: Entry<T>, s': State<T>) {
    && Added(Current(s), Current(s'), s.mode, g, e)
    && s' == WithCurrent(s, Current(s')).(groups := if g in s.groups then s.groups else s.groups + [g],
                                          enqueued := Wrap(s.enqueued + 1), total := Wrap(s.total + 1))
  }

  // ----- Dequeue and peek

  /** The first group in traversal order that has something queued. */
  function FirstNonEmpty<T>(q: Queues<T>, order: seq<string>): Option<string> {
    if order == [] then None
    else if Get(q, order[0]) != [] then Some(order[0])
    else FirstNonEmpty(q, order[1..])
  }

  datatype Choice = Choice(group: string, priority: int)

  /** The scan for the highest front priority; ties keep the earlier group. */
  function Select<T>(q: Queues<T>, order: seq<string>, best: Choice): Choice {
    if order == [] then best else
      var f := Get(q, order[0]);
      Select(q, order[1..], if f != [] && f[0].priority > best.priority then Choice(order[0], f[0].priority) else best)
  }

  const NOBODY := Choice("", INT_MIN)

  datatype Turn = Turn(cursor: nat, served: Option<string>)

  function GroupAt(groups: seq<string>, cursor: nat): string
    requires groups != []
  {
    groups[cursor % |groups|]
  }

  /** At most `tries` advances of the cursor, until a group with something queued comes up. */
  function TakeTurn<T>(q: Queues<T>, groups: seq<string>, cursor: nat, tries: nat): Turn
    requires tries > 0 ==> groups != []
    decreases tries
  {
    if tries == 0 then Turn(cursor, None) else
      var g := GroupAt(groups, cursor);
      var next := Wrap(cursor + 1);
      if Get(q, g) != [] then Turn(next, Some(g)) else TakeTurn(q, groups, next, tries - 1)
  }

  /** The group that the next dequeue serves, and the cursor it leaves. */
  function Choose<T>(s: State<T>): Turn {
    match s.mode
    case Fifo => Turn(s.cursor, FirstNonEmpty(s.fifo.queues, s.fifo.order))
    case Lifo => Turn(s.cursor, FirstNonEmpty(s.lifo.queues, s.lifo.order))
    case RoundRobin => TakeTurn(s.fifo.queues, s.groups, s.cursor, |s.groups|)
    case Priority =>
      var c := Select(s.prio.queues, s.prio.order, NOBODY);
      Turn(s.cursor, if c.group == "" || Get(s.prio.queues, c.group) == [] then None else Some(c.group))
  }

  datatype Outcome<T> = Outcome(state: State<T>, served: Option<string>, task: Option<Entry<T>>)

  function RemoveFront<T>(f: Family<T>, g: string): Family<T>
    requires Get(f.queues, g) != []
  {
    Family(f.queues[g := f.queues[g][1..]], f.order)
  }

  function DequeueOf<T>(s: State<T>): Outcome<T> {
    if s.total == 0 then Outcome(s, None, None) else
      var turn := Choose(s);
      var s1 := s.(cursor := turn.cursor);
      if turn.served.None? || Get(Current(s).queues, turn.served.value) == [] then Outcome(s1, None, None) else
        var g := turn.served.value;
        var s2 := WithCurrent(s1, RemoveFront(Current(s), g));
        Outcome(s2.(dequeued := Wrap(s.dequeued + 1), total := Wrap(s.total - 1)),
                Some(g), Some(Get(Current(s).queues, g)[0]))
  }

  function FrontOf<T>(q: Queues<T>, g: string): Option<Entry<T>> {
    if Get(q, g) == [] then None else Some(Get(q, g)[0])
  }

  function PeekOf<T>(s: State<T>): Option<Entry<T>> {
    match s.mode
    case Priority =>
      var c := Select(s.prio.queues, s.prio.order, NOBODY);
      if c == NOBODY then None else FrontOf(s.prio.queues, c.group)
    case _ =>
      var g := FirstNonEmpty(Current(s).queues, Current(s).order);
      if g.None? then None else FrontOf(Current(s).queues, g.value)
  }

  // ----- Cancel, clear, change of mode

  /** Cancelling uncounts a task but leaves it queued. */
  function CancelOf<T>(s: State<T>, hit: bool): State<T> {
    if hit then s.(cancelled := Wrap(s.cancelled + 1), total := Wrap(s.total - 1)) else s
  }

  function NoQueues<T>(s: State<T>): State<T> {
    s.(fifo := EmptyFamily(), lifo := EmptyFamily(), prio := EmptyFamily())
  }

  function ClearOf<T>(s: State<T>): State<T> {
    NoQueues(s).(total := 0)
  }

  datatype Tagged<T> = Tagged(group: string, entry: Entry<T>)

  function Tag<T>(g: string, q: seq<Entry<T>>): seq<Tagged<T>> {
    seq(|q|, i requires 0 <= i < |q| => Tagged(g, q[i]))
  }

  /** Everything queued, group after group in traversal order, each group in removal order. */
  function Drain<T>(q: Queues<T>, order: seq<string>): seq<Tagged<T>> {
    if order == [] then [] else Drain(q, order[..|order| - 1]) + Tag(order[|order| - 1], Get(q, order[|order| - 1]))
  }

  /** Queues filled from nothing under the given discipline. */
  function Refill<T>(mode: Mode, all: seq<Tagged<T>>): Queues<T> {
    if all == [] then map[] else
      var q, x := Refill(mode, all[..|all| - 1]), all[|all| - 1];
      q[x.group := Add(mode, Get(q, x.group), x.entry)]
  }

  ghost predicate SetModeStep<T>(s: State<T>, mode: Mode, s': State<T>) {
    if mode == s.mode then s' == s else
      && Current(s').queues == Refill(mode, Drain(Current(s).queues, Current(s).order))
      && IsOrder(Current(s').order, Current(s').queues.Keys)
      && s' == WithCurrent(NoQueues(s).(mode := mode), Current(s'))
  }

  // ----- Runs

  datatype Op<T> =
    | Enqueue(group: string, entry: Entry<T>)
    | Dequeue
    | Peek
    | Cancel(hit: bool)
    | SetMode(mode: Mode)
    | Clear

  ghost predicate Step<T>(s: State<T>, op: Op<T>, s': State<T>) {
    match op
    case Enqueue(g, e) => EnqueueStep(s, g, e, s')
    case Dequeue => s' == DequeueOf(s).state
    case Peek => s' == s.(peeked := Wrap(s.peeked + 1))
    case Cancel(hit) => s' == CancelOf(s, hit)
    case SetMode(mode) => SetModeStep(s, mode, s')
    case Clear => s' == ClearOf(s)
  }

  ghost predicate IsRun<T>(ops: seq<Op<T>>, states: seq<State<T>>) {
    && |states| == |ops| + 1 && states[0] == Init()
    && forall i, j :: 0 <= i && j == i + 1 && j < |states| ==> Step(states[i], ops[i], states[j])
  }

  lemma RunLength<T>(ops: seq<Op<T>>, states: seq<State<T>>)
    requires IsRun(ops, states)
    ensures |states| == |ops| + 1 && states[0] == Init()
  {
    hide Step, Init;
  }

  lemma StepAt<T>(ops: seq<Op<T>>, states: seq<State<T>>, i: nat)
    requires IsRun(ops, states) && i < |ops|
    ensures |states| == |ops| + 1 && Step(states[i], ops[i], states[i + 1])
  {
    hide Step;
  }

  // ----- The invariant

  ghost predicate FamilyOk<T>(f: Family<T>, groups: seq<string>) {
    IsOrder(f.order, f.queues.Keys) && forall g :: g in f.queues ==> g in groups
  }

  /** Only the current family has queues at all, every queue belongs to a known group, and in
      priority mode every queue is sorted. */
  ghost predicate Inv<T>(s: State<T>) {
    && NoDup(s.groups) && FamilyOk(Current(s), s.groups)
    && s == WithCurrent(NoQueues(s), Current(s))
    && (s.mode.Priority? ==> forall g :: g in s.prio.queues ==> Sorted(s.prio.queues[g]))
    && s.total < TWO64 && s.cursor < TWO64 && s.cancelled < TWO64
  }

  lemma InvEnqueue<T>(s: State<T>, g: string, e: Entry<T>, s': State<T>)
    requires Inv(s) && EnqueueStep(s, g, e, s')
    ensures Inv(s')
  {
    if s.mode.Priority? {
      InsertSorted(Get(s.prio.queues, g), e);
    }
  }

  lemma InvDequeue<T>(s: State<T>)
    requires Inv(s)
    ensures Inv(DequeueOf(s).state)
  {
    if s.mode.RoundRobin? {
      TurnCursor(s.fifo.queues, s.groups, s.cursor, |s.groups|);
    }
    var out := DequeueOf(s);
    if out.served.Some? {
      var q, g := Current(s).queues, out.served.value;
      assert q[g := q[g][1..]].Keys == q.Keys;
    }
  }

  lemma {:induction false} TurnCursor<T>(q: Queues<T>, groups: seq<string>, cursor: nat, tries: nat)
    requires tries > 0 ==> groups != []
    requires cursor < TWO64
    ensures TakeTurn(q, groups, cursor, tries).cursor < TWO64
    decreases tries
  {
    if tries > 0 && Get(q, GroupAt(groups, cursor)) == [] {
      TurnCursor(q, groups, Wrap(cursor + 1), tries - 1);
    }
  }

  lemma {:induction false} RefillOk<T>(mode: Mode, all: seq<Tagged<T>>, groups: seq<string>)
    requires forall i :: 0 <= i < |all| ==> all[i].group in groups
    ensures forall g :: g in Refill(mode, all) ==> g in groups
    ensures mode.Priority? ==> forall g :: g in Refill(mode, all) ==> Sorted(Refill(mode, all)[g])
  {
    if all != [] {
      var q, x := Refill(mode, all[..|all| - 1]), all[|all| - 1];
      RefillOk(mode, all[..|all| - 1], groups);
      if mode.Priority? {
        InsertSorted(Get(q, x.group), x.entry);
      }
    }
  }

  lemma {:induction false} DrainGroups<T>(q: Queues<T>, order: seq<string>)
    ensures forall i :: 0 <= i < |Drain(q, order)| ==> Drain(q, order)[i].group in order
  {
    if order != [] {
      DrainGroups(q, order[..|order| - 1]);
    }
  }

  lemma InvSetMode<T>(s: State<T>, mode: Mode, s': State<T>)
    requires Inv(s) && SetModeStep(s, mode, s')
    ensures Inv(s')
  {
    if mode != s.mode {
      var q, order := Current(s).queues, Current(s).order;
      DrainGroups(q, order);
      forall i | 0 <= i < |Drain(q, order)| ensures Drain(q, order)[i].group in s.groups {
        assert Drain(q, order)[i].group in Elems(order);
      }
      RefillOk(mode, Drain(q, order), s.groups);
    }
  }

  lemma InvStep<T>(s: State<T>, op: Op<T>, s': State<T>)
    requires Inv(s) && Step(s, op, s')
    ensures Inv(s')
  {
    match op
    case Enqueue(g, e) => InvEnqueue(s, g, e, s');
    case Dequeue => InvDequeue(s);
    case Peek =>
    case Cancel(hit) =>
    case SetMode(mode) => InvSetMode(s, mode, s');
    case Clear =>
  }

  /** The invariant holds in every state of every run. */
  lemma {:induction false} InvRun<T>(ops: seq<Op<T>>, states: seq<State<T>>, i: nat)
    requires IsRun(ops, states) && i < |states|
    ensures Inv(states[i])
  {
    if i > 0 {
      InvRun(ops, states, i - 1);
      assert Step(states[i - 1], ops[i - 1], states[i]);
      InvStep(states[i - 1], ops[i - 1], states[i]);
    }
  }
}
