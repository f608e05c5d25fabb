/** The queue manager: its fields, updated in place, follow the state machine. */
module QueueManager {
  import opened Basics
  import opened Sequences
  import opened PriorityOrder
  import opened QueueModel
  import opened Serving
  import opened Migration
  import opened Conservation
  import opened Tasks

  /** Every queued entry carries its task's own priority, which never changes. */
  ghost predicate Truthful(s: State<Task>) {
    forall g, e :: e in Get(Current(s).queues, g) ==> e.priority == e.value.priority
  }

  lemma TruthfulEnqueue(s: State<Task>, g: string, task: Task, s': State<Task>)
    requires Truthful(s) && EnqueueStep(s, g, Entry(task, task.priority), s')
    ensures Truthful(s')
  {
    forall k, e | e in Get(Current(s').queues, k) ensures e.priority == e.value.priority {
      EnqueueHolds(s, g, Entry(task, task.priority), s', k);
      assert e in Held(s', k);
    }
  }

  lemma TruthfulDequeue(s: State<Task>)
    requires Inv(s) && Truthful(s)
    ensures Truthful(DequeueOf(s).state)
  {
    hide DequeueOf, Inv;
    forall k, e | e in Get(Current(DequeueOf(s).state).queues, k) ensures e.priority == e.value.priority {
      DequeueHolds(s, k);
      assert e in Held(DequeueOf(s).state, k);
      assert e in Held(s, k);
    }
  }

  lemma TruthfulSetMode(s: State<Task>, mode: Mode, s': State<Task>)
    requires Inv(s) && Truthful(s) && SetModeStep(s, mode, s')
    ensures Truthful(s')
  {
    hide SetModeStep, Inv;
    forall k, e | e in Get(Current(s').queues, k) ensures e.priority == e.value.priority {
      SetModeConserves(s, mode, s', k);
      assert e in multiset(Get(Current(s').queues, k));
    }
  }

  /** In priority mode the task that a dequeue returns has at least the priority of every task queued. */
  lemma ReturnsHighest(s: State<Task>)
    requires Inv(s) && Truthful(s) && s.mode.Priority? && DequeueOf(s).task.Some?
    ensures forall g, e :: e in Get(s.prio.queues, g) ==> DequeueOf(s).task.value.value.priority >= e.value.priority
  {
    var out := DequeueOf(s);
    DequeueTakesFront(s);
    assert out.task.value in Get(s.prio.queues, out.served.value);
    forall g, e | e in Get(s.prio.queues, g) ensures out.task.value.value.priority >= e.value.priority {
      var i :| 0 <= i < |Get(s.prio.queues, g)| && Get(s.prio.queues, g)[i] == e;
      PriorityServesMaximum(s, g, i);
    }
  }

  /** Adds an entry to the queue of a group, creating the queue if needed; a new key may change the
      traversal order of the whole table. */
  method AddToFamily<T>(f: Family<T>, mode: Mode, g: string, e: Entry<T>) returns (f': Family<T>)
    requires IsOrder(f.order, f.queues.Keys)
    ensures Added(f, f', mode, g, e)
  {
    var queues := f.queues;
    if g !in queues {
      queues := queues[g := []];
    }
    queues := queues[g := Add(mode, queues[g], e)];
    var order := f.order;
    if g !in f.queues {
      order := AnyOrder(queues.Keys);
    } else {
      assert queues.Keys == f.queues.Keys;
    }
    f' := Family(queues, order);
    assert f'.queues == f.queues[g := Add(mode, Get(f.queues, g), e)];
  }

  method FindNonEmpty<T>(f: Family<T>) returns (g: Option<string>)
    ensures g == FirstNonEmpty(f.queues, f.order)
  {
    var i := 0;
    assert f.order[0..] == f.order;
    while i < |f.order|
      invariant i <= |f.order| && FirstNonEmpty(f.queues, f.order[i..]) == FirstNonEmpty(f.queues, f.order)
    {
      assert f.order[i..][1..] == f.order[i + 1..];
      var q := Get(f.queues, f.order[i]);
      if |q| != 0 {
        return Some(f.order[i]);
      }
      i := i + 1;
    }
    g := None;
  }

  method SelectGroup<T>(f: Family<T>) returns (best: Choice)
    ensures best == Select(f.queues, f.order, NOBODY)
  {
    best := NOBODY;
    var i := 0;
    assert f.order[0..] == f.order;
    while i < |f.order|
      invariant i <= |f.order| && Select(f.queues, f.order[i..], best) == Select(f.queues, f.order, NOBODY)
    {
      assert f.order[i..][1..] == f.order[i + 1..];
      var q := Get(f.queues, f.order[i]);
      if |q| != 0 && q[0].priority > best.priority {
        best := Choice(f.order[i], q[0].priority);
      }
      i := i + 1;
    }
  }

  method DrainFamily<T>(f: Family<T>) returns (all: seq<Tagged<T>>)
    ensures all == Drain(f.queues, f.order)
  {
    all := [];
    var i := 0;
    while i < |f.order|
      invariant i <= |f.order| && all == Drain(f.queues, f.order[..i])
    {
      var g := f.order[i];
      assert f.order[..i + 1][..i] == f.order[..i];
      all := DrainQueue(g, Get(f.queues, g), all);
      i := i + 1;
    }
    assert f.order[..i] == f.order;
  }

  method DrainQueue<T>(g: string, q0: seq<Entry<T>>, all0: seq<Tagged<T>>) returns (all: seq<Tagged<T>>)
    ensures all == all0 + Tag(g, q0)
  {
    all := all0;
    var i := 0;
    while i < |q0|
      invariant i <= |q0| && all == all0 + Tag(g, q0[..i])
    {
      assert Tag(g, q0[..i + 1]) == Tag(g, q0[..i]) + [Tagged(g, q0[i])];
      all := all + [Tagged(g, q0[i])];
      i := i + 1;
    }
    assert q0[..i] == q0;
  }

  method RefillFamily<T>(mode: Mode, all: seq<Tagged<T>>) returns (f: Family<T>)
    ensures f.queues == Refill(mode, all) && IsOrder(f.order, f.queues.Keys)
  {
    f := EmptyFamily();
    var i := 0;
    while i < |all|
      invariant i <= |all| && f.queues == Refill(mode, all[..i]) && IsOrder(f.order, f.queues.Keys)
    {
      assert all[..i + 1][..i] == all[..i];
      f := AddToFamily(f, mode, all[i].group, all[i].entry);
      i := i + 1;
    }
    assert all[..i] == all;
  }

  /** The chosen group's front has been taken, and the cursor moved. */
  ghost predicate Taken(s: State<Task>, task: Task?, s': State<Task>) {
    var turn := Choose(s);
    var s1 := s.(cursor := turn.cursor);
    if turn.served.None? || Get(Current(s).queues, turn.served.value) == [] then task == null && s' == s1 else
      && task == Get(Current(s).queues, turn.served.value)[0].value
      && s' == WithCurrent(s1, RemoveFront(Current(s), turn.served.value))
  }

  lemma EnqueueIsPut(s: State<Task>, s1: State<Task>, s2: State<Task>, g: string, e: Entry<Task>, s': State<Task>)
    requires s1 == s.(groups := if g in s.groups then s.groups else s.groups + [g])
    requires Added(Current(s1), Current(s2), s1.mode, g, e) && s2 == WithCurrent(s1, Current(s2))
    requires s' == s2.(enqueued := Wrap(s2.enqueued + 1), total := Wrap(s2.total + 1))
    ensures EnqueueStep(s, g, e, s')
  {
  }

  lemma DequeueIsTake(s: State<Task>, task: Task?, s': State<Task>)
    requires s.total != 0 && Taken(s, task, s')
    ensures var out := DequeueOf(s);
      && (task == null <==> out.task.None?) && (task != null ==> task == out.task.value.value)
      && out.state == if task == null then s' else s'.(dequeued := Wrap(s'.dequeued + 1), total := Wrap(s'.total - 1))
  {
  }

  class Manager {
    var mode: Mode
    var fifo: Family<Task>
    var lifo: Family<Task>
    var prio: Family<Task>
    var taskMap: map<TaskId, Task>
    var groups: seq<string>
    var cursor: nat
    var total: nat
    var enqueued: nat
    var dequeued: nat
    var cancelled: nat
    var peeked: nat

    ghost function View(): State<Task>
      reads this
    {
      State(mode, fifo, lifo, prio, groups, cursor, total, enqueued, dequeued, cancelled, peeked)
    }

    ghost predicate Valid()
      reads this
    {
      Inv(View()) && Truthful(View())
    }

    constructor ()
      ensures View() == Init() && taskMap == map[] && Valid()
    {
      mode, groups, cursor, taskMap := Fifo, [], 0, map[];
      fifo, lifo, prio := EmptyFamily(), EmptyFamily(), EmptyFamily();
      total, enqueued, dequeued, cancelled, peeked := 0, 0, 0, 0, 0;
    }

    method Enqueue(task: Task?, group: string)
      requires Valid()
      modifies this
      ensures task == null ==> View() == old(View()) && taskMap == old(taskMap)
      ensures task != null ==> EnqueueStep(old(View()), group, Entry(task, task.priority), View())
      ensures task != null ==> taskMap == old(taskMap)[task.id := task]
      ensures Valid()
    {
      if task == null {
        return;
      }
      assert IsOrder(Current(View()).order, Current(View()).queues.Keys);
      ghost var s0 := View();
      taskMap := taskMap[task.id := task];
      if group !in groups {
        groups := groups + [group];
      }
      hide Inv, Added, IsOrder, Wrap, EnqueueStep, WithCurrent, Current, Truthful;
      ghost var s1 := View();
      PutInto(group, Entry(task, task.priority));
      ghost var s2 := View();
      enqueued := Wrap(enqueued + 1);
      total := Wrap(total + 1);
      EnqueueIsPut(s0, s1, s2, group, Entry(task, task.priority), View());
      InvEnqueue(s0, group, Entry(task, task.priority), View());
      TruthfulEnqueue(s0, group, task, View());
    }

    /** Adds an entry to the group's queue in the current family. */
    method PutInto(group: string, e: Entry<Task>)
      requires IsOrder(Current(View()).order, Current(View()).queues.Keys)
      modifies this
      ensures Added(old(Current(View())), Current(View()), old(mode), group, e)
      ensures View() == WithCurrent(old(View()), Current(View())) && taskMap == old(taskMap)
    {
      match mode {
        case Fifo => fifo := AddToFamily(fifo, mode, group, e);
        case Lifo => lifo := AddToFamily(lifo, mode, group, e);
        case Priority => prio := AddToFamily(prio, mode, group, e);
        case RoundRobin => fifo := AddToFamily(fifo, mode, group, e);
      }
    }

    /** Takes the front of a group's queue in the current family, if there is one. */
    method TakeFrom(group: string) returns (task: Task?)
      modifies this
      ensures taskMap == old(taskMap)
      ensures var q := Get(old(Current(View())).queues, group);
        if q == [] then task == null && View() == old(View())
        else task == q[0].value && View() == WithCurrent(old(View()), RemoveFront(old(Current(View())), group))
    {
      var f := match mode case Fifo => fifo case RoundRobin => fifo case Lifo => lifo case Priority => prio;
      if group !in f.queues || f.queues[group] == [] {
        return null;
      }
      task := f.queues[group][0].value;
      f := Family(f.queues[group := f.queues[group][1..]], f.order);
      match mode {
        case Fifo => fifo := f;
        case RoundRobin => fifo := f;
        case Lifo => lifo := f;
        case Priority => prio := f;
      }
    }

    method TakeRoundRobin() returns (task: Task?)
      requires mode.RoundRobin?
      modifies this
      ensures Taken(old(View()), task, View()) && taskMap == old(taskMap)
    {
      var i := 0;
      while i < |groups|
        invariant i <= |groups| && taskMap == old(taskMap) && View() == old(View()).(cursor := cursor)
        invariant TakeTurn(fifo.queues, groups, cursor, |groups| - i) == Choose(old(View()))
      {
        var group := GroupAt(groups, cursor);
        cursor := Wrap(cursor + 1);
        task := TakeFrom(group);
        if task != null {
          return;
        }
        i := i + 1;
      }
      task := null;
    }

    method TakeFirst() returns (task: Task?)
      requires mode.Fifo? || mode.Lifo?
      modifies this
      ensures Taken(old(View()), task, View()) && taskMap == old(taskMap)
    {
      var g := FindNonEmpty(if mode.Lifo? then lifo else fifo);
      task := null;
      if g.Some? {
        task := TakeFrom(g.value);
      }
    }

    method TakeHighest() returns (task: Task?)
      requires mode.Priority?
      modifies this
      ensures Taken(old(View()), task, View()) && taskMap == old(taskMap)
    {
      var best := SelectGroup(prio);
      task := null;
      if best.group != "" {
        task := TakeFrom(best.group);
      }
    }

    method Dequeue() returns (task: Task?)
      requires Valid()
      modifies this
      ensures var out := DequeueOf(old(View()));
        && View() == out.state && (task == null <==> out.task.None?)
        && (task != null ==> task == out.task.value.value)
      ensures old(mode).Priority? && task != null ==>
        forall g, e :: e in Get(old(prio).queues, g) ==> task.priority >= e.value.priority
      ensures Valid() && taskMap == old(taskMap)
    {
      if total == 0 {
        return null;
      }
      InvDequeue(View());
      TruthfulDequeue(View());
      if mode.Priority? && DequeueOf(View()).task.Some? {
        ReturnsHighest(View());
      }
      hide Taken, DequeueOf, Inv, Wrap, Truthful;
      match mode {
        case Fifo => task := TakeFirst();
        case Lifo => task := TakeFirst();
        case RoundRobin => task := TakeRoundRobin();
        case Priority => task := TakeHighest();
      }
      DequeueIsTake(old(View()), task, View());
      if task != null {
        dequeued := Wrap(dequeued + 1);
        total := Wrap(total - 1);
      }
    }

    method Peek() returns (task: Task?)
      requires Valid()
      modifies this`peeked
      ensures task == null <==> PeekOf(old(View())).None?
      ensures task != null ==> task == PeekOf(old(View())).value.value
      ensures View() == old(View()).(peeked := Wrap(old(peeked) + 1)) && Valid()
    {
      peeked := Wrap(peeked + 1);
      if mode.Priority? {
        var best := SelectGroup(prio);
        if best == NOBODY || Get(prio.queues, best.group) == [] {
          return null;
        }
        return Get(prio.queues, best.group)[0].value;
      }
      var f := if mode.Lifo? then lifo else fifo;
      var g := FindNonEmpty(f);
      if g.None? || Get(f.queues, g.value) == [] {
        return null;
      }
      return Get(f.queues, g.value)[0].value;
    }

    method CancelTask(id: TaskId) returns (ok: bool)
      requires Valid()
      modifies this, if id in taskMap then {taskMap[id]} else {}
      ensures ok <==> id in old(taskMap) && old(taskMap[id].status).Queued?
      ensures View() == CancelOf(old(View()), ok) && Valid()
      ensures taskMap == if ok then old(taskMap) - {id} else old(taskMap)
      ensures id in old(taskMap) ==>
        old(taskMap)[id].View() == if ok then After(old(taskMap[id].View()), Call.Cancel) else old(taskMap[id].View())
    {
      if id in taskMap && taskMap[id].status.Queued? {
        taskMap[id].Cancel();
        taskMap := taskMap - {id};
        cancelled := Wrap(cancelled + 1);
        total := Wrap(total - 1);
        return true;
      }
      return false;
    }

    method Clear()
      requires Valid()
      modifies this
      ensures View() == ClearOf(old(View())) && taskMap == map[] && Valid()
      ensures fifo.queues == map[] && lifo.queues == map[] && prio.queues == map[] && total == 0
      ensures mode == old(mode) && groups == old(groups) && cursor == old(cursor)
      ensures enqueued == old(enqueued) && dequeued == old(dequeued)
      ensures cancelled == old(cancelled) && peeked == old(peeked)
    {
      fifo, lifo, prio := EmptyFamily(), EmptyFamily(), EmptyFamily();
      taskMap := map[];
      total := 0;
    }

    method SetMode(newMode: Mode)
      requires Valid()
      modifies this
      ensures SetModeStep(old(View()), newMode, View()) && Valid() && taskMap == old(taskMap)
    {
      if mode == newMode {
        return;
      }
      var all;
      match mode {
        case Fifo => all := DrainFamily(fifo);
        case RoundRobin => all := DrainFamily(fifo);
        case Lifo => all := DrainFamily(lifo);
        case Priority => all := DrainFamily(prio);
      }
      fifo, lifo, prio := EmptyFamily(), EmptyFamily(), EmptyFamily();
      mode := newMode;
      var f := RefillFamily(mode, all);
      match mode {
        case Fifo => fifo := f;
        case RoundRobin => fifo := f;
        case Lifo => lifo := f;
        case Priority => prio := f;
      }
      InvSetMode(old(View()), newMode, View());
      TruthfulSetMode(old(View()), newMode, View());
    }
  }
}
