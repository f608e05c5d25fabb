/** States that runs of the manager really reach. */
module Runs {
  import opened Basics
  import opened Sequences
  import opened PriorityOrder
  import opened QueueModel

  ghost predicate NoClear<T>(ops: seq<Op<T>>) {
    forall i :: 0 <= i < |ops| ==> !ops[i].Clear?
  }

  /** The state ends some run without a clear. */
  ghost predicate Arises<T(!new)>(s: State<T>) {
    exists ops, states :: IsRun(ops, states) && NoClear(ops) && states[|ops|] == s
  }

  lemma ArisesInit<T(!new)>()
    ensures Arises(Init<T>())
  {
    var ops: seq<Op<T>>, states := [], [Init<T>()];
    assert IsRun(ops, states) && states[|ops|] == Init<T>();
  }

  lemma ArisesStep<T(!new)>(s: State<T>, op: Op<T>, s': State<T>)
    requires Arises(s) && Step(s, op, s') && !op.Clear?
    ensures Arises(s')
  {
    var ops, states :| IsRun(ops, states) && NoClear(ops) && states[|ops|] == s;
    var ops', states' := ops + [op], states + [s'];
    hide Step;
    forall i, j | 0 <= i && j == i + 1 && j < |states'| ensures Step(states'[i], ops'[i], states'[j]) {
      if j < |states| {
        assert states'[i] == states[i] && states'[j] == states[j] && ops'[i] == ops[i];
      }
    }
    assert IsRun(ops', states') && NoClear(ops') && states'[|ops'|] == s';
  }

  lemma ArisesInv<T(!new)>(s: State<T>)
    requires Arises(s)
    ensures Inv(s)
  {
    var ops, states :| IsRun(ops, states) && NoClear(ops) && states[|ops|] == s;
    InvRun(ops, states, |ops|);
  }

  lemma ArisesEnqueue<T(!new)>(s: State<T>, g: string, e: Entry<T>) returns (s': State<T>)
    requires Arises(s)
    ensures Arises(s') && EnqueueStep(s, g, e, s')
  {
    ArisesInv(s);
    var f := Current(s);
    var queues := f.queues[g := Add(s.mode, Get(f.queues, g), e)];
    var order := OrderExists(queues.Keys);
    if g in f.queues {
      order := f.order;
      assert queues.Keys == f.queues.Keys;
    }
    s' := WithCurrent(s, Family(queues, order)).(groups := if g in s.groups then s.groups else s.groups + [g],
                                                 enqueued := Wrap(s.enqueued + 1), total := Wrap(s.total + 1));
    ArisesStep(s, Enqueue(g, e), s');
  }

  // ----- States with nothing queued

  ghost predicate NothingQueued<T>(q: Queues<T>) {
    forall g :: Get(q, g) == []
  }

  ghost predicate Drained<T(!new)>(s: State<T>, mode: Mode, groups: seq<string>, cursor: nat) {
    && Arises(s) && s.mode == mode && s.groups == groups && s.cursor == cursor
    && s.total == 0 && NothingQueued(Current(s).queues)
  }

  /** One entry is queued, in group `g`, and the total says so. */
  ghost predicate OneQueued<T(!new)>(s: State<T>, mode: Mode, groups: seq<string>, cursor: nat,
                                     g: string, e: Entry<T>)
  {
    && Arises(s) && s.mode == mode && s.groups == groups && s.cursor == cursor
    && s.total == 1 && Get(Current(s).queues, g) == [e]
    && (forall k :: k != g ==> Get(Current(s).queues, k) == [])
  }

  lemma QueueOne<T(!new)>(s: State<T>, g: string, e: Entry<T>) returns (s': State<T>)
    requires Drained(s, s.mode, s.groups, s.cursor)
    ensures OneQueued(s', s.mode, if g in s.groups then s.groups else s.groups + [g], s.cursor, g, e)
  {
    s' := ArisesEnqueue(s, g, e);
    var q, q' := Current(s).queues, Current(s').queues;
    assert Get(q, g) == [];
    assert Add(s.mode, [], e) == [e];
    hide Arises, Add;
    forall k | k != g ensures Get(q', k) == [] {
      assert Get(q', k) == Get(q, k);
    }
  }

  lemma TakeOne<T(!new)>(s: State<T>, mode: Mode, groups: seq<string>, cursor: nat, g: string, e: Entry<T>)
    requires OneQueued(s, mode, groups, cursor, g, e) && Choose(s).served == Some(g)
    ensures Drained(DequeueOf(s).state, mode, groups, Choose(s).cursor)
  {
    var s' := DequeueOf(s).state;
    ArisesStep(s, Dequeue, s');
    hide Arises, Choose;
    var q, q' := Current(s).queues, Current(s').queues;
    assert [e][1..] == [];
    assert q' == q[g := []];
    forall k ensures Get(q', k) == [] {
      assert k != g ==> Get(q', k) == Get(q, k);
    }
  }

  lemma ScanFindsOne<T(!new)>(q: Queues<T>, order: seq<string>, g: string)
    requires g in order && Get(q, g) != [] && forall k :: k != g ==> Get(q, k) == []
    ensures FirstNonEmpty(q, order) == Some(g)
  {
    if order[0] != g {
      ScanFindsOne(q, order[1..], g);
    }
  }

  /** In FIFO mode a task in and out leaves nothing but the name of its group. */
  lemma PassThrough<T(!new)>(s: State<T>, g: string, e: Entry<T>) returns (s': State<T>)
    requires Drained(s, Fifo, s.groups, s.cursor) && g !in s.groups
    ensures Drained(s', Fifo, s.groups + [g], s.cursor)
  {
    var s1 := QueueOne(s, g, e);
    ArisesInv(s1);
    assert g in Elems(s1.fifo.order);
    ScanFindsOne(s1.fifo.queues, s1.fifo.order, g);
    TakeOne(s1, Fifo, s.groups + [g], s.cursor, g, e);
    s' := DequeueOf(s1).state;
  }

  lemma {:induction false} Introduce<T(!new)>(groups: seq<string>, e: Entry<T>) returns (s: State<T>)
    requires NoDup(groups)
    ensures Drained(s, Fifo, groups, 0)
  {
    if groups == [] {
      ArisesInit<T>();
      s := Init();
    } else {
      var init, g := groups[..|groups| - 1], groups[|groups| - 1];
      var s1 := Introduce(init, e);
      assert groups == init + [g] && g !in init;
      s := PassThrough(s1, g, e);
    }
  }

  lemma {:induction false} DrainNothing<T>(q: Queues<T>, order: seq<string>)
    requires NothingQueued(q)
    ensures Drain(q, order) == []
  {
    if order != [] {
      DrainNothing(q, order[..|order| - 1]);
    }
  }

  /** An idle manager can change its mode. */
  lemma ChangeMode<T(!new)>(s: State<T>, mode: Mode) returns (s': State<T>)
    requires Drained(s, s.mode, s.groups, s.cursor)
    ensures Drained(s', mode, s.groups, s.cursor)
  {
    if mode == s.mode {
      s' := s;
    } else {
      DrainNothing(Current(s).queues, Current(s).order);
      s' := NoQueues(s).(mode := mode);
      assert SetModeStep(s, mode, s');
      ArisesStep(s, SetMode(mode), s');
    }
  }

  /** In round robin mode a task for the group whose turn it is moves the cursor by one. */
  lemma TurnOne<T(!new)>(s: State<T>, e: Entry<T>) returns (s': State<T>)
    requires Drained(s, RoundRobin, s.groups, s.cursor) && s.groups != []
    ensures Drained(s', RoundRobin, s.groups, Wrap(s.cursor + 1))
  {
    var g := GroupAt(s.groups, s.cursor);
    var s1 := QueueOne(s, g, e);
    TakeOne(s1, RoundRobin, s.groups, s.cursor, g, e);
    s' := DequeueOf(s1).state;
  }

  lemma {:induction false} TurnTo<T(!new)>(groups: seq<string>, cursor: nat, e: Entry<T>) returns (s: State<T>)
    requires groups != [] && NoDup(groups) && cursor < TWO64
    ensures Drained(s, RoundRobin, groups, cursor)
  {
    if cursor == 0 {
      var s1 := Introduce(groups, e);
      s := ChangeMode(s1, RoundRobin);
    } else {
      var s1 := TurnTo(groups, cursor - 1, e);
      assert Wrap(cursor) == cursor;
      s := TurnOne(s1, e);
    }
  }

  /** Every list of groups, every cursor and every group among them: a run without a clear ends in
      round robin mode with exactly one task, queued in that group. */
  lemma AnyTurn<T(!new)>(groups: seq<string>, cursor: nat, g: string, e: Entry<T>) returns (s: State<T>)
    requires NoDup(groups) && cursor < TWO64 && g in groups
    ensures OneQueued(s, RoundRobin, groups, cursor, g, e)
  {
    var s1 := TurnTo(groups, cursor, e);
    s := QueueOne(s1, g, e);
  }
}
