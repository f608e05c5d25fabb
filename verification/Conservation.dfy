/** No task is lost, duplicated or moved to another group, whatever a run does. */
module Conservation {
  import opened Basics
  import opened Sequences
  import opened PriorityOrder
  import opened QueueModel
  import opened Serving
  import opened Migration

  /** What was put into a group since the last clear among the first `i` operations. */
  ghost function PutIn<T>(ops: seq<Op<T>>, i: nat, g: string): multiset<Entry<T>>
    requires i <= |ops|
  {
    if i == 0 || ops[i - 1].Clear? then multiset{} else
      PutIn(ops, i - 1, g) + Brought(ops[i - 1], g)
  }

  ghost function Brought<T>(op: Op<T>, g: string): multiset<Entry<T>> {
    if op.Enqueue? && op.group == g then multiset{op.entry} else multiset{}
  }

  /** What was handed out of a group since the last clear. */
  ghost function HandedOut<T>(ops: seq<Op<T>>, states: seq<State<T>>, i: nat, g: string): multiset<Entry<T>>
    requires i <= |ops| <= |states|
  {
    if i == 0 || ops[i - 1].Clear? then multiset{} else
      HandedOut(ops, states, i - 1, g) + Given(states[i - 1], ops[i - 1], g)
  }

  ghost function Given<T>(s: State<T>, op: Op<T>, g: string): multiset<Entry<T>> {
    var out := DequeueOf(s);
    if op.Dequeue? && out.served == Some(g) && out.task.Some? then multiset{out.task.value} else multiset{}
  }

  ghost function Held<T>(s: State<T>, g: string): multiset<Entry<T>> {
    multiset(Get(Current(s).queues, g))
  }

  lemma AddHolds<T>(mode: Mode, q: seq<Entry<T>>, e: Entry<T>)
    ensures multiset(Add(mode, q, e)) == multiset(q) + multiset{e}
  {
    if mode.Priority? {
      var k := Position(q, e.priority);
      assert q == q[..k] + q[k..];
    }
  }

  lemma DequeueHolds<T>(s: State<T>, g: string)
    requires Inv(s)
    ensures Held(s, g) == Held(DequeueOf(s).state, g) + Given(s, Op<T>.Dequeue, g)
  {
    DequeueTakesFront(s);
    hide DequeueOf, Inv;
  }

  lemma EnqueueHolds<T>(s: State<T>, k: string, e: Entry<T>, s': State<T>, g: string)
    requires EnqueueStep(s, k, e, s')
    ensures Held(s, g) + Brought(Enqueue(k, e), g) == Held(s', g)
  {
    AddHolds(s.mode, Get(Current(s).queues, k), e);
    hide Add, IsOrder;
  }

  lemma StepHolds<T>(s: State<T>, op: Op<T>, s': State<T>, g: string)
    requires Inv(s) && Step(s, op, s') && !op.Clear?
    ensures Held(s, g) + Brought(op, g) == Given(s, op, g) + Held(s', g)
  {
    hide DequeueOf, Inv, EnqueueStep, SetModeStep;
    match op
    case Enqueue(k, e) => EnqueueHolds(s, k, e, s', g);
    case Dequeue => DequeueHolds(s, g);
    case Peek =>
    case Cancel(hit) =>
    case SetMode(mode) => SetModeConserves(s, mode, s', g);
  }

  /** In every run and for every group, what was put in since the last clear is what was handed out
      and what is still queued, each task as often: across modes, cancellations and wraps. */
  lemma {:induction false} ConservedRun<T>(ops: seq<Op<T>>, states: seq<State<T>>, i: nat, g: string)
    requires IsRun(ops, states) && i < |states|
    ensures PutIn(ops, i, g) == HandedOut(ops, states, i, g) + Held(states[i], g)
  {
    if i > 0 {
      assert Step(states[i - 1], ops[i - 1], states[i]);
      if !ops[i - 1].Clear? {
        ConservedRun(ops, states, i - 1, g);
        InvRun(ops, states, i - 1);
        hide Step, Inv, Held, Given, Brought, DequeueOf;
        var s, op := states[i - 1], ops[i - 1];
        StepHolds(s, op, states[i], g);
        var before := HandedOut(ops, states, i - 1, g);
        assert before + Held(s, g) + Brought(op, g) == before + (Held(s, g) + Brought(op, g));
      }
    }
  }
}
