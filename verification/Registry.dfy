/** The manager together with its registry of tasks and their lives: which cancellations succeed. */
module Registry {
  import opened Basics
  import opened PriorityOrder
  import opened QueueModel
  import opened Serving
  import opened Ledger
  import opened Shortfalls
  import Tasks

  /** The queues and counters, the ids in the task map, and how far each task has come. */
  datatype World = World(state: State<TaskId>, registry: set<TaskId>, lives: map<TaskId, Tasks.Life>)

  /** What callers do: calls on the manager, and lifecycle calls on a task. */
  datatype Deed =
    | Submit(group: string, id: TaskId, priority: int)
    | Receive
    | Look
    | Revoke(id: TaskId)
    | Switch(mode: Mode)
    | Wipe
    | Advance(id: TaskId, call: Tasks.Call)

  function LifeOf(w: World, id: TaskId): Tasks.Life {
    if id in w.lives then w.lives[id] else Tasks.NewLife(3)
  }

  /** A cancellation succeeds for a registered task in queued status. */
  predicate Cancellable(w: World, id: TaskId) {
    id in w.registry && LifeOf(w, id).status.Queued?
  }

  function Called(w: World, id: TaskId, call: Tasks.Call): map<TaskId, Tasks.Life> {
    w.lives[id := Tasks.After(LifeOf(w, id), call)]
  }

  /** The operation on queues and counters; a lifecycle call is none. */
  function OpOf(w: World, d: Deed): Option<Op<TaskId>> {
    match d
    case Submit(g, id, p) => Some(Enqueue(g, Entry(id, p)))
    case Receive => Some(Dequeue)
    case Look => Some(Peek)
    case Revoke(id) => Some(Cancel(Cancellable(w, id)))
    case Switch(mode) => Some(SetMode(mode))
    case Wipe => Some(Clear)
    case Advance(_, _) => None
  }

  ghost predicate WorldStep(w: World, d: Deed, w': World) {
    && (match OpOf(w, d) case Some(op) => Step(w.state, op, w'.state) case None => w'.state == w.state)
    && w'.registry == (match d
                       case Submit(_, id, _) => w.registry + {id}
                       case Revoke(id) => if Cancellable(w, id) then w.registry - {id} else w.registry
                       case Wipe => {}
                       case _ => w.registry)
    && w'.lives == (match d
                    case Revoke(id) => if Cancellable(w, id) then Called(w, id, Tasks.Call.Cancel) else w.lives
                    case Advance(id, call) => Called(w, id, call)
                    case _ => w.lives)
  }

  ghost predicate IsHistory(deeds: seq<Deed>, worlds: seq<World>) {
    && |worlds| == |deeds| + 1 && worlds[0] == World(Init(), {}, map[])
    && forall i, j :: 0 <= i && j == i + 1 && j < |worlds| ==> WorldStep(worlds[i], deeds[i], worlds[j])
  }

  /** Where the last clear among the first `i` deeds left the history; the start without one. */
  function SinceWipe(deeds: seq<Deed>, i: nat): (k: nat)
    requires i <= |deeds|
    ensures k <= i
  {
    if i == 0 || deeds[i - 1].Wipe? then i else SinceWipe(deeds, i - 1)
  }

  lemma {:induction false} SinceWipePrefix(deeds: seq<Deed>, i: nat, n: nat)
    requires i <= n <= |deeds|
    ensures SinceWipe(deeds[..n], i) == SinceWipe(deeds, i)
  {
    if i > 0 {
      SinceWipePrefix(deeds, i - 1, n);
    }
  }

  lemma HistoryPrefix(deeds: seq<Deed>, worlds: seq<World>)
    requires IsHistory(deeds, worlds) && deeds != []
    ensures var n := |deeds| - 1;
      IsHistory(deeds[..n], worlds[..n + 1]) && WorldStep(worlds[n], deeds[n], worlds[n + 1])
  {
    hide WorldStep;
    var n := |deeds| - 1;
    forall i, j | 0 <= i && j == i + 1 && j <= n ensures WorldStep(worlds[i], deeds[i], worlds[j]) {}
  }

  lemma StepOp(w: World, d: Deed, w': World)
    requires WorldStep(w, d, w')
    ensures OpOf(w, d).Some? ==> Step(w.state, OpOf(w, d).value, w'.state) && (OpOf(w, d).value.Clear? <==> d.Wipe?)
    ensures OpOf(w, d).None? ==> w'.state == w.state && !d.Wipe?
    ensures d.Revoke? ==> w'.state == CancelOf(w.state, Cancellable(w, d.id))
  {
    hide Cancellable, EnqueueStep, SetModeStep, DequeueOf;
  }

  lemma CancelRaises(s: State<TaskId>, hit: bool)
    requires s.total < TWO64
    ensures CancelOf(s, hit).total > s.total <==> hit && s.total == 0
    ensures hit && s.total == 0 ==> CancelOf(s, hit).total == TWO64 - 1
  {
  }

  /** Every history is a run of the state machine, its cancellations succeeding as the registry and
      the lives of the tasks have it: all theorems about runs apply. */
  lemma {:induction false} HistoryIsRun(deeds: seq<Deed>, worlds: seq<World>)
      returns (ops: seq<Op<TaskId>>, states: seq<State<TaskId>>)
    requires IsHistory(deeds, worlds)
    ensures IsRun(ops, states) && |states| == |ops| + 1 && states[|ops|] == worlds[|deeds|].state
    ensures states[SinceClear(ops, |ops|)] == worlds[SinceWipe(deeds, |deeds|)].state
  {
    var n := |deeds|;
    if n == 0 {
      ops, states := [], [Init()];
    } else {
      assert worlds[..n][n - 1] == worlds[n - 1];
      hide Step, IsRun, IsHistory, WorldStep, OpOf, SinceClear;
      HistoryPrefix(deeds, worlds);
      SinceWipePrefix(deeds, n - 1, n - 1);
      StepOp(worlds[n - 1], deeds[n - 1], worlds[n]);
      ops, states := HistoryIsRun(deeds[..n - 1], worlds[..n]);
      var op := OpOf(worlds[n - 1], deeds[n - 1]);
      if op.Some? {
        ops, states := RunSnoc(ops, states, op.value, worlds[n].state);
      }
    }
  }

  lemma RunSnoc(ops: seq<Op<TaskId>>, states: seq<State<TaskId>>, op: Op<TaskId>, s': State<TaskId>)
      returns (ops': seq<Op<TaskId>>, states': seq<State<TaskId>>)
    requires IsRun(ops, states) && Step(states[|ops|], op, s')
    ensures IsRun(ops', states') && |states'| == |ops'| + 1 && states'[|ops'|] == s'
    ensures states'[SinceClear(ops', |ops'|)] == if op.Clear? then s' else states[SinceClear(ops, |ops|)]
  {
    hide Step;
    ops', states' := ops + [op], states + [s'];
    SinceClearPrefix(ops, [op], |ops|);
    forall i, j | 0 <= i && j == i + 1 && j < |states'| ensures Step(states'[i], ops'[i], states'[j]) {
      if j < |states| {
        assert states'[i] == states[i] && states'[j] == states[j] && ops'[i] == ops[i];
      }
    }
  }

  lemma {:induction false} SinceClearPrefix(ops: seq<Op<TaskId>>, more: seq<Op<TaskId>>, i: nat)
    requires i <= |ops|
    ensures SinceClear(ops + more, i) == SinceClear(ops, i)
  {
    if i > 0 {
      SinceClearPrefix(ops, more, i - 1);
    }
  }

  /** Modulo 2^64, as many tasks are queued as were cancelled since the last clear. */
  ghost predicate QueuedAsCancelled(s: State<TaskId>, since: State<TaskId>) {
    Wrap(Queued(s)) == Wrap(s.cancelled - since.cancelled)
  }

  lemma ZeroInHistory(deeds: seq<Deed>, worlds: seq<World>)
    requires IsHistory(deeds, worlds)
    ensures var s := worlds[|deeds|].state;
      s.total < TWO64 && (s.total == 0 <==> QueuedAsCancelled(s, worlds[SinceWipe(deeds, |deeds|)].state))
  {
    hide IsHistory, IsRun, SinceWipe, SinceClear, Queued, Wrap;
    var ops, states := HistoryIsRun(deeds, worlds);
    ZeroTotalExactlyWhen(ops, states, |ops|);
    TotalFits(ops, states, |ops|);
  }

  /** In every history a cancellation makes the total go up, from zero to its largest value, exactly
      when it succeeds and, modulo 2^64, as many tasks are queued as were cancelled since the last
      clear. */
  lemma TotalWrapsExactlyWhen(deeds: seq<Deed>, worlds: seq<World>)
    requires IsHistory(deeds, worlds) && deeds != [] && deeds[|deeds| - 1].Revoke?
    ensures var n := |deeds| - 1; var w, s' := worlds[n], worlds[n + 1].state;
      && (s'.total > w.state.total <==>
            Cancellable(w, deeds[n].id) && QueuedAsCancelled(w.state, worlds[SinceWipe(deeds, n)].state))
      && (s'.total > w.state.total ==> w.state.total == 0 && s'.total == TWO64 - 1)
  {
    var n := |deeds| - 1;
    assert worlds[..n + 1][n] == worlds[n];
    hide IsHistory, SinceWipe, WorldStep, OpOf, CancelOf, Cancellable, QueuedAsCancelled;
    HistoryPrefix(deeds, worlds);
    SinceWipePrefix(deeds, n, n);
    ZeroInHistory(deeds[..n], worlds[..n + 1]);
    StepOp(worlds[n], deeds[n], worlds[n + 1]);
    CancelRaises(worlds[n].state, Cancellable(worlds[n], deeds[n].id));
  }

  // ----- Two histories

  function Submitted(w: World, s: State<TaskId>, id: TaskId): World {
    w.(state := s, registry := w.registry + {id})
  }

  /** One task submitted and marked as queued. */
  function OneQueued(g: string, e: Entry<TaskId>): World {
    var w := Submitted(World(Init(), {}, map[]), WithOne(Fifo, g, e), e.value);
    w.(lives := Called(w, e.value, Tasks.Call.MarkQueued))
  }

  function Revoked(w: World, id: TaskId): World {
    World(CancelOf(w.state, true), w.registry - {id}, Called(w, id, Tasks.Call.Cancel))
  }

  lemma OneQueuedHistory(g: string, e: Entry<TaskId>) returns (worlds: seq<World>)
    ensures IsHistory([Submit(g, e.value, e.priority), Advance(e.value, Tasks.Call.MarkQueued)], worlds)
    ensures worlds[2] == OneQueued(g, e) && Cancellable(OneQueued(g, e), e.value)
  {
    var w0 := World(Init(), {}, map[]);
    FirstEnqueue(Fifo, g, e);
    assert Init<TaskId>().(mode := Fifo) == Init<TaskId>();
    worlds := [w0, Submitted(w0, WithOne(Fifo, g, e), e.value), OneQueued(g, e)];
    hide EnqueueStep, WithOne;
  }

  /** A queued task is cancelled, another is submitted, and the next dequeue hands out the cancelled
      one: the total is zero, the other task is queued, and a dequeue returns nothing. */
  lemma CancelledTotalHidesTask(g: string, e: Entry<TaskId>, e': Entry<TaskId>) returns (worlds: seq<World>)
    ensures IsHistory([Submit(g, e.value, e.priority), Advance(e.value, Tasks.Call.MarkQueued)]
                      + [Submit(g, e'.value, e'.priority)] + [Revoke(e.value)] + [Receive], worlds)
    ensures DequeueOf(worlds[4].state).task == Some(e)
    ensures AnyQueued(worlds[5].state.fifo.queues) && DequeueOf(worlds[5].state).task.None?
  {
    var first := OneQueuedHistory(g, e);
    var w3 := Submitted(OneQueued(g, e), WithTwo(g, e, e'), e'.value);
    var w4 := Revoked(w3, e.value);
    SecondEnqueue(g, e, e');
    OneLeft(g, e, e');
    assert WorldStep(OneQueued(g, e), Submit(g, e'.value, e'.priority), w3);
    assert WorldStep(w3, Revoke(e.value), w4);
    assert WorldStep(w4, Receive, w4.(state := DequeueOf(w4.state).state));
    hide WorldStep, IsHistory, EnqueueStep, WithTwo, DequeueOf, AnyQueued;
    var deeds := [Submit(g, e.value, e.priority), Advance(e.value, Tasks.Call.MarkQueued)];
    HistorySnoc(deeds, first, Submit(g, e'.value, e'.priority), w3);
    HistorySnoc(deeds + [Submit(g, e'.value, e'.priority)], first + [w3], Revoke(e.value), w4);
    worlds := first + [w3] + [w4] + [w4.(state := DequeueOf(w4.state).state)];
    deeds := deeds + [Submit(g, e'.value, e'.priority)] + [Revoke(e.value)];
    HistorySnoc(deeds, first + [w3] + [w4], Receive, worlds[5]);
  }

  /** A task that was handed out is still registered and can be cancelled: the total wraps, and the
      next task submitted brings it to zero and does not come out. */
  lemma CancelAfterTakeWraps(g: string, e: Entry<TaskId>, e': Entry<TaskId>) returns (worlds: seq<World>)
    ensures IsHistory([Submit(g, e.value, e.priority), Advance(e.value, Tasks.Call.MarkQueued)]
                      + [Receive] + [Revoke(e.value)] + [Submit(g, e'.value, e'.priority)], worlds)
    ensures worlds[4].state.total == TWO64 - 1
    ensures AnyQueued(worlds[5].state.fifo.queues) && DequeueOf(worlds[5].state).task.None?
  {
    var first := OneQueuedHistory(g, e);
    var w2 := OneQueued(g, e);
    var w3 := w2.(state := DequeueOf(w2.state).state);
    var w4 := Revoked(w3, e.value);
    var w5 := Submitted(w4, Refilled(w4.state, g, e'), e'.value);
    TakenAndRevoked(g, e, e');
    assert WorldStep(w2, Receive, w3);
    assert WorldStep(w3, Revoke(e.value), w4);
    assert WorldStep(w4, Submit(g, e'.value, e'.priority), w5);
    hide WorldStep, IsHistory, EnqueueStep, Refilled, DequeueOf, AnyQueued;
    var deeds := [Submit(g, e.value, e.priority), Advance(e.value, Tasks.Call.MarkQueued)];
    HistorySnoc(deeds, first, Receive, w3);
    HistorySnoc(deeds + [Receive], first + [w3], Revoke(e.value), w4);
    worlds := first + [w3] + [w4] + [w5];
    HistorySnoc(deeds + [Receive] + [Revoke(e.value)], first + [w3] + [w4], Submit(g, e'.value, e'.priority), w5);
  }

  function Refilled(s: State<TaskId>, g: string, e: Entry<TaskId>): State<TaskId> {
    s.(fifo := Single(g, e), enqueued := Wrap(s.enqueued + 1), total := Wrap(s.total + 1))
  }

  lemma TakenAndRevoked(g: string, e: Entry<TaskId>, e': Entry<TaskId>)
    ensures var s := CancelOf(DequeueOf(WithOne(Fifo, g, e)).state, true); var s' := Refilled(s, g, e');
      && s.total == TWO64 - 1 && EnqueueStep(s, g, e', s')
      && AnyQueued(s'.fifo.queues) && DequeueOf(s').task.None?
  {
    var s1 := WithOne(Fifo, g, e);
    assert FirstNonEmpty(s1.fifo.queues, s1.fifo.order) == Some(g);
    var s := CancelOf(DequeueOf(s1).state, true);
    assert s.fifo.queues == map[g := []];
    assert [] + [e'] == [e'];
    assert s.fifo.queues[g := [e']] == map[g := [e']];
    assert g in Single(g, e').queues;
  }

  lemma HistorySnoc(deeds: seq<Deed>, worlds: seq<World>, d: Deed, w: World)
    requires IsHistory(deeds, worlds) && WorldStep(worlds[|deeds|], d, w)
    ensures IsHistory(deeds + [d], worlds + [w])
  {
    hide WorldStep;
    var deeds', worlds' := deeds + [d], worlds + [w];
    forall i, j | 0 <= i && j == i + 1 && j < |worlds'| ensures WorldStep(worlds'[i], deeds'[i], worlds'[j]) {
      if j < |worlds| {
        assert worlds'[i] == worlds[i] && worlds'[j] == worlds[j] && deeds'[i] == deeds[i];
      }
    }
  }
}
