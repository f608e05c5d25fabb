/** The log told from the operations alone: which items it must hold, and what a replay must report. */
module Journal {
  import opened Basics
  import opened Sequences
  import opened OrderedStore
  import opened WriteLog
  import opened Recovery
  import opened Replay
  import opened Storage

  /** The ids that an object was stored for. */
  function Stored(ops: seq<LogOp>): set<nat> {
    if ops == [] then {} else
      var op := ops[|ops| - 1];
      Stored(ops[..|ops| - 1]) + if op.Save? && op.putOk then {op.task.id} else {}
  }

  /** An operation gets as far as the log unless its own write fails or there is nothing to update. */
  predicate ReachesLog(before: seq<LogOp>, op: LogOp) {
    match op
    case Append(_, _) => true
    case Save(_, putOk, _) => putOk
    case Update(id, _, putOk, _) => putOk && id in Stored(before)
    case _ => false
  }

  function ItemOf(op: LogOp): LogItem
    requires op.Append? || op.Save? || op.Update?
  {
    match op
    case Append(item, _) => item
    case Save(task, _, _) => LogItem("save_task", Saved(task))
    case Update(id, status, _, _) => LogItem("update_status", StatusChange(id, status))
  }

  /** The items whose entries were written since the last successful truncation, in order. */
  function Logged(ops: seq<LogOp>): seq<LogItem> {
    if ops == [] then [] else
      var init, op := ops[..|ops| - 1], ops[|ops| - 1];
      if op.Truncate? && op.ok then []
      else if ReachesLog(init, op) && op.writes.entryOk then Logged(init) + [ItemOf(op)]
      else Logged(init)
  }

  /** The number in memory: what the last restart recovered, and one more for each attempt to log
      since, successful or not. */
  ghost function Reached(ops: seq<LogOp>): nat {
    if ops == [] then 0 else
      var init, op := ops[..|ops| - 1], ops[|ops| - 1];
      if op.Restart? then Counter(Exec(init).live) else Reached(init) + if ReachesLog(init, op) then 1 else 0
  }

  lemma HoldsStep(r: Run, op: LogOp, id: nat)
    ensures HoldsObject(Apply(r, op).disk.db, id) <==>
      HoldsObject(r.disk.db, id) || (op.Save? && op.putOk && op.task.id == id)
  {
    match op
    case Append(item, w) =>
      AppendKeepsTasks(r.disk, item, w, id);
    case Save(task, _, w) =>
      TaskKeyInjective(id, task.id);
      AppendKeepsTasks(PutValue(r.disk, task.id, TaskValue(task)), LogItem("save_task", Saved(task)), w, id);
    case Update(k, status, _, w) =>
      TaskKeyInjective(id, k);
      if HoldsObject(r.disk.db, k) {
        var v := WithStatus(r.disk.db[TaskKey(k)], status);
        AppendKeepsTasks(PutValue(r.disk, k, v), LogItem("update_status", StatusChange(k, status)), w, id);
      }
    case Truncate(_) =>
      WalKeysApart(0, id);
    case Restart =>
  }

  /** In every run an object is stored for an id exactly when a save of it succeeded. */
  lemma {:induction false} HoldsExactlyWhen(ops: seq<LogOp>, id: nat)
    ensures HoldsObject(Exec(ops).disk.db, id) <==> id in Stored(ops)
  {
    if ops != [] {
      hide HoldsObject, Apply;
      HoldsExactlyWhen(ops[..|ops| - 1], id);
      HoldsStep(Exec(ops[..|ops| - 1]), ops[|ops| - 1], id);
    } else {
      assert Exec(ops).disk.db == map[];
    }
  }

  lemma LogLive(r: Run, item: LogItem, w: Writes)
    ensures Log(r, item, w).disk.sequence == Wrap(r.disk.sequence + 1)
    ensures Items(Records(Log(r, item, w).live)) == Items(Records(r.live)) + if w.entryOk then [item] else []
  {
    var r' := Log(r, item, w);
    if w.entryOk {
      var n := |r.live|;
      assert Records(r'.live)[..n] == Records(r.live);
    }
  }

  lemma StepJournal(r: Run, op: LogOp, reaches: bool)
    requires reaches <==>
      op.Append? || (op.Save? && op.putOk) || (op.Update? && op.putOk && HoldsObject(r.disk.db, op.id))
    ensures var r' := Apply(r, op);
      && (!op.Restart? ==> r'.disk.sequence == if reaches then Wrap(r.disk.sequence + 1) else r.disk.sequence)
      && Items(Records(r'.live)) ==
         if op.Truncate? && op.ok then []
         else if reaches && op.writes.entryOk then Items(Records(r.live)) + [ItemOf(op)]
         else Items(Records(r.live))
  {
    hide HoldsObject, Log, Items, RestartOf;
    match op
    case Append(item, w) =>
      LogLive(r, item, w);
    case Save(task, _, w) =>
      LogLive(r.(disk := PutValue(r.disk, task.id, TaskValue(task))), ItemOf(op), w);
    case Update(id, status, _, w) =>
      if reaches {
        PutThenLog(r, op);
      }
    case Truncate(_) =>
      assert Records([]) == [];
      NoItems();
    case Restart =>
  }

  lemma NoItems()
    ensures Items([]) == []
  {
  }

  lemma PutThenLog(r: Run, op: LogOp)
    requires op.Update? && op.putOk && HoldsObject(r.disk.db, op.id)
    ensures var r' := Apply(r, op);
      && r'.disk.sequence == Wrap(r.disk.sequence + 1)
      && Items(Records(r'.live)) == Items(Records(r.live)) + if op.writes.entryOk then [ItemOf(op)] else []
  {
    var r1 := r.(disk := PutValue(r.disk, op.id, WithStatus(r.disk.db[TaskKey(op.id)], op.status)));
    hide Log, Items;
    LogLive(r1, ItemOf(op), op.writes);
  }

  lemma ReachesExactlyWhen(ops: seq<LogOp>, op: LogOp)
    ensures ReachesLog(ops, op) <==>
      op.Append? || (op.Save? && op.putOk) || (op.Update? && op.putOk && HoldsObject(Exec(ops).disk.db, op.id))
  {
    if op.Update? {
      HoldsExactlyWhen(ops, op.id);
    }
  }

  /** In every run the live entries are those of the items logged, in order. */
  lemma {:induction false} LiveIsLogged(ops: seq<LogOp>)
    ensures Items(Records(Exec(ops).live)) == Logged(ops)
  {
    if ops == [] {
      assert Records([]) == [];
    } else {
      var init, op := ops[..|ops| - 1], ops[|ops| - 1];
      LiveIsLogged(init);
      ReachesExactlyWhen(init, op);
      hide HoldsObject, Items, Apply, ReachesLog, Records;
      StepJournal(Exec(init), op, ReachesLog(init, op));
    }
  }

  /** In every run the counter in memory is what the last restart recovered and one more for each
      attempt to log since. */
  lemma {:induction false} CounterExactly(ops: seq<LogOp>)
    requires |ops| < TWO64
    ensures Exec(ops).disk.sequence == Reached(ops)
  {
    if ops != [] {
      var init, op := ops[..|ops| - 1], ops[|ops| - 1];
      CounterExactly(init);
      hide Exec;
      CounterStep(init, op);
      ExecSnoc(init, op);
      assert init + [op] == ops;
    }
  }

  lemma CounterStep(ops: seq<LogOp>, op: LogOp)
    requires |ops| + 1 < TWO64
    ensures Apply(Exec(ops), op).disk.sequence ==
      if op.Restart? then Counter(Exec(ops).live)
      else Exec(ops).disk.sequence + if ReachesLog(ops, op) then 1 else 0
  {
    hide Exec, HoldsObject, Items, Apply, ReachesLog, Records, DiskInv, Counter;
    InvExec(ops);
    CounterBounded(Exec(ops), |ops|);
    if op.Restart? {
      RestartRecovers(Exec(ops));
    } else {
      ReachesExactlyWhen(ops, op);
      StepJournal(Exec(ops), op, ReachesLog(ops, op));
      assert Wrap(Exec(ops).disk.sequence + 1) == Exec(ops).disk.sequence + 1;
    }
  }

  // ----- What a replay reports

  lemma {:induction false} ItemsConcat(a: seq<LogRecord>, b: seq<LogRecord>)
    ensures Items(a + b) == Items(a) + Items(b)
    decreases |b|
  {
    if b == [] {
      assert a + b == a;
    } else {
      assert (a + b)[..|a + b| - 1] == a + b[..|b| - 1];
      ItemsConcat(a, b[..|b| - 1]);
    }
  }

  lemma TakeOut(b: seq<LogRecord>, k: nat) returns (rest: seq<LogRecord>)
    requires k < |b|
    ensures |rest| < |b|
      && multiset(b) == multiset(rest) + multiset{b[k]}
      && multiset(Items(b)) == multiset(Items(rest)) + multiset{LogItem(b[k].operation, b[k].data)}
  {
    var x, y, e := b[..k], b[k + 1..], b[k];
    rest := x + y;
    assert b == (x + [e]) + y;
    ItemsConcat(x + [e], y);
    ItemsConcat(x, [e]);
    ItemsConcat(x, y);
    assert Items([e]) == [LogItem(e.operation, e.data)];
    hide Items;
  }

  /** The same entries in another order give the same items in another order. */
  lemma {:induction false} ItemsPermuted(a: seq<LogRecord>, b: seq<LogRecord>)
    requires multiset(a) == multiset(b)
    ensures multiset(Items(a)) == multiset(Items(b))
    decreases |a|
  {
    if a == [] {
      assert |multiset(b)| == 0;
    } else {
      var n := |a| - 1;
      var e := a[n];
      assert e in multiset(b);
      var k :| 0 <= k < |b| && b[k] == e;
      hide Items;
      var a' := TakeOut(a, n);
      var b' := TakeOut(b, k);
      CancelOne(multiset(a'), multiset(b'), e);
      ItemsPermuted(a', b');
    }
  }

  lemma CancelOne(a: multiset<LogRecord>, b: multiset<LogRecord>, e: LogRecord)
    requires a + multiset{e} == b + multiset{e}
    ensures a == b
  {
    assert a == a + multiset{e} - multiset{e};
    assert b == b + multiset{e} - multiset{e};
  }

  lemma {:induction false} SameElems(a: seq<LogRecord>, b: seq<LogRecord>)
    requires NoDup(a) && NoDup(b) && Elems(a) == Elems(b)
    ensures multiset(a) == multiset(b)
  {
    OnceEach(a);
    OnceEach(b);
    forall e ensures multiset(a)[e] == multiset(b)[e] {
      assert e in Elems(a) <==> e in Elems(b);
    }
  }

  lemma {:induction false} OnceEach(a: seq<LogRecord>)
    requires NoDup(a)
    ensures forall e :: multiset(a)[e] == if e in a then 1 else 0
  {
    if a != [] {
      var n := |a| - 1;
      OnceEach(a[..n]);
      assert a == a[..n] + [a[n]];
    }
  }

  /** In every run a replay reports the items logged since the last truncation, each as often, if no
      number was written twice, and in their order if each number precedes the next one. */
  lemma ReplayReports(ops: seq<LogOp>, keys: seq<string>)
    requires |ops| < TWO64 && Visits(keys, Exec(ops).disk.db.Keys)
    ensures Distinct(Exec(ops).live) ==> multiset(Items(Replayed(Exec(ops), keys))) == multiset(Logged(ops))
    ensures DigitsAgree(Exec(ops).live) ==> Items(Replayed(Exec(ops), keys)) == Logged(ops)
  {
    var r := Exec(ops);
    InvExec(ops);
    LiveIsLogged(ops);
    hide Exec, DiskInv, Visits, Replayed, DigitsAgree, Logged, Items, Elems, Distinct, NoDup, Records;
    ReplayCompleteExactlyWhen(r, keys);
    AppendOrderExactlyWhen(r, keys);
    if Distinct(r.live) {
      DistinctRecords(r.live);
      SameElems(Replayed(r, keys), Records(r.live));
      ItemsPermuted(Replayed(r, keys), Records(r.live));
    }
  }

  lemma DistinctRecords(live: seq<Written>)
    requires Distinct(live)
    ensures NoDup(Records(live))
  {
  }

  /** In every run whose restarts are careful a replay reports exactly the items logged since the last
      truncation. */
  lemma CarefulReplayReports(ops: seq<LogOp>, keys: seq<string>)
    requires |ops| < TWO64 && Careful(ops) && Visits(keys, Exec(ops).disk.db.Keys)
    ensures multiset(Items(Replayed(Exec(ops), keys))) == multiset(Logged(ops))
  {
    CarefulOrderly(ops);
    hide Exec, DiskInv, Visits, Replayed, Logged, Items, Careful, Within;
    ReplayReports(ops, keys);
  }
}
