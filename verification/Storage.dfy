/** The storage object: its methods, scan by scan and write by write. */
module Storage {
  import opened Basics
  import opened Sequences
  import opened Numerals
  import opened OrderedStore
  import opened WriteLog
  import opened Replay

  /** The tasks stored under the given keys; values that do not decode are skipped. */
  function TasksAt(db: Db, keys: seq<string>): seq<TaskData>
    requires forall i :: 0 <= i < |keys| ==> keys[i] in db
  {
    if keys == [] then [] else
      TasksAt(db, keys[..|keys| - 1]) + if IsTask(db[keys[|keys| - 1]]) then [TaskOf(db[keys[|keys| - 1]])] else []
  }

  /** Every object with an id is stored under the key of that id. */
  ghost predicate TasksFiled(db: Db) {
    forall k :: k in db && db[k].Object? && db[k].id.Some? ==> k == TaskKey(db[k].id.value)
  }

  /** The value decodes as this task. */
  predicate Decodes(v: Value, t: TaskData) {
    IsTask(v) && TaskOf(v) == t
  }

  lemma TaskKeyInjective(a: nat, b: nat)
    ensures TaskKey(a) == TaskKey(b) <==> a == b
  {
    assert TaskKey(a)[|TASK_PREFIX|..] == Decimal(a) && TaskKey(b)[|TASK_PREFIX|..] == Decimal(b);
    if Decimal(a) == Decimal(b) {
      DecimalInjective(a, b);
    }
  }

  lemma {:induction false} TasksAtElems(db: Db, keys: seq<string>)
    requires forall i :: 0 <= i < |keys| ==> keys[i] in db
    ensures forall t :: t in TasksAt(db, keys) <==> exists k :: k in keys && Decodes(db[k], t)
  {
    if keys != [] {
      var init, k := keys[..|keys| - 1], keys[|keys| - 1];
      assert keys == init + [k];
      TasksAtElems(db, init);
    }
  }

  lemma {:induction false} TasksAtDistinct(db: Db, keys: seq<string>)
    requires TasksFiled(db) && Ascending(keys) && forall i :: 0 <= i < |keys| ==> keys[i] in db
    ensures forall i, j :: 0 <= i < j < |TasksAt(db, keys)| ==>
      Less(TaskKey(TasksAt(db, keys)[i].id), TaskKey(TasksAt(db, keys)[j].id))
  {
    if keys != [] {
      var init, k := keys[..|keys| - 1], keys[|keys| - 1];
      assert keys == init + [k];
      TasksAtDistinct(db, init);
      TasksAtElems(db, init);
      var ts := TasksAt(db, init);
      if IsTask(db[k]) {
        forall i | 0 <= i < |ts| ensures Less(TaskKey(ts[i].id), k) {
          assert ts[i] in ts;
          var k' :| k' in init && Decodes(db[k'], ts[i]);
          var j :| 0 <= j < |init| && init[j] == k';
        }
      }
    }
  }

  ghost predicate AllIn(db: Db, keys: seq<string>) {
    forall i :: 0 <= i < |keys| ==> keys[i] in db
  }

  /** What a replay reports of the entries it reads. */
  function Items(es: seq<LogRecord>): seq<LogItem> {
    if es == [] then [] else Items(es[..|es| - 1]) + [LogItem(es[|es| - 1].operation, es[|es| - 1].data)]
  }

  lemma {:induction false} ItemsAt(es: seq<LogRecord>)
    ensures |Items(es)| == |es|
    ensures forall i :: 0 <= i < |es| ==> Items(es)[i] == LogItem(es[i].operation, es[i].data)
  {
    if es != [] {
      ItemsAt(es[..|es| - 1]);
    }
  }

  /** Where the digits agree, what a replay reports is the live log itself, in append order. */
  lemma ReplayReturnsLog(r: Run, keys: seq<string>)
    requires DiskInv(r) && Visits(keys, r.disk.db.Keys) && DigitsAgree(r.live)
    ensures var es := Items(Replayed(r, keys));
      |es| == |r.live| && forall i :: 0 <= i < |es| ==>
        es[i] == LogItem(r.live[i].record.operation, r.live[i].record.data)
  {
    hide DiskInv, Visits, Replayed, DigitsAgree, Items;
    AppendOrderExactlyWhen(r, keys);
    ItemsAt(Records(r.live));
  }

  method CollectItems(db: Db, wal: seq<string>) returns (operations: seq<LogItem>)
    requires AllIn(db, wal)
    ensures operations == Items(Entries(db, wal))
  {
    operations := [];
    var i := 0;
    while i < |wal|
      invariant i <= |wal| && operations == Items(Entries(db, wal[..i]))
    {
      assert wal[..i + 1][..i] == wal[..i];
      var v := db[wal[i]];
      ghost var es := Entries(db, wal[..i]);
      if IsLogEntry(v) {
        operations := operations + [LogItem(v.record.value.operation, v.record.value.data)];
      } else {
        assert Entries(db, wal[..i + 1]) == es;
      }
      i := i + 1;
    }
    assert wal[..i] == wal;
  }

  method CollectTasks(db: Db, found: seq<string>) returns (tasks: seq<TaskData>)
    requires AllIn(db, found)
    ensures tasks == TasksAt(db, found)
  {
    tasks := [];
    var i := 0;
    while i < |found|
      invariant i <= |found| && tasks == TasksAt(db, found[..i])
    {
      assert found[..i + 1][..i] == found[..i];
      var v := db[found[i]];
      if IsTask(v) {
        tasks := tasks + [TaskOf(v)];
      }
      i := i + 1;
    }
    assert found[..i] == found;
  }

  method CollectKeys(wal: seq<string>) returns (batch: set<string>)
    ensures batch == Elems(wal)
  {
    batch := {};
    var i := 0;
    while i < |wal|
      invariant i <= |wal| && batch == Elems(wal[..i])
    {
      assert wal[..i + 1] == wal[..i] + [wal[i]];
      batch := batch + {wal[i]};
      i := i + 1;
    }
    assert wal[..i] == wal;
  }

  class Store {
    var db: Db
    var sequence: nat

    ghost function View(): Disk
      reads this
    {
      Disk(db, sequence)
    }

    constructor (db: Db)
      ensures View() == Disk(db, 0)
    {
      this.db, this.sequence := db, 0;
    }

    /** Recovers the counter, if its record is there; false stands for the exception of an
        unreadable record. */
    method Initialize() returns (ok: bool)
      modifies this
      ensures WalKey(0) !in db ==> ok && sequence == old(sequence)
      ensures forall n: nat :: n < TWO64 && WalKey(0) in db && db[WalKey(0)] == Text(Decimal(n)) ==> ok && sequence == n
      ensures db == old(db)
      ensures ok <==> RecoverOf(old(View())).Ready?
      ensures View() == if ok then RecoverOf(old(View())).disk else old(View())
    {
      if WalKey(0) !in db {
        return true;
      }
      var v := db[WalKey(0)];
      if !v.Text? {
        return false;
      }
      forall n: nat | v == Text(Decimal(n)) && n < TWO64 ensures Stoull(v.text) == Number(n) {
        StoullInvertsDecimal(n);
      }
      var n := Stoull(v.text);
      if !n.Number? {
        return false;
      }
      sequence := n.n;
      return true;
    }

    method AppendToWAL(operation: string, data: Data, w: Writes) returns (ok: bool)
      modifies this
      ensures View() == AppendOf(old(View()), LogItem(operation, data), w) && ok == w.entryOk
      ensures sequence == Wrap(old(sequence) + 1)
      ensures w.entryOk && sequence > 0 ==>
        WalKey(sequence) in db && db[WalKey(sequence)] == LogEntry(LogRecord(sequence, operation, data))
      ensures w.entryOk && w.counterOk ==> WalKey(0) in db && db[WalKey(0)] == Text(Decimal(sequence))
      ensures !w.entryOk ==> db == old(db)
    {
      sequence := Wrap(sequence + 1);
      WalKeyInjective(sequence, 0);
      if w.entryOk {
        db := db[WalKey(sequence) := LogEntry(LogRecord(sequence, operation, data))];
        if w.counterOk {
          db := db[WalKey(0) := Text(Decimal(sequence))];
        }
        return true;
      }
      return false;
    }

    /** Saving writes the task, then the log; a failed log write does not show in the answer. */
    method SaveTask(task: TaskData, putOk: bool, w: Writes) returns (ok: bool)
      modifies this
      ensures ok == putOk
      ensures View() == if !putOk then old(View()) else
        AppendOf(PutValue(old(View()), task.id, TaskValue(task)), LogItem("save_task", Saved(task)), w)
    {
      if !putOk {
        return false;
      }
      db := db[TaskKey(task.id) := TaskValue(task)];
      var _ := AppendToWAL("save_task", Saved(task), w);
      return true;
    }

    /** Whatever object is stored for the id gets the status, and the update is logged. */
    method UpdateTaskStatus(id: nat, status: int, putOk: bool, w: Writes) returns (ok: bool)
      modifies this
      ensures ok == (old(HoldsObject(db, id)) && putOk)
      ensures View() == if !ok then old(View()) else
        AppendOf(PutValue(old(View()), id, WithStatus(old(db)[TaskKey(id)], status)),
                 LogItem("update_status", StatusChange(id, status)), w)
    {
      if TaskKey(id) !in db || !db[TaskKey(id)].Object? || !putOk {
        return false;
      }
      db := db[TaskKey(id) := db[TaskKey(id)].(status := Some(status))];
      var _ := AppendToWAL("update_status", StatusChange(id, status), w);
      return true;
    }

    method LoadTask(id: nat) returns (found: Option<TaskData>)
      ensures found == LookupTask(db, id)
    {
      if TaskKey(id) !in db || !IsTask(db[TaskKey(id)]) {
        return None;
      }
      return Some(TaskOf(db[TaskKey(id)]));
    }

    /** `keys` is what the database iterator visits. */
    method ReplayWAL(keys: seq<string>) returns (operations: seq<LogItem>)
      requires Visits(keys, db.Keys)
      ensures AllIn(db, WithPrefix(keys, WAL_PREFIX)) && operations == Items(Entries(db, WithPrefix(keys, WAL_PREFIX)))
    {
      var wal := ScanPrefix(keys, WAL_PREFIX);
      WithPrefixElems(keys, WAL_PREFIX);
      operations := CollectItems(db, wal);
    }

    /** The deletions are collected in a batch that is written as a whole, or not at all. */
    method TruncateWAL(keys: seq<string>, writeOk: bool) returns (ok: bool)
      requires Visits(keys, db.Keys)
      modifies this
      ensures ok == writeOk
      ensures View() == if ok then TruncateOf(old(View())) else old(View())
      ensures sequence == old(sequence)
      ensures ok ==> forall k :: k in db <==> k in old(db) && !HasPrefix(k, WAL_PREFIX)
      ensures forall k :: k in db ==> db[k] == old(db)[k]
    {
      var wal := ScanPrefix(keys, WAL_PREFIX);
      var batch := CollectKeys(wal);
      BatchIsTruncation(View(), keys);
      if writeOk {
        db := db - batch;
      }
      ok := writeOk;
    }

    /** Every stored task that decodes is loaded and nothing else, and each only once where every
        task is stored under its own key. */
    method LoadAllTasks(keys: seq<string>) returns (tasks: seq<TaskData>)
      requires Visits(keys, db.Keys)
      ensures forall t :: t in tasks <==> exists k :: k in db && HasPrefix(k, TASK_PREFIX) && Decodes(db[k], t)
      ensures TasksFiled(db) ==> forall i, j :: 0 <= i < j < |tasks| ==> tasks[i].id != tasks[j].id
    {
      var found := ScanPrefix(keys, TASK_PREFIX);
      WithPrefixElems(keys, TASK_PREFIX);
      tasks := CollectTasks(db, found);
      LoadIsExact(db, keys);
    }
  }

  lemma BatchIsTruncation(d: Disk, keys: seq<string>)
    requires Visits(keys, d.db.Keys)
    ensures d.db - Elems(WithPrefix(keys, WAL_PREFIX)) == TruncateOf(d).db
  {
    var batch := Elems(WithPrefix(keys, WAL_PREFIX));
    WithPrefixElems(keys, WAL_PREFIX);
    forall k | k in d.db ensures k in batch <==> HasPrefix(k, WAL_PREFIX) {
      assert k in Elems(keys);
    }
    hide HasPrefix, WithPrefix, Elems;
  }

  lemma LoadIsExact(db: Db, keys: seq<string>)
    requires Visits(keys, db.Keys) && AllIn(db, WithPrefix(keys, TASK_PREFIX))
    ensures var tasks := TasksAt(db, WithPrefix(keys, TASK_PREFIX));
      && (forall t :: t in tasks <==> exists k :: k in db && HasPrefix(k, TASK_PREFIX) && Decodes(db[k], t))
      && (TasksFiled(db) ==> forall i, j :: 0 <= i < j < |tasks| ==> tasks[i].id != tasks[j].id)
  {
    var found := WithPrefix(keys, TASK_PREFIX);
    WithPrefixElems(keys, TASK_PREFIX);
    TasksAtElems(db, found);
    forall k ensures k in found <==> k in db && HasPrefix(k, TASK_PREFIX) {
      assert k in Elems(keys) <==> k in keys;
    }
    var tasks := TasksAt(db, found);
    if TasksFiled(db) {
      TasksAtDistinct(db, found);
      forall i, j | 0 <= i < j < |tasks| ensures tasks[i].id != tasks[j].id {
        LessTotal(TaskKey(tasks[i].id), TaskKey(tasks[j].id));
      }
    }
  }

  function LookupTask(db: Db, id: nat): Option<TaskData> {
    if TaskKey(id) in db && IsTask(db[TaskKey(id)]) then Some(TaskOf(db[TaskKey(id)])) else None
  }

  /** The log's writes touch no task. */
  lemma AppendKeepsTasks(d: Disk, item: LogItem, w: Writes, id: nat)
    ensures var db := AppendOf(d, item, w).db;
      (TaskKey(id) in db <==> TaskKey(id) in d.db) && (TaskKey(id) in db ==> db[TaskKey(id)] == d.db[TaskKey(id)])
    ensures TasksFiled(d.db) ==> TasksFiled(AppendOf(d, item, w).db)
  {
    forall q: nat, k: nat ensures WalKey(q) != TaskKey(k) {
      WalKeysApart(q, k);
    }
    hide WalKey, TaskKey, Wrap, Decimal;
  }

  /** Writing a task leaves every task under its own key, makes the task the one that is found
      there, and touches no other. */
  lemma WriteKeepsFiled(d: Disk, task: TaskData, item: LogItem, w: Writes, id: nat)
    requires TasksFiled(d.db)
    ensures var db := AppendOf(PutValue(d, task.id, TaskValue(task)), item, w).db;
      TasksFiled(db) && LookupTask(db, id) == if id == task.id then Some(task) else LookupTask(d.db, id)
  {
    TaskKeyInjective(id, task.id);
    AppendKeepsTasks(PutValue(d, task.id, TaskValue(task)), item, w, id);
    hide TaskKey, AppendOf;
  }

  /** What an update makes of the object stored for an id: the task that it then is, if any. */
  function Updated(db: Db, id: nat, status: int): Option<TaskData> {
    if HoldsObject(db, id) && db[TaskKey(id)].id.Some? && db[TaskKey(id)].body.Some?
    then Some(TaskData(db[TaskKey(id)].id.value, status, db[TaskKey(id)].body.value)) else None
  }

  /** The store behaves as a plain map from ids to tasks: a save replaces one entry, a status update
      changes or supplies the status of an existing one, and logging, truncation and restarts change
      none. */
  lemma StoreIsMap(r: Run, op: LogOp, id: nat)
    ensures LookupTask(Apply(r, op).disk.db, id) ==
      if op.Save? && op.putOk && op.task.id == id then Some(op.task)
      else if op.Update? && op.putOk && op.id == id then Updated(r.disk.db, id, op.status)
      else LookupTask(r.disk.db, id)
    ensures var found := LookupTask(r.disk.db, id);
      op.Update? && found.Some? ==> Updated(r.disk.db, id, op.status) == Some(found.value.(status := op.status))
  {
    match op
    case Append(item, w) =>
      AppendKeepsTasks(r.disk, item, w, id);
    case Save(task, _, w) =>
      TaskKeyInjective(id, task.id);
      AppendKeepsTasks(PutValue(r.disk, task.id, TaskValue(task)), LogItem("save_task", Saved(task)), w, id);
    case Update(k, status, _, w) =>
      TaskKeyInjective(id, k);
      if HoldsObject(r.disk.db, k) {
        var v := WithStatus(r.disk.db[TaskKey(k)], status);
        AppendKeepsTasks(PutValue(r.disk, k, v), LogItem("update_status", StatusChange(k, status)), w, id);
      }
    case Truncate(_) =>
      WalKeysApart(0, id);
    case Restart =>
  }

  /** In every run each stored task is under the key of its own id. */
  lemma {:induction false} FiledExec(ops: seq<LogOp>)
    ensures TasksFiled(Exec(ops).disk.db)
  {
    if ops != [] {
      var r, op := Exec(ops[..|ops| - 1]), ops[|ops| - 1];
      FiledExec(ops[..|ops| - 1]);
      FiledStep(r, op);
    }
  }

  lemma FiledStep(r: Run, op: LogOp)
    requires TasksFiled(r.disk.db)
    ensures TasksFiled(Apply(r, op).disk.db)
  {
    hide AppendOf, TaskKey, WalKey;
    match op
    case Append(item, w) =>
      AppendKeepsTasks(r.disk, item, w, 0);
    case Save(task, _, w) =>
      AppendKeepsTasks(PutValue(r.disk, task.id, TaskValue(task)), LogItem("save_task", Saved(task)), w, 0);
    case Update(id, status, _, w) =>
      if HoldsObject(r.disk.db, id) {
        var v := WithStatus(r.disk.db[TaskKey(id)], status);
        AppendKeepsTasks(PutValue(r.disk, id, v), LogItem("update_status", StatusChange(id, status)), w, 0);
      }
    case Truncate(_) =>
    case Restart =>
  }
}
