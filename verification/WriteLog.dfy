/** The task store and its write-ahead log over one ordered key-value store. */
module WriteLog {
  import opened Basics
  import opened Numerals
  import opened OrderedStore

  const TASK_PREFIX := "task:"
  const WAL_PREFIX := "wal:"

  datatype TaskData = TaskData(id: nat, status: int, body: string)

  datatype Data = Saved(task: TaskData) | StatusChange(id: nat, status: int) | Other(text: string)

  datatype LogRecord = LogRecord(sequence: nat, operation: string, data: Data)

  /** A stored value: text that is no JSON object, such as the counter's numeral, or an object with
      whatever can be read from it, `null` being an object with nothing in it. Dumping and parsing
      JSON is taken as a round trip. */
  datatype Value =
    | Text(text: string)
    | Object(record: Option<LogRecord>, id: Option<nat>, status: Option<int>, body: Option<string>)

  type Db = map<string, Value>

  /** What is on disk and the sequence counter in memory. */
  datatype Disk = Disk(db: Db, sequence: nat)

  datatype LogItem = LogItem(operation: string, data: Data)

  function LogEntry(record: LogRecord): Value {
    Object(Some(record), None, None, None)
  }

  predicate IsLogEntry(v: Value) {
    v.Object? && v.record.Some?
  }

  function TaskValue(task: TaskData): Value {
    Object(None, Some(task.id), Some(task.status), Some(task.body))
  }

  /** An object decodes as a task when no part is missing. */
  predicate IsTask(v: Value) {
    v.Object? && v.id.Some? && v.status.Some? && v.body.Some?
  }

  function TaskOf(v: Value): TaskData
    requires IsTask(v)
  {
    TaskData(v.id.value, v.status.value, v.body.value)
  }

  function TaskKey(id: nat): string {
    TASK_PREFIX + Decimal(id)
  }

  function WalKey(sequence: nat): string {
    WAL_PREFIX + Decimal(sequence)
  }

  function ExtractTaskId(key: string): Parsed {
    if HasPrefix(key, TASK_PREFIX) then Stoull(key[|TASK_PREFIX|..]) else Number(0)
  }

  /** A task key gives back its id, for every 64-bit id. */
  lemma ExtractInvertsTaskKey(id: nat)
    requires id < TWO64
    ensures ExtractTaskId(TaskKey(id)) == Number(id)
  {
    assert TaskKey(id)[|TASK_PREFIX|..] == Decimal(id);
    StoullInvertsDecimal(id);
  }

  lemma WalKeyInjective(a: nat, b: nat)
    ensures WalKey(a) == WalKey(b) <==> a == b
  {
    assert WalKey(a)[|WAL_PREFIX|..] == Decimal(a) && WalKey(b)[|WAL_PREFIX|..] == Decimal(b);
    if Decimal(a) == Decimal(b) {
      DecimalInjective(a, b);
    }
  }

  lemma WalKeysApart(sequence: nat, id: nat)
    ensures HasPrefix(WalKey(sequence), WAL_PREFIX) && !HasPrefix(TaskKey(id), WAL_PREFIX)
    ensures HasPrefix(TaskKey(id), TASK_PREFIX) && !HasPrefix(WalKey(sequence), TASK_PREFIX)
  {
    assert TaskKey(id)[0] == 't' && WalKey(sequence)[0] == 'w';
  }

  lemma WalKeyOrder(a: nat, b: nat)
    ensures Less(WalKey(a), WalKey(b)) <==> Less(Decimal(a), Decimal(b))
  {
    LessPrepend(WAL_PREFIX, Decimal(a), Decimal(b));
  }

  // ----- The operations on disk and counter

  /** Which of an append's two writes succeed; the second is tried only after the first. */
  datatype Writes = Writes(entryOk: bool, counterOk: bool)

  function AppendOf(d: Disk, item: LogItem, w: Writes): Disk {
    var sequence := Wrap(d.sequence + 1);
    var db := if w.entryOk then d.db[WalKey(sequence) := LogEntry(RecordOf(sequence, item))] else d.db;
    Disk(if w.entryOk && w.counterOk then db[WalKey(0) := Text(Decimal(sequence))] else db, sequence)
  }

  function RecordOf(sequence: nat, item: LogItem): LogRecord {
    LogRecord(sequence, item.operation, item.data)
  }

  function TruncateOf(d: Disk): Disk {
    d.(db := map k | k in d.db && !HasPrefix(k, WAL_PREFIX) :: d.db[k])
  }

  datatype Recovered = Ready(disk: Disk) | Crashed

  /** The counter is read back from its record, if there is one; an unreadable record is not caught. */
  function RecoverOf(d: Disk): Recovered {
    if WalKey(0) !in d.db then Ready(d) else
      match d.db[WalKey(0)]
      case Text(t) => (match Stoull(t) case Number(n) => Ready(d.(sequence := n)) case _ => Crashed)
      case _ => Crashed
  }

  /** A fresh process starts from zero. */
  function RestartOf(d: Disk): Recovered {
    RecoverOf(d.(sequence := 0))
  }

  function PutValue(d: Disk, id: nat, v: Value): Disk {
    d.(db := d.db[TaskKey(id) := v])
  }

  /** Any object stored for the id takes the new status, whatever else it holds. */
  predicate HoldsObject(db: Db, id: nat) {
    TaskKey(id) in db && db[TaskKey(id)].Object?
  }

  function WithStatus(v: Value, status: int): Value
    requires v.Object?
  {
    v.(status := Some(status))
  }

  // ----- Runs

  datatype LogOp =
    | Append(item: LogItem, writes: Writes)
    | Save(task: TaskData, putOk: bool, writes: Writes)
    | Update(id: nat, status: int, putOk: bool, writes: Writes)
    | Truncate(ok: bool)
    | Restart

  /** An entry that was written, and whether the counter's record was written with it. */
  datatype Written = Written(record: LogRecord, counted: bool)

  /** The disk, and the entries written since the last truncation, in the order of their writing. */
  datatype Run = Run(disk: Disk, live: seq<Written>)

  const START := Run(Disk(map[], 0), [])

  function Log(r: Run, item: LogItem, w: Writes): Run {
    var d := AppendOf(r.disk, item, w);
    Run(d, if w.entryOk then r.live + [Written(RecordOf(d.sequence, item), w.counterOk)] else r.live)
  }

  function Apply(r: Run, op: LogOp): Run {
    match op
    case Append(item, w) => Log(r, item, w)
    case Save(task, putOk, w) =>
      if !putOk then r else
        Log(r.(disk := PutValue(r.disk, task.id, TaskValue(task))), LogItem("save_task", Saved(task)), w)
    case Update(id, status, putOk, w) =>
      if !HoldsObject(r.disk.db, id) || !putOk then r else
        Log(r.(disk := PutValue(r.disk, id, WithStatus(r.disk.db[TaskKey(id)], status))),
            LogItem("update_status", StatusChange(id, status)), w)
    case Truncate(ok) => if ok then Run(TruncateOf(r.disk), []) else r
    case Restart => (match RestartOf(r.disk) case Ready(d) => r.(disk := d) case Crashed => r)
  }

  function ExecFrom(r: Run, ops: seq<LogOp>): Run {
    if ops == [] then r else Apply(ExecFrom(r, ops[..|ops| - 1]), ops[|ops| - 1])
  }

  function Exec(ops: seq<LogOp>): Run {
    ExecFrom(START, ops)
  }

  // ----- What is on disk, in every run

  /** What is stored under a log number; number 0 is the counter's record. */
  function At(db: Db, q: nat): Option<Value> {
    if WalKey(q) in db then Some(db[WalKey(q)]) else None
  }

  /** The entry last written under a number. */
  function Latest(live: seq<Written>, q: nat): Option<LogRecord> {
    if live == [] then None
    else if live[|live| - 1].record.sequence == q then Some(live[|live| - 1].record)
    else Latest(live[..|live| - 1], q)
  }

  /** The last number the counter's record was written with, 0 if it was not. */
  function Counter(live: seq<Written>): nat {
    if live == [] then 0
    else if live[|live| - 1].counted then live[|live| - 1].record.sequence
    else Counter(live[..|live| - 1])
  }

  ghost predicate Numbered(db: Db) {
    forall k :: k in db && HasPrefix(k, WAL_PREFIX) ==> exists q: nat :: k == WalKey(q)
  }

  function EntryValue(record: Option<LogRecord>): Option<Value> {
    if record.None? then None else Some(LogEntry(record.value))
  }

  function CounterValue(counter: nat): Option<Value> {
    if counter == 0 then None else Some(Text(Decimal(counter)))
  }

  /** The log on disk holds, under each number, the entry last written there since the truncation,
      the counter's record holds the last number it was written with, and nothing else is there;
      entries are numbered from 1. */
  ghost predicate DiskInv(r: Run) {
    && Numbered(r.disk.db)
    && At(r.disk.db, 0) == CounterValue(Counter(r.live))
    && (forall q: nat :: q > 0 ==> At(r.disk.db, q) == EntryValue(Latest(r.live, q)))
    && (forall i :: 0 <= i < |r.live| ==> r.live[i].record.sequence > 0)
  }

  ghost predicate Bounded(r: Run, n: nat) {
    r.disk.sequence <= n && forall i :: 0 <= i < |r.live| ==> r.live[i].record.sequence <= n
  }

  lemma AtPut(db: Db, n: nat, v: Value, q: nat)
    ensures At(db[WalKey(n) := v], q) == if q == n then Some(v) else At(db, q)
  {
    WalKeyInjective(n, q);
  }

  lemma InvPutValue(r: Run, id: nat, v: Value)
    requires DiskInv(r)
    ensures DiskInv(r.(disk := PutValue(r.disk, id, v)))
  {
    forall q: nat ensures WalKey(q) != TaskKey(id) && !HasPrefix(TaskKey(id), WAL_PREFIX) {
      WalKeysApart(q, id);
    }
    hide WalKey, TaskKey, HasPrefix, Latest, Counter, Decimal;
  }

  lemma AppendAt(d: Disk, item: LogItem, w: Writes, q: nat)
    requires d.sequence + 1 < TWO64
    ensures var n := d.sequence + 1; var d' := AppendOf(d, item, w);
      d'.sequence == n && At(d'.db, q) ==
        if q == n && w.entryOk then Some(LogEntry(RecordOf(n, item)))
        else if q == 0 && w.entryOk && w.counterOk then Some(Text(Decimal(n)))
        else At(d.db, q)
  {
    var n := d.sequence + 1;
    assert Wrap(n) == n;
    AtPut(d.db, n, LogEntry(RecordOf(n, item)), q);
    AtPut(d.db[WalKey(n) := LogEntry(RecordOf(n, item))], 0, Text(Decimal(n)), q);
    hide At, WalKey, Decimal, Wrap;
  }

  lemma InvLog(r: Run, item: LogItem, w: Writes)
    requires DiskInv(r) && r.disk.sequence + 1 < TWO64
    ensures DiskInv(Log(r, item, w))
  {
    var r' := Log(r, item, w);
    AppendNumbered(r.disk, item, w);
    AppendAt(r.disk, item, w, 0);
    LiveAfter(r, item, w, 0);
    hide AppendOf, At, Latest, Counter, Numbered, Wrap, Log, Decimal;
    forall q: nat | q > 0 ensures At(r'.disk.db, q) == EntryValue(Latest(r'.live, q)) {
      AppendAt(r.disk, item, w, q);
      LiveAfter(r, item, w, q);
    }
  }

  lemma AppendNumbered(d: Disk, item: LogItem, w: Writes)
    requires Numbered(d.db)
    ensures Numbered(AppendOf(d, item, w).db)
  {
    hide WalKey, Decimal, HasPrefix, Wrap;
  }

  lemma LiveAfter(r: Run, item: LogItem, w: Writes, q: nat)
    requires r.disk.sequence + 1 < TWO64
    ensures var r', n := Log(r, item, w), r.disk.sequence + 1;
      && r'.disk == AppendOf(r.disk, item, w)
      && Latest(r'.live, q) == (if w.entryOk && q == n then Some(RecordOf(n, item)) else Latest(r.live, q))
      && Counter(r'.live) == (if w.entryOk && w.counterOk then n else Counter(r.live))
      && (forall i :: 0 <= i < |r'.live| ==>
            r'.live[i] == (if i < |r.live| then r.live[i] else Written(RecordOf(n, item), w.counterOk)))
  {
    assert Wrap(r.disk.sequence + 1) == r.disk.sequence + 1;
    hide WalKey, Decimal, Wrap;
    if w.entryOk {
      assert Log(r, item, w).live[..|r.live|] == r.live;
    }
  }

  lemma InvTruncate(r: Run)
    ensures DiskInv(Run(TruncateOf(r.disk), []))
  {
    forall q: nat ensures HasPrefix(WalKey(q), WAL_PREFIX) {
      WalKeysApart(q, 0);
    }
  }

  lemma {:induction false} CounterFacts(live: seq<Written>)
    ensures Counter(live) == 0 || exists i :: 0 <= i < |live| && live[i].record.sequence == Counter(live)
  {
    if live != [] && !live[|live| - 1].counted {
      CounterFacts(live[..|live| - 1]);
    }
  }

  /** A restart never crashes, and recovers the last number the counter's record was written with. */
  lemma RestartRecovers(r: Run)
    requires DiskInv(r) && Counter(r.live) < TWO64
    ensures RestartOf(r.disk) == Ready(r.disk.(sequence := Counter(r.live)))
    ensures Apply(r, Restart) == r.(disk := r.disk.(sequence := Counter(r.live)))
  {
    StoullInvertsDecimal(Counter(r.live));
    hide WalKey, Decimal, Stoull, Latest, Counter, Numbered;
  }

  lemma InvRestart(r: Run)
    requires DiskInv(r)
    ensures DiskInv(r.(disk := r.disk.(sequence := Counter(r.live))))
  {
  }

  /** A task is put under its key, then an entry is appended. */
  lemma InvPutLog(r: Run, id: nat, v: Value, item: LogItem, w: Writes)
    requires DiskInv(r) && r.disk.sequence + 1 < TWO64
    ensures DiskInv(Log(r.(disk := PutValue(r.disk, id, v)), item, w))
  {
    InvPutValue(r, id, v);
    hide DiskInv, Log;
    InvLog(r.(disk := PutValue(r.disk, id, v)), item, w);
  }

  /** Whatever writes fail, every operation keeps the log on disk. */
  lemma InvStep(r: Run, op: LogOp)
    requires DiskInv(r) && r.disk.sequence + 1 < TWO64 && (op.Restart? ==> Counter(r.live) < TWO64)
    ensures DiskInv(Apply(r, op))
  {
    hide DiskInv, Log, PutValue, RestartOf, WithStatus, TaskKey;
    match op
    case Append(item, w) =>
      InvLog(r, item, w);
    case Save(task, putOk, w) =>
      InvPutLog(r, task.id, TaskValue(task), LogItem("save_task", Saved(task)), w);
    case Update(id, status, putOk, w) =>
      if HoldsObject(r.disk.db, id) {
        var v := WithStatus(r.disk.db[TaskKey(id)], status);
        InvPutLog(r, id, v, LogItem("update_status", StatusChange(id, status)), w);
      }
    case Truncate(ok) =>
      InvTruncate(r);
    case Restart =>
      RestartRecovers(r);
      InvRestart(r);
  }

  lemma CounterBounded(r: Run, n: nat)
    requires Bounded(r, n)
    ensures Counter(r.live) <= n
  {
    CounterFacts(r.live);
  }

  ghost predicate Grows(r: Run, r': Run) {
    && |r'.live| == |r.live| + 1 && r'.live[..|r.live|] == r.live
    && r'.live[|r.live|].record.sequence == r'.disk.sequence == r.disk.sequence + 1
  }

  /** Without a restart an operation appends one entry under the next number, or no entry at all. */
  lemma StepCases(r: Run, op: LogOp)
    requires !op.Restart? && r.disk.sequence + 1 < TWO64
    ensures var r' := Apply(r, op);
      || Grows(r, r')
      || (r'.live == r.live && r.disk.sequence <= r'.disk.sequence <= r.disk.sequence + 1)
      || (r'.live == [] && r'.disk.sequence == r.disk.sequence)
  {
    assert Wrap(r.disk.sequence + 1) == r.disk.sequence + 1;
    hide WalKey, TaskKey, Decimal, Wrap, TruncateOf;
  }

  lemma BoundedStep(r: Run, op: LogOp, n: nat)
    requires DiskInv(r) && Bounded(r, n) && n + 1 < TWO64
    ensures Bounded(Apply(r, op), n + 1)
  {
    hide DiskInv, Apply, RestartOf, Counter;
    if op.Restart? {
      CounterBounded(r, n);
      RestartRecovers(r);
    } else {
      StepCases(r, op);
      var r' := Apply(r, op);
      forall i | 0 <= i < |r.live| && Grows(r, r') ensures r'.live[i] == r.live[i] {
        assert r'.live[..|r.live|][i] == r'.live[i];
      }
    }
  }

  /** In every run, whatever writes fail, the log on disk is what was written since the last
      truncation. */
  lemma {:induction false} InvExec(ops: seq<LogOp>)
    requires |ops| < TWO64
    ensures DiskInv(Exec(ops)) && Bounded(Exec(ops), |ops|)
  {
    if ops != [] {
      InvExec(ops[..|ops| - 1]);
      var r := Exec(ops[..|ops| - 1]);
      CounterBounded(r, |ops| - 1);
      InvStep(r, ops[|ops| - 1]);
      BoundedStep(r, ops[|ops| - 1], |ops| - 1);
    }
  }

  // ----- Replay

  /** The entries among the given keys; other objects and text are skipped. */
  function Entries(db: Db, keys: seq<string>): seq<LogRecord>
    requires forall i :: 0 <= i < |keys| ==> keys[i] in db
  {
    if keys == [] then [] else
      Entries(db, keys[..|keys| - 1])
      + if IsLogEntry(db[keys[|keys| - 1]]) then [db[keys[|keys| - 1]].record.value] else []
  }

  /** Every entry is stored under its own number. */
  ghost predicate Filed(db: Db, keys: seq<string>) {
    forall i :: 0 <= i < |keys| ==>
      keys[i] in db && (IsLogEntry(db[keys[i]]) ==> keys[i] == WalKey(db[keys[i]].record.value.sequence))
  }

  ghost predicate IsEntry(db: Db, keys: seq<string>, e: LogRecord) {
    exists k :: k in keys && k in db && IsLogEntry(db[k]) && db[k].record.value == e
  }

  lemma {:induction false} EntriesFacts(db: Db, keys: seq<string>)
    requires Filed(db, keys) && Ascending(keys)
    ensures forall i :: 0 <= i < |Entries(db, keys)| ==> IsEntry(db, keys, Entries(db, keys)[i])
    ensures forall k :: k in keys && IsLogEntry(db[k]) ==> db[k].record.value in Entries(db, keys)
    ensures forall i, j :: 0 <= i < j < |Entries(db, keys)| ==>
      Less(WalKey(Entries(db, keys)[i].sequence), WalKey(Entries(db, keys)[j].sequence))
  {
    if keys != [] {
      var init, k := keys[..|keys| - 1], keys[|keys| - 1];
      assert keys == init + [k];
      EntriesFacts(db, init);
    }
  }
}
