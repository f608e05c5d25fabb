/** What a restart makes of the log: when later appends overwrite entries that are still live. */
module Recovery {
  import opened Basics
  import opened WriteLog

  /** Both writes of an append succeed, or only the entry's. */
  const DONE := Writes(true, true)
  const LOST := Writes(true, false)

  /** The live numbers ascend: no entry has been overwritten. */
  ghost predicate Ascends(live: seq<Written>) {
    forall i, j :: 0 <= i < j < |live| ==> live[i].record.sequence < live[j].record.sequence
  }

  /** No live number is above the counter. */
  ghost predicate Within(r: Run) {
    forall i :: 0 <= i < |r.live| ==> r.live[i].record.sequence <= r.disk.sequence
  }

  /** The operation writes its entry over an entry written since the last truncation. */
  ghost predicate Overwrites(r: Run, op: LogOp) {
    |Apply(r, op).live| > |r.live| && WalKey(Wrap(r.disk.sequence + 1)) in r.disk.db
  }

  ghost predicate Loses(r: Run, ops: seq<LogOp>) {
    exists i :: 0 <= i < |ops| && Overwrites(ExecFrom(r, ops[..i]), ops[i])
  }

  /** The last entry written since the truncation had the counter's record written with it. */
  predicate LastCounted(live: seq<Written>) {
    live == [] || live[|live| - 1].counted
  }

  /** Every restart among the operations finds the last entry counted. */
  ghost predicate CarefulFrom(r: Run, ops: seq<LogOp>) {
    forall i :: 0 <= i < |ops| && ops[i].Restart? ==> LastCounted(ExecFrom(r, ops[..i]).live)
  }

  ghost predicate Careful(ops: seq<LogOp>) {
    CarefulFrom(START, ops)
  }

  ghost predicate HasNumber(live: seq<Written>, q: nat) {
    exists i :: 0 <= i < |live| && live[i].record.sequence == q
  }

  /** Some live entry is above the counter that a restart recovers. */
  ghost predicate Ahead(live: seq<Written>) {
    exists i :: 0 <= i < |live| && live[i].record.sequence > Counter(live)
  }

  lemma {:induction false} LatestFacts(live: seq<Written>, q: nat)
    ensures Latest(live, q).Some? <==> HasNumber(live, q)
    ensures Latest(live, q).Some? ==> Latest(live, q).value.sequence == q
  {
    if live != [] {
      var init, w := live[..|live| - 1], live[|live| - 1];
      assert live == init + [w];
      LatestFacts(init, q);
      if HasNumber(init, q) {
        var i :| 0 <= i < |init| && init[i].record.sequence == q;
        assert live[i].record.sequence == q;
      }
    }
  }

  /** The key of the next number is taken exactly when a live entry has that number. */
  lemma NextTaken(r: Run)
    requires DiskInv(r) && r.disk.sequence + 1 < TWO64
    ensures WalKey(Wrap(r.disk.sequence + 1)) in r.disk.db <==> HasNumber(r.live, r.disk.sequence + 1)
  {
    var q := r.disk.sequence + 1;
    assert Wrap(q) == q;
    LatestFacts(r.live, q);
    assert At(r.disk.db, q) == EntryValue(Latest(r.live, q));
    hide WalKey, Latest;
  }

  /** The log is intact, no live number is above the counter, nor above the recovered one if the
      last entry is counted. */
  ghost predicate Safe(r: Run) {
    DiskInv(r) && Within(r) && (LastCounted(r.live) ==> !Ahead(r.live))
  }

  lemma GrowthSafe(r: Run, r': Run)
    requires Within(r) && Grows(r, r')
    ensures Within(r') && (LastCounted(r'.live) ==> !Ahead(r'.live)) && (Ascends(r.live) ==> Ascends(r'.live))
  {
    forall i | 0 <= i < |r.live| ensures r'.live[i] == r.live[i] {
      assert r'.live[..|r.live|][i] == r'.live[i];
    }
  }

  /** From a safe state nothing is overwritten, and the next state is safe. */
  lemma SafeStep(r: Run, op: LogOp)
    requires Safe(r) && r.disk.sequence + 1 < TWO64 && (op.Restart? ==> LastCounted(r.live))
    ensures Safe(Apply(r, op)) && !Overwrites(r, op) && Apply(r, op).disk.sequence <= r.disk.sequence + 1
    ensures Ascends(r.live) ==> Ascends(Apply(r, op).live)
  {
    CounterFacts(r.live);
    hide DiskInv, WalKey, Wrap, Apply, Counter;
    InvStep(r, op);
    if op.Restart? {
      RestartRecovers(r);
    } else {
      StepCases(r, op);
      NextTaken(r);
      if Grows(r, Apply(r, op)) {
        GrowthSafe(r, Apply(r, op));
      }
    }
  }

  lemma LosesSnoc(r: Run, ops: seq<LogOp>)
    requires ops != []
    ensures var init := ops[..|ops| - 1];
      Loses(r, ops) ==> Loses(r, init) || Overwrites(ExecFrom(r, init), ops[|ops| - 1])
  {
    hide Overwrites, ExecFrom;
    var init := ops[..|ops| - 1];
    if i :| 0 <= i < |ops| && Overwrites(ExecFrom(r, ops[..i]), ops[i]) {
      if i < |init| {
        assert ops[..i] == init[..i] && ops[i] == init[i];
      } else {
        assert ops[..i] == init;
      }
    }
  }

  lemma CarefulPrefix(r: Run, ops: seq<LogOp>)
    requires CarefulFrom(r, ops) && ops != []
    ensures var init := ops[..|ops| - 1];
      CarefulFrom(r, init) && (ops[|ops| - 1].Restart? ==> LastCounted(ExecFrom(r, init).live))
  {
    var init := ops[..|ops| - 1];
    forall i | 0 <= i < |init| && init[i].Restart? ensures LastCounted(ExecFrom(r, init[..i]).live) {
      assert ops[..i] == init[..i] && ops[i] == init[i];
    }
  }

  lemma {:induction false} SafeRun(r: Run, ops: seq<LogOp>)
    requires Safe(r) && CarefulFrom(r, ops) && r.disk.sequence + |ops| < TWO64
    ensures var r' := ExecFrom(r, ops);
      Safe(r') && r'.disk.sequence <= r.disk.sequence + |ops| && (Ascends(r.live) ==> Ascends(r'.live))
    ensures !Loses(r, ops)
    decreases |ops|
  {
    if ops != [] {
      var init, op := ops[..|ops| - 1], ops[|ops| - 1];
      CarefulPrefix(r, ops);
      hide Safe, Overwrites, Apply, Ascends, Loses, CarefulFrom, LastCounted;
      SafeRun(r, init);
      LosesSnoc(r, ops);
      SafeStep(ExecFrom(r, init), op);
    }
  }

  /** `n` appends with both writes succeeding. */
  function Appends(item: LogItem, n: nat): seq<LogOp> {
    seq(n, _ => Append(item, DONE))
  }

  lemma AppendGrows(r: Run, item: LogItem)
    requires r.disk.sequence + 1 < TWO64
    ensures Grows(r, Apply(r, Append(item, DONE)))
  {
    assert Wrap(r.disk.sequence + 1) == r.disk.sequence + 1;
  }

  lemma {:induction false} AppendsRun(r: Run, item: LogItem, n: nat, q: nat)
    requires DiskInv(r) && r.disk.sequence + n < TWO64 && q > r.disk.sequence + n
    ensures var r' := ExecFrom(r, Appends(item, n));
      && DiskInv(r') && r'.disk.sequence == r.disk.sequence + n
      && (HasNumber(r'.live, q) <==> HasNumber(r.live, q))
  {
    if n > 0 {
      var op := Append(item, DONE);
      assert Appends(item, n)[..n - 1] == Appends(item, n - 1);
      AppendsRun(r, item, n - 1, q);
      var r1 := ExecFrom(r, Appends(item, n - 1));
      hide DiskInv, Apply, HasNumber;
      InvStep(r1, op);
      AppendGrows(r1, item);
    }
  }

  /** After `n` successful appends, the next one overwrites exactly when an entry that was live
      before them has the number it uses. */
  lemma OverwritesAt(r: Run, item: LogItem, n: nat)
    requires DiskInv(r) && r.disk.sequence + n + 1 < TWO64
    ensures Overwrites(ExecFrom(r, Appends(item, n)), Append(item, DONE))
      <==> HasNumber(r.live, r.disk.sequence + n + 1)
  {
    hide DiskInv, Apply, WalKey, Wrap, ExecFrom, HasNumber, Appends;
    AppendsRun(r, item, n, r.disk.sequence + n + 1);
    NextTaken(ExecFrom(r, Appends(item, n)));
    AppendGrows(ExecFrom(r, Appends(item, n)), item);
  }

  /** Some continuation whose own restarts are careful overwrites a live entry. */
  ghost predicate Endangered(r: Run) {
    exists more :: CarefulFrom(r, more) && r.disk.sequence + |more| < TWO64 && Loses(r, more)
  }

  lemma AheadLoses(r: Run, item: LogItem, i: nat)
    requires DiskInv(r) && i < |r.live| && r.disk.sequence < r.live[i].record.sequence < TWO64
    ensures Endangered(r)
  {
    var q := r.live[i].record.sequence;
    var n := q - r.disk.sequence - 1;
    OverwritesAt(r, item, n);
    var more := Appends(item, n + 1);
    assert more[..n] == Appends(item, n) && more[n] == Append(item, DONE);
    assert Loses(r, more);
  }

  /** In every run, whatever writes failed: a restart recovers the counter, and afterwards some
      continuation in which every further restart finds the last entry counted overwrites a live
      entry if and only if a live number is above the counter. */
  lemma RestartSafeExactlyWhen(ops: seq<LogOp>)
    requires |ops| < TWO64
    ensures var r := Exec(ops); var r' := Apply(r, Restart);
      && RestartOf(r.disk).Ready? && r'.live == r.live && r'.disk.sequence == Counter(r.live)
      && (Endangered(r') <==> Ahead(r.live))
  {
    hide *;
    InvExec(ops);
    RestartIn(Exec(ops), |ops|);
  }

  lemma RestartIn(r: Run, n: nat)
    requires DiskInv(r) && Bounded(r, n) && n < TWO64
    ensures var r' := Apply(r, Restart);
      && RestartOf(r.disk).Ready? && r'.live == r.live && r'.disk.sequence == Counter(r.live)
      && (Endangered(r') <==> Ahead(r.live))
  {
    CounterBounded(r, n);
    RestartRecovers(r);
    InvRestart(r);
    var r' := Apply(r, Restart);
    hide DiskInv, Apply, RestartOf, Loses, CarefulFrom, Counter;
    if Ahead(r.live) {
      var i :| 0 <= i < |r.live| && r.live[i].record.sequence > Counter(r.live);
      AheadLoses(r', LogItem("", Other("")), i);
    } else {
      forall more | CarefulFrom(r', more) && r'.disk.sequence + |more| < TWO64 ensures !Loses(r', more) {
        SafeRun(r', more);
      }
    }
  }

  // ----- Runs in which restarts come at the right time

  /** While the numbers ascend, a live number is above the recovered counter exactly when the last
      entry is not counted. */
  lemma AheadMeansUnsaved(live: seq<Written>)
    requires Ascends(live) && forall i :: 0 <= i < |live| ==> live[i].record.sequence > 0
    ensures Ahead(live) <==> !LastCounted(live)
  {
    if live != [] {
      var n := |live| - 1;
      CounterFacts(live[..n]);
      if !live[n].counted {
        assert live[n].record.sequence > Counter(live);
      }
    }
  }

  /** Up to here nothing has been overwritten, and the log on disk is intact. */
  ghost predicate Orderly(r: Run) {
    DiskInv(r) && Within(r) && Ascends(r.live)
  }

  lemma CarefulOrderly(ops: seq<LogOp>)
    requires |ops| < TWO64 && Careful(ops)
    ensures Orderly(Exec(ops)) && !Loses(START, ops)
  {
    SafeRun(START, ops);
  }

  /** Runs in which no write fails are careful. */
  lemma {:induction false} AllWritesCareful(ops: seq<LogOp>)
    requires |ops| < TWO64
    requires forall i :: 0 <= i < |ops| ==> AllOk(ops[i])
    ensures Careful(ops) && LastCounted(Exec(ops).live)
  {
    if ops != [] {
      var init := ops[..|ops| - 1];
      AllWritesCareful(init);
      forall i | 0 <= i < |ops| && ops[i].Restart? ensures LastCounted(Exec(ops[..i]).live) {
        if i < |init| {
          assert ops[..i] == init[..i] && ops[i] == init[i];
        } else {
          assert ops[..i] == init;
        }
      }
      hide DiskInv, Bounded, Careful;
    }
  }

  predicate AllOk(op: LogOp) {
    match op
    case Append(_, w) => w.entryOk && w.counterOk
    case Save(_, putOk, w) => putOk && w.entryOk && w.counterOk
    case Update(_, _, putOk, w) => putOk && w.entryOk && w.counterOk
    case Truncate(ok) => ok
    case Restart => true
  }

  /** In a careful run nothing is ever overwritten, and after a restart now some careful continuation
      overwrites an entry if and only if the last one since the truncation is not counted. */
  lemma CarefulRun(ops: seq<LogOp>)
    requires |ops| < TWO64 && Careful(ops)
    ensures !Loses(START, ops)
    ensures Endangered(Apply(Exec(ops), Restart)) <==> !LastCounted(Exec(ops).live)
  {
    CarefulOrderly(ops);
    InvExec(ops);
    AheadMeansUnsaved(Exec(ops).live);
    hide *;
    RestartSafeExactlyWhen(ops);
  }

  // ----- What a failed counter write does

  /** In every run: after a restart and `n` successful appends, the next append overwrites exactly
      when the number it uses was live before. */
  lemma AppendAfterRestart(ops: seq<LogOp>, item: LogItem, n: nat)
    requires |ops| < TWO64 && Counter(Exec(ops).live) + n + 1 < TWO64
    ensures var r := Exec(ops);
      Overwrites(ExecFrom(Apply(r, Restart), Appends(item, n)), Append(item, DONE))
      <==> HasNumber(r.live, Counter(r.live) + n + 1)
  {
    hide *;
    RestartState(ops);
    OverwritesAt(Apply(Exec(ops), Restart), item, n);
  }

  lemma RestartState(ops: seq<LogOp>)
    requires |ops| < TWO64
    ensures var r, r' := Exec(ops), Apply(Exec(ops), Restart);
      DiskInv(r') && r'.live == r.live && r'.disk.sequence == Counter(r.live)
  {
    hide Exec, DiskInv, Apply, Bounded, Counter;
    InvExec(ops);
    CounterBounded(Exec(ops), |ops|);
    RestartRecovers(Exec(ops));
    InvRestart(Exec(ops));
  }

  lemma ExecSnoc(ops: seq<LogOp>, op: LogOp)
    ensures Exec(ops + [op]) == Apply(Exec(ops), op)
  {
    assert (ops + [op])[..|ops|] == ops;
  }

  lemma ExecAppend(ops: seq<LogOp>, item: LogItem, w: Writes)
    requires Exec(ops).disk.sequence + 1 < TWO64 && w.entryOk
    ensures var r, r' := Exec(ops), Exec(ops + [Append(item, w)]);
      && r'.disk.sequence == r.disk.sequence + 1
      && r'.live == r.live + [Written(RecordOf(r.disk.sequence + 1, item), w.counterOk)]
  {
    hide *;
    ExecSnoc(ops, Append(item, w));
    AppendLive(Exec(ops), item, w);
  }

  lemma AppendLive(r: Run, item: LogItem, w: Writes)
    requires r.disk.sequence + 1 < TWO64 && w.entryOk
    ensures var r' := Apply(r, Append(item, w));
      && r'.disk.sequence == r.disk.sequence + 1
      && r'.live == r.live + [Written(RecordOf(r.disk.sequence + 1, item), w.counterOk)]
  {
    assert Wrap(r.disk.sequence + 1) == r.disk.sequence + 1;
    hide WalKey, Wrap;
  }

  lemma ExecRestart(ops: seq<LogOp>)
    requires |ops| < TWO64
    ensures var r, r' := Exec(ops), Exec(ops + [Restart]); r'.live == r.live && r'.disk.sequence == Counter(r.live)
  {
    ExecSnoc(ops, Restart);
    hide *;
    RestartSafeExactlyWhen(ops);
  }

  /** A first entry whose counter write failed is overwritten by the next append. */
  lemma LostCounterOverwrites(item: LogItem, item': LogItem)
    ensures Overwrites(Apply(Exec([Append(item, LOST)]), Restart), Append(item', DONE))
  {
    var ops := [Append(item, LOST)];
    ExecSnoc([], ops[0]);
    assert [] + ops == ops;
    var live := Exec(ops).live;
    assert live == [Written(RecordOf(1, item), false)];
    assert Counter(live) == Counter([]) == 0;
    assert live[0].record.sequence == 1;
    AppendAfterRestart(ops, item', 0);
  }

  /** `n` appends, a truncation, and an append whose counter write fails. */
  function LostAfterTruncation(item: LogItem, n: nat): seq<LogOp> {
    Appends(item, n) + [Truncate(true)] + [Append(item, LOST)]
  }

  lemma AppendsTruncated(item: LogItem, n: nat)
    requires n < TWO64
    ensures var r := Exec(Appends(item, n) + [Truncate(true)]); r.live == [] && r.disk.sequence == n
  {
    AppendsRun(START, item, n, n + 1);
    ExecSnoc(Appends(item, n), Truncate(true));
    hide ExecFrom, DiskInv, HasNumber, Appends;
  }

  lemma TruncatedLive(item: LogItem, n: nat)
    requires n + 1 < TWO64
    ensures |LostAfterTruncation(item, n)| == n + 2
    ensures Exec(LostAfterTruncation(item, n)).live == [Written(RecordOf(n + 1, item), false)]
  {
    assert |Appends(item, n)| == n;
    hide Exec, Appends;
    AppendsTruncated(item, n);
    ExecAppend(Appends(item, n) + [Truncate(true)], item, LOST);
  }

  lemma OneUncounted(live: seq<Written>, record: LogRecord, p: nat)
    requires live == [Written(record, false)]
    ensures Counter(live) == 0 && (HasNumber(live, p) <==> p == record.sequence)
  {
    assert live[0].record.sequence == record.sequence;
    assert live[..0] == [];
  }

  /** After `n` appends and a truncation the same failure is not felt at once: the counter restarts
      from zero and reaches the entry only with the append behind `n` others. */
  lemma TruncationDelaysOverwrite(item: LogItem, item': LogItem, n: nat, k: nat)
    requires n + 2 < TWO64 && k + 1 < TWO64
    ensures var r := Apply(Exec(LostAfterTruncation(item, n)), Restart);
      Overwrites(ExecFrom(r, Appends(item', k)), Append(item', DONE)) <==> k == n
  {
    hide Exec, ExecFrom, Apply, Overwrites, HasNumber, Counter, Appends, LostAfterTruncation;
    var ops := LostAfterTruncation(item, n);
    TruncatedLive(item, n);
    OneUncounted(Exec(ops).live, RecordOf(n + 1, item), k + 1);
    AppendAfterRestart(ops, item', k);
  }

  /** Whatever went before, a lost counter write endangers the next restart: without careful restarts
      no run is safe. */
  lemma LostEndangers(ops: seq<LogOp>, item: LogItem)
    requires |ops| + 2 < TWO64
    ensures Endangered(Apply(Exec(ops + [Restart] + [Append(item, LOST)]), Restart))
  {
    var live := Exec(ops).live;
    InvExec(ops);
    CounterBounded(Exec(ops), |ops|);
    hide Exec, Apply, Endangered, DiskInv, Bounded;
    ExecRestart(ops);
    ExecAppend(ops + [Restart], item, LOST);
    var live' := live + [Written(RecordOf(Counter(live) + 1, item), false)];
    assert live'[..|live|] == live;
    assert Counter(live') == Counter(live);
    assert live'[|live|].record.sequence > Counter(live');
    RestartSafeExactlyWhen(ops + [Restart] + [Append(item, LOST)]);
  }

  /** After a careless restart a counted last entry is no longer enough. */
  lemma CarelessRestart(item: LogItem)
    ensures var lost := [Append(item, DONE)] + [Append(item, LOST)] + [Append(item, LOST)];
      var live := Exec(lost + [Restart] + [Append(item, DONE)]).live;
      LastCounted(live) && Ahead(live)
  {
    var a := [Append(item, DONE)];
    var b := a + [Append(item, LOST)];
    var c := b + [Append(item, LOST)];
    var d := c + [Restart];
    var e := d + [Append(item, DONE)];
    assert [] + a == a;
    hide Apply, ExecFrom;
    ExecAppend([], item, DONE);
    ExecAppend(a, item, LOST);
    ExecAppend(b, item, LOST);
    ExecRestart(c);
    var l := Exec(c).live;
    assert l[..2][..1] == l[..1];
    assert Counter(l) == Counter(l[..2]) == Counter(l[..1]) == 1;
    ExecAppend(d, item, DONE);
    var live := Exec(e).live;
    assert Counter(live) == 2 && live[2].record.sequence == 3;
  }
}
