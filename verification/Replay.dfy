/** What a replay returns of the logged operations, and in which order. */
module Replay {
  import opened Basics
  import opened Sequences
  import opened Numerals
  import opened OrderedStore
  import opened WriteLog
  import opened Recovery

  function Records(live: seq<Written>): seq<LogRecord> {
    seq(|live|, i requires 0 <= i < |live| => live[i].record)
  }

  /** What a replay of the run's log reads, given the order in which the iterator visits the keys. */
  ghost function Replayed(r: Run, keys: seq<string>): seq<LogRecord>
    requires Visits(keys, r.disk.db.Keys)
  {
    WithPrefixElems(keys, WAL_PREFIX);
    Entries(r.disk.db, WithPrefix(keys, WAL_PREFIX))
  }

  lemma KeyHolds(r: Run, k: string)
    requires DiskInv(r) && k in r.disk.db && HasPrefix(k, WAL_PREFIX) && IsLogEntry(r.disk.db[k])
    ensures var e := r.disk.db[k].record.value; k == WalKey(e.sequence) && Latest(r.live, e.sequence) == Some(e)
  {
    var q: nat :| k == WalKey(q);
    LatestFacts(r.live, q);
    assert At(r.disk.db, q) == Some(r.disk.db[k]);
    hide WalKey, Latest, Counter, Decimal, HasPrefix;
  }

  /** No number was written twice since the truncation. */
  ghost predicate Distinct(live: seq<Written>) {
    forall i, j :: 0 <= i < j < |live| ==> live[i].record.sequence != live[j].record.sequence
  }

  lemma {:induction false} LatestAt(live: seq<Written>, i: nat)
    requires Distinct(live) && i < |live|
    ensures Latest(live, live[i].record.sequence) == Some(live[i].record)
  {
    if i < |live| - 1 {
      LatestAt(live[..|live| - 1], i);
    }
  }

  ghost predicate Alphabetical(es: seq<LogRecord>) {
    forall i, j :: 0 <= i < j < |es| ==> Less(Decimal(es[i].sequence), Decimal(es[j].sequence))
  }

  /** In every run: for each number written since the truncation a replay returns the entry last
      written under it, and nothing else, in the alphabetical order of the numerals. */
  lemma ReplayExact(r: Run, keys: seq<string>)
    requires DiskInv(r) && Visits(keys, r.disk.db.Keys)
    ensures var es := Replayed(r, keys);
      && (forall i :: 0 <= i < |es| ==> Latest(r.live, es[i].sequence) == Some(es[i]))
      && (forall q: nat :: q > 0 && Latest(r.live, q).Some? ==> Latest(r.live, q).value in es)
      && Alphabetical(es)
  {
    var db, wal := r.disk.db, WithPrefix(keys, WAL_PREFIX);
    WithPrefixElems(keys, WAL_PREFIX);
    forall k | k in wal && IsLogEntry(db[k])
      ensures k == WalKey(db[k].record.value.sequence)
      ensures Latest(r.live, db[k].record.value.sequence) == Some(db[k].record.value)
    {
      KeyHolds(r, k);
    }
    EntriesFacts(db, wal);
    var es := Entries(db, wal);
    hide WalKey, Decimal, Latest, Counter;
    forall q: nat | q > 0 && Latest(r.live, q).Some? ensures Latest(r.live, q).value in es {
      WalKeysApart(q, 0);
      assert At(db, q) == EntryValue(Latest(r.live, q));
      assert WalKey(q) in Elems(keys);
    }
    forall i, j | 0 <= i < j < |es| ensures Less(Decimal(es[i].sequence), Decimal(es[j].sequence)) {
      WalKeyOrder(es[i].sequence, es[j].sequence);
    }
  }

  function Numbers(es: seq<LogRecord>): seq<nat> {
    seq(|es|, i requires 0 <= i < |es| => es[i].sequence)
  }

  /** In every run a replay returns as many entries as there are different live numbers, each a live
      entry and none twice. */
  lemma ReplayNumbers(r: Run, keys: seq<string>)
    requires DiskInv(r) && Visits(keys, r.disk.db.Keys)
    ensures var es := Replayed(r, keys); var ns := Numbers(Records(r.live));
      && NoDup(es) && |es| == |Elems(ns)| && Elems(es) <= Elems(Records(r.live))
  {
    var es, records := Replayed(r, keys), Records(r.live);
    ReplayExact(r, keys);
    assert forall i :: 0 <= i < |r.live| ==> r.live[i].record.sequence > 0;
    hide Replayed, DiskInv, Visits;
    var ns := Numbers(es);
    forall i, j | 0 <= i < j < |es| ensures ns[i] != ns[j] && es[i] != es[j] {
      LessTotal(Decimal(es[i].sequence), Decimal(es[j].sequence));
    }
    hide Alphabetical, Latest;
    forall e | e in es ensures e in records {
      LatestIsRecord(r.live, e.sequence);
    }
    SameNumbers(r, es);
    NoDupSize(ns);
  }

  lemma SameNumbers(r: Run, es: seq<LogRecord>)
    requires forall i :: 0 <= i < |r.live| ==> r.live[i].record.sequence > 0
    requires forall i :: 0 <= i < |es| ==> Latest(r.live, es[i].sequence) == Some(es[i])
    requires forall q: nat :: q > 0 && Latest(r.live, q).Some? ==> Latest(r.live, q).value in es
    ensures Elems(Numbers(es)) == Elems(Numbers(Records(r.live)))
  {
    hide Latest;
    var ns, ms := Numbers(es), Numbers(Records(r.live));
    forall q | q in ns ensures q in ms {
      LatestFacts(r.live, q);
      var i :| 0 <= i < |r.live| && r.live[i].record.sequence == q;
      assert ms[i] == q;
    }
    forall q | q in ms ensures q in ns {
      var i :| 0 <= i < |ms| && ms[i] == q;
      assert r.live[i].record.sequence == q;
      LatestFacts(r.live, q);
      var j :| 0 <= j < |es| && es[j] == Latest(r.live, q).value;
      assert ns[j] == q;
    }
  }

  /** In every run: a replay returns as many entries as were written since the truncation exactly
      when no number was written twice, and then it returns each of them once. */
  lemma ReplayCompleteExactlyWhen(r: Run, keys: seq<string>)
    requires DiskInv(r) && Visits(keys, r.disk.db.Keys)
    ensures |Replayed(r, keys)| == |r.live| <==> Distinct(r.live)
    ensures Distinct(r.live) ==> IsOrder(Replayed(r, keys), Elems(Records(r.live)))
  {
    var es, records := Replayed(r, keys), Records(r.live);
    var ns := Numbers(records);
    ReplayNumbers(r, keys);
    ReplayExact(r, keys);
    assert forall i :: 0 <= i < |r.live| ==> ns[i] == r.live[i].record.sequence > 0;
    hide Replayed, DiskInv, Visits, Alphabetical;
    RepeatShrinks(ns);
    if Distinct(r.live) {
      NoDupSize(ns);
      forall i | 0 <= i < |r.live| ensures r.live[i].record in es {
        LatestAt(r.live, i);
      }
      assert Elems(es) == Elems(records);
    } else {
      var i, j :| 0 <= i < j < |r.live| && r.live[i].record.sequence == r.live[j].record.sequence;
      assert ns[i] == ns[j];
    }
  }

  /** Where nothing was overwritten, a replay returns every live entry, each once. */
  lemma ReplayOnce(r: Run, keys: seq<string>)
    requires Orderly(r) && Visits(keys, r.disk.db.Keys)
    ensures IsOrder(Replayed(r, keys), Elems(Records(r.live))) && |Replayed(r, keys)| == |r.live|
  {
    hide Replayed, DiskInv, Visits, IsOrder, Records, Elems;
    ReplayCompleteExactlyWhen(r, keys);
  }

  lemma {:induction false} LatestIsRecord(live: seq<Written>, q: nat)
    ensures Latest(live, q).Some? ==> Latest(live, q).value in Records(live)
  {
    if live != [] {
      var n := |live| - 1;
      LatestIsRecord(live[..n], q);
      assert Records(live) == Records(live[..n]) + [live[n].record];
    }
  }

  // ----- The order

  /** The replay is the log itself, in append order. */
  ghost predicate InAppendOrder(r: Run, keys: seq<string>)
    requires Visits(keys, r.disk.db.Keys)
  {
    Replayed(r, keys) == Records(r.live)
  }

  /** Each live numeral precedes the next one alphabetically. */
  ghost predicate DigitsAgree(live: seq<Written>) {
    forall i, j :: 0 <= i && j == i + 1 && j < |live| ==> Precedes(live[i].record.sequence, live[j].record.sequence)
  }

  /** Alphabetical order leaves only one way to list the same entries. */
  lemma {:induction false} AlphabeticalUnique(a: seq<LogRecord>, b: seq<LogRecord>)
    requires Alphabetical(a) && Alphabetical(b) && Elems(a) == Elems(b) && |a| == |b|
    ensures a == b
  {
    if a != [] {
      assert a[0] in Elems(b) && b[0] in Elems(a);
      LessTotal(Decimal(a[0].sequence), Decimal(b[0].sequence));
      assert a[0] == b[0];
      TailElems(a);
      TailElems(b);
      AlphabeticalUnique(a[1..], b[1..]);
    }
  }

  lemma TailElems(a: seq<LogRecord>)
    requires Alphabetical(a) && a != []
    ensures Elems(a[1..]) == Elems(a) - {a[0]}
  {
    assert a == [a[0]] + a[1..];
    forall i | 1 <= i < |a| ensures a[i] != a[0] {
      LessTotal(Decimal(a[0].sequence), Decimal(a[i].sequence));
    }
  }

  lemma {:induction false} StepsSort(live: seq<Written>, i: nat, j: nat)
    requires DigitsAgree(live) && i < j < |live|
    ensures Less(Decimal(live[i].record.sequence), Decimal(live[j].record.sequence))
    decreases j
  {
    hide Less, Decimal, Precedes;
    var a, b, c := live[i].record.sequence, live[j - 1].record.sequence, live[j].record.sequence;
    NumeralPrecedes(b, c);
    if i < j - 1 {
      StepsSort(live, i, j - 1);
      LessTrans(Decimal(a), Decimal(b), Decimal(c));
    }
  }

  lemma AgreeingSorts(live: seq<Written>)
    requires DigitsAgree(live)
    ensures Alphabetical(Records(live)) && Distinct(live)
  {
    hide Less, Decimal, DigitsAgree;
    forall i, j | 0 <= i < j < |live|
      ensures Less(Decimal(live[i].record.sequence), Decimal(live[j].record.sequence))
      ensures live[i].record.sequence != live[j].record.sequence
    {
      StepsSort(live, i, j);
      LessTotal(Decimal(live[i].record.sequence), Decimal(live[j].record.sequence));
    }
  }

  lemma SortedAgrees(live: seq<Written>)
    requires Alphabetical(Records(live))
    ensures DigitsAgree(live)
  {
    hide Less, Decimal, Precedes;
    forall i, j | 0 <= i && j == i + 1 && j < |live|
      ensures Precedes(live[i].record.sequence, live[j].record.sequence)
    {
      assert Less(Decimal(Records(live)[i].sequence), Decimal(Records(live)[j].sequence));
      NumeralPrecedes(live[i].record.sequence, live[j].record.sequence);
    }
  }

  /** In every run, whatever writes fail: a replay is the log in append order exactly when each live
      number, repeated and falling ones included, precedes the next one alphabetically. */
  lemma AppendOrderExactlyWhen(r: Run, keys: seq<string>)
    requires DiskInv(r) && Visits(keys, r.disk.db.Keys)
    ensures InAppendOrder(r, keys) <==> DigitsAgree(r.live)
  {
    ReplayExact(r, keys);
    ReplayCompleteExactlyWhen(r, keys);
    hide DiskInv, Replayed, Visits, Alphabetical, DigitsAgree, Distinct, Elems, Latest;
    if DigitsAgree(r.live) {
      AgreeingSorts(r.live);
      AlphabeticalUnique(Replayed(r, keys), Records(r.live));
    }
    if InAppendOrder(r, keys) {
      SortedAgrees(r.live);
    }
  }

  /** In every run, of two live entries that are replayed, the earlier one comes back first exactly
      when its numeral precedes the other's; with equally many digits, when its number is smaller. */
  lemma PairInOrder(r: Run, keys: seq<string>, a: nat, b: nat, i: nat, j: nat)
    requires DiskInv(r) && Visits(keys, r.disk.db.Keys) && a < b < |r.live|
    requires i < |Replayed(r, keys)| && j < |Replayed(r, keys)|
    requires Replayed(r, keys)[i] == r.live[a].record && Replayed(r, keys)[j] == r.live[b].record && i != j
    ensures var p, q := r.live[a].record.sequence, r.live[b].record.sequence;
      (i < j <==> Precedes(p, q)) && (|Decimal(p)| == |Decimal(q)| ==> (i < j <==> p < q))
  {
    var p, q := r.live[a].record.sequence, r.live[b].record.sequence;
    ReplayExact(r, keys);
    hide DiskInv, Replayed, Visits, Less, Decimal, Precedes, Latest;
    NumeralPrecedes(p, q);
    LessTotal(Decimal(p), Decimal(q));
    if |Decimal(p)| == |Decimal(q)| {
      SameLengthOrder(p, q);
    }
  }

  // ----- Logs without gaps

  /** No entry write failed between the first and the last live entry. */
  ghost predicate NoGaps(live: seq<Written>) {
    forall i :: 0 <= i < |live| ==> live[i].record.sequence == live[0].record.sequence + i
  }

  /** Somewhere between two numbers with different digit counts the count goes up. */
  lemma {:induction false} DigitJump(a: nat, b: nat) returns (m: nat)
    requires a <= b && |Decimal(a)| != |Decimal(b)|
    ensures a <= m < b && |Decimal(m)| < |Decimal(m + 1)|
    decreases b - a
  {
    LengthMonotone(a, a + 1);
    if |Decimal(a)| < |Decimal(a + 1)| {
      m := a;
      LengthMonotone(a, b);
    } else {
      m := DigitJump(a + 1, b);
    }
  }

  /** Without gaps, the append order is kept exactly when the first and the last live number have
      equally many digits. */
  lemma GaplessOrder(r: Run, keys: seq<string>)
    requires Orderly(r) && NoGaps(r.live) && r.live != [] && Visits(keys, r.disk.db.Keys)
    ensures var live := r.live;
      InAppendOrder(r, keys)
      <==> |Decimal(live[0].record.sequence)| == |Decimal(live[|live| - 1].record.sequence)|
  {
    AppendOrderExactlyWhen(r, keys);
    hide InAppendOrder;
    GaplessDigits(r.live);
  }

  lemma GaplessDigits(live: seq<Written>)
    requires Ascends(live) && NoGaps(live) && live != []
    ensures DigitsAgree(live) <==> |Decimal(live[0].record.sequence)| == |Decimal(live[|live| - 1].record.sequence)|
  {
    hide Ascends, NoGaps, DigitsAgree, Decimal;
    if |Decimal(live[0].record.sequence)| == |Decimal(live[|live| - 1].record.sequence)| {
      EqualDigitsAgree(live);
    } else {
      JumpDisagrees(live);
    }
  }

  lemma EqualDigitsAgree(live: seq<Written>)
    requires Ascends(live) && live != []
    requires |Decimal(live[0].record.sequence)| == |Decimal(live[|live| - 1].record.sequence)|
    ensures DigitsAgree(live)
  {
    hide Leading, Less, Decimal;
    forall i, j | 0 <= i && j == i + 1 && j < |live|
      ensures live[i].record.sequence <= Leading(live[j].record.sequence, |Decimal(live[i].record.sequence)|)
    {
      var a, b := live[i].record.sequence, live[j].record.sequence;
      assert live[0].record.sequence <= a < b <= live[|live| - 1].record.sequence;
      BetweenEqualDigits(live[0].record.sequence, a, b, live[|live| - 1].record.sequence);
    }
  }

  lemma BetweenEqualDigits(first: nat, a: nat, b: nat, last: nat)
    requires first <= a < b <= last && |Decimal(first)| == |Decimal(last)|
    ensures a <= Leading(b, |Decimal(a)|)
  {
    hide Leading, Less, Decimal;
    LengthMonotone(first, a);
    LengthMonotone(a, b);
    LengthMonotone(b, last);
    SameLengthOrder(a, b);
    NumeralOrder(a, b);
  }

  lemma JumpDisagrees(live: seq<Written>)
    requires Ascends(live) && NoGaps(live) && live != []
    requires |Decimal(live[0].record.sequence)| != |Decimal(live[|live| - 1].record.sequence)|
    ensures !DigitsAgree(live)
  {
    hide Leading, Less, Decimal;
    var first := live[0].record.sequence;
    var m := DigitJump(first, live[|live| - 1].record.sequence);
    LongerSortsFirst(m);
    LessTotal(Decimal(m), Decimal(m + 1));
    NumeralOrder(m, m + 1);
    var i := m - first;
    assert live[i].record.sequence == m && live[i + 1].record.sequence == m + 1;
  }

  /** The live numbers run up to the counter without a gap, the last one saved. */
  ghost predicate Gapless(r: Run) {
    NoGaps(r.live) && LastCounted(r.live) && (r.live != [] ==> r.live[|r.live| - 1].record.sequence == r.disk.sequence)
  }

  lemma AllOkStep(r: Run, op: LogOp)
    requires AllOk(op) && !op.Restart? && r.disk.sequence + 1 < TWO64
    ensures var r' := Apply(r, op);
      || (Grows(r, r') && LastCounted(r'.live))
      || (r'.live == r.live && r'.disk.sequence == r.disk.sequence)
      || r'.live == []
  {
    assert Wrap(r.disk.sequence + 1) == r.disk.sequence + 1;
    hide WalKey, TaskKey, Decimal, Wrap, TruncateOf;
  }

  lemma GaplessStep(r: Run, op: LogOp, n: nat)
    requires DiskInv(r) && Bounded(r, n) && n + 1 < TWO64 && Gapless(r) && AllOk(op)
    ensures Gapless(Apply(r, op))
  {
    if op.Restart? {
      CounterBounded(r, n);
      RestartRecovers(r);
      hide DiskInv, Apply;
    } else {
      hide DiskInv, Apply, AllOk;
      AllOkStep(r, op);
      var r' := Apply(r, op);
      forall i | 0 <= i < |r.live| && Grows(r, r') ensures r'.live[i] == r.live[i] {
        assert r'.live[..|r.live|][i] == r'.live[i];
      }
    }
  }

  /** Runs in which no write fails leave no gaps. */
  lemma {:induction false} AllWritesGapless(ops: seq<LogOp>)
    requires |ops| < TWO64 && forall i :: 0 <= i < |ops| ==> AllOk(ops[i])
    ensures Gapless(Exec(ops))
  {
    if ops != [] {
      var init := ops[..|ops| - 1];
      AllWritesGapless(init);
      InvExec(init);
      hide DiskInv, Bounded, Gapless, Apply;
      GaplessStep(Exec(init), ops[|ops| - 1], |init|);
    }
  }

  // ----- Whole runs

  /** In every run whose restarts find the last entry saved, whatever other writes fail: the next
      append overwrites nothing, and a replay returns every entry written since the last truncation
      exactly once. */
  lemma LogRun(ops: seq<LogOp>, keys: seq<string>)
    requires |ops| + 1 < TWO64 && Careful(ops) && Visits(keys, Exec(ops).disk.db.Keys)
    ensures var r := Exec(ops);
      && WalKey(r.disk.sequence + 1) !in r.disk.db
      && IsOrder(Replayed(r, keys), Elems(Records(r.live))) && |Replayed(r, keys)| == |r.live|
  {
    CarefulOrderly(ops);
    InvExec(ops);
    hide Exec, DiskInv, Visits, Replayed, Careful, IsOrder, Records, Elems;
    ReplayOnce(Exec(ops), keys);
    NextIsFree(Exec(ops));
  }

  lemma NextIsFree(r: Run)
    requires Orderly(r) && r.disk.sequence + 1 < TWO64
    ensures WalKey(r.disk.sequence + 1) !in r.disk.db
  {
    NextTaken(r);
    assert Wrap(r.disk.sequence + 1) == r.disk.sequence + 1;
    hide DiskInv, WalKey, Wrap;
  }
}
