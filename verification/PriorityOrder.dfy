/** The order a priority queue keeps: highest priority first, the newest first among equals. */
module PriorityOrder {
  import opened Sequences

  datatype Entry<T> = Entry(value: T, priority: int)

  ghost predicate Sorted<T>(s: seq<Entry<T>>) {
    forall i, j :: 0 <= i < j < |s| ==> s[i].priority >= s[j].priority
  }

  /** Where an entry of the given priority goes: behind all strictly higher ones. */
  function Position<T>(s: seq<Entry<T>>, priority: int): (k: nat)
    ensures k <= |s|
  {
    if s == [] || s[0].priority <= priority then 0 else 1 + Position(s[1..], priority)
  }

  function Insert<T>(s: seq<Entry<T>>, e: Entry<T>): seq<Entry<T>> {
    var k := Position(s, e.priority);
    s[..k] + [e] + s[k..]
  }

  /** The contents after inserting the entries of `r` one by one into an empty queue. */
  function InsertAll<T>(r: seq<Entry<T>>): seq<Entry<T>> {
    if r == [] then [] else Insert(InsertAll(r[..|r| - 1]), r[|r| - 1])
  }

  function OfPriority<T>(s: seq<Entry<T>>, p: int): seq<Entry<T>> {
    if s == [] then [] else (if s[0].priority == p then [s[0]] else []) + OfPriority(s[1..], p)
  }

  /** `s` is `t` sorted by descending priority, equal priorities keeping their order. */
  ghost predicate StableSort<T>(s: seq<Entry<T>>, t: seq<Entry<T>>) {
    Sorted(s) && forall p :: OfPriority(s, p) == OfPriority(t, p)
  }

  lemma {:induction false} PositionSplits<T>(s: seq<Entry<T>>, p: int)
    requires Sorted(s)
    ensures forall i :: 0 <= i < |s| ==> (s[i].priority > p <==> i < Position(s, p))
  {
    if s == [] || s[0].priority <= p {
    } else {
      PositionSplits(s[1..], p);
      forall i | 0 <= i < |s| ensures s[i].priority > p <==> i < Position(s, p) {
        if i > 0 { assert s[i] == s[1..][i - 1]; }
      }
    }
  }

  lemma InsertSorted<T>(s: seq<Entry<T>>, e: Entry<T>)
    requires Sorted(s)
    ensures Sorted(Insert(s, e))
  {
    PositionSplits(s, e.priority);
  }

  lemma {:induction false} OfPriorityConcat<T>(s: seq<Entry<T>>, t: seq<Entry<T>>, p: int)
    ensures OfPriority(s + t, p) == OfPriority(s, p) + OfPriority(t, p)
  {
    if s == [] {
      assert s + t == t;
    } else {
      var h := if s[0].priority == p then [s[0]] else [];
      assert (s + t)[1..] == s[1..] + t;
      assert OfPriority(s + t, p) == h + OfPriority(s[1..] + t, p);
      assert OfPriority(s, p) == h + OfPriority(s[1..], p);
      OfPriorityConcat(s[1..], t, p);
      hide OfPriority;
    }
  }

  lemma {:induction false} OfPriorityNone<T>(s: seq<Entry<T>>, p: int)
    requires forall i :: 0 <= i < |s| ==> s[i].priority != p
    ensures OfPriority(s, p) == []
  {
    if s != [] {
      OfPriorityNone(s[1..], p);
    }
  }

  /** The new entry comes before the older ones of its priority; the others are untouched. */
  lemma InsertOfPriority<T>(s: seq<Entry<T>>, e: Entry<T>, p: int)
    requires Sorted(s)
    ensures OfPriority(Insert(s, e), p) == (if e.priority == p then [e] else []) + OfPriority(s, p)
  {
    var k := Position(s, e.priority);
    PositionSplits(s, e.priority);
    assert s == s[..k] + s[k..];
    OfPriorityConcat(s[..k], s[k..], p);
    OfPriorityConcat(s[..k] + [e], s[k..], p);
    OfPriorityConcat(s[..k], [e], p);
    if e.priority == p {
      OfPriorityNone(s[..k], p);
    }
  }

  /** Filling an empty queue yields the stable descending sort of the newest-first sequence. */
  lemma {:induction false} InsertAllIsStableSort<T>(r: seq<Entry<T>>)
    ensures StableSort(InsertAll(r), Reverse(r))
  {
    if r != [] {
      var s, e := r[..|r| - 1], r[|r| - 1];
      assert r == s + [e];
      InsertAllIsStableSort(s);
      InsertSorted(InsertAll(s), e);
      ReverseSnoc(s, e);
      forall p ensures OfPriority(InsertAll(r), p) == OfPriority(Reverse(r), p) {
        InsertOfPriority(InsertAll(s), e, p);
        OfPriorityConcat([e], Reverse(s), p);
      }
    }
  }

  /** There is only one stable sort. */
  lemma {:induction false} StableSortUnique<T>(s: seq<Entry<T>>, s': seq<Entry<T>>)
    requires Sorted(s) && Sorted(s') && forall p :: OfPriority(s, p) == OfPriority(s', p)
    ensures s == s'
  {
    FirstOf(s);
    FirstOf(s');
    if s != [] && s' != [] {
      SameFirst(s, s');
      forall p ensures OfPriority(s[1..], p) == OfPriority(s'[1..], p) {
        SameRest(s, s', p);
      }
      hide OfPriority;
      StableSortUnique(s[1..], s'[1..]);
      assert s == [s[0]] + s[1..] && s' == [s'[0]] + s'[1..];
    }
  }

  lemma SameRest<T>(s: seq<Entry<T>>, s': seq<Entry<T>>, p: int)
    requires s != [] && s' != [] && s[0] == s'[0] && OfPriority(s, p) == OfPriority(s', p)
    ensures OfPriority(s[1..], p) == OfPriority(s'[1..], p)
  {
    var head := if s[0].priority == p then [s[0]] else [];
    assert OfPriority(s[1..], p) == (head + OfPriority(s[1..], p))[|head|..];
    assert OfPriority(s'[1..], p) == (head + OfPriority(s'[1..], p))[|head|..];
  }

  lemma FirstOf<T>(s: seq<Entry<T>>)
    ensures s != [] ==> OfPriority(s, s[0].priority) != [] && OfPriority(s, s[0].priority)[0] == s[0]
  {
  }

  lemma SameFirst<T>(s: seq<Entry<T>>, s': seq<Entry<T>>)
    requires s != [] && s' != [] && Sorted(s) && Sorted(s') && forall p :: OfPriority(s, p) == OfPriority(s', p)
    ensures s[0] == s'[0]
  {
    FirstOf(s);
    FirstOf(s');
    hide OfPriority;
    var a, b := s[0].priority, s'[0].priority;
    if a > b {
      OfPriorityNone(s', a);
    } else if b > a {
      OfPriorityNone(s, b);
    }
  }

  lemma {:induction false} InsertAllMultiset<T>(r: seq<Entry<T>>)
    ensures multiset(InsertAll(r)) == multiset(r)
  {
    if r != [] {
      var s, e := r[..|r| - 1], r[|r| - 1];
      assert r == s + [e];
      InsertAllMultiset(s);
      var t := InsertAll(s);
      var k := Position(t, e.priority);
      assert t == t[..k] + t[k..];
    }
  }

  // ----- Runs of a priority queue

  datatype QueueCall = Put(priority: int) | Take

  /** The contents after a run; each entry carries the index of the call that added it. */
  function Run(ops: seq<QueueCall>): seq<Entry<nat>> {
    if ops == [] then [] else
      var s := Run(ops[..|ops| - 1]);
      match ops[|ops| - 1]
      case Put(p) => Insert(s, Entry(|ops| - 1, p))
      case Take => if s == [] then [] else s[1..]
  }

  ghost predicate Precedes(a: Entry<nat>, b: Entry<nat>) {
    a.priority > b.priority || (a.priority == b.priority && a.value > b.value)
  }

  /** In every run, what is queued drains by descending priority, newest first among equals. */
  lemma {:induction false} RunDrainsInOrder(ops: seq<QueueCall>)
    ensures forall i, j :: 0 <= i < j < |Run(ops)| ==> Precedes(Run(ops)[i], Run(ops)[j])
    ensures forall i :: 0 <= i < |Run(ops)| ==> Run(ops)[i].value < |ops|
  {
    if ops != [] {
      RunDrainsInOrder(ops[..|ops| - 1]);
      var s := Run(ops[..|ops| - 1]);
      match ops[|ops| - 1]
      case Put(p) =>
        NewestFirst(s, Entry(|ops| - 1, p));
      case Take =>
    }
  }

  lemma NewestFirst(s: seq<Entry<nat>>, e: Entry<nat>)
    requires forall i, j :: 0 <= i < j < |s| ==> Precedes(s[i], s[j])
    requires forall i :: 0 <= i < |s| ==> s[i].value < e.value
    ensures forall i, j :: 0 <= i < j < |Insert(s, e)| ==> Precedes(Insert(s, e)[i], Insert(s, e)[j])
    ensures forall i :: 0 <= i < |Insert(s, e)| ==> Insert(s, e)[i].value <= e.value
  {
    PositionSplits(s, e.priority);
  }
}
