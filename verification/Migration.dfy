/** Changing the discipline: every queue is drained and refilled. */
module Migration {
  import opened Sequences
  import opened PriorityOrder
  import opened QueueModel

  /** The entries of one group, in order. */
  function Of<T>(all: seq<Tagged<T>>, g: string): seq<Entry<T>> {
    if all == [] then [] else
      Of(all[..|all| - 1], g) + if all[|all| - 1].group == g then [all[|all| - 1].entry] else []
  }

  /** One queue filled from nothing under the given discipline. */
  function AddAll<T>(mode: Mode, r: seq<Entry<T>>): seq<Entry<T>> {
    if r == [] then [] else Add(mode, AddAll(mode, r[..|r| - 1]), r[|r| - 1])
  }

  lemma {:induction false} RefillGroup<T>(mode: Mode, all: seq<Tagged<T>>, g: string)
    ensures Get(Refill(mode, all), g) == AddAll(mode, Of(all, g))
  {
    if all != [] {
      var init, x := all[..|all| - 1], all[|all| - 1];
      RefillGroup(mode, init, g);
      if x.group == g {
        var r := Of(init, g);
        assert Of(all, g) == r + [x.entry];
        assert (r + [x.entry])[..|r|] == r;
      } else {
        assert Of(all, g) == Of(init, g);
      }
    }
  }

  lemma {:induction false} OfConcat<T>(a: seq<Tagged<T>>, b: seq<Tagged<T>>, g: string)
    ensures Of(a + b, g) == Of(a, g) + Of(b, g)
    decreases |b|
  {
    if b == [] {
      assert a + b == a;
    } else {
      var init := b[..|b| - 1];
      assert (a + b)[..|a + b| - 1] == a + init;
      OfConcat(a, init, g);
    }
  }

  lemma {:induction false} OfTag<T>(k: string, q: seq<Entry<T>>, g: string)
    ensures Of(Tag(k, q), g) == if k == g then q else []
  {
    if q != [] {
      var init := q[..|q| - 1];
      assert Tag(k, q)[..|q| - 1] == Tag(k, init);
      OfTag(k, init, g);
      assert q == init + [q[|q| - 1]];
    }
  }

  lemma {:induction false} DrainGroup<T>(q: Queues<T>, order: seq<string>, g: string)
    requires NoDup(order)
    ensures Of(Drain(q, order), g) == if g in order then Get(q, g) else []
  {
    if order != [] {
      var init, k := order[..|order| - 1], order[|order| - 1];
      assert order == init + [k] && k !in init;
      DrainGroup(q, init, g);
      OfConcat(Drain(q, init), Tag(k, Get(q, k)), g);
      OfTag(k, Get(q, k), g);
    }
  }

  ghost predicate NotAfter(order: seq<string>, g: string, h: string) {
    exists a, b :: 0 <= a <= b < |order| && order[a] == g && order[b] == h
  }

  /** Everything is drained group after group in traversal order. */
  lemma {:induction false} DrainInOrder<T>(q: Queues<T>, order: seq<string>, i: nat, j: nat)
    requires i <= j < |Drain(q, order)|
    ensures NotAfter(order, Drain(q, order)[i].group, Drain(q, order)[j].group)
  {
    var n := |order| - 1;
    var init := order[..n];
    if j < |Drain(q, init)| {
      DrainInOrder(q, init, i, j);
      var a, b :| 0 <= a <= b < |init| && init[a] == Drain(q, order)[i].group && init[b] == Drain(q, order)[j].group;
      assert order[a] == init[a] && order[b] == init[b];
    } else {
      assert order[n] == Drain(q, order)[j].group;
      if i < |Drain(q, init)| {
        DrainGroups(q, init);
        var a :| 0 <= a < |init| && init[a] == Drain(q, init)[i].group;
        assert order[a] == Drain(q, order)[i].group;
      }
    }
  }

  /** What a queue with removal order `r` becomes on entering the mode from another one. */
  function Entering<T>(mode: Mode, r: seq<Entry<T>>): seq<Entry<T>> {
    match mode
    case Fifo => r
    case RoundRobin => r
    case Lifo => Reverse(r)
    case Priority => InsertAll(r)
  }

  lemma {:induction false} AddAllIsEntering<T>(mode: Mode, r: seq<Entry<T>>)
    ensures AddAll(mode, r) == Entering(mode, r)
  {
    if r != [] {
      var init, x := r[..|r| - 1], r[|r| - 1];
      AddAllIsEntering(mode, init);
      assert r == init + [x];
      ReverseSnoc(init, x);
    }
  }

  /** Each group's removal order is kept on entering FIFO or round robin, reversed on entering
      LIFO, and on entering priority mode becomes the stable descending sort of its reverse. */
  lemma SetModeReorders<T>(s: State<T>, mode: Mode, s': State<T>, g: string)
    requires Inv(s) && SetModeStep(s, mode, s') && mode != s.mode
    ensures Get(Current(s').queues, g) == Entering(mode, Get(Current(s).queues, g))
    ensures mode.Priority? ==> StableSort(Get(Current(s').queues, g), Reverse(Get(Current(s).queues, g)))
  {
    var q, order := Current(s).queues, Current(s).order;
    RefillGroup(mode, Drain(q, order), g);
    DrainGroup(q, order, g);
    assert g in order <==> g in Elems(order);
    AddAllIsEntering(mode, Get(q, g));
    InsertAllIsStableSort(Get(q, g));
  }

  /** No task is lost, duplicated or moved to another group. */
  lemma SetModeConserves<T>(s: State<T>, mode: Mode, s': State<T>, g: string)
    requires Inv(s) && SetModeStep(s, mode, s')
    ensures multiset(Get(Current(s').queues, g)) == multiset(Get(Current(s).queues, g))
    ensures |Get(Current(s').queues, g)| == |Get(Current(s).queues, g)|
  {
    if mode != s.mode {
      SetModeReorders(s, mode, s', g);
      ReverseMultiset(Get(Current(s).queues, g));
      InsertAllMultiset(Get(Current(s).queues, g));
    }
    assert |multiset(Get(Current(s').queues, g))| == |multiset(Get(Current(s).queues, g))|;
  }

  /** From FIFO to LIFO and back reverses every group. */
  lemma RoundTripReverses<T>(s0: State<T>, s1: State<T>, s2: State<T>, g: string)
    requires Inv(s0) && s0.mode.Fifo? && SetModeStep(s0, Lifo, s1) && SetModeStep(s1, Fifo, s2)
    ensures s2.mode.Fifo? && Inv(s2) && Get(s2.fifo.queues, g) == Reverse(Get(s0.fifo.queues, g))
  {
    InvSetMode(s0, Lifo, s1);
    InvSetMode(s1, Fifo, s2);
    SetModeReorders(s0, Lifo, s1, g);
    SetModeReorders(s1, Fifo, s2, g);
  }

  /** ... and doing it twice restores it. */
  lemma TwoRoundTripsRestore<T>(s0: State<T>, s1: State<T>, s2: State<T>, s3: State<T>, s4: State<T>, g: string)
    requires Inv(s0) && s0.mode.Fifo? && SetModeStep(s0, Lifo, s1) && SetModeStep(s1, Fifo, s2)
    requires SetModeStep(s2, Lifo, s3) && SetModeStep(s3, Fifo, s4)
    ensures Get(s4.fifo.queues, g) == Get(s0.fifo.queues, g)
  {
    RoundTripReverses(s0, s1, s2, g);
    RoundTripReverses(s2, s3, s4, g);
  }
}
