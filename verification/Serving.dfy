/** What a dequeue takes, and when it takes anything at all. */
module Serving {
  import opened Basics
  import opened Sequences
  import opened PriorityOrder
  import opened QueueModel

  ghost predicate AnyQueued<T>(q: Queues<T>) {
    exists g :: g in q && q[g] != []
  }

  /** The group at `i` is the first in the order that has something queued. */
  ghost predicate FirstWithWork<T>(q: Queues<T>, order: seq<string>, i: nat) {
    i < |order| && Get(q, order[i]) != [] && forall j :: 0 <= j < i ==> Get(q, order[j]) == []
  }

  lemma {:induction false} FirstNonEmptyFinds<T>(q: Queues<T>, order: seq<string>)
    ensures var g := FirstNonEmpty(q, order);
      && (g.Some? ==> exists i :: 0 <= i < |order| && FirstWithWork(q, order, i) && order[i] == g.value)
      && (g.None? ==> forall k :: k in order ==> Get(q, k) == [])
  {
    if order != [] {
      if Get(q, order[0]) != [] {
        assert FirstWithWork(q, order, 0);
      } else {
        FirstNonEmptyFinds(q, order[1..]);
        if i :| 0 <= i < |order| - 1 && FirstWithWork(q, order[1..], i)
                && FirstNonEmpty(q, order) == Some(order[1..][i]) {
          ShiftWithWork(q, order, i);
        }
      }
    }
  }

  lemma ShiftWithWork<T>(q: Queues<T>, order: seq<string>, i: nat)
    requires order != [] && Get(q, order[0]) == [] && FirstWithWork(q, order[1..], i)
    ensures FirstWithWork(q, order, i + 1)
  {
    forall j | 0 <= j < i + 1 ensures Get(q, order[j]) == [] {
      if j > 0 {
        assert order[j] == order[1..][j - 1];
      }
    }
  }

  /** The front of a queue, where it beats the lowest integer. */
  ghost predicate Candidate<T>(q: Queues<T>, g: string) {
    Get(q, g) != [] && Get(q, g)[0].priority > INT_MIN
  }

  /** The scan keeps the best front seen: the earlier choice, or a group of the order. */
  lemma {:induction false} SelectBest<T>(q: Queues<T>, order: seq<string>, best: Choice)
    ensures var c := Select(q, order, best);
      && c.priority >= best.priority
      && (forall g :: g in order && Get(q, g) != [] ==> c.priority >= Get(q, g)[0].priority)
      && (c != best ==>
            && c.priority > best.priority && c.group in order
            && Get(q, c.group) != [] && Get(q, c.group)[0].priority == c.priority)
  {
    if order != [] {
      var f := Get(q, order[0]);
      var best' := if f != [] && f[0].priority > best.priority then Choice(order[0], f[0].priority) else best;
      SelectBest(q, order[1..], best');
      assert order == [order[0]] + order[1..];
    }
  }

  /** Among equal best fronts the scan keeps the first in traversal order. */
  lemma {:induction false} SelectFirst<T>(q: Queues<T>, order: seq<string>, best: Choice) returns (i: nat)
    requires Select(q, order, best) != best
    ensures i < |order| && order[i] == Select(q, order, best).group
    ensures forall j :: 0 <= j < i && Get(q, order[j]) != [] ==>
      Get(q, order[j])[0].priority < Select(q, order, best).priority
  {
    var f := Get(q, order[0]);
    var best' := if f != [] && f[0].priority > best.priority then Choice(order[0], f[0].priority) else best;
    SelectBest(q, order[1..], best');
    var c := Select(q, order[1..], best');
    assert Select(q, order, best) == c;
    if c == best' {
      i := 0;
    } else {
      var k := SelectFirst(q, order[1..], best');
      i := k + 1;
      hide Select;
      forall j | 0 <= j < i && Get(q, order[j]) != [] ensures Get(q, order[j])[0].priority < c.priority {
        if j > 0 {
          assert order[j] == order[1..][j - 1];
        }
      }
    }
  }

  /** The front of `g` beats the lowest integer and every front earlier in traversal order, and no
      front beats it. */
  ghost predicate Wins<T>(q: Queues<T>, order: seq<string>, g: string) {
    && Candidate(q, g)
    && (forall k :: k in order && Get(q, k) != [] ==> Get(q, k)[0].priority <= Get(q, g)[0].priority)
    && exists i :: 0 <= i < |order| && order[i] == g && BeatsEarlier(q, order, i)
  }

  ghost predicate BeatsEarlier<T>(q: Queues<T>, order: seq<string>, i: nat)
    requires i < |order|
  {
    forall j :: 0 <= j < i && Get(q, order[j]) != [] && Get(q, order[i]) != [] ==>
      Get(q, order[j])[0].priority < Get(q, order[i])[0].priority
  }

  /** The scan settles on `g` exactly when `g` wins. */
  lemma ChosenExactlyWhen<T>(q: Queues<T>, order: seq<string>, g: string)
    ensures var c := Select(q, order, NOBODY); c != NOBODY && c.group == g <==> Wins(q, order, g)
  {
    var c := Select(q, order, NOBODY);
    SelectBest(q, order, NOBODY);
    hide Select;
    if c != NOBODY {
      var k := SelectFirst(q, order, NOBODY);
      assert BeatsEarlier(q, order, k);
      if Wins(q, order, g) {
        var i :| 0 <= i < |order| && order[i] == g && BeatsEarlier(q, order, i);
        assert order[k] in order && order[i] in order;
        assert k == i;
      }
    }
  }

  /** The task is the front of the first group in traversal order that has something queued. */
  ghost predicate FrontOfFirst<T>(f: Family<T>, g: string, e: Entry<T>) {
    exists i :: 0 <= i < |f.order| && FirstWithWork(f.queues, f.order, i) && f.order[i] == g && Get(f.queues, g)[0] == e
  }

  /** In FIFO and LIFO mode a dequeue returns a task exactly when the total is not zero and something
      is queued, and it is the front of the first group in traversal order that has something. */
  lemma ScanServes<T>(s: State<T>)
    requires Inv(s) && (s.mode.Fifo? || s.mode.Lifo?)
    ensures DequeueOf(s).task.Some? <==> s.total != 0 && AnyQueued(Current(s).queues)
    ensures var out := DequeueOf(s); out.task.Some? ==>
      out.served.Some? && FrontOfFirst(Current(s), out.served.value, out.task.value)
  {
    var f := Current(s);
    FirstNonEmptyFinds(f.queues, f.order);
    forall g ensures g in f.order <==> g in f.queues {
      assert g in Elems(f.order) <==> g in f.order;
    }
  }

  /** In priority mode a dequeue returns a task exactly when the total is not zero, some front beats
      the lowest integer, and the winner is not the group with the empty name; it is then the
      winner's front. */
  lemma PriorityServes<T>(s: State<T>)
    requires Inv(s) && s.mode.Priority?
    ensures var q, order := s.prio.queues, s.prio.order;
      DequeueOf(s).task.Some? <==> s.total != 0 && (exists g :: g in q && Candidate(q, g)) && !Wins(q, order, "")
    ensures var out := DequeueOf(s); out.task.Some? ==>
      Wins(s.prio.queues, s.prio.order, out.served.value) && out.task.value == s.prio.queues[out.served.value][0]
  {
    var q, order := s.prio.queues, s.prio.order;
    SelectBest(q, order, NOBODY);
    ChosenExactlyWhen(q, order, "");
    ChosenExactlyWhen(q, order, Select(q, order, NOBODY).group);
    hide Select, Wins;
    forall g ensures g in order <==> g in q {
      assert g in Elems(order) <==> g in order;
    }
  }

  /** What a priority dequeue returns beats or equals every queued task of every group. */
  lemma PriorityServesMaximum<T>(s: State<T>, g: string, i: nat)
    requires Inv(s) && s.mode.Priority? && DequeueOf(s).task.Some?
    requires g in s.prio.queues && i < |s.prio.queues[g]|
    ensures DequeueOf(s).task.value.priority >= s.prio.queues[g][i].priority
  {
    var q, order := s.prio.queues, s.prio.order;
    SelectBest(q, order, NOBODY);
    assert g in Elems(order);
    assert Sorted(q[g]);
    assert i > 0 ==> q[g][0].priority >= q[g][i].priority;
  }

  /** Outside round robin, peek names the task the next dequeue returns, unless the total has
      dropped to zero or the group with the empty name wins. */
  lemma PeekForetellsDequeue<T>(s: State<T>)
    requires Inv(s) && !s.mode.RoundRobin?
    ensures PeekOf(s) == DequeueOf(s).task <==>
      PeekOf(s).None? || (s.total != 0 && (s.mode.Priority? ==> !Wins(s.prio.queues, s.prio.order, "")))
  {
    ChosenExactlyWhen(s.prio.queues, s.prio.order, "");
    SelectBest(s.prio.queues, s.prio.order, NOBODY);
    hide Select, Wins;
  }

  /** What peek names, whatever the total: in priority mode the winner's front, if some front beats the
      lowest integer; otherwise the front of the first group in traversal order that has something
      queued, if any has. */
  lemma PeekShows<T>(s: State<T>)
    requires Inv(s)
    ensures var q, order := s.prio.queues, s.prio.order; s.mode.Priority? ==>
      && (PeekOf(s).Some? <==> exists g :: g in q && Candidate(q, g))
      && (PeekOf(s).Some? ==> exists g :: Wins(q, order, g) && PeekOf(s).value == Get(q, g)[0])
    ensures !s.mode.Priority? ==>
      && (PeekOf(s).Some? <==> AnyQueued(Current(s).queues))
      && (PeekOf(s).Some? ==> exists g :: FrontOfFirst(Current(s), g, PeekOf(s).value))
  {
    var f := Current(s);
    forall g ensures g in f.order <==> g in f.queues {
      assert g in Elems(f.order) <==> g in f.order;
    }
    if s.mode.Priority? {
      var c := Select(f.queues, f.order, NOBODY);
      SelectBest(f.queues, f.order, NOBODY);
      ChosenExactlyWhen(f.queues, f.order, c.group);
      hide Select, Wins;
    } else {
      FirstNonEmptyFinds(f.queues, f.order);
      hide FirstNonEmpty;
      var g := FirstNonEmpty(f.queues, f.order);
      if g.Some? {
        assert FrontOfFirst(f, g.value, PeekOf(s).value);
      }
    }
  }

  /** A dequeue takes the front of one queue of the current family and touches nothing else queued. */
  lemma DequeueTakesFront<T>(s: State<T>)
    requires Inv(s)
    ensures var out := DequeueOf(s); var q, q' := Current(s).queues, Current(out.state).queues;
      && out.state.mode == s.mode && out.state.groups == s.groups
      && (out.task.None? ==> q' == q && out.served.None?)
      && (out.task.Some? ==>
            out.served.Some? && Get(q, out.served.value) == [out.task.value] + Get(q', out.served.value))
      && (out.task.Some? ==> forall g :: g != out.served.value ==> Get(q', g) == Get(q, g))
  {
  }
}
