/** The lock-free stack under any interleaving of its loads, compare-exchanges and counter updates.
    Memory is sequentially consistent and the identity of a node is never reused. */
module TreiberStack {
  import opened Basics
  import opened Sequences

  type NodeId = nat
  type ThreadId = nat

  /** Where a thread stands inside a push or a pop. */
  datatype Pc =
    | Idle
    | Pushing(item: NodeId)                            // the item's link holds the expected head
    | Adding                                           // pushed, counter not yet raised
    | Popping(item: NodeId)                            // saw this head, has not read its link
    | Exchanging(item: NodeId, next: Option<NodeId>)   // about to exchange the head for the link read
    | Subtracting(item: NodeId)                        // popped, counter not yet lowered

  /** The successful exchanges and the empty answers, in the order they took effect. */
  datatype Event = Pushed(n: NodeId) | Popped(n: NodeId) | FoundEmpty

  datatype State = State(head: Option<NodeId>, next: map<NodeId, Option<NodeId>>, size: int,
                         threads: map<ThreadId, Pc>, history: seq<Event>)

  const INIT := State(None, map[], 0, map[], [])

  function PcOf(s: State, t: ThreadId): Pc {
    if t in s.threads then s.threads[t] else Idle
  }

  function NextOf(s: State, n: NodeId): Option<NodeId> {
    if n in s.next then s.next[n] else None
  }

  /** One atomic step of one thread; `weak` marks a compare-exchange that fails spuriously. */
  datatype Step =
    | StartPush(t: ThreadId, item: NodeId)
    | ExchangePush(t: ThreadId, weak: bool)
    | FinishPush(t: ThreadId)
    | StartPop(t: ThreadId)
    | ReadLink(t: ThreadId)
    | ExchangePop(t: ThreadId, weak: bool)
    | FinishPop(t: ThreadId)

  function Move(s: State, t: ThreadId, pc: Pc): State {
    s.(threads := s.threads[t := pc])
  }

  /** A step that is not enabled changes nothing. */
  function Apply(s: State, step: Step): State {
    match step
    case StartPush(t, item) =>
      if PcOf(s, t).Idle? && item !in s.next
      then Move(s.(next := s.next[item := s.head]), t, Pushing(item)) else s
    case ExchangePush(t, weak) =>
      var pc := PcOf(s, t);
      if !pc.Pushing? then s
      else if !weak && s.head == NextOf(s, pc.item)
      then Move(s.(head := Some(pc.item), history := s.history + [Pushed(pc.item)]), t, Adding)
      else s.(next := s.next[pc.item := s.head])
    case FinishPush(t) =>
      if PcOf(s, t).Adding? then Move(s.(size := s.size + 1), t, Idle) else s
    case StartPop(t) =>
      if !PcOf(s, t).Idle? then s
      else if s.head.None? then s.(history := s.history + [FoundEmpty])
      else Move(s, t, Popping(s.head.value))
    case ReadLink(t) =>
      var pc := PcOf(s, t);
      if pc.Popping? then Move(s, t, Exchanging(pc.item, NextOf(s, pc.item))) else s
    case ExchangePop(t, weak) =>
      var pc := PcOf(s, t);
      if !pc.Exchanging? then s
      else if !weak && s.head == Some(pc.item)
      then Move(s.(head := pc.next, history := s.history + [Popped(pc.item)]), t, Subtracting(pc.item))
      else if s.head.None? then Move(s.(history := s.history + [FoundEmpty]), t, Idle)
      else Move(s, t, Popping(s.head.value))
    case FinishPop(t) =>
      if PcOf(s, t).Subtracting? then Move(s.(size := s.size - 1), t, Idle) else s
  }

  function Exec(steps: seq<Step>): State {
    if steps == [] then INIT else Apply(Exec(steps[..|steps| - 1]), steps[|steps| - 1])
  }

  // ----- The sequential stack

  /** The contents of a plain stack after the events, top first; None when an answer is wrong. */
  function Replay(h: seq<Event>): Option<seq<NodeId>> {
    if h == [] then Some([]) else
      var before := Replay(h[..|h| - 1]);
      if before.None? then None else
      match h[|h| - 1]
      case Pushed(n) => Some([n] + before.value)
      case Popped(n) => if before.value != [] && before.value[0] == n then Some(before.value[1..]) else None
      case FoundEmpty => if before.value == [] then before else None
  }

  ghost predicate PushedOnce(h: seq<Event>) {
    forall i, j :: 0 <= i < j < |h| && h[i].Pushed? && h[j].Pushed? ==> h[i].n != h[j].n
  }

  ghost predicate PoppedOnce(h: seq<Event>) {
    forall i, j :: 0 <= i < j < |h| && h[i].Popped? && h[j].Popped? ==> h[i].n != h[j].n
  }

  /** A correct sequential history of distinct pushes pops nothing twice and leaves exactly the
      nodes pushed and not popped, each once. */
  lemma {:induction false} ReplayContents(h: seq<Event>)
    requires Replay(h).Some? && PushedOnce(h)
    ensures NoDup(Replay(h).value) && PoppedOnce(h)
    ensures forall n :: n in Replay(h).value <==> Pushed(n) in h && Popped(n) !in h
    ensures forall n :: Popped(n) in h ==> Pushed(n) in h
  {
    if h != [] {
      var h', e := h[..|h| - 1], h[|h| - 1];
      assert h == h' + [e];
      ReplayContents(h');
      var s := Replay(h').value;
      match e
      case Pushed(n) =>
        assert Pushed(n) !in h';
        assert n !in s;
      case Popped(n) =>
        assert s == [n] + s[1..];
        assert n !in s[1..];
        assert Popped(n) !in h';
      case FoundEmpty =>
    }
  }

  // ----- The invariant

  function First(chain: seq<NodeId>): Option<NodeId> {
    if chain == [] then None else Some(chain[0])
  }

  /** Following the links from `head` visits exactly the chain. */
  predicate Chained(head: Option<NodeId>, next: map<NodeId, Option<NodeId>>, chain: seq<NodeId>)
    decreases chain
  {
    head == First(chain) && (chain == [] || (chain[0] in next && Chained(next[chain[0]], next, chain[1..])))
  }

  ghost predicate ThreadOk(s: State, pc: Pc) {
    match pc
    case Idle => true
    case Pushing(item) => item in s.next && Pushed(item) !in s.history
    case Adding => true
    case Popping(item) => Pushed(item) in s.history
    case Exchanging(item, next) => Pushed(item) in s.history && NextOf(s, item) == next
    case Subtracting(item) => Popped(item) in s.history
  }

  ghost predicate DistinctPushers(s: State) {
    forall t, u :: t in s.threads && u in s.threads && t != u && s.threads[t].Pushing? && s.threads[u].Pushing?
      ==> s.threads[t].item != s.threads[u].item
  }

  /** No two threads hold the same popped node. */
  ghost predicate DistinctPoppers(s: State) {
    forall t, u :: t in s.threads && u in s.threads && t != u && s.threads[t].Subtracting? && s.threads[u].Subtracting?
      ==> s.threads[t].item != s.threads[u].item
  }

  ghost function Adders(s: State): set<ThreadId> {
    set t | t in s.threads && s.threads[t].Adding?
  }

  ghost function Subtracters(s: State): set<ThreadId> {
    set t | t in s.threads && s.threads[t].Subtracting?
  }

  ghost predicate Inv(s: State) {
    && Replay(s.history).Some? && PushedOnce(s.history)
    && Chained(s.head, s.next, Replay(s.history).value)
    && (forall n :: Pushed(n) in s.history ==> n in s.next)
    && (forall t :: t in s.threads ==> ThreadOk(s, s.threads[t]))
    && DistinctPushers(s) && DistinctPoppers(s)
    && s.size + |Adders(s)| - |Subtracters(s)| == |Replay(s.history).value|
  }

  lemma ReplaySnoc(h: seq<Event>, e: Event)
    ensures Replay(h + [e]) ==
      if Replay(h).None? then None else
      match e
      case Pushed(n) => Some([n] + Replay(h).value)
      case Popped(n) => if Replay(h).value != [] && Replay(h).value[0] == n then Some(Replay(h).value[1..]) else None
      case FoundEmpty => if Replay(h).value == [] then Replay(h) else None
  {
    assert (h + [e])[..|h|] == h;
  }

  /** Writing the link of a node off the chain does not disturb the chain. */
  lemma {:induction false} ChainedFrame(head: Option<NodeId>, next: map<NodeId, Option<NodeId>>, chain: seq<NodeId>,
                                        n: NodeId, link: Option<NodeId>)
    requires Chained(head, next, chain) && n !in chain
    ensures Chained(head, next[n := link], chain)
    decreases chain
  {
    if chain != [] {
      ChainedFrame(next[chain[0]], next, chain[1..], n, link);
    }
  }

  lemma PendingAdders(s: State, t: ThreadId, pc: Pc)
    ensures |Adders(Move(s, t, pc))| ==
      |Adders(s)| - (if PcOf(s, t).Adding? then 1 else 0) + (if pc.Adding? then 1 else 0)
  {
    var a, a' := Adders(s), Adders(Move(s, t, pc));
    CardWithout(a, t);
    CardWithout(a', t);
    assert a' - {t} == a - {t};
  }

  lemma PendingSubtracters(s: State, t: ThreadId, pc: Pc)
    ensures |Subtracters(Move(s, t, pc))| ==
      |Subtracters(s)| - (if PcOf(s, t).Subtracting? then 1 else 0) + (if pc.Subtracting? then 1 else 0)
  {
    var a, a' := Subtracters(s), Subtracters(Move(s, t, pc));
    CardWithout(a, t);
    CardWithout(a', t);
    assert a' - {t} == a - {t};
  }

  /** Moving one thread changes the pending counts by that thread only. */
  lemma Pending(s: State, t: ThreadId, pc: Pc)
    ensures var s' := Move(s, t, pc);
      && |Adders(s')| == |Adders(s)| - (if PcOf(s, t).Adding? then 1 else 0) + (if pc.Adding? then 1 else 0)
      && |Subtracters(s')| ==
           |Subtracters(s)| - (if PcOf(s, t).Subtracting? then 1 else 0) + (if pc.Subtracting? then 1 else 0)
  {
    PendingAdders(s, t, pc);
    PendingSubtracters(s, t, pc);
  }

  lemma CardWithout(a: set<ThreadId>, t: ThreadId)
    ensures |a| == |a - {t}| + if t in a then 1 else 0
  {
  }

  lemma InvMove(s: State, t: ThreadId, pc: Pc, size: int)
    requires Inv(s) && ThreadOk(s, pc) && (pc.Pushing? ==> PcOf(s, t) == pc)
    requires size == s.size + (if PcOf(s, t).Adding? then 1 else 0) - (if PcOf(s, t).Subtracting? then 1 else 0)
    requires !pc.Adding? && !pc.Subtracting?
    ensures Inv(Move(s.(size := size), t, pc))
  {
    Pending(s.(size := size), t, pc);
  }

  lemma InvStartPush(s: State, t: ThreadId, item: NodeId)
    requires Inv(s) && PcOf(s, t).Idle? && item !in s.next
    ensures Inv(Apply(s, StartPush(t, item)))
  {
    var s1 := s.(next := s.next[item := s.head]);
    ReplayContents(s.history);
    ChainedFrame(s.head, s.next, Replay(s.history).value, item, s.head);
    Pending(s1, t, Pushing(item));
    var s' := Move(s1, t, Pushing(item));
    forall u | u in s'.threads ensures ThreadOk(s', s'.threads[u]) {
      if u != t { assert ThreadOk(s, s.threads[u]); }
    }
  }

  lemma InvReload(s: State, t: ThreadId)
    requires Inv(s) && PcOf(s, t).Pushing?
    ensures Inv(s.(next := s.next[PcOf(s, t).item := s.head]))
  {
    var item := PcOf(s, t).item;
    var s' := s.(next := s.next[item := s.head]);
    ReplayContents(s.history);
    ChainedFrame(s.head, s.next, Replay(s.history).value, item, s.head);
    forall u | u in s'.threads ensures ThreadOk(s', s'.threads[u]) {
      assert ThreadOk(s, s.threads[u]);
    }
  }

  lemma InvPushed(s: State, t: ThreadId)
    requires Inv(s) && PcOf(s, t).Pushing? && s.head == NextOf(s, PcOf(s, t).item)
    ensures Inv(Apply(s, ExchangePush(t, false)))
  {
    var item := PcOf(s, t).item;
    var h' := s.history + [Pushed(item)];
    var s' := Apply(s, ExchangePush(t, false));
    ReplaySnoc(s.history, Pushed(item));
    ReplayContents(s.history);
    var chain := Replay(s.history).value;
    assert ([item] + chain)[1..] == chain;
    Pending(s.(head := Some(item), history := h'), t, Adding);
    forall u | u in s'.threads ensures ThreadOk(s', s'.threads[u]) {
      if u != t { assert ThreadOk(s, s.threads[u]); }
    }
  }

  /** The head still being the node seen means its link is the one read: no ABA. */
  lemma InvPopped(s: State, t: ThreadId)
    requires Inv(s) && PcOf(s, t).Exchanging? && s.head == Some(PcOf(s, t).item)
    ensures Inv(Apply(s, ExchangePop(t, false)))
  {
    var item := PcOf(s, t).item;
    var s' := Apply(s, ExchangePop(t, false));
    ReplaySnoc(s.history, Popped(item));
    ReplayContents(s.history);
    assert item in Replay(s.history).value;
    assert ThreadOk(s, s.threads[t]);
    Pending(s.(head := PcOf(s, t).next, history := s'.history), t, Subtracting(item));
    forall u | u in s'.threads ensures ThreadOk(s', s'.threads[u]) {
      if u != t { assert ThreadOk(s, s.threads[u]); }
    }
  }

  lemma InvFoundEmpty(s: State)
    requires Inv(s) && s.head.None?
    ensures Inv(s.(history := s.history + [FoundEmpty]))
  {
  }

  lemma HeadIsPushed(s: State)
    requires Inv(s) && s.head.Some?
    ensures Pushed(s.head.value) in s.history
  {
    ReplayContents(s.history);
    assert s.head.value in Replay(s.history).value;
  }

  lemma InvStep(s: State, step: Step)
    requires Inv(s)
    ensures Inv(Apply(s, step))
  {
    hide Adders, Subtracters, DistinctPushers, DistinctPoppers, Chained, Replay, PushedOnce;
    if Apply(s, step) != s {
      match step
      case StartPush(t, item) =>
        InvStartPush(s, t, item);
      case ExchangePush(t, weak) =>
        if !weak && s.head == NextOf(s, PcOf(s, t).item) {
          InvPushed(s, t);
        } else {
          InvReload(s, t);
        }
      case FinishPush(t) =>
        InvMove(s, t, Idle, s.size + 1);
      case StartPop(t) =>
        if s.head.None? {
          InvFoundEmpty(s);
        } else {
          HeadIsPushed(s);
          InvMove(s, t, Popping(s.head.value), s.size);
        }
      case ReadLink(t) =>
        var item := PcOf(s, t).item;
        assert ThreadOk(s, s.threads[t]);
        InvMove(s, t, Exchanging(item, NextOf(s, item)), s.size);
      case ExchangePop(t, weak) =>
        if !weak && s.head == Some(PcOf(s, t).item) {
          InvPopped(s, t);
        } else if s.head.None? {
          InvFoundEmpty(s);
          InvMove(s.(history := s.history + [FoundEmpty]), t, Idle, s.size);
        } else {
          HeadIsPushed(s);
          InvMove(s, t, Popping(s.head.value), s.size);
        }
      case FinishPop(t) =>
        InvMove(s, t, Idle, s.size - 1);
    }
  }

  lemma {:induction false} InvExec(steps: seq<Step>)
    ensures Inv(Exec(steps))
  {
    if steps == [] {
      assert Adders(INIT) == {} && Subtracters(INIT) == {};
    } else {
      InvExec(steps[..|steps| - 1]);
      InvStep(Exec(steps[..|steps| - 1]), steps[|steps| - 1]);
    }
  }

  /** Under every interleaving the exchanges, in the order they took effect, are a correct history
      of a sequential stack; the links from the head spell out its contents, which are exactly the
      nodes pushed and not popped; nothing is popped twice; and the counter is off by exactly the
      pending updates. */
  lemma HistoryIsStack(steps: seq<Step>)
    ensures var s := Exec(steps); var stack := Replay(s.history);
      && stack.Some? && Chained(s.head, s.next, stack.value) && NoDup(stack.value)
      && (forall n :: n in stack.value <==> Pushed(n) in s.history && Popped(n) !in s.history)
      && PushedOnce(s.history) && PoppedOnce(s.history) && DistinctPoppers(s)
      && s.size + |Adders(s)| - |Subtracters(s)| == |stack.value|
  {
    InvExec(steps);
    ReplayContents(Exec(steps).history);
  }
}
