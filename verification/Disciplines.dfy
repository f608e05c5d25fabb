/** In which order the tasks put into a group leave it, told from what is put in and handed out. */
module Disciplines {
  import opened Basics
  import opened PriorityOrder
  import opened QueueModel
  import opened Serving

  /** What an operation means to one group. */
  datatype Event<T> = In(entry: Entry<T>) | Out(entry: Entry<T>) | Other

  function EventAt<T>(s: State<T>, op: Op<T>, g: string): Event<T> {
    if op.Enqueue? && op.group == g then In(op.entry)
    else if op.Dequeue? && DequeueOf(s).served == Some(g) && DequeueOf(s).task.Some? then Out(DequeueOf(s).task.value)
    else Other
  }

  function Story<T>(ops: seq<Op<T>>, states: seq<State<T>>, lo: nat, hi: nat, g: string): seq<Event<T>>
    requires lo <= hi <= |ops| <= |states|
  {
    seq(hi - lo, k requires 0 <= k < hi - lo => EventAt(states[lo + k], ops[lo + k], g))
  }

  // ----- Telling the entries apart

  /** Each entry has a tag: its place in the story if it was put in there, a negative number if it was
      queued before, the later the greater. */
  ghost predicate IsTag<T>(start: seq<Entry<T>>, story: seq<Event<T>>, t: int) {
    -|start| <= t < |story| && (t >= 0 ==> story[t].In?)
  }

  predicate OldestFirst(mode: Mode) {
    mode.Fifo? || mode.RoundRobin?
  }

  ghost function EntryFor<T>(mode: Mode, start: seq<Entry<T>>, story: seq<Event<T>>, t: int): Entry<T>
    requires IsTag(start, story, t)
  {
    if t >= 0 then story[t].entry else if OldestFirst(mode) then start[|start| + t] else start[-1 - t]
  }

  /** Which of two entries leaves first: the older one in FIFO and round robin, the newer one in LIFO,
      the one of higher priority in priority mode, the newer one among equals. */
  ghost predicate Before<T>(mode: Mode, start: seq<Entry<T>>, story: seq<Event<T>>, t: int, u: int)
    requires IsTag(start, story, t) && IsTag(start, story, u)
  {
    match mode
    case Fifo => t < u
    case RoundRobin => t < u
    case Lifo => t > u
    case Priority =>
      var p, q := EntryFor(mode, start, story, t).priority, EntryFor(mode, start, story, u).priority;
      p > q || (p == q && t > u)
  }

  /** Before the event at `p` the entry is in, and not yet out. */
  ghost predicate Waits<T>(start: seq<Entry<T>>, story: seq<Event<T>>, origins: seq<int>, p: nat, t: int)
    requires p <= |story| && p <= |origins|
  {
    IsTag(start, story, t) && t < p && forall q :: 0 <= q < p && story[q].Out? ==> origins[q] != t
  }

  /** What goes out at `p` is an entry that was waiting, and every other one waiting comes after it. */
  ghost predicate ServedRight<T>(mode: Mode, start: seq<Entry<T>>, story: seq<Event<T>>, origins: seq<int>, p: nat)
    requires p < |story| && p < |origins| && story[p].Out?
  {
    var o := origins[p];
    && Waits(start, story, origins, p, o) && EntryFor(mode, start, story, o) == story[p].entry
    && forall t :: Waits(start, story, origins, p, t) && t != o ==> Before(mode, start, story, o, t)
  }

  ghost predicate InOrder<T>(mode: Mode, start: seq<Entry<T>>, story: seq<Event<T>>, origins: seq<int>) {
    && |origins| <= |story|
    && forall p :: 0 <= p < |origins| && story[p].Out? ==> ServedRight(mode, start, story, origins, p)
  }

  // ----- The queue against the tags

  /** The tags are those of the entries in the queue, in the order of the queue. */
  ghost predicate Labels<T>(mode: Mode, start: seq<Entry<T>>, story: seq<Event<T>>, q: seq<Entry<T>>, tags: seq<int>) {
    && |tags| == |q|
    && forall k :: 0 <= k < |tags| ==> IsTag(start, story, tags[k]) && EntryFor(mode, start, story, tags[k]) == q[k]
  }

  ghost predicate Ranked<T>(mode: Mode, start: seq<Entry<T>>, story: seq<Event<T>>, tags: seq<int>)
    requires forall k :: 0 <= k < |tags| ==> IsTag(start, story, tags[k])
  {
    forall i, j :: 0 <= i < j < |tags| ==> Before(mode, start, story, tags[i], tags[j])
  }

  /** The queue holds exactly the entries waiting, each in front of those it comes before. */
  ghost predicate Lined<T>(mode: Mode, start: seq<Entry<T>>, story: seq<Event<T>>, origins: seq<int>,
                           q: seq<Entry<T>>, tags: seq<int>)
    requires |origins| <= |story|
  {
    && Labels(mode, start, story, q, tags) && Ranked(mode, start, story, tags)
    && forall t :: t in tags <==> Waits(start, story, origins, |origins|, t)
  }

  function StartTags(mode: Mode, n: nat): seq<int> {
    seq(n, k => if OldestFirst(mode) then k - n else -1 - k)
  }

  lemma StartLined<T>(mode: Mode, start: seq<Entry<T>>, story: seq<Event<T>>)
    requires mode.Priority? ==> Sorted(start)
    ensures Lined(mode, start, story, [], start, StartTags(mode, |start|))
  {
    var n, tags := |start|, StartTags(mode, |start|);
    StartLabels(mode, start, story);
    forall t ensures t in tags <==> Waits(start, story, [], 0, t) {
      if -n <= t < 0 {
        assert tags[if OldestFirst(mode) then t + n else -1 - t] == t;
      }
    }
    hide Labels, Ranked;
  }

  lemma StartLabels<T>(mode: Mode, start: seq<Entry<T>>, story: seq<Event<T>>)
    requires mode.Priority? ==> Sorted(start)
    ensures Labels(mode, start, story, start, StartTags(mode, |start|))
    ensures Ranked(mode, start, story, StartTags(mode, |start|))
  {
    var tags := StartTags(mode, |start|);
    assert forall k :: 0 <= k < |tags| ==> tags[k] == if OldestFirst(mode) then k - |start| else -1 - k;
    forall i, j | 0 <= i < j < |tags| ensures Before(mode, start, story, tags[i], tags[j]) {
      if mode.Priority? {
        assert EntryFor(mode, start, story, tags[i]) == start[i] && EntryFor(mode, start, story, tags[j]) == start[j];
      }
    }
  }

  /** One more event leaves the earlier ones as they were. */
  lemma OriginsGrow<T>(mode: Mode, start: seq<Entry<T>>, story: seq<Event<T>>, origins: seq<int>, o: int)
    requires InOrder(mode, start, story, origins) && |origins| < |story|
    ensures var origins' := origins + [o];
      && (forall p, t :: 0 <= p <= |origins| ==>
            (Waits(start, story, origins', p, t) <==> Waits(start, story, origins, p, t)))
      && (forall p :: 0 <= p < |origins| && story[p].Out? ==> ServedRight(mode, start, story, origins', p))
  {
    var origins' := origins + [o];
    forall p: nat, t | p <= |origins|
      ensures Waits(start, story, origins', p, t) <==> Waits(start, story, origins, p, t)
    {
      forall q | 0 <= q < p ensures origins'[q] == origins[q] {}
    }
    forall p | 0 <= p < |origins| && story[p].Out? ensures ServedRight(mode, start, story, origins', p) {
      assert ServedRight(mode, start, story, origins, p);
    }
  }

  /** Who waits after one more event. */
  lemma WaitsAfter<T>(mode: Mode, start: seq<Entry<T>>, story: seq<Event<T>>, origins: seq<int>, o: int, t: int)
    requires InOrder(mode, start, story, origins) && |origins| < |story|
    ensures var n := |origins|;
      Waits(start, story, origins + [o], n + 1, t) <==>
        (Waits(start, story, origins, n, t) && (story[n].Out? ==> t != o)) || (t == n && story[n].In?)
  {
    var n, origins' := |origins|, origins + [o];
    forall q | 0 <= q < n ensures origins'[q] == origins[q] {}
    if t == n {
      forall q | 0 <= q < n && story[q].Out? ensures origins[q] != n {
        assert ServedRight(mode, start, story, origins, q);
      }
    }
  }

  lemma OtherLined<T>(mode: Mode, start: seq<Entry<T>>, story: seq<Event<T>>, origins: seq<int>,
                      q: seq<Entry<T>>, tags: seq<int>)
    requires InOrder(mode, start, story, origins) && |origins| < |story| && story[|origins|].Other?
    requires Lined(mode, start, story, origins, q, tags)
    ensures InOrder(mode, start, story, origins + [0]) && Lined(mode, start, story, origins + [0], q, tags)
  {
    OriginsGrow(mode, start, story, origins, 0);
    forall t ensures t in tags <==> Waits(start, story, origins + [0], |origins| + 1, t) {
      WaitsAfter(mode, start, story, origins, 0, t);
    }
    hide Waits, Before, EntryFor, ServedRight;
  }

  /** The front of the queue goes out. */
  lemma OutLined<T>(mode: Mode, start: seq<Entry<T>>, story: seq<Event<T>>, origins: seq<int>,
                    q: seq<Entry<T>>, tags: seq<int>)
    requires InOrder(mode, start, story, origins) && |origins| < |story|
    requires q != [] && story[|origins|] == Out(q[0]) && Lined(mode, start, story, origins, q, tags)
    ensures var origins' := origins + [tags[0]];
      InOrder(mode, start, story, origins') && Lined(mode, start, story, origins', q[1..], tags[1..])
  {
    var n, o := |origins|, tags[0];
    var origins' := origins + [o];
    OriginsGrow(mode, start, story, origins, o);
    assert tags == [o] + tags[1..];
    FrontServed(mode, start, story, origins, q, tags);
    forall t ensures t in tags[1..] <==> Waits(start, story, origins', n + 1, t) {
      WaitsAfter(mode, start, story, origins, o, t);
      FrontOnce(mode, start, story, origins, q, tags);
    }
    hide Waits, Before, EntryFor, ServedRight;
  }

  lemma FrontOnce<T>(mode: Mode, start: seq<Entry<T>>, story: seq<Event<T>>, origins: seq<int>,
                     q: seq<Entry<T>>, tags: seq<int>)
    requires |origins| <= |story| && Lined(mode, start, story, origins, q, tags) && q != []
    ensures tags[0] !in tags[1..]
  {
    forall k | 0 <= k < |tags| - 1 ensures tags[1..][k] != tags[0] {
      assert Before(mode, start, story, tags[0], tags[k + 1]);
    }
  }

  lemma FrontServed<T>(mode: Mode, start: seq<Entry<T>>, story: seq<Event<T>>, origins: seq<int>,
                       q: seq<Entry<T>>, tags: seq<int>)
    requires InOrder(mode, start, story, origins) && |origins| < |story|
    requires q != [] && story[|origins|] == Out(q[0]) && Lined(mode, start, story, origins, q, tags)
    ensures ServedRight(mode, start, story, origins + [tags[0]], |origins|)
  {
    var n, o := |origins|, tags[0];
    OriginsGrow(mode, start, story, origins, o);
    assert o in tags;
    forall t | Waits(start, story, origins + [o], n, t) && t != o ensures Before(mode, start, story, o, t) {
      assert t in tags;
      var k :| 0 <= k < |tags| && tags[k] == t;
    }
  }

  function PlacedAt<X>(s: seq<X>, k: nat, x: X): (r: seq<X>)
    requires k <= |s|
    ensures |r| == |s| + 1
    ensures forall i :: 0 <= i < |r| ==> r[i] == if i < k then s[i] else if i == k then x else s[i - 1]
  {
    s[..k] + [x] + s[k..]
  }

  lemma PlacedElems(tags: seq<int>, k: nat, n: int, t: int)
    requires k <= |tags|
    ensures t in PlacedAt(tags, k, n) <==> t in tags || t == n
  {
    var tags' := PlacedAt(tags, k, n);
    assert tags'[k] == n;
    if i :| 0 <= i < |tags| && tags[i] == t {
      assert tags'[if i < k then i else i + 1] == t;
    }
  }

  /** A new entry takes its place between those that come before it and those that come after. */
  lemma InLined<T>(mode: Mode, start: seq<Entry<T>>, story: seq<Event<T>>, origins: seq<int>,
                   q: seq<Entry<T>>, tags: seq<int>, k: nat)
    requires InOrder(mode, start, story, origins) && |origins| < |story| && story[|origins|].In?
    requires Lined(mode, start, story, origins, q, tags) && k <= |q|
    requires forall i :: 0 <= i < k ==> Before(mode, start, story, tags[i], |origins|)
    requires forall i :: k <= i < |tags| ==> Before(mode, start, story, |origins|, tags[i])
    ensures var n := |origins|;
      && InOrder(mode, start, story, origins + [0])
      && Lined(mode, start, story, origins + [0], PlacedAt(q, k, story[n].entry), PlacedAt(tags, k, n))
  {
    var n := |origins|;
    OriginsGrow(mode, start, story, origins, 0);
    PlacedLabels(mode, start, story, q, tags, k, n);
    PlacedRanked(mode, start, story, q, tags, k, n);
    forall t ensures t in PlacedAt(tags, k, n) <==> Waits(start, story, origins + [0], n + 1, t) {
      WaitsAfter(mode, start, story, origins, 0, t);
      PlacedElems(tags, k, n, t);
    }
    hide Waits, Before, ServedRight, PlacedAt, Labels, Ranked;
  }

  lemma PlacedLabels<T>(mode: Mode, start: seq<Entry<T>>, story: seq<Event<T>>,
                        q: seq<Entry<T>>, tags: seq<int>, k: nat, n: nat)
    requires n < |story| && story[n].In? && k <= |q| && Labels(mode, start, story, q, tags)
    ensures Labels(mode, start, story, PlacedAt(q, k, story[n].entry), PlacedAt(tags, k, n))
  {
    var q', tags' := PlacedAt(q, k, story[n].entry), PlacedAt(tags, k, n);
    forall i | 0 <= i < |tags'|
      ensures IsTag(start, story, tags'[i]) && EntryFor(mode, start, story, tags'[i]) == q'[i]
    {
      var j := if i < k then i else i - 1;
      assert i != k ==> tags'[i] == tags[j] && q'[i] == q[j];
    }
  }

  lemma PlacedRanked<T>(mode: Mode, start: seq<Entry<T>>, story: seq<Event<T>>,
                        q: seq<Entry<T>>, tags: seq<int>, k: nat, n: nat)
    requires n < |story| && story[n].In? && k <= |q| && Labels(mode, start, story, q, tags)
    requires Labels(mode, start, story, PlacedAt(q, k, story[n].entry), PlacedAt(tags, k, n))
    requires Ranked(mode, start, story, tags)
    requires forall i :: 0 <= i < k ==> Before(mode, start, story, tags[i], n)
    requires forall i :: k <= i < |tags| ==> Before(mode, start, story, n, tags[i])
    ensures Ranked(mode, start, story, PlacedAt(tags, k, n))
  {
    var tags' := PlacedAt(tags, k, n);
    hide Before, EntryFor;
    forall i, j | 0 <= i < j < |tags'| ensures Before(mode, start, story, tags'[i], tags'[j]) {
      if i != k && j != k {
        var a, b := if i < k then i else i - 1, if j < k then j else j - 1;
        assert Before(mode, start, story, tags[a], tags[b]);
      }
    }
  }

  /** Where the discipline puts a new entry is where its tag belongs. */
  lemma AddLined<T>(mode: Mode, start: seq<Entry<T>>, story: seq<Event<T>>, origins: seq<int>,
                    q: seq<Entry<T>>, tags: seq<int>) returns (tags': seq<int>)
    requires InOrder(mode, start, story, origins) && |origins| < |story| && story[|origins|].In?
    requires Lined(mode, start, story, origins, q, tags) && (mode.Priority? ==> Sorted(q))
    ensures InOrder(mode, start, story, origins + [0])
    ensures Lined(mode, start, story, origins + [0], Add(mode, q, story[|origins|].entry), tags')
  {
    var n, e := |origins|, story[|origins|].entry;
    var k := if OldestFirst(mode) then |q| else if mode.Lifo? then 0 else Position(q, e.priority);
    assert Add(mode, q, e) == PlacedAt(q, k, e);
    if mode.Priority? {
      PositionSplits(q, e.priority);
    }
    forall i | 0 <= i < |tags| ensures tags[i] < n {
      assert tags[i] in tags;
    }
    hide Waits, ServedRight, Position;
    InLined(mode, start, story, origins, q, tags, k);
    tags' := PlacedAt(tags, k, n);
  }

  // ----- Runs

  /** A stretch of a run in one mode and without a clear. */
  ghost predicate Stretch<T>(ops: seq<Op<T>>, states: seq<State<T>>, lo: nat, hi: nat, mode: Mode) {
    && IsRun(ops, states) && lo <= hi <= |ops|
    && (forall k :: lo <= k <= hi ==> states[k].mode == mode)
    && (forall k :: lo <= k < hi ==> !ops[k].Clear?)
  }

  ghost function QueueOf<T>(s: State<T>, g: string): seq<Entry<T>> {
    Get(Current(s).queues, g)
  }

  lemma QueueStep<T>(s: State<T>, op: Op<T>, s': State<T>, g: string)
    requires Inv(s) && Step(s, op, s') && s'.mode == s.mode && !op.Clear?
    ensures var q, q' := QueueOf(s, g), QueueOf(s', g);
      match EventAt(s, op, g)
      case In(e) => q' == Add(s.mode, q, e)
      case Out(e) => q == [e] + q'
      case Other => q' == q
  {
    match op
    case Dequeue =>
      DequeueTakesFront(s);
      hide DequeueOf, Inv;
    case _ =>
      hide Inv, Add, DequeueOf, Refill, Drain;
  }

  /** How a queue goes through an event. */
  ghost predicate Follows<T>(mode: Mode, q: seq<Entry<T>>, event: Event<T>, q': seq<Entry<T>>) {
    match event
    case In(e) => q' == Add(mode, q, e)
    case Out(e) => q == [e] + q'
    case Other => q' == q
  }

  lemma StepLined<T>(mode: Mode, start: seq<Entry<T>>, story: seq<Event<T>>, origins: seq<int>, tags: seq<int>,
                     q: seq<Entry<T>>, q': seq<Entry<T>>) returns (o: int, tags': seq<int>)
    requires InOrder(mode, start, story, origins) && |origins| < |story|
    requires Lined(mode, start, story, origins, q, tags) && (mode.Priority? ==> Sorted(q))
    requires Follows(mode, q, story[|origins|], q')
    ensures InOrder(mode, start, story, origins + [o])
    ensures Lined(mode, start, story, origins + [o], q', tags')
  {
    hide InOrder, Lined, Add, Sorted;
    match story[|origins|]
    case In(e) =>
      o := 0;
      tags' := AddLined(mode, start, story, origins, q, tags);
    case Out(e) =>
      o := FrontTag(mode, start, story, origins, q, tags);
      tags' := tags[1..];
      assert q[1..] == q';
      OutLined(mode, start, story, origins, q, tags);
    case Other =>
      o, tags' := 0, tags;
      OtherLined(mode, start, story, origins, q, tags);
  }

  ghost predicate GoesThrough<T>(mode: Mode, story: seq<Event<T>>, queues: seq<seq<Entry<T>>>) {
    && |queues| == |story| + 1
    && (forall k, l :: 0 <= k && l == k + 1 && l < |queues| ==> Follows(mode, queues[k], story[k], queues[l]))
    && (mode.Priority? ==> forall k :: 0 <= k < |queues| ==> Sorted(queues[k]))
  }

  lemma ThroughAt<T>(mode: Mode, story: seq<Event<T>>, queues: seq<seq<Entry<T>>>, k: nat)
    requires GoesThrough(mode, story, queues) && k < |story|
    ensures |queues| == |story| + 1
    ensures Follows(mode, queues[k], story[k], queues[k + 1]) && (mode.Priority? ==> Sorted(queues[k]))
  {
    hide Follows, Sorted;
  }

  /** A queue that goes through a story hands out its entries in order. */
  lemma {:induction false} FollowedInOrder<T>(mode: Mode, story: seq<Event<T>>, queues: seq<seq<Entry<T>>>, p: nat)
      returns (origins: seq<int>, tags: seq<int>)
    requires GoesThrough(mode, story, queues) && p <= |story|
    ensures |queues| == |story| + 1 && |origins| == p && InOrder(mode, queues[0], story, origins)
    ensures Lined(mode, queues[0], story, origins, queues[p], tags)
  {
    if p == 0 {
      StartLined(mode, queues[0], story);
      origins, tags := [], StartTags(mode, |queues[0]|);
      hide Lined, StartTags;
    } else {
      ThroughAt(mode, story, queues, p - 1);
      hide InOrder, Lined, Follows, Sorted, GoesThrough;
      var before, tags0 := FollowedInOrder(mode, story, queues, p - 1);
      var o, tags' := StepLined(mode, queues[0], story, before, tags0, queues[p - 1], queues[p]);
      origins, tags := before + [o], tags';
    }
  }

  lemma FrontTag<T>(mode: Mode, start: seq<Entry<T>>, story: seq<Event<T>>, origins: seq<int>,
                    q: seq<Entry<T>>, tags: seq<int>) returns (o: int)
    requires |origins| <= |story| && Lined(mode, start, story, origins, q, tags) && q != []
    ensures tags != [] && o == tags[0]
  {
    o := tags[0];
  }

  /** In every stretch of a run in one mode and for every group, clears apart: each task handed out of
      the group is one put into it that was still waiting, and of all those waiting it is the oldest in
      FIFO and round robin, the newest in LIFO, and one of highest priority in priority mode, the newest
      among equals; and what is still queued is what still waits, in that order. */
  lemma LeavesInOrder<T>(ops: seq<Op<T>>, states: seq<State<T>>, lo: nat, hi: nat, mode: Mode, g: string)
      returns (origins: seq<int>, tags: seq<int>)
    requires Stretch(ops, states, lo, hi, mode)
    ensures var start, story := QueueOf(states[lo], g), Story(ops, states, lo, hi, g);
      && |origins| == |story| && InOrder(mode, start, story, origins)
      && Lined(mode, start, story, origins, QueueOf(states[hi], g), tags)
  {
    hide *;
    StretchBounds(ops, states, lo, hi, mode, g);
    var queues := StretchThrough(ops, states, lo, hi, mode, g);
    origins, tags := FollowedInOrder(mode, Story(ops, states, lo, hi, g), queues, hi - lo);
  }

  lemma StretchBounds<T>(ops: seq<Op<T>>, states: seq<State<T>>, lo: nat, hi: nat, mode: Mode, g: string)
    requires Stretch(ops, states, lo, hi, mode)
    ensures |states| == |ops| + 1 && lo <= hi <= |ops| && |Story(ops, states, lo, hi, g)| == hi - lo
  {
    RunLength(ops, states);
    hide IsRun, EventAt;
  }

  ghost function QueuesOf<T>(states: seq<State<T>>, lo: nat, n: nat, g: string): (r: seq<seq<Entry<T>>>)
    requires lo + n <= |states|
  {
    seq(n, k requires 0 <= k < n => QueueOf(states[lo + k], g))
  }

  lemma QueuesAt<T>(states: seq<State<T>>, lo: nat, n: nat, g: string, k: nat)
    requires lo + n <= |states| && k < n
    ensures |QueuesOf(states, lo, n, g)| == n && QueuesOf(states, lo, n, g)[k] == QueueOf(states[lo + k], g)
  {
    hide QueueOf;
  }

  lemma StoryAt<T>(ops: seq<Op<T>>, states: seq<State<T>>, lo: nat, hi: nat, g: string, k: nat)
    requires lo <= k < hi <= |ops| <= |states|
    ensures |Story(ops, states, lo, hi, g)| == hi - lo
    ensures Story(ops, states, lo, hi, g)[k - lo] == EventAt(states[k], ops[k], g)
  {
    hide EventAt;
  }

  lemma StretchThrough<T>(ops: seq<Op<T>>, states: seq<State<T>>, lo: nat, hi: nat, mode: Mode, g: string)
      returns (queues: seq<seq<Entry<T>>>)
    requires Stretch(ops, states, lo, hi, mode)
    ensures |states| == |ops| + 1 && lo <= hi <= |ops| && |queues| == hi - lo + 1
    ensures GoesThrough(mode, Story(ops, states, lo, hi, g), queues)
    ensures queues[0] == QueueOf(states[lo], g) && queues[hi - lo] == QueueOf(states[hi], g)
  {
    hide Follows, QueueOf, QueuesOf, Story, Sorted, EventAt, Stretch;
    StretchBounds(ops, states, lo, hi, mode, g);
    var n := hi - lo + 1;
    queues := QueuesOf(states, lo, n, g);
    QueuesAt(states, lo, n, g, 0);
    QueuesAt(states, lo, n, g, hi - lo);
    var story := Story(ops, states, lo, hi, g);
    forall k, l | 0 <= k && l == k + 1 && l < |queues| ensures Follows(mode, queues[k], story[k], queues[l]) {
      QueuesAt(states, lo, n, g, k);
      QueuesAt(states, lo, n, g, l);
      StoryAt(ops, states, lo, hi, g, lo + k);
      StretchFollows(ops, states, lo, hi, mode, g, lo + k);
    }
    forall k | 0 <= k < |queues| && mode.Priority? ensures Sorted(queues[k]) {
      QueuesAt(states, lo, n, g, k);
      StretchSorted(ops, states, lo, hi, g, lo + k);
    }
  }

  lemma StretchFollows<T>(ops: seq<Op<T>>, states: seq<State<T>>, lo: nat, hi: nat, mode: Mode, g: string, k: nat)
    requires Stretch(ops, states, lo, hi, mode) && lo <= k < hi
    ensures |states| == |ops| + 1 && hi <= |ops|
    ensures Follows(mode, QueueOf(states[k], g), EventAt(states[k], ops[k], g), QueueOf(states[k + 1], g))
  {
    StepAt(ops, states, k);
    InvRun(ops, states, k);
    assert states[k].mode == states[k + 1].mode == mode;
    hide Step, Inv, EventAt, QueueOf, Add, IsRun;
    QueueStep(states[k], ops[k], states[k + 1], g);
  }

  lemma StretchSorted<T>(ops: seq<Op<T>>, states: seq<State<T>>, lo: nat, hi: nat, g: string, k: nat)
    requires Stretch(ops, states, lo, hi, Priority) && lo <= k <= hi
    ensures |states| == |ops| + 1 && hi <= |ops| && Sorted(QueueOf(states[k], g))
  {
    assert states[k].mode == Priority;
    InvRun(ops, states, k);
  }

  /** Of two entries put in and both handed out, the earlier one leaves first in FIFO and round robin. */
  lemma EarlierLeavesFirst<T>(mode: Mode, start: seq<Entry<T>>, story: seq<Event<T>>, origins: seq<int>, p: nat, q: nat)
    requires InOrder(mode, start, story, origins) && OldestFirst(mode) && p < |origins| && q < |origins|
    requires story[p].Out? && story[q].Out? && origins[p] < origins[q]
    ensures p < q
  {
    assert ServedRight(mode, start, story, origins, p) && ServedRight(mode, start, story, origins, q);
    if q <= p {
      assert Waits(start, story, origins, q, origins[p]);
    }
  }

  /** In LIFO an entry put in while an earlier one waits leaves before it. */
  lemma LaterLeavesFirst<T>(start: seq<Entry<T>>, story: seq<Event<T>>, origins: seq<int>, p: nat, t: nat)
      returns (q: nat)
    requires InOrder(Lifo, start, story, origins) && p < |origins| && story[p].Out?
    requires origins[p] < t < p && story[t].In?
    ensures t < q < p && story[q].Out? && origins[q] == t
  {
    assert ServedRight(Lifo, start, story, origins, p);
    assert !Waits(start, story, origins, p, t);
    q :| 0 <= q < p && story[q].Out? && origins[q] == t;
    assert ServedRight(Lifo, start, story, origins, q);
  }

  /** In priority mode what is handed out has at least the priority of every entry waiting, and is newer
      than those of the same priority. */
  lemma HighestLeavesFirst<T>(start: seq<Entry<T>>, story: seq<Event<T>>, origins: seq<int>, p: nat, t: int)
    requires InOrder(Priority, start, story, origins) && p < |origins| && story[p].Out?
    requires Waits(start, story, origins, p, t) && t != origins[p]
    ensures var e := EntryFor(Priority, start, story, t);
      e.priority < story[p].entry.priority || (e.priority == story[p].entry.priority && t < origins[p])
  {
    assert ServedRight(Priority, start, story, origins, p);
  }
}
