/** The calls on the lock-free stack: what a caller sees, against the order in which the exchanges
    took effect. */
module StackCalls {
  import opened Basics
  import opened TreiberStack

  datatype Call = PushCall(item: NodeId) | PopCall

  datatype Reply = Done | Got(item: NodeId) | Nothing

  /** One line of the timeline: a thread calls, its call takes effect, it gets its reply. */
  datatype Mark =
    | Called(t: ThreadId, call: Call)
    | Took(t: ThreadId, event: Event)
    | Returned(t: ThreadId, reply: Reply)

  /** What a step adds to the timeline. */
  function Marks(s: State, step: Step): seq<Mark> {
    match step
    case StartPush(t, item) =>
      if PcOf(s, t).Idle? && item !in s.next then [Called(t, PushCall(item))] else []
    case ExchangePush(t, weak) =>
      var pc := PcOf(s, t);
      if pc.Pushing? && !weak && s.head == NextOf(s, pc.item) then [Took(t, Pushed(pc.item))] else []
    case FinishPush(t) =>
      if PcOf(s, t).Adding? then [Returned(t, Done)] else []
    case StartPop(t) =>
      if !PcOf(s, t).Idle? then []
      else if s.head.None? then [Called(t, PopCall), Took(t, FoundEmpty), Returned(t, Nothing)]
      else [Called(t, PopCall)]
    case ReadLink(t) => []
    case ExchangePop(t, weak) =>
      var pc := PcOf(s, t);
      if !pc.Exchanging? then []
      else if !weak && s.head == Some(pc.item) then [Took(t, Popped(pc.item))]
      else if s.head.None? then [Took(t, FoundEmpty), Returned(t, Nothing)]
      else []
    case FinishPop(t) =>
      var pc := PcOf(s, t);
      if pc.Subtracting? then [Returned(t, Got(pc.item))] else []
  }

  function Timeline(steps: seq<Step>): seq<Mark> {
    if steps == [] then [] else
      Timeline(steps[..|steps| - 1]) + Marks(Exec(steps[..|steps| - 1]), steps[|steps| - 1])
  }

  function EventOf(m: Mark): seq<Event> {
    if m.Took? then [m.event] else []
  }

  function Events(h: seq<Mark>): seq<Event> {
    if h == [] then [] else Events(h[..|h| - 1]) + EventOf(h[|h| - 1])
  }

  predicate Answers(event: Event, call: Call) {
    match event
    case Pushed(n) => call == PushCall(n)
    case Popped(n) => call == PopCall
    case FoundEmpty => call == PopCall
  }

  function ReplyOf(event: Event): Reply {
    match event
    case Pushed(n) => Done
    case Popped(n) => Got(n)
    case FoundEmpty => Nothing
  }

  // ----- Where a thread stands in the timeline

  datatype Phase = Free | Waiting(call: Call) | Served(event: Event) | Broken

  function Next(p: Phase, t: ThreadId, m: Mark): Phase {
    if m.t != t then p else
      match m
      case Called(_, call) => if p.Free? then Waiting(call) else Broken
      case Took(_, event) => if p.Waiting? && Answers(event, p.call) then Served(event) else Broken
      case Returned(_, reply) => if p.Served? && reply == ReplyOf(p.event) then Free else Broken
  }

  function PhaseOf(h: seq<Mark>, t: ThreadId): Phase {
    if h == [] then Free else Next(PhaseOf(h[..|h| - 1], t), t, h[|h| - 1])
  }

  /** The place in the code fits the phase. */
  predicate Stands(pc: Pc, p: Phase) {
    match pc
    case Idle => p.Free?
    case Pushing(item) => p == Waiting(PushCall(item))
    case Adding => p.Served? && p.event.Pushed?
    case Popping(_) => p == Waiting(PopCall)
    case Exchanging(_, _) => p == Waiting(PopCall)
    case Subtracting(item) => p == Served(Popped(item))
  }

  lemma {:induction false} EventsConcat(a: seq<Mark>, b: seq<Mark>)
    ensures Events(a + b) == Events(a) + Events(b)
    decreases |b|
  {
    if b == [] {
      assert a + b == a;
    } else {
      assert (a + b)[..|a + b| - 1] == a + b[..|b| - 1];
      EventsConcat(a, b[..|b| - 1]);
    }
  }

  function After(p: Phase, t: ThreadId, b: seq<Mark>): Phase {
    if b == [] then p else Next(After(p, t, b[..|b| - 1]), t, b[|b| - 1])
  }

  lemma {:induction false} PhaseConcat(a: seq<Mark>, b: seq<Mark>, t: ThreadId)
    ensures PhaseOf(a + b, t) == After(PhaseOf(a, t), t, b)
    decreases |b|
  {
    if b == [] {
      assert a + b == a;
    } else {
      assert (a + b)[..|a + b| - 1] == a + b[..|b| - 1];
      PhaseConcat(a, b[..|b| - 1], t);
    }
  }

  lemma Unfolded(p: Phase, t: ThreadId, m: seq<Mark>)
    requires 0 < |m| <= 3
    ensures |m| == 1 ==> After(p, t, m) == Next(p, t, m[0])
    ensures |m| == 2 ==> After(p, t, m) == Next(Next(p, t, m[0]), t, m[1])
    ensures |m| == 3 ==> After(p, t, m) == Next(Next(Next(p, t, m[0]), t, m[1]), t, m[2])
  {
    assert m[..1][..0] == [];
    if |m| > 1 {
      assert m[..2][..1] == m[..1];
    }
  }

  lemma EventsUnfolded(m: seq<Mark>)
    requires 0 < |m| <= 3
    ensures |m| == 1 ==> Events(m) == EventOf(m[0])
    ensures |m| == 2 ==> Events(m) == EventOf(m[0]) + EventOf(m[1])
    ensures |m| == 3 ==> Events(m) == EventOf(m[0]) + EventOf(m[1]) + EventOf(m[2])
  {
    hide EventOf;
    assert m[..1][..0] == [];
    if |m| > 1 {
      assert m[..2][..1] == m[..1];
    }
  }

  lemma StepEvents(s: State, step: Step)
    ensures TreiberStack.Apply(s, step).history == s.history + Events(Marks(s, step))
  {
    var m := Marks(s, step);
    if |m| > 0 {
      EventsUnfolded(m);
    }
    hide Events;
  }

  /** A step of another thread leaves this one where it is. */
  lemma OthersStand(s: State, step: Step, t: ThreadId, p: Phase)
    requires step.t != t
    ensures PcOf(TreiberStack.Apply(s, step), t) == PcOf(s, t) && After(p, t, Marks(s, step)) == p
  {
    var m := Marks(s, step);
    assert forall i :: 0 <= i < |m| ==> m[i].t == step.t;
    if |m| > 0 {
      Unfolded(p, t, m);
    }
  }

  lemma OwnStands(s: State, step: Step, p: Phase)
    requires Stands(PcOf(s, step.t), p)
    ensures Stands(PcOf(TreiberStack.Apply(s, step), step.t), After(p, step.t, Marks(s, step)))
  {
    var m := Marks(s, step);
    if |m| > 0 {
      Unfolded(p, step.t, m);
    }
    hide After;
  }

  /** Under every interleaving the effects in the timeline are the history, and every thread's place
      in the code fits its phase. */
  lemma {:induction false} TimelineFits(steps: seq<Step>, t: ThreadId)
    ensures Events(Timeline(steps)) == Exec(steps).history
    ensures Stands(PcOf(Exec(steps), t), PhaseOf(Timeline(steps), t))
  {
    if steps != [] {
      var init, step := steps[..|steps| - 1], steps[|steps| - 1];
      TimelineFits(init, t);
      var s, h := Exec(init), Timeline(init);
      EventsConcat(h, Marks(s, step));
      PhaseConcat(h, Marks(s, step), t);
      StepEvents(s, step);
      if step.t == t {
        OwnStands(s, step, PhaseOf(h, t));
      } else {
        OthersStand(s, step, t, PhaseOf(h, t));
      }
      hide Marks, Stands, TreiberStack.Apply, After;
    }
  }

  // ----- Every reply belongs to one effect inside its call

  /** The reply at `i` belongs to the call at `k` and the effect at `j`, and the thread has no other
      mark from the call to the reply. */
  ghost predicate Matched(h: seq<Mark>, k: nat, j: nat, i: nat)
    requires k < j < i < |h|
  {
    && h[k].Called? && h[j].Took? && h[i].Returned? && h[k].t == h[j].t == h[i].t
    && Answers(h[j].event, h[k].call) && h[i].reply == ReplyOf(h[j].event)
    && forall x :: k < x < i && x != j ==> h[x].t != h[i].t
  }

  lemma {:induction false} NeverBroken(h: seq<Mark>, t: ThreadId, i: nat)
    requires !PhaseOf(h, t).Broken? && i <= |h|
    ensures !PhaseOf(h[..i], t).Broken?
  {
    if i < |h| {
      NeverBroken(h[..|h| - 1], t, i);
      assert h[..|h| - 1][..i] == h[..i];
    } else {
      assert h[..i] == h;
    }
  }

  lemma {:induction false} WaitingSince(h: seq<Mark>, t: ThreadId) returns (k: nat)
    requires PhaseOf(h, t).Waiting?
    ensures k < |h| && h[k] == Called(t, PhaseOf(h, t).call) && forall x :: k < x < |h| ==> h[x].t != t
  {
    var n := |h| - 1;
    if h[n].t == t {
      k := n;
    } else {
      k := WaitingSince(h[..n], t);
    }
  }

  lemma {:induction false} ServedSince(h: seq<Mark>, t: ThreadId) returns (k: nat, j: nat)
    requires PhaseOf(h, t).Served?
    ensures k < j < |h| && h[k].Called? && h[k].t == t && h[j] == Took(t, PhaseOf(h, t).event)
    ensures Answers(h[j].event, h[k].call) && forall x :: k < x < |h| && x != j ==> h[x].t != t
  {
    var n := |h| - 1;
    if h[n].t == t {
      j := n;
      k := WaitingSince(h[..n], t);
    } else {
      k, j := ServedSince(h[..n], t);
    }
  }

  lemma ReplyMatched(h: seq<Mark>, i: nat) returns (k: nat, j: nat)
    requires i < |h| && h[i].Returned? && !PhaseOf(h, h[i].t).Broken?
    ensures k < j < i && Matched(h, k, j, i)
  {
    NeverBroken(h, h[i].t, i + 1);
    assert h[..i + 1][..i] == h[..i];
    k, j := ServedSince(h[..i], h[i].t);
  }

  /** The effect at `j` belongs to the call at `k`, with nothing of the thread's in between. */
  ghost predicate CalledFor(h: seq<Mark>, k: nat, j: nat)
    requires k < j < |h|
  {
    && h[k].Called? && h[j].Took? && h[k].t == h[j].t && Answers(h[j].event, h[k].call)
    && forall x :: k < x < j ==> h[x].t != h[j].t
  }

  lemma EffectCalled(h: seq<Mark>, j: nat) returns (k: nat)
    requires j < |h| && h[j].Took? && !PhaseOf(h, h[j].t).Broken?
    ensures k < j && CalledFor(h, k, j)
  {
    NeverBroken(h, h[j].t, j + 1);
    assert h[..j + 1][..j] == h[..j];
    k := WaitingSince(h[..j], h[j].t);
  }

  ghost predicate EffectsCalled(h: seq<Mark>) {
    forall j :: 0 <= j < |h| && h[j].Took? ==> exists k :: 0 <= k < j && CalledFor(h, k, j)
  }

  ghost predicate RepliesMatched(h: seq<Mark>) {
    forall i :: 0 <= i < |h| && h[i].Returned? ==> exists k, j :: 0 <= k < j < i && Matched(h, k, j, i)
  }

  lemma NoThreadBroken(steps: seq<Step>, t: ThreadId)
    ensures !PhaseOf(Timeline(steps), t).Broken?
  {
    TimelineFits(steps, t);
  }

  lemma CallsMatched(steps: seq<Step>)
    ensures EffectsCalled(Timeline(steps)) && RepliesMatched(Timeline(steps))
  {
    var h := Timeline(steps);
    hide Timeline, PhaseOf, CalledFor, Matched;
    forall j | 0 <= j < |h| && h[j].Took? ensures exists k :: 0 <= k < j && CalledFor(h, k, j) {
      NoThreadBroken(steps, h[j].t);
      var k := EffectCalled(h, j);
    }
    forall i | 0 <= i < |h| && h[i].Returned? ensures exists k, j :: 0 <= k < j < i && Matched(h, k, j, i) {
      NoThreadBroken(steps, h[i].t);
      var k, j := ReplyMatched(h, i);
    }
  }

  /** Under every interleaving the effects, in order, are a correct history of a sequential stack
      whose contents the links from the head spell out; every effect belongs to a call of its own; and
      every reply is that of exactly one effect, which lies between the thread's call and the reply. */
  lemma Linearizable(steps: seq<Step>)
    ensures var s, h := Exec(steps), Timeline(steps); var stack := Replay(Events(h));
      && stack.Some? && Chained(s.head, s.next, stack.value)
      && EffectsCalled(h) && RepliesMatched(h)
  {
    hide *;
    HistoryIsStack(steps);
    TimelineFits(steps, 0);
    CallsMatched(steps);
  }
}
