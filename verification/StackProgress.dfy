/** Progress on the lock-free stack: a thread running alone gets through, and an exchange fails only
    because another thread's succeeded. */
module StackProgress {
  import opened Basics
  import opened TreiberStack

  /** The push takes effect: one event more, and the item on top. */
  ghost predicate PushTakesEffect(s: State, s': State, item: NodeId) {
    s'.history == s.history + [Pushed(item)] && s'.head == Some(item)
  }

  /** From wherever it stands, a push whose thread runs alone takes effect within two exchanges. */
  lemma LonePush(s: State, t: ThreadId)
    requires PcOf(s, t).Pushing?
    ensures var item := PcOf(s, t).item;
      var s1 := Apply(s, ExchangePush(t, false)); var s2 := Apply(s1, ExchangePush(t, false));
      PushTakesEffect(s, s1, item) || (s1.history == s.history && PushTakesEffect(s1, s2, item))
  {
  }

  /** One round of a pop: reading the link, then the exchange. */
  function PopRound(s: State, t: ThreadId): State {
    Apply(Apply(s, ReadLink(t)), ExchangePop(t, false))
  }

  ghost predicate PopTakesEffect(s: State, s': State) {
    s'.history == s.history + [if s.head.None? then FoundEmpty else Popped(s.head.value)]
  }

  /** From wherever it stands, a pop whose thread runs alone takes effect within two exchanges. */
  lemma LonePop(s: State, t: ThreadId)
    requires PcOf(s, t).Popping? || PcOf(s, t).Exchanging?
    ensures var s1 := PopRound(s, t); var s2 := PopRound(s1, t);
      PopTakesEffect(s, s1) || (s1.history == s.history && PopTakesEffect(s1, s2))
  {
  }

  // ----- Failed exchanges

  /** The exchanges that succeeded, told from the history. */
  predicate IsExchange(e: Event) {
    e.Pushed? || e.Popped?
  }

  ghost predicate NoExchange(before: seq<Event>, after: seq<Event>) {
    before <= after && forall k :: |before| <= k < |after| ==> !IsExchange(after[k])
  }

  /** The thread holds the present head: as the link of the item it pushes, or as the item it pops. */
  ghost predicate Loaded(s: State, t: ThreadId) {
    match PcOf(s, t)
    case Pushing(item) => s.head == NextOf(s, item)
    case Popping(item) => s.head == Some(item)
    case Exchanging(item, _) => s.head == Some(item)
    case _ => false
  }

  predicate IsLoad(step: Step) {
    step.StartPush? || step.StartPop? || step.ExchangePush? || step.ExchangePop?
  }

  /** Starting a call or failing an exchange loads the head, unless the call is over. */
  lemma LoadsHead(s: State, step: Step)
    requires IsLoad(step) && Apply(s, step) != s && Apply(s, step).history == s.history
    ensures Loaded(Apply(s, step), step.t)
  {
  }

  lemma HistoryGrows(s: State, step: Step)
    ensures s.history <= Apply(s, step).history && |Apply(s, step).history| <= |s.history| + 1
    ensures Apply(s, step).head != s.head ==>
      |Apply(s, step).history| > |s.history| && IsExchange(Apply(s, step).history[|s.history|])
  {
  }

  /** What another thread does short of a successful exchange, and reading a link, leaves it loaded. */
  lemma StaysLoaded(s: State, step: Step, t: ThreadId)
    requires Inv(s) && Loaded(s, t) && Apply(s, step).head == s.head && (step.t == t ==> step.ReadLink?)
    ensures Loaded(Apply(s, step), t)
  {
    if step.t != t && step.ExchangePush? && PcOf(s, t).Pushing? && PcOf(s, step.t).Pushing? {
      assert DistinctPushers(s);
    }
    hide Replay, Adders, Subtracters, Chained;
  }

  /** An exchange by a loaded thread that does not fail spuriously succeeds. */
  lemma LoadedSucceeds(s: State, step: Step)
    requires Loaded(s, step.t) && !PcOf(s, step.t).Popping?
    requires step == (if PcOf(s, step.t).Pushing? then ExchangePush(step.t, false) else ExchangePop(step.t, false))
    ensures var h' := Apply(s, step).history; |h'| == |s.history| + 1 && IsExchange(h'[|s.history|])
  {
  }

  lemma {:induction false} LoadedOn(steps: seq<Step>, i: nat, j: nat, t: ThreadId)
    requires i <= j <= |steps| && Loaded(Exec(steps[..i]), t)
    requires forall k :: i <= k < j && steps[k].t == t ==> steps[k].ReadLink?
    requires NoExchange(Exec(steps[..i]).history, Exec(steps[..j]).history)
    ensures Loaded(Exec(steps[..j]), t)
    decreases j
  {
    if i < j {
      var s, step := Exec(steps[..j - 1]), steps[j - 1];
      ExecAt(steps, j - 1);
      hide Exec, Inv, Apply, Loaded;
      HistoryGrows(s, step);
      GrowsOver(steps, i, j - 1);
      LoadedOn(steps, i, j - 1, t);
      InvExec(steps[..j - 1]);
      StaysLoaded(s, step, t);
    }
  }

  lemma ExecAt(steps: seq<Step>, k: nat)
    requires k < |steps|
    ensures Exec(steps[..k + 1]) == Apply(Exec(steps[..k]), steps[k])
  {
    assert steps[..k + 1][..k] == steps[..k];
  }

  lemma {:induction false} GrowsOver(steps: seq<Step>, i: nat, j: nat)
    requires i <= j <= |steps|
    ensures Exec(steps[..i]).history <= Exec(steps[..j]).history
    decreases j
  {
    if i < j {
      ExecAt(steps, j - 1);
      hide Exec, Apply;
      GrowsOver(steps, i, j - 1);
      HistoryGrows(Exec(steps[..j - 1]), steps[j - 1]);
    }
  }

  /** Under every interleaving: if a thread that loaded the head fails its next exchange, and not
      spuriously, then in between another thread's exchange has succeeded. */
  lemma FailureMeansProgress(steps: seq<Step>, i: nat, j: nat)
    requires i <= j < |steps| && Loaded(Exec(steps[..i]), steps[j].t)
    requires forall k :: i <= k < j && steps[k].t == steps[j].t ==> steps[k].ReadLink?
    requires var s, step := Exec(steps[..j]), steps[j];
      || (step == ExchangePush(step.t, false) && PcOf(s, step.t).Pushing?)
      || (step == ExchangePop(step.t, false) && PcOf(s, step.t).Exchanging?)
    requires NoExchange(Exec(steps[..j]).history, Apply(Exec(steps[..j]), steps[j]).history)
    ensures var h, h' := Exec(steps[..i]).history, Exec(steps[..j]).history;
      exists k :: |h| <= k < |h'| && IsExchange(h'[k])
  {
    var h, h' := Exec(steps[..i]).history, Exec(steps[..j]).history;
    GrowsOver(steps, i, j);
    hide Exec, Apply, Loaded;
    if NoExchange(h, h') {
      LoadedOn(steps, i, j, steps[j].t);
      LoadedSucceeds(Exec(steps[..j]), steps[j]);
    }
  }
}
