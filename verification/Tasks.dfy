/** A task's life: queued, started, completed, failed with bounded retries, or cancelled. */
module Tasks {
  import opened Basics

  datatype Status = Created | Queued | Running | Completed | Failed | Cancelled

  datatype Life = Life(status: Status, retryCount: nat, maxRetries: nat, error: string)

  datatype Call = MarkQueued | MarkStarted | MarkCompleted | MarkFailed(error: string) | Cancel

  /** The only moves there are. */
  predicate Move(a: Status, b: Status) {
    match a
    case Created => b.Queued? || b.Cancelled?
    case Queued => b.Running? || b.Cancelled?
    case Running => b.Completed? || b.Failed? || b.Created? || b.Cancelled?
    case _ => false
  }

  /** The effect of one lifecycle call, taken as atomic. */
  function After(l: Life, call: Call): (r: Life)
    ensures r.status != l.status ==> Move(l.status, r.status)
    ensures r.retryCount == l.retryCount + if l.status.Running? && r.status.Created? then 1 else 0
    ensures l.status.Running? && r.status.Created? ==> l.retryCount < l.maxRetries
  {
    match call
    case MarkQueued => if l.status.Created? then l.(status := Queued) else l
    case MarkStarted => if l.status.Queued? then l.(status := Running) else l
    case MarkCompleted => if l.status.Running? then l.(status := Completed) else l
    case MarkFailed(e) =>
      if !l.status.Running? then l.(error := e)
      else if l.retryCount < l.maxRetries then l.(error := e, retryCount := l.retryCount + 1, status := Created)
      else l.(error := e, status := Failed)
    case Cancel =>
      if l.status.Completed? || l.status.Failed? || l.status.Cancelled? then l else l.(status := Cancelled)
  }

  function Exec(l: Life, calls: seq<Call>): Life {
    if calls == [] then l else After(Exec(l, calls[..|calls| - 1]), calls[|calls| - 1])
  }

  /** How often the run enters the running state. */
  function Starts(l: Life, calls: seq<Call>): nat {
    if calls == [] then 0 else
      var before := Exec(l, calls[..|calls| - 1]);
      Starts(l, calls[..|calls| - 1]) +
      if !before.status.Running? && After(before, calls[|calls| - 1]).status.Running? then 1 else 0
  }

  function NewLife(maxRetries: nat): Life {
    Life(Created, 0, maxRetries, "")
  }

  /** In every run the retries stay within their bound, each attempt is paid for by one retry but
      the first, and a task ends up failed only with its retries used up. */
  lemma {:induction false} RetriesBounded(maxRetries: nat, calls: seq<Call>)
    ensures var l := Exec(NewLife(maxRetries), calls); var starts := Starts(NewLife(maxRetries), calls);
      && l.maxRetries == maxRetries && l.retryCount <= maxRetries
      && (l.status.Created? || l.status.Queued? ==> starts == l.retryCount)
      && (l.status.Running? || l.status.Completed? || l.status.Failed? ==> starts == l.retryCount + 1)
      && l.retryCount <= starts <= l.retryCount + 1
      && (l.status.Failed? ==> l.retryCount == maxRetries)
  {
    if calls != [] {
      RetriesBounded(maxRetries, calls[..|calls| - 1]);
    }
  }

  ghost predicate Final(l: Life) {
    l.status.Completed? || l.status.Failed? || l.status.Cancelled?
  }

  /** Completed, failed and cancelled are never left, whatever is called later. */
  lemma {:induction false} FinalStays(l: Life, calls: seq<Call>)
    requires Final(l)
    ensures Exec(l, calls).status == l.status && Exec(l, calls).retryCount == l.retryCount
  {
    if calls != [] {
      FinalStays(l, calls[..|calls| - 1]);
    }
  }

  lemma {:induction false} ExecConcat(l: Life, a: seq<Call>, b: seq<Call>)
    ensures Exec(l, a + b) == Exec(Exec(l, a), b)
    decreases |b|
  {
    if b == [] {
      assert a + b == a;
    } else {
      assert (a + b)[..|a + b| - 1] == a + b[..|b| - 1];
      ExecConcat(l, a, b[..|b| - 1]);
    }
  }

  /** Every run splits at the first final status: from there on the status never changes. */
  lemma FinalForever(maxRetries: nat, a: seq<Call>, b: seq<Call>)
    requires Final(Exec(NewLife(maxRetries), a))
    ensures Exec(NewLife(maxRetries), a + b).status == Exec(NewLife(maxRetries), a).status
  {
    ExecConcat(NewLife(maxRetries), a, b);
    FinalStays(Exec(NewLife(maxRetries), a), b);
  }

  // ----- What each status means

  /** What the run had come to when the call at `i` was made. */
  ghost function Before(maxRetries: nat, calls: seq<Call>, i: nat): Life
    requires i <= |calls|
  {
    Exec(NewLife(maxRetries), calls[..i])
  }

  ghost predicate CompletedAt(maxRetries: nat, calls: seq<Call>, i: nat)
    requires i < |calls|
  {
    calls[i].MarkCompleted? && Before(maxRetries, calls, i).status.Running?
  }

  ghost predicate CancelledAt(maxRetries: nat, calls: seq<Call>, i: nat)
    requires i < |calls|
  {
    calls[i].Cancel? && !Final(Before(maxRetries, calls, i))
  }

  ghost predicate FailedAt(maxRetries: nat, calls: seq<Call>, i: nat)
    requires i < |calls|
  {
    var l := Before(maxRetries, calls, i);
    calls[i].MarkFailed? && l.status.Running? && l.retryCount >= maxRetries
  }

  predicate EndsAttempt(call: Call) {
    call.MarkCompleted? || call.MarkFailed? || call.Cancel?
  }

  predicate EndsWait(call: Call) {
    call.MarkStarted? || call.Cancel?
  }

  /** A queued task is started here, and nothing later ends the attempt. */
  ghost predicate StartedAt(maxRetries: nat, calls: seq<Call>, i: nat)
    requires i < |calls|
  {
    && calls[i].MarkStarted? && Before(maxRetries, calls, i).status.Queued?
    && forall j :: i < j < |calls| ==> !EndsAttempt(calls[j])
  }

  /** A created task is queued here, and nothing later starts or cancels it. */
  ghost predicate QueuedAt(maxRetries: nat, calls: seq<Call>, i: nat)
    requires i < |calls|
  {
    && calls[i].MarkQueued? && Before(maxRetries, calls, i).status.Created?
    && forall j :: i < j < |calls| ==> !EndsWait(calls[j])
  }

  /** The message of the last failure reported. */
  function LastError(calls: seq<Call>): string {
    if calls == [] then ""
    else if calls[|calls| - 1].MarkFailed? then calls[|calls| - 1].error
    else LastError(calls[..|calls| - 1])
  }

  lemma BeforeSnoc(maxRetries: nat, calls: seq<Call>, i: nat)
    requires calls != [] && i < |calls|
    ensures Before(maxRetries, calls, i) == Before(maxRetries, calls[..|calls| - 1], i)
  {
    assert calls[..i] == calls[..|calls| - 1][..i];
  }

  /** In every run a task is completed exactly when a completion met it running. */
  lemma {:induction false} CompletedExactlyWhen(maxRetries: nat, calls: seq<Call>)
    ensures Exec(NewLife(maxRetries), calls).status.Completed? <==>
      exists i :: 0 <= i < |calls| && CompletedAt(maxRetries, calls, i)
  {
    if calls != [] {
      var n := |calls| - 1;
      var init := calls[..n];
      CompletedExactlyWhen(maxRetries, init);
      RetriesBounded(maxRetries, init);
      forall i | 0 <= i < n
        ensures CompletedAt(maxRetries, calls, i) <==> CompletedAt(maxRetries, init, i)
      {
        BeforeSnoc(maxRetries, calls, i);
      }
      assert Before(maxRetries, calls, n) == Exec(NewLife(maxRetries), init);
      var now := CompletedAt(maxRetries, calls, n);
    }
  }

  /** In every run a task is cancelled exactly when a cancellation met it in a status that is not final. */
  lemma {:induction false} CancelledExactlyWhen(maxRetries: nat, calls: seq<Call>)
    ensures Exec(NewLife(maxRetries), calls).status.Cancelled? <==>
      exists i :: 0 <= i < |calls| && CancelledAt(maxRetries, calls, i)
  {
    if calls != [] {
      var n := |calls| - 1;
      var init := calls[..n];
      CancelledExactlyWhen(maxRetries, init);
      RetriesBounded(maxRetries, init);
      forall i | 0 <= i < n
        ensures CancelledAt(maxRetries, calls, i) <==> CancelledAt(maxRetries, init, i)
      {
        BeforeSnoc(maxRetries, calls, i);
      }
      assert Before(maxRetries, calls, n) == Exec(NewLife(maxRetries), init);
      var now := CancelledAt(maxRetries, calls, n);
    }
  }

  /** In every run a task is failed exactly when a failure met it running with its retries used up. */
  lemma {:induction false} FailedExactlyWhen(maxRetries: nat, calls: seq<Call>)
    ensures Exec(NewLife(maxRetries), calls).status.Failed? <==>
      exists i :: 0 <= i < |calls| && FailedAt(maxRetries, calls, i)
  {
    if calls != [] {
      var n := |calls| - 1;
      var init := calls[..n];
      FailedExactlyWhen(maxRetries, init);
      RetriesBounded(maxRetries, init);
      forall i | 0 <= i < n
        ensures FailedAt(maxRetries, calls, i) <==> FailedAt(maxRetries, init, i)
      {
        BeforeSnoc(maxRetries, calls, i);
      }
      assert Before(maxRetries, calls, n) == Exec(NewLife(maxRetries), init);
      var now := FailedAt(maxRetries, calls, n);
    }
  }

  lemma StartedAtSnoc(maxRetries: nat, calls: seq<Call>, i: nat)
    requires i < |calls| - 1
    ensures var n := |calls| - 1;
      StartedAt(maxRetries, calls, i) <==> StartedAt(maxRetries, calls[..n], i) && !EndsAttempt(calls[n])
  {
    hide Exec, EndsAttempt;
    BeforeSnoc(maxRetries, calls, i);
    var n := |calls| - 1;
    forall j | i < j < n ensures calls[j] == calls[..n][j] {}
  }

  /** In every run a task is running exactly when it was started from queued and no completion, failure
      or cancellation has come since. */
  lemma {:induction false} RunningExactlyWhen(maxRetries: nat, calls: seq<Call>)
    ensures Exec(NewLife(maxRetries), calls).status.Running? <==>
      exists i :: 0 <= i < |calls| && StartedAt(maxRetries, calls, i)
  {
    if calls != [] {
      var n := |calls| - 1;
      var init := calls[..n];
      RunningExactlyWhen(maxRetries, init);
      RetriesBounded(maxRetries, init);
      forall i | 0 <= i < n
        ensures StartedAt(maxRetries, calls, i) <==> StartedAt(maxRetries, init, i) && !EndsAttempt(calls[n])
      {
        StartedAtSnoc(maxRetries, calls, i);
      }
      assert Before(maxRetries, calls, n) == Exec(NewLife(maxRetries), init);
      var now := StartedAt(maxRetries, calls, n);
      hide StartedAt;
    }
  }

  lemma QueuedAtSnoc(maxRetries: nat, calls: seq<Call>, i: nat)
    requires i < |calls| - 1
    ensures var n := |calls| - 1;
      QueuedAt(maxRetries, calls, i) <==> QueuedAt(maxRetries, calls[..n], i) && !EndsWait(calls[n])
  {
    hide Exec, EndsWait;
    BeforeSnoc(maxRetries, calls, i);
    var n := |calls| - 1;
    forall j | i < j < n ensures calls[j] == calls[..n][j] {}
  }

  /** In every run a task is queued exactly when it was queued from created and no start or cancellation
      has come since. */
  lemma {:induction false} QueuedExactlyWhen(maxRetries: nat, calls: seq<Call>)
    ensures Exec(NewLife(maxRetries), calls).status.Queued? <==>
      exists i :: 0 <= i < |calls| && QueuedAt(maxRetries, calls, i)
  {
    if calls != [] {
      var n := |calls| - 1;
      var init := calls[..n];
      QueuedExactlyWhen(maxRetries, init);
      RetriesBounded(maxRetries, init);
      forall i | 0 <= i < n
        ensures QueuedAt(maxRetries, calls, i) <==> QueuedAt(maxRetries, init, i) && !EndsWait(calls[n])
      {
        QueuedAtSnoc(maxRetries, calls, i);
      }
      assert Before(maxRetries, calls, n) == Exec(NewLife(maxRetries), init);
      var now := QueuedAt(maxRetries, calls, n);
      hide QueuedAt;
    }
  }

  /** In every run the error message is that of the last failure reported, in whatever status. */
  lemma {:induction false} ErrorIsLast(maxRetries: nat, calls: seq<Call>)
    ensures Exec(NewLife(maxRetries), calls).error == LastError(calls)
  {
    if calls != [] {
      ErrorIsLast(maxRetries, calls[..|calls| - 1]);
    }
  }

  class Task {
    const id: TaskId
    const priority: int
    var status: Status
    var retryCount: nat
    var maxRetries: nat
    var errorMessage: string

    ghost function View(): Life
      reads this
    {
      Life(status, retryCount, maxRetries, errorMessage)
    }

    constructor (id: TaskId, priority: int, maxRetries: nat := 3)
      ensures View() == NewLife(maxRetries) && this.id == id && this.priority == priority
    {
      this.id := id;
      this.priority := priority;
      this.status, this.retryCount, this.maxRetries, this.errorMessage := Created, 0, maxRetries, "";
    }

    method CompareExchange(expected: Status, desired: Status) returns (ok: bool)
      modifies this`status
      ensures ok <==> old(status) == expected
      ensures status == if ok then desired else old(status)
    {
      ok := status == expected;
      if ok {
        status := desired;
      }
    }

    method MarkQueued()
      modifies this
      ensures View() == After(old(View()), Call.MarkQueued)
    {
      var _ := CompareExchange(Created, Queued);
    }

    method MarkStarted()
      modifies this
      ensures View() == After(old(View()), Call.MarkStarted)
    {
      var _ := CompareExchange(Queued, Running);
    }

    method MarkCompleted()
      modifies this
      ensures View() == After(old(View()), Call.MarkCompleted)
    {
      var _ := CompareExchange(Running, Completed);
    }

    method MarkFailed(error: string)
      modifies this
      ensures View() == After(old(View()), Call.MarkFailed(error))
    {
      errorMessage := error;
      var ok := CompareExchange(Running, Failed);
      if ok && retryCount < maxRetries {
        retryCount := retryCount + 1;
        status := Created;
      }
    }

    method Cancel()
      modifies this
      ensures View() == After(old(View()), Call.Cancel)
    {
      var current := status;
      if current != Completed && current != Failed && current != Cancelled {
        status := Cancelled;
      }
    }
  }
}
