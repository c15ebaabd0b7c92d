/**
 The retrying sink: concurrent writers serialised by a mutex that they drop
 while backing off, around a circuit breaker that counts consecutive failures.
 Time is read from a clock that never goes back.
 */
module RetryingSink {

  type Thread = nat
  type Time = int

  datatype Result = Written | SinkClosed

  /** How the wrapped sink answers one attempt. */
  datatype Answer = Ack | Fail | Closed

  /**
   Where a call of Write is: waiting for the mutex, at the retry label with the
   mutex, inside the wrapped sink since `start`, asleep without the mutex, or
   returned.
   */
  datatype Pc = Entering | AtRetry | Attempting(start: Time) | Sleeping(wake: Time) | Returned(result: Result)

  /** One call of Write and the answers it has had so far. */
  datatype Call = Call(pc: Pc, answers: seq<Answer>)

  datatype Breaker = Breaker(threshold: nat, backoff: nat)

  /**
   The sink: its clock, mutex holder, closed flag and failure counters, the
   calls in progress or returned, and the times of the failures since the last
   acknowledged attempt.
   */
  datatype State = State(
    now: Time, holder: set<Thread>, closed: bool, recent: nat, last: Time, calls: map<Thread, Call>,
        failures: seq<Time>)

  datatype Step =
    | Tick(elapsed: nat) | Begin(t: Thread) | Lock(t: Thread) | Check(t: Thread) | Answered(t: Thread, answer: Answer)
        | Close

  function Initial(now: Time): State {
    State(now, {}, false, 0, 0, map[], [])
  }

  /**
   Attempts go ahead below the threshold, and above it only when the back-off has passed; after a success there is
   no last failure.
   */
  predicate Proceed(b: Breaker, s: State) {
    s.recent < b.threshold || s.recent == 0 || s.now > s.last + b.backoff
  }

  predicate Enabled(s: State, a: Step) {
    match a
    case Tick(_) => true
    case Begin(t) => t !in s.calls
    case Lock(t) =>
      t in s.calls && s.holder == {} &&
      (s.calls[t].pc == Entering || (s.calls[t].pc.Sleeping? && s.now >= s.calls[t].pc.wake))
    case Check(t) => t in s.calls && s.calls[t].pc == AtRetry
    case Answered(t, _) => t in s.calls && s.calls[t].pc.Attempting?
    case Close => s.holder == {}
  }

  function SetPc(s: State, t: Thread, pc: Pc): State
    requires t in s.calls
  {
    s.(calls := s.calls[t := s.calls[t].(pc := pc)])
  }

  function Apply(b: Breaker, s: State, a: Step): State
    requires Enabled(s, a)
  {
    match a
    case Tick(d) => s.(now := s.now + d)
    case Begin(t) => s.(calls := s.calls[t := Call(Entering, [])])
    case Lock(t) => SetPc(s, t, AtRetry).(holder := {t})
    case Check(t) =>
      if s.closed then SetPc(s, t, Returned(SinkClosed)).(holder := {})
      else if !Proceed(b, s) then SetPc(s, t, Sleeping(s.now + b.backoff)).(holder := {})
      else SetPc(s, t, Attempting(s.now))
    case Answered(t, answer) =>
      var call := s.calls[t];
      var answers := call.answers + [answer];
      if answer == Ack then
        s.(calls := s.calls[t := Call(Returned(Written), answers)], holder := {}, recent := 0, failures := [])
      else if answer == Closed then
        s.(calls := s.calls[t := Call(Returned(SinkClosed), answers)], holder := {},
           recent := s.recent + 1, last := s.now, failures := s.failures + [s.now])
      else
        s.(calls := s.calls[t := Call(AtRetry, answers)],
           recent := s.recent + 1, last := s.now, failures := s.failures + [s.now])
    case Close => s.(closed := true)
  }

  ghost predicate Reachable(b: Breaker, start: Time, s: State, steps: seq<Step>)
    decreases |steps|
  {
    if steps == [] then s == Initial(start)
    else
      var n := |steps| - 1;
      exists t :: Reachable(b, start, t, steps[..n]) && Enabled(t, steps[n]) && s == Apply(b, t, steps[n])
  }

  predicate HasLock(pc: Pc) {
    pc == AtRetry || pc.Attempting?
  }

  /** Failures from the threshold on are each more than a back-off after the one before. */
  ghost predicate Spaced(b: Breaker, failures: seq<Time>) {
    forall k {:trigger failures[k]} :: 0 < k < |failures| && b.threshold <= k ==>
        failures[k] > failures[k - 1] + b.backoff
  }

  /** A call answered so far only by failures, or returned after its last answer. */
  ghost predicate Honest(c: Call) {
    if c.pc == Returned(Written) then c.answers != [] && c.answers[|c.answers| - 1] == Ack &&
        Ack !in c.answers[..|c.answers| - 1]
    else Ack !in c.answers
  }

  ghost predicate Invariant(b: Breaker, s: State) {
    && s.recent == |s.failures| && Spaced(b, s.failures)
    && (s.failures != [] ==> s.last == s.failures[|s.failures| - 1] <= s.now)
    && (forall t :: t in s.calls ==> Honest(s.calls[t]) && (HasLock(s.calls[t].pc) <==> t in s.holder))
    && (forall t :: t in s.holder ==> s.holder == {t} && t in s.calls)
    && (forall t :: t in s.calls && s.calls[t].pc.Attempting? ==>
          s.calls[t].pc.start <= s.now && (s.recent > 0 && s.recent >= b.threshold ==>
              s.calls[t].pc.start > s.last + b.backoff))
  }

  lemma AnswerKeepsInvariant(b: Breaker, s: State, t: Thread, answer: Answer)
    requires Invariant(b, s) && Enabled(s, Answered(t, answer))
    ensures Invariant(b, Apply(b, s, Answered(t, answer)))
  { }

  lemma CheckKeepsInvariant(b: Breaker, s: State, t: Thread)
    requires Invariant(b, s) && Enabled(s, Check(t))
    ensures Invariant(b, Apply(b, s, Check(t)))
  { }

  lemma LockKeepsInvariant(b: Breaker, s: State, t: Thread)
    requires Invariant(b, s) && Enabled(s, Lock(t))
    ensures Invariant(b, Apply(b, s, Lock(t)))
  { }

  lemma BeginKeepsInvariant(b: Breaker, s: State, t: Thread)
    requires Invariant(b, s) && Enabled(s, Begin(t))
    ensures Invariant(b, Apply(b, s, Begin(t)))
  { }

  lemma StepKeepsInvariant(b: Breaker, s: State, a: Step)
    requires Invariant(b, s) && Enabled(s, a)
    ensures Invariant(b, Apply(b, s, a))
  {
    match a
    case Tick(_) =>
    case Begin(t) => BeginKeepsInvariant(b, s, t);
    case Lock(t) => LockKeepsInvariant(b, s, t);
    case Check(t) => CheckKeepsInvariant(b, s, t);
    case Answered(t, answer) => AnswerKeepsInvariant(b, s, t, answer);
    case Close =>
  }

  lemma {:induction false} ReachableInvariant(b: Breaker, start: Time, s: State, steps: seq<Step>)
    requires Reachable(b, start, s, steps)
    ensures Invariant(b, s)
    decreases |steps|
  {
    if steps != [] {
      var n := |steps| - 1;
      var t :| Reachable(b, start, t, steps[..n]) && Enabled(t, steps[n]) && s == Apply(b, t, steps[n]);
      ReachableInvariant(b, start, t, steps[..n]);
      StepKeepsInvariant(b, t, steps[n]);
    }
  }

  lemma {:induction false} SpacedSum(b: Breaker, failures: seq<Time>, k: nat)
    requires Spaced(b, failures) && 1 <= b.threshold < k <= |failures|
    ensures failures[k - 1] - failures[b.threshold - 1] > (k - b.threshold) * b.backoff
    decreases k
  {
    if k > b.threshold + 1 {
      SpacedSum(b, failures, k - 1);
      assert (k - b.threshold) * b.backoff == (k - 1 - b.threshold) * b.backoff + b.backoff;
    }
  }

  /**
   Under every interleaving, the k-th failure in a row comes more than (k - t)
   back-offs after the t-th, t being the threshold: the circuit breaker limits
   the rate at which a failing sink is tried, by however many callers.
   */
  lemma FailuresAreSpaced(b: Breaker, start: Time, s: State, steps: seq<Step>, k: nat)
    requires Reachable(b, start, s, steps) && 1 <= b.threshold < k <= |s.failures|
    ensures s.failures[k - 1] - s.failures[b.threshold - 1] > (k - b.threshold) * b.backoff
  {
    ReachableInvariant(b, start, s, steps);
    SpacedSum(b, s.failures, k);
  }

  /** A call that returns without error had exactly one acknowledged attempt, its last; any other call had none. */
  lemma AcknowledgedOnce(b: Breaker, start: Time, s: State, steps: seq<Step>, t: Thread)
    requires Reachable(b, start, s, steps) && t in s.calls
    ensures var c := s.calls[t];
      forall i :: 0 <= i < |c.answers| ==> (c.answers[i] == Ack <==> c.pc == Returned(Written) && i == |c.answers| - 1)
    ensures s.calls[t].pc == Returned(Written) ==> s.calls[t].answers != []
  {
    ReachableInvariant(b, start, s, steps);
    var c := s.calls[t];
    assert forall i :: 0 <= i < |c.answers| - 1 ==> c.answers[..|c.answers| - 1][i] == c.answers[i];
  }

  /** At most one call is inside the wrapped sink at any time. */
  lemma SingleFlight(b: Breaker, start: Time, s: State, steps: seq<Step>, t: Thread, u: Thread)
    requires Reachable(b, start, s, steps) && t in s.calls && u in s.calls
    requires s.calls[t].pc.Attempting? && s.calls[u].pc.Attempting?
    ensures t == u
  {
    ReachableInvariant(b, start, s, steps);
    assert t in s.holder && u in s.holder;
  }
}
