/**
 The event queue in front of a notification sink: writers, closers and one
 runner share a list under a mutex and a condition variable. Each critical
 section is one step; any interleaving of steps is a run.
 */
module EventQueue {

  datatype Event = Event(mediaType: string, action: string, id: nat)

  /** What one call of Write hands over: the events given, or nothing at all (a nil slice). */
  datatype Block = Nil | Events(events: seq<Event>)

  /**
   Where the runner is: about to lock, asleep on the condition, awakened, holding a block, past the sink's Write, or
   gone.
   */
  datatype Runner = Idle | Parked | Awake | Holding(block: Block) | Written(block: Block) | Stopped(byNil: bool)

  /** Where the first caller of Close is; later callers get an error. */
  datatype Closer = None | Waiting | Signalled | Finished

  /** The shared variables, the program counters, and the history of what was accepted, handed over and counted out. */
  datatype State = State(
    queue: seq<Block>, closed: bool, runner: Runner, closer: Closer, pending: int, total: int, sinkCloses: nat,
    accepted: seq<Block>, delivered: seq<Block>, egressed: seq<Block>)

  const Initial := State([], false, Idle, Closer.None, 0, 0, 0, [], [], [])

  /** A signal with two sleepers may wake either: `other` asks for the closer. */
  datatype Step = Write(block: Block, other: bool) | Close(other: bool) | Next | SinkWrite | Egress | SinkClose

  function Length(b: Block): nat {
    if b.Nil? then 0 else |b.events|
  }

  function Count(bs: seq<Block>): nat {
    if bs == [] then 0 else Length(bs[0]) + Count(bs[1..])
  }

  /** Wakes one sleeper, if there is any. */
  function Signal(s: State, other: bool): State {
    if s.runner == Parked && !(other && s.closer == Waiting) then s.(runner := Awake)
    else if s.closer == Waiting then s.(closer := Signalled)
    else s
  }

  predicate Enabled(s: State, a: Step) {
    match a
    case Write(_, _) => true
    case Close(_) => true
    case Next => s.runner == Idle || s.runner == Awake
    case SinkWrite => s.runner.Holding?
    case Egress => s.runner.Written?
    case SinkClose => s.closer == Signalled
  }

  function Apply(s: State, a: Step): State
    requires Enabled(s, a)
  {
    match a
    case Write(b, other) =>
      if s.closed then s
      else Signal(s.(pending := s.pending + Length(b), total := s.total + Length(b),
                     queue := s.queue + [b], accepted := s.accepted + [b]), other)
    case Close(other) =>
      if s.closed then s else Signal(s.(closed := true), other).(closer := Waiting)
    case Next =>
      if s.queue == [] then
        if s.closed then s.(runner := Stopped(false), closer := if s.closer == Waiting then Signalled else s.closer)
        else s.(runner := Parked)
      else
        var b := s.queue[0];
        s.(queue := s.queue[1..], runner := if b.Nil? then Stopped(true) else Holding(b))
    case SinkWrite => s.(runner := Written(s.runner.block), delivered := s.delivered + [s.runner.block])
    case Egress =>
      s.(runner := Idle, pending := s.pending - Length(s.runner.block), egressed := s.egressed + [s.runner.block])
    case SinkClose => s.(closer := Finished, sinkCloses := s.sinkCloses + 1)
  }

  ghost predicate Reachable(s: State, steps: seq<Step>)
    decreases |steps|
  {
    if steps == [] then s == Initial
    else
      var n := |steps| - 1;
      exists t :: Reachable(t, steps[..n]) && Enabled(t, steps[n]) && s == Apply(t, steps[n])
  }

  /** The block taken off the list but not yet past the sink, and the nil block that stopped the runner. */
  function InFlight(s: State): seq<Block> {
    match s.runner
    case Holding(b) => [b]
    case Stopped(byNil) => if byNil then [Nil] else []
    case _ => []
  }

  function NotCounted(s: State): seq<Block> {
    if s.runner.Written? then [s.runner.block] else []
  }

  ghost predicate Invariant(s: State) {
    // every accepted block is handed over, in flight or queued, in the order of acceptance
    && s.accepted == s.delivered + InFlight(s) + s.queue
    && s.delivered == s.egressed + NotCounted(s)
    && Nil !in s.delivered && s.runner != Holding(Nil)
    // the counters
    && s.total == Count(s.accepted) && s.pending == Count(s.accepted) - Count(s.egressed)
    // nobody sleeps through what should wake them
    && (s.runner == Parked ==> s.queue == [] && !s.closed)
    && (s.closer == Waiting ==> s.runner != Stopped(false))
    // closing
    && (s.closer == Closer.None <==> !s.closed)
    && (s.runner == Stopped(false) ==> s.closed && s.queue == [])
    && (s.closer == Signalled || s.closer == Finished ==> s.runner == Stopped(false))
    && s.sinkCloses == (if s.closer == Finished then 1 else 0)
  }

  lemma {:induction false} CountAppend(a: seq<Block>, b: seq<Block>)
    ensures Count(a + b) == Count(a) + Count(b)
  {
    if a == [] { assert a + b == b; }
    else {
      assert (a + b)[1..] == a[1..] + b;
      CountAppend(a[1..], b);
    }
  }

  lemma WriteKeepsInvariant(s: State, b: Block, other: bool)
    requires Invariant(s)
    ensures Invariant(Apply(s, Write(b, other)))
  {
    CountAppend(s.accepted, [b]);
    assert s.delivered + InFlight(s) + s.queue + [b] == s.delivered + InFlight(s) + (s.queue + [b]);
  }

  lemma NextKeepsInvariant(s: State)
    requires Invariant(s) && Enabled(s, Next)
    ensures Invariant(Apply(s, Next))
  { }

  lemma DeliveryKeepsInvariant(s: State, a: Step)
    requires Invariant(s) && Enabled(s, a) && (a.SinkWrite? || a.Egress?)
    ensures Invariant(Apply(s, a))
  {
    var b := s.runner.block;
    assert s.delivered + [b] + s.queue == s.delivered + [b] + [] + s.queue;
    CountAppend(s.egressed, [b]);
  }

  lemma StepKeepsInvariant(s: State, a: Step)
    requires Invariant(s) && Enabled(s, a)
    ensures Invariant(Apply(s, a))
  {
    match a
    case Write(b, other) => WriteKeepsInvariant(s, b, other);
    case Close(_) =>
    case Next => NextKeepsInvariant(s);
    case SinkWrite => DeliveryKeepsInvariant(s, a);
    case Egress => DeliveryKeepsInvariant(s, a);
    case SinkClose =>
  }

  lemma {:induction false} ReachableInvariant(s: State, steps: seq<Step>)
    requires Reachable(s, steps)
    ensures Invariant(s)
    decreases |steps|
  {
    if steps != [] {
      var n := |steps| - 1;
      var t :| Reachable(t, steps[..n]) && Enabled(t, steps[n]) && s == Apply(t, steps[n]);
      ReachableInvariant(t, steps[..n]);
      StepKeepsInvariant(t, steps[n]);
    }
  }

  /** FIFO delivery, the pending counter, and no lost wake-up, in every interleaving. */
  lemma QueueSafety(s: State, steps: seq<Step>)
    requires Reachable(s, steps)
    ensures s.accepted == s.delivered + InFlight(s) + s.queue
    ensures s.pending == Count(s.accepted) - Count(s.egressed) && s.egressed <= s.delivered
    ensures s.runner == Parked ==> s.queue == [] && !s.closed
  {
    ReachableInvariant(s, steps);
  }

  /** The sink is closed at most once, and only after everything accepted was handed over to it. */
  lemma CloseSafety(s: State, steps: seq<Step>)
    requires Reachable(s, steps)
    ensures s.sinkCloses <= 1
    ensures s.sinkCloses == 1 ==> s.closed && s.delivered == s.accepted && s.egressed == s.accepted && s.pending == 0
  {
    ReachableInvariant(s, steps);
    if s.sinkCloses == 1 { assert s.delivered + [] + [] == s.delivered && s.egressed + [] == s.egressed; }
  }

  // ---- closing gets through exactly when no nil block was accepted ----

  /** The number of steps the runner and the closer still have to take once the queue is closed. */
  function Remaining(s: State): nat {
    if s.closer == Finished then 0
    else
      3 * |s.queue| + 1
      + match s.runner
        case Holding(_) => 3
        case Written(_) => 2
        case Stopped(_) => 0
        case _ => 1
  }

  predicate Internal(a: Step) {
    a.Next? || a.SinkWrite? || a.Egress? || a.SinkClose?
  }

  /** On a closed queue, writes and further closes change nothing. */
  lemma ClosedRefuses(s: State, a: Step)
    requires s.closed && Enabled(s, a) && !Internal(a)
    ensures Apply(s, a) == s
  { }

  lemma QueuedAccepted(s: State, b: Block)
    requires Invariant(s) && (b in s.queue || b in InFlight(s))
    ensures b in s.accepted
  { }

  /** On a closed queue, every step of the runner or the closer is one step nearer to the end. */
  lemma ClosingAdvances(s: State, a: Step)
    requires Invariant(s) && s.closed && Nil !in s.accepted && Internal(a) && Enabled(s, a)
    ensures Apply(s, a).closed && Remaining(Apply(s, a)) == Remaining(s) - 1
  { }

  /** As long as the sink is not closed, one of them can take a step, unless a nil block stopped the runner. */
  lemma ClosingCanStep(s: State) returns (a: Step)
    requires Invariant(s) && s.closed && s.sinkCloses == 0 && Nil !in s.accepted
    ensures Internal(a) && Enabled(s, a)
  {
    if s.runner == Stopped(true) { QueuedAccepted(s, Nil); }
    a := if s.runner.Holding? then SinkWrite else if s.runner.Written? then Egress
         else if s.runner.Stopped? then SinkClose else Next;
  }

  ghost predicate Path(s: State, steps: seq<Step>, t: State)
    decreases |steps|
  {
    if steps == [] then s == t else Enabled(s, steps[0]) && Path(Apply(s, steps[0]), steps[1..], t)
  }

  function InternalCount(steps: seq<Step>): nat {
    if steps == [] then 0 else (if Internal(steps[0]) then 1 else 0) + InternalCount(steps[1..])
  }

  /**
   However the steps are scheduled after Close, with any number of refused calls
   in between, the runner and the closer are never stuck before the end, and
   the sink is closed exactly when they took the steps that remained.
   */
  lemma {:induction false} CloseReachesSink(s: State, steps: seq<Step>, t: State)
    requires Invariant(s) && s.closed && Nil !in s.accepted && Path(s, steps, t)
    ensures t.sinkCloses == 1 <==> InternalCount(steps) == Remaining(s)
    ensures t.sinkCloses == 0 ==> InternalCount(steps) < Remaining(s) && exists a :: Internal(a) && Enabled(t, a)
    ensures t.sinkCloses == 1 ==> t.delivered == s.accepted
    decreases |steps|
  {
    if steps == [] {
      if t.sinkCloses == 0 { var a := ClosingCanStep(t); }
      else { assert s.delivered + [] + [] == s.delivered; }
    } else {
      var a, u := steps[0], Apply(s, steps[0]);
      StepKeepsInvariant(s, a);
      if Internal(a) { ClosingAdvances(s, a); } else { ClosedRefuses(s, a); }
      AcceptedKept(s, a);
      CloseReachesSink(u, steps[1..], t);
    }
  }

  lemma AcceptedKept(s: State, a: Step)
    requires s.closed && Enabled(s, a)
    ensures Apply(s, a).closed && Apply(s, a).accepted == s.accepted
  { }

  /** Once a nil block has been accepted, no run ever closes the sink. */
  lemma NilBlocksClose(s: State, steps: seq<Step>)
    requires Reachable(s, steps) && Nil in s.accepted
    ensures s.sinkCloses == 0
  {
    ReachableInvariant(s, steps);
    assert s.delivered + [] + [] == s.delivered;
  }
}
