/**
 * The task around the watch set: `AsyncSemaphoreWatcher::multiplex_impl`, interleaved with its poll rate limiter and
 * with the threads that add and remove semaphores. A condition that is signaled stays signaled until it is waited for.
 */
module WatcherTask {
  import opened SemaphoreWatcher

  datatype Pc =
    | Start                            // Start the limiter.
    | Poll
    | AwaitTimer                       // wait(poll_timer), after a poll that left semaphores to watch.
    | StopTimer
    | DrainTimer                       // The limiter could not be stopped: wait for its signal, and nullify it.
    | AwaitSemaphores                  // wait(have_semaphores).

  /** The limiter is stopped, running, or about to signal poll_timer. */
  datatype Timer = Stopped | Running | Expiring

  datatype State = State(
    waiters: Waiters,
    haveSemaphores: bool,              // Signaled, and not waited for.
    pollTimer: bool,                   // Signaled, and not waited for.
    timer: Timer,
    pc: Pc)

  datatype Step =
    | Operate(op: Op)                        // `add` or `remove`, by some other thread.
    | TimerStep
    | WatcherStep(counters: Semaphore -> nat)      // The values of the counters, in case of a poll.

  function Initial(): State {
    State(map[], false, false, Stopped, Start)
  }

  /** A step that cannot be taken changes nothing. `add`, `remove` and `poll` hold the lock on the watch set. */
  function Next(s: State, step: Step): State {
    match step
    case Operate(op) =>
      if op.PollOp? || !Allowed(s.waiters, op) then s
      else s.(waiters := Apply(s.waiters, op),
              haveSemaphores := s.haveSemaphores || (op.AddOp? && op.semaphore !in s.waiters))
    case TimerStep =>
      if s.timer.Running? then s.(timer := Expiring)
      else if s.timer.Expiring? then s.(timer := Stopped, pollTimer := true)
      else s
    case WatcherStep(counters) => WatcherNext(s, counters)
  }

  /** What a poll reads: the counters of the semaphores that are watched. */
  function Read(w: Waiters, counters: Semaphore -> nat): map<Semaphore, nat> {
    map s | s in w :: counters(s)
  }

  function WatcherNext(s: State, counters: Semaphore -> nat): State {
    match s.pc
    case Start => s.(timer := Running, pc := Poll)
    case Poll =>
      var waiters := Polled(s.waiters, Read(s.waiters, counters));
      s.(waiters := waiters, pc := if waiters != map[] then AwaitTimer else StopTimer)
    case AwaitTimer => if s.pollTimer then s.(pollTimer := false, pc := Start) else s
    case StopTimer =>
      if s.timer.Running? then s.(timer := Stopped, pc := AwaitSemaphores) else s.(pc := DrainTimer)
    case DrainTimer =>
      if !s.timer.Expiring? && s.pollTimer then s.(pollTimer := false, pc := AwaitSemaphores) else s
    case AwaitSemaphores => if s.haveSemaphores then s.(haveSemaphores := false, pc := Start) else s
  }

  function RunTask(steps: seq<Step>): State {
    if steps == [] then Initial() else Next(RunTask(steps[..|steps| - 1]), steps[|steps| - 1])
  }

  // ----- invariant -----

  /** The limiter was started, and its signal will come or has come. */
  predicate Awaiting(s: State) {
    s.timer.Stopped? <==> s.pollTimer
  }

  ghost predicate Invariant(s: State) {
    && WellFormed(s.waiters)
    && match s.pc
       case Start => s.timer.Stopped? && !s.pollTimer
       case Poll | AwaitTimer => Awaiting(s)
       case StopTimer => Awaiting(s) && (s.waiters == map[] || s.haveSemaphores)
       case DrainTimer => Awaiting(s) && !s.timer.Running? && (s.waiters == map[] || s.haveSemaphores)
       case AwaitSemaphores => s.timer.Stopped? && !s.pollTimer && (s.waiters == map[] || s.haveSemaphores)
  }

  lemma ApplyKeepsWellFormed(w: Waiters, op: Op)
    requires WellFormed(w)
    ensures WellFormed(Apply(w, op))
  {
  }

  lemma NextKeepsInvariant(s: State, step: Step)
    requires Invariant(s)
    ensures Invariant(Next(s, step))
  {
    match step
    case Operate(op) =>
      ApplyKeepsWellFormed(s.waiters, op);
      assert op.AddOp? && op.semaphore in s.waiters ==> s.waiters != map[];
    case WatcherStep(counters) => ApplyKeepsWellFormed(s.waiters, PollOp(Read(s.waiters, counters)));
    case TimerStep =>
  }

  lemma {:induction false} InvariantHolds(steps: seq<Step>)
    ensures Invariant(RunTask(steps))
  {
    if steps != [] {
      InvariantHolds(steps[..|steps| - 1]);
      NextKeepsInvariant(RunTask(steps[..|steps| - 1]), steps[|steps| - 1]);
    }
  }

  /** The watcher never sleeps while there are semaphores to watch, and no old signal of the limiter survives into its sleep. */
  lemma NeverSleepsOnWork(steps: seq<Step>)
    ensures var s := RunTask(steps);
      s.pc.AwaitSemaphores? ==>
        && (s.waiters != map[] ==> s.haveSemaphores)
        && s.timer.Stopped? && !s.pollTimer
  {
    InvariantHolds(steps);
  }

  /** The limiter is never started while it runs or while its signal is pending, and its signal is never waited for in vain. */
  lemma TimerIsUsedWell(steps: seq<Step>)
    ensures var s := RunTask(steps);
      && (s.pc.Start? ==> s.timer.Stopped? && !s.pollTimer)
      && (s.pc.AwaitTimer? || s.pc.DrainTimer? ==> s.pollTimer || !s.timer.Stopped?)
  {
    InvariantHolds(steps);
  }

  // ----- the watch set of the watcher task -----

  /** The operation on the watch set that a step carries out, if any. */
  function OperationOf(s: State, step: Step): seq<Op> {
    match step
    case Operate(op) => if op.PollOp? then [] else [op]
    case TimerStep => []
    case WatcherStep(counters) => if s.pc.Poll? then [PollOp(Read(s.waiters, counters))] else []
  }

  function Operations(steps: seq<Step>): seq<Op> {
    if steps == [] then [] else
      Operations(steps[..|steps| - 1]) + OperationOf(RunTask(steps[..|steps| - 1]), steps[|steps| - 1])
  }

  lemma StepOperates(s: State, step: Step)
    ensures var ops := OperationOf(s, step);
      Next(s, step).waiters == if ops == [] then s.waiters else Apply(s.waiters, ops[0])
  {
  }

  lemma RunOperates(ops: seq<Op>, more: seq<Op>)
    requires |more| <= 1
    ensures SemaphoreWatcher.Run(ops + more) ==
      if more == [] then SemaphoreWatcher.Run(ops) else Apply(SemaphoreWatcher.Run(ops), more[0])
  {
    if more == [] {
      assert ops + more == ops;
    } else {
      assert (ops + more)[..|ops|] == ops;
    }
  }

  /** So that all that is proved of runs of the watcher holds for the watch set of the stateful task. */
  lemma {:induction false} OperatesTheWatchSet(steps: seq<Step>)
    ensures RunTask(steps).waiters == SemaphoreWatcher.Run(Operations(steps))
  {
    if steps != [] {
      var fewer, step := steps[..|steps| - 1], steps[|steps| - 1];
      OperatesTheWatchSet(fewer);
      StepOperates(RunTask(fewer), step);
      RunOperates(Operations(fewer), OperationOf(RunTask(fewer), step));
    }
  }

  // ----- semaphores that are watched are polled -----

  function RunOn(s: State, steps: seq<Step>): State
    decreases |steps|
  {
    if steps == [] then s else RunOn(Next(s, steps[0]), steps[1..])
  }

  /** The steps of the limiter and of the watcher that it takes at most until the next poll. */
  function Distance(s: State): (distance: nat)
    ensures distance <= 6
  {
    match s.pc
    case Poll => 0
    case Start => 1
    case AwaitSemaphores => 2
    case AwaitTimer => if s.pollTimer then 2 else if s.timer.Expiring? then 3 else 4
    case DrainTimer => if s.pollTimer then 3 else if s.timer.Expiring? then 4 else 5
    case StopTimer => 6
  }

  /** The watcher waits for the signal of its limiter. */
  predicate NeedsTimer(s: State) {
    (s.pc.AwaitTimer? || s.pc.DrainTimer?) && !s.pollTimer
  }

  predicate HasTimerStep(steps: seq<Step>) {
    exists i :: 0 <= i < |steps| && steps[i].TimerStep?
  }

  predicate HasWatcherStep(steps: seq<Step>) {
    exists i :: 0 <= i < |steps| && steps[i].WatcherStep?
  }

  /** A round, in which every other thread may do anything, as often as it likes. */
  predicate IsRound(steps: seq<Step>) {
    HasTimerStep(steps) && HasWatcherStep(steps)
  }

  /** Nobody removes the semaphore. */
  predicate Keeps(steps: seq<Step>, semaphore: Semaphore) {
    forall i :: 0 <= i < |steps| ==> steps[i] != Operate(RemoveOp(semaphore))
  }

  /** Step `n` polls, and finds the semaphore with all waiters that were there at the beginning. */
  predicate PolledAt(s: State, steps: seq<Step>, n: nat, semaphore: Semaphore)
    requires semaphore in s.waiters
  {
    && n < |steps| && steps[n].WatcherStep?
    && var t := RunOn(s, steps[..n]);
       t.pc.Poll? && semaphore in t.waiters && s.waiters[semaphore] <= t.waiters[semaphore]
  }

  lemma StepGetsCloser(s: State, step: Step, semaphore: Semaphore)
    requires Invariant(s) && semaphore in s.waiters
    requires step != Operate(RemoveOp(semaphore)) && !(s.pc.Poll? && step.WatcherStep?)
    ensures var t := Next(s, step);
      && Invariant(t) && semaphore in t.waiters && s.waiters[semaphore] <= t.waiters[semaphore]
      && (if (if NeedsTimer(s) then step.TimerStep? else step.WatcherStep?) then Distance(t) < Distance(s)
          else Distance(t) <= Distance(s) && (Distance(t) == Distance(s) ==> NeedsTimer(t) == NeedsTimer(s)))
  {
    NextKeepsInvariant(s, step);
    if step.Operate? {
      assert Next(s, step).pc == s.pc;
    }
  }

  /** Any steps at all, of which none polls, bring the poll closer if the step that is waited for is among them. */
  lemma {:induction false} StepsGetCloser(s: State, steps: seq<Step>, semaphore: Semaphore) returns (n: nat)
    requires Invariant(s) && semaphore in s.waiters && Keeps(steps, semaphore)
    ensures n <= |steps|
    ensures n < |steps| ==> PolledAt(s, steps, n, semaphore)
    ensures n == |steps| ==>
      var t := RunOn(s, steps);
      && Invariant(t) && semaphore in t.waiters && s.waiters[semaphore] <= t.waiters[semaphore] && Distance(t) <= Distance(s)
      && ((if NeedsTimer(s) then HasTimerStep(steps) else HasWatcherStep(steps)) ==> Distance(t) < Distance(s))
    decreases |steps|
  {
    if steps == [] {
      n := 0;
    } else if s.pc.Poll? && steps[0].WatcherStep? {
      n := 0;
    } else {
      StepGetsCloser(s, steps[0], semaphore);
      n := StepsGetCloser(Next(s, steps[0]), steps[1..], semaphore);
      n := n + 1;
      if n < |steps| {
        assert steps[..n][1..] == steps[1..][..n - 1];
      }
    }
  }

  function Flatten(rounds: seq<seq<Step>>): seq<Step> {
    if rounds == [] then [] else rounds[0] + Flatten(rounds[1..])
  }

  lemma {:induction false} RunOnAppend(s: State, a: seq<Step>, b: seq<Step>)
    ensures RunOn(s, a + b) == RunOn(RunOn(s, a), b)
    decreases |a|
  {
    if a == [] {
      assert a + b == b;
    } else {
      assert (a + b)[1..] == a[1..] + b;
      RunOnAppend(Next(s, a[0]), a[1..], b);
    }
  }

  /** Whatever other threads do: a semaphore that is watched, and not removed, is polled within seven rounds. */
  lemma {:induction false} WorkIsPolled(s: State, rounds: seq<seq<Step>>, semaphore: Semaphore) returns (n: nat)
    requires Invariant(s) && semaphore in s.waiters
    requires |rounds| > Distance(s) && forall i :: 0 <= i < |rounds| ==> IsRound(rounds[i]) && Keeps(rounds[i], semaphore)
    ensures PolledAt(s, Flatten(rounds), n, semaphore)
    decreases |rounds|
  {
    var round, rest := rounds[0], Flatten(rounds[1..]);
    n := StepsGetCloser(s, round, semaphore);
    if n < |round| {
      assert (round + rest)[..n] == round[..n];
    } else {
      var m := WorkIsPolled(RunOn(s, round), rounds[1..], semaphore);
      n := |round| + m;
      assert (round + rest)[..n] == round + rest[..m];
      RunOnAppend(s, round, rest[..m]);
    }
  }

  /** Every poll reads at least `value`. */
  predicate ReadsAtLeast(steps: seq<Step>, semaphore: Semaphore, value: nat) {
    forall i :: 0 <= i < |steps| && steps[i].WatcherStep? ==> steps[i].counters(semaphore) >= value
  }

  lemma PollSignals(w: Waiters, counters: map<Semaphore, nat>, semaphore: Semaphore, waiter: Waiter)
    requires WellFormed(w) && semaphore in w && w.Keys <= counters.Keys && waiter in w[semaphore] && waiter.value <= counters[semaphore]
    ensures waiter in SignaledBy(w, PollOp(counters), semaphore)
    ensures waiter !in WaitingFor(Polled(w, counters), semaphore)
  {
    var list := w[semaphore];
    assert Sorted(list);
    forall i | 0 <= i < |list|
      ensures i < Reached(list, counters[semaphore]) <==> list[i].value <= counters[semaphore]
    {
      ReachedIsExact(list, counters[semaphore], i);
    }
    var i :| 0 <= i < |list| && list[i] == waiter;
    assert list[..Reached(list, counters[semaphore])][i] == waiter;
  }

  /**
   * After any run, a waiter whose value was reached is signaled within seven rounds, whatever other threads do in these
   * rounds but remove its semaphore: there is a poll that signals it, and after which it no longer waits.
   */
  lemma ReachedWaiterIsSignaled(steps: seq<Step>, rounds: seq<seq<Step>>, semaphore: Semaphore, waiter: Waiter) returns (n: nat)
    requires semaphore in RunTask(steps).waiters && waiter in RunTask(steps).waiters[semaphore]
    requires |rounds| >= 7 && forall i :: 0 <= i < |rounds| ==> IsRound(rounds[i]) && Keeps(rounds[i], semaphore)
    requires ReadsAtLeast(Flatten(rounds), semaphore, waiter.value)
    ensures n < |Flatten(rounds)|
    ensures var before, step := RunTask(steps + Flatten(rounds)[..n]), Flatten(rounds)[n];
      && before.pc.Poll? && step.WatcherStep?
      && waiter in SignaledBy(before.waiters, PollOp(Read(before.waiters, step.counters)), semaphore)
      && waiter !in WaitingFor(Next(before, step).waiters, semaphore)
  {
    var s := RunTask(steps);
    InvariantHolds(steps);
    n := WorkIsPolled(s, rounds, semaphore);
    RunContinues(steps, Flatten(rounds)[..n]);
    var before, step := RunTask(steps + Flatten(rounds)[..n]), Flatten(rounds)[n];
    InvariantHolds(steps + Flatten(rounds)[..n]);
    var i :| 0 <= i < |s.waiters[semaphore]| && s.waiters[semaphore][i] == waiter;
    assert before.waiters[semaphore][i] == waiter;
    PollSignals(before.waiters, Read(before.waiters, step.counters), semaphore, waiter);
  }

  lemma {:induction false} RunContinues(steps: seq<Step>, more: seq<Step>)
    ensures RunTask(steps + more) == RunOn(RunTask(steps), more)
    decreases |more|
  {
    if more == [] {
      assert steps + more == steps;
    } else {
      var longer := steps + [more[0]];
      assert longer[..|steps|] == steps && longer + more[1..] == steps + more;
      RunContinues(longer, more[1..]);
    }
  }
}
