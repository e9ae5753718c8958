/** The two-phase cyclic barrier. A call runs under the mutex up to its return or its wait. A waiter that has
    been notified, or resumes spuriously, looks at its condition and returns or waits again. */
module CyclicBarrier {
  import opened Options
  import opened Counting

  datatype Phase = Blocking | Unblocking

  /** `waiting` is the phase a thread waits for inside `arrive_and_wait`; `notified` says that its wait on the
      condition variable has been ended. */
  datatype Thread = Thread(calls: nat, waiting: Option<Phase>, notified: bool)

  datatype State = State(current: int, phase: Phase, threads: seq<Thread>)

  datatype Step = Arrive(t: nat) | Resume(t: nat) | Spurious(t: nat)

  function Init(size: nat, participants: nat): State {
    State(size, Blocking, seq(participants, _ => Thread(0, None, false)))
  }

  function Other(p: Phase): Phase {
    if p == Blocking then Unblocking else Blocking
  }

  predicate Enabled(s: State, step: Step) {
    step.t < |s.threads| &&
    match step
    case Arrive(t) => s.threads[t].waiting == None
    case Resume(t) => s.threads[t].waiting.Some? && s.threads[t].notified
    case Spurious(t) => s.threads[t].waiting.Some?
  }

  /** `notify_all`. */
  function NotifyAll(threads: seq<Thread>): (notified: seq<Thread>)
    ensures |notified| == |threads|
  {
    seq(|threads|, t requires 0 <= t < |threads| => threads[t].(notified := threads[t].waiting.Some?))
  }

  /** A waiter awake: it looks at its condition. */
  function Check(thread: Thread, phase: Phase): Thread {
    Thread(thread.calls, if thread.waiting == Some(phase) then None else thread.waiting, false)
  }

  function Apply(size: nat, s: State, step: Step): State
    requires Enabled(s, step)
  {
    match step
    case Resume(t) => s.(threads := s.threads[t := Check(s.threads[t], s.phase)])
    case Spurious(t) => s.(threads := s.threads[t := Check(s.threads[t], s.phase)])
    case Arrive(t) =>
      var calls := s.threads[t].calls + 1;
      var current := if s.phase == Blocking then s.current - 1 else s.current + 1;
      var last := if s.phase == Blocking then current == 0 else current == size;
      if last then State(current, Other(s.phase), NotifyAll(s.threads)[t := Thread(calls, None, false)])
      else State(current, s.phase, s.threads[t := Thread(calls, Some(Other(s.phase)), false)])
  }

  ghost predicate Runs(size: nat, s: State, steps: seq<Step>, s': State)
    decreases |steps|
  {
    if steps == [] then s' == s else Enabled(s, steps[0]) && Runs(size, Apply(size, s, steps[0]), steps[1..], s')
  }

  ghost predicate Reachable(size: nat, participants: nat, s: State) {
    exists steps :: Runs(size, Init(size, participants), steps, s)
  }

  /** How many calls of a thread have returned. */
  function Returns(thread: Thread): int {
    if thread.waiting == None then thread.calls else thread.calls - 1
  }

  /** No thread has returned from its k-th call unless all threads have made their k-th call. */
  ghost predicate Safe(s: State) {
    forall t, u :: 0 <= t < |s.threads| && 0 <= u < |s.threads| ==> Returns(s.threads[t]) <= s.threads[u].calls
  }

  /** The thread waits no longer for its phase and knows it. */
  predicate CanReturn(s: State, t: nat) {
    t < |s.threads| && s.threads[t].notified && s.threads[t].waiting == Some(s.phase)
  }

  /** When all threads are inside, one of them can return, without a spurious resumption. */
  ghost predicate Live(s: State) {
    (forall t :: 0 <= t < |s.threads| ==> s.threads[t].waiting.Some?) ==>
      exists t :: CanReturn(s, t)
  }

  // ---------------------------------------------------------------- notifications

  /** Every waiter whose condition holds has been notified, and waiters only. */
  predicate AllNotified(s: State) {
    forall t :: 0 <= t < |s.threads| ==>
      && (s.threads[t].waiting == Some(s.phase) ==> s.threads[t].notified)
      && (s.threads[t].notified ==> s.threads[t].waiting.Some?)
  }

  lemma {:induction false} RunsNotify(size: nat, s: State, steps: seq<Step>, s': State)
    requires AllNotified(s) && Runs(size, s, steps, s')
    ensures AllNotified(s')
    decreases |steps|
  {
    if steps != [] {
      assert AllNotified(Apply(size, s, steps[0]));
      RunsNotify(size, Apply(size, s, steps[0]), steps[1..], s');
    }
  }

  /** No notification is lost, with any number of participants and whatever resumes spuriously. */
  lemma NoLostNotification(size: nat, participants: nat, s: State)
    requires Reachable(size, participants, s)
    ensures AllNotified(s)
  {
    var steps :| Runs(size, Init(size, participants), steps, s);
    RunsNotify(size, Init(size, participants), steps, s);
  }

  // ---------------------------------------------------------------- exactly `size` participants

  function Arrived(threads: seq<Thread>, round: nat): nat {
    if threads == [] then 0
    else Arrived(threads[..|threads| - 1], round) + (if threads[|threads| - 1].calls > round then 1 else 0)
  }

  lemma {:induction false} ArrivedUpdate(threads: seq<Thread>, round: nat, t: nat, thread: Thread)
    requires t < |threads|
    ensures Arrived(threads[t := thread], round) ==
            Arrived(threads, round)
            - (if threads[t].calls > round then 1 else 0) + (if thread.calls > round then 1 else 0)
  {
    var last := |threads| - 1;
    if t < last {
      ArrivedUpdate(threads[..last], round, t, thread);
      assert threads[t := thread][..last] == threads[..last][t := thread];
    } else {
      assert threads[t := thread][..last] == threads[..last];
    }
  }

  lemma {:induction false} ArrivedNotified(threads: seq<Thread>, round: nat)
    ensures Arrived(NotifyAll(threads), round) == Arrived(threads, round)
  {
    if threads != [] {
      var last := |threads| - 1;
      ArrivedNotified(threads[..last], round);
      assert NotifyAll(threads)[..last] == NotifyAll(threads[..last]);
    }
  }

  lemma {:induction false} ArrivedBounds(threads: seq<Thread>, round: nat)
    ensures Arrived(threads, round) <= |threads|
    ensures Arrived(threads, round) == |threads| <==> forall t :: 0 <= t < |threads| ==> threads[t].calls > round
    ensures Arrived(threads, round) == 0 <==> forall t :: 0 <= t < |threads| ==> threads[t].calls <= round
  {
    if threads != [] {
      var last := |threads| - 1;
      ArrivedBounds(threads[..last], round);
      assert forall t :: 0 <= t < last ==> threads[..last][t] == threads[t];
    }
  }

  function PhaseOf(round: nat): Phase {
    if round == 0 then Blocking else Other(PhaseOf(round - 1))
  }

  /** A thread is either still on its way out of the last phase or has already arrived in the next. */
  predicate Stage(thread: Thread, round: nat) {
    || (thread.calls == round && (thread.waiting == None || (0 < round && thread.waiting == Some(PhaseOf(round)))))
    || (thread.calls == round + 1 && thread.waiting == Some(Other(PhaseOf(round))))
  }

  /** `round` phases are complete. */
  ghost predicate InRound(size: nat, s: State, round: nat) {
    && s.phase == PhaseOf(round)
    && Arrived(s.threads, round) < size
    && s.current == (if s.phase == Blocking then size - Arrived(s.threads, round) else Arrived(s.threads, round))
    && forall t :: 0 <= t < |s.threads| ==> Stage(s.threads[t], round)
  }

  lemma LastArrives(size: nat, s: State, round: nat, t: nat)
    requires |s.threads| == size && InRound(size, s, round) && Enabled(s, Arrive(t))
    requires Apply(size, s, Arrive(t)).phase != s.phase
    ensures InRound(size, Apply(size, s, Arrive(t)), round + 1)
  {
    var s' := Apply(size, s, Arrive(t));
    LastCounted(size, s, round, t);
    ArrivedBounds(s'.threads, round);
    forall u | 0 <= u < |s'.threads|
      ensures Stage(s'.threads[u], round + 1) && s'.threads[u].calls == round + 1
    {
      assert Stage(s.threads[u], round);
    }
    ArrivedBounds(s'.threads, round + 1);
  }

  lemma LastCounted(size: nat, s: State, round: nat, t: nat)
    requires |s.threads| == size && InRound(size, s, round) && Enabled(s, Arrive(t))
    requires Apply(size, s, Arrive(t)).phase != s.phase
    ensures |Apply(size, s, Arrive(t)).threads| == size && Arrived(Apply(size, s, Arrive(t)).threads, round) == size
  {
    var s' := Apply(size, s, Arrive(t));
    assert Stage(s.threads[t], round);
    ArrivedNotified(s.threads, round);
    ArrivedUpdate(NotifyAll(s.threads), round, t, s'.threads[t]);
  }

  lemma StepInRound(size: nat, s: State, round: nat, step: Step) returns (round': nat)
    requires |s.threads| == size && InRound(size, s, round) && Enabled(s, step)
    ensures InRound(size, Apply(size, s, step), round') && |Apply(size, s, step).threads| == size
    ensures round <= round'
  {
    var s', t := Apply(size, s, step), step.t;
    if s'.phase != s.phase {
      round' := round + 1;
      LastArrives(size, s, round, t);
    } else {
      round' := round;
      assert Stage(s.threads[t], round) && Stage(s'.threads[t], round);
      ArrivedUpdate(s.threads, round, t, s'.threads[t]);
      ArrivedBounds(s.threads, round);
      ArrivedBounds(s'.threads, round);
    }
  }

  lemma {:induction false} RunsInRound(size: nat, s: State, round: nat, steps: seq<Step>, s': State)
    returns (round': nat)
    requires |s.threads| == size && InRound(size, s, round) && Runs(size, s, steps, s')
    ensures |s'.threads| == size && InRound(size, s', round')
    decreases |steps|
  {
    round' := round;
    if steps != [] {
      var next := StepInRound(size, s, round, steps[0]);
      round' := RunsInRound(size, Apply(size, s, steps[0]), next, steps[1..], s');
    }
  }

  lemma ReachableInRound(size: nat, s: State) returns (round: nat)
    requires 1 <= size && Reachable(size, size, s)
    ensures |s.threads| == size && InRound(size, s, round)
  {
    var s0 := Init(size, size);
    ArrivedBounds(s0.threads, 0);
    var steps :| Runs(size, s0, steps, s);
    round := RunsInRound(size, s0, 0, steps, s);
  }

  lemma ExactlySizeIsCorrect(size: nat, s: State)
    requires 1 <= size && Reachable(size, size, s)
    ensures Safe(s) && Live(s) && 0 <= s.current <= size
  {
    var round := ReachableInRound(size, s);
    ArrivedBounds(s.threads, round);
    assert forall t :: 0 <= t < size ==> Stage(s.threads[t], round);
    NoLostNotification(size, size, s);
    var t :| 0 <= t < size && s.threads[t].calls == round;
    assert s.threads[t].waiting.Some? ==> CanReturn(s, t);
  }

  /** A waiter cannot miss its phase although the flag is used again in every round: once its condition
      holds, it holds until the waiter has returned. */
  lemma NoMissedPhase(size: nat, s: State, step: Step, t: nat)
    requires 1 <= size && Reachable(size, size, s) && Enabled(s, step) && t < |s.threads|
    requires s.threads[t].waiting == Some(s.phase)
    ensures CanReturn(s, t)
    ensures if step.t == t then Apply(size, s, step).threads[t].waiting == None else CanReturn(Apply(size, s, step), t)
  {
    NoLostNotification(size, size, s);
    var round := ReachableInRound(size, s);
    var s' := Apply(size, s, step);
    assert Stage(s.threads[t], round) && s.threads[t].calls == round;
    if s'.phase != s.phase {
      assert s'.threads[t].calls == round;
      ArrivedNotified(s.threads, round);
      ArrivedUpdate(NotifyAll(s.threads), round, step.t, s'.threads[step.t]);
      ArrivedBounds(s'.threads, round);
      assert false;
    }
  }

  // ---------------------------------------------------------------- all calls return

  /** A run without spurious resumptions. */
  predicate Unprompted(steps: seq<Step>) {
    forall i :: 0 <= i < |steps| ==> !steps[i].Spurious?
  }

  function CallsOf(thread: Thread): nat {
    thread.calls
  }

  function IsNotified(thread: Thread): bool {
    thread.notified
  }

  lemma ResumeCost(size: nat, s: State, t: nat)
    requires Enabled(s, Resume(t))
    ensures var s' := Apply(size, s, Resume(t));
            && CountIf(s'.threads, IsNotified) == CountIf(s.threads, IsNotified) - 1
            && Sum(s'.threads, CallsOf) == Sum(s.threads, CallsOf)
  {
    var thread := Check(s.threads[t], s.phase);
    CountUpdate(s.threads, IsNotified, t, thread);
    SumUpdate(s.threads, CallsOf, t, thread);
  }

  lemma ArriveCost(size: nat, s: State, t: nat)
    requires Enabled(s, Arrive(t))
    ensures var s' := Apply(size, s, Arrive(t));
            && CountIf(s'.threads, IsNotified) <= |s.threads|
            && Sum(s'.threads, CallsOf) == Sum(s.threads, CallsOf) + 1
  {
    var s' := Apply(size, s, Arrive(t));
    CountWithin(s'.threads, IsNotified, (thread: Thread) => true);
    if s'.phase == s.phase {
      SumUpdate(s.threads, CallsOf, t, s'.threads[t]);
    } else {
      SumOfNotified(s.threads);
      SumUpdate(NotifyAll(s.threads), CallsOf, t, s'.threads[t]);
    }
  }

  /** Each call costs one step, and one for every thread that it notifies. */
  lemma StepCost(size: nat, s: State, step: Step)
    requires Enabled(s, step) && !step.Spurious?
    ensures var s', n := Apply(size, s, step), |s.threads|;
            && |s'.threads| == n
            && 1 + CountIf(s'.threads, IsNotified) + Sum(s.threads, CallsOf) * (n + 1)
               <= CountIf(s.threads, IsNotified) + Sum(s'.threads, CallsOf) * (n + 1)
  {
    var s', n := Apply(size, s, step), |s.threads|;
    match step
    case Resume(t) => ResumeCost(size, s, t);
    case Arrive(t) =>
      ArriveCost(size, s, t);
      TimesOneMore(Sum(s.threads, CallsOf), n + 1);
  }

  lemma {:induction false} SumOfNotified(threads: seq<Thread>)
    ensures Sum(NotifyAll(threads), CallsOf) == Sum(threads, CallsOf)
  {
    if threads != [] {
      var last := |threads| - 1;
      SumOfNotified(threads[..last]);
      assert NotifyAll(threads)[..last] == NotifyAll(threads[..last]);
    }
  }

  lemma {:induction false} RunCost(size: nat, s: State, steps: seq<Step>, s': State)
    requires Runs(size, s, steps, s') && Unprompted(steps)
    ensures |s'.threads| == |s.threads|
    ensures |steps| + CountIf(s'.threads, IsNotified) + Sum(s.threads, CallsOf) * (|s.threads| + 1)
            <= CountIf(s.threads, IsNotified) + Sum(s'.threads, CallsOf) * (|s.threads| + 1)
    decreases |steps|
  {
    if steps != [] {
      StepCost(size, s, steps[0]);
      RunCost(size, Apply(size, s, steps[0]), steps[1..], s');
    }
  }

  /** When each of any number of threads makes at most `k` calls, the run ends. */
  lemma RunsEnd(size: nat, participants: nat, k: nat, steps: seq<Step>, s: State)
    requires Runs(size, Init(size, participants), steps, s) && Unprompted(steps)
    requires forall t :: 0 <= t < |s.threads| ==> s.threads[t].calls <= k
    ensures |steps| <= participants * k * (participants + 1)
  {
    var s0 := Init(size, participants);
    RunCost(size, s0, steps, s);
    CountNone(s0.threads, IsNotified);
    SumAtMost(s0.threads, CallsOf, 0);
    SumAtMost(s.threads, CallsOf, k);
    TimesKeepsOrder(Sum(s.threads, CallsOf), participants * k, participants + 1);
  }

  /** Nothing more can happen, without spurious resumptions, when each thread makes `k` calls. */
  ghost predicate Over(s: State, k: nat) {
    forall t: nat :: t < |s.threads| ==>
      !Enabled(s, Resume(t)) && (Enabled(s, Arrive(t)) ==> s.threads[t].calls == k)
  }

  /** When `size` threads make `k` calls each, notifications alone bring all of them back: at the end of every
      run all calls have been made and have returned, and the barrier is ready for the next round. */
  lemma AllCallsReturn(size: nat, k: nat, s: State)
    requires 1 <= size && Reachable(size, size, s) && Over(s, k)
    requires forall t :: 0 <= t < |s.threads| ==> s.threads[t].calls <= k
    ensures |s.threads| == size && s.phase == PhaseOf(k) && s.current == (if s.phase == Blocking then size else 0)
    ensures forall t :: 0 <= t < size ==> s.threads[t] == Thread(k, None, false)
  {
    NoLostNotification(size, size, s);
    var round := ReachableInRound(size, s);
    ArrivedBounds(s.threads, round);
    assert forall t :: 0 <= t < size ==> Stage(s.threads[t], round);
    var t :| 0 <= t < size && s.threads[t].calls == round;
    assert !Enabled(s, Resume(t));
    assert s.threads[t].waiting == None && Enabled(s, Arrive(t));
    forall u: nat | u < size
      ensures s.threads[u] == Thread(k, None, false)
    {
      assert Stage(s.threads[u], round) && !Enabled(s, Resume(u));
    }
  }

  // ---------------------------------------------------------------- any other number of participants

  /** The first `k` threads have arrived and wait. */
  function Waiting(size: nat, participants: nat, k: nat): State
    requires k <= participants
  {
    State(size - k, Blocking,
          seq(participants, i => if i < k then Thread(1, Some(Unblocking), false) else Thread(0, None, false)))
  }

  lemma OneMoreWaits(size: nat, participants: nat, k: nat)
    requires 0 < k <= participants && k < size
    ensures var before := Waiting(size, participants, k - 1);
            Enabled(before, Arrive(k - 1)) && Apply(size, before, Arrive(k - 1)) == Waiting(size, participants, k)
  {
    var before := Waiting(size, participants, k - 1);
    assert Apply(size, before, Arrive(k - 1)).threads == Waiting(size, participants, k).threads;
  }

  lemma {:induction false} FirstArrivals(size: nat, participants: nat, k: nat, s: State, tail: seq<Step>)
    requires k <= participants && k < size
    requires Runs(size, Waiting(size, participants, k), tail, s)
    ensures Reachable(size, participants, s)
    decreases k
  {
    if k == 0 {
      assert Waiting(size, participants, 0).threads == Init(size, participants).threads;
    } else {
      var before := Waiting(size, participants, k - 1);
      OneMoreWaits(size, participants, k);
      var steps := [Arrive(k - 1)] + tail;
      assert steps[1..] == tail;
      FirstArrivals(size, participants, k - 1, s, steps);
    }
  }

  /** Too few participants wait for ever. */
  lemma TooFewBlock(size: nat, participants: nat)
    requires 1 <= participants < size
    ensures exists s :: Reachable(size, participants, s) && !Live(s)
  {
    var s := Waiting(size, participants, participants);
    assert Runs(size, s, [], s);
    FirstArrivals(size, participants, participants, s, []);
    assert !Live(s);
  }

  /** With too many, one returns while another has not arrived. */
  lemma TooManySlipThrough(size: nat, participants: nat)
    requires 1 <= size < participants
    ensures exists s :: Reachable(size, participants, s) && !Safe(s)
  {
    var before := Waiting(size, participants, size - 1);
    var s := Apply(size, before, Arrive(size - 1));
    assert Runs(size, s, [], s);
    assert Runs(size, before, [Arrive(size - 1)], s);
    FirstArrivals(size, participants, size - 1, s, [Arrive(size - 1)]);
    assert Returns(s.threads[size - 1]) == 1 && s.threads[size].calls == 0;
  }

  /** The barrier is correct exactly when as many threads take part as it was built for. */
  lemma CorrectIff(size: nat, participants: nat)
    requires 1 <= size && 1 <= participants
    ensures (forall s :: Reachable(size, participants, s) ==> Safe(s) && Live(s)) <==> participants == size
  {
    if participants == size {
      forall s | Reachable(size, participants, s)
        ensures Safe(s) && Live(s)
      {
        ExactlySizeIsCorrect(size, s);
      }
    } else if participants < size {
      TooFewBlock(size, participants);
    } else {
      TooManySlipThrough(size, participants);
    }
  }
}
