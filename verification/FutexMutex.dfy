/** The three-state futex mutex. Each access to the word is one step of some thread, `FUTEX_WAIT` compares
    and sleeps atomically, and a sleeper may also return without being woken. */
module FutexMutex {
  import opened Counting

  datatype Pc =
    | Idle
    | TryFast               // lock: CAS 0 -> 1
    | Decide(c: int)        // lock: the test `c == 2`
    | Mark                  // lock: CAS 1 -> 2
    | Wait                  // lock: FUTEX_WAIT 2
    | Asleep
    | TrySlow               // lock: CAS 0 -> 2
    | Critical
    | Subtract              // unlock: fetch_sub
    | StoreZero             // unlock: store 0
    | Wake                  // unlock: FUTEX_WAKE 1

  datatype State = State(word: int, threads: seq<Pc>)

  datatype Step =
    | Call(t: nat)                   // an idle thread calls lock, the owner calls unlock
    | Run(t: nat, woken: nat)        // the next step of a call; `woken` is the sleeper a wake-up picks
    | Return(t: nat)                 // FUTEX_WAIT returns spuriously

  function Init(n: nat): State {
    State(0, seq(n, _ => Idle))
  }

  predicate SomeAsleep(s: State) {
    exists u :: 0 <= u < |s.threads| && s.threads[u] == Asleep
  }

  predicate Enabled(s: State, step: Step) {
    step.t < |s.threads| &&
    match step
    case Call(t) => s.threads[t] == Idle || s.threads[t] == Critical
    case Return(t) => s.threads[t] == Asleep
    case Run(t, woken) =>
      && s.threads[t] != Idle && s.threads[t] != Critical && s.threads[t] != Asleep
      && (s.threads[t] == Wake && SomeAsleep(s) ==> woken < |s.threads| && s.threads[woken] == Asleep)
  }

  function At(s: State, t: nat, pc: Pc): State
    requires t < |s.threads|
  {
    s.(threads := s.threads[t := pc])
  }

  /** The value `compare_and_set` leaves in the word. */
  function Cas(word: int, expected: int, desired: int): int {
    if word == expected then desired else word
  }

  function Apply(s: State, step: Step): State
    requires Enabled(s, step)
  {
    match step
    case Call(t) => At(s, t, if s.threads[t] == Idle then TryFast else Subtract)
    case Return(t) => At(s, t, TrySlow)
    case Run(t, woken) =>
      match s.threads[t]
      case TryFast => At(s, t, if s.word == 0 then Critical else Decide(s.word)).(word := Cas(s.word, 0, 1))
      case Decide(c) => At(s, t, if c == 2 then Wait else Mark)
      case Mark => At(s, t, if s.word != 0 then Wait else TrySlow).(word := Cas(s.word, 1, 2))
      case Wait => At(s, t, if s.word == 2 then Asleep else TrySlow)
      case TrySlow => At(s, t, if s.word == 0 then Critical else Decide(s.word)).(word := Cas(s.word, 0, 2))
      case Subtract => At(s, t, if s.word != 1 then StoreZero else Idle).(word := s.word - 1)
      case StoreZero => At(s, t, Wake).(word := 0)
      case Wake => if SomeAsleep(s) then At(At(s, woken, TrySlow), t, Idle) else At(s, t, Idle)
      case _ => s
  }

  ghost predicate Runs(s: State, steps: seq<Step>, s': State)
    decreases |steps|
  {
    if steps == [] then s' == s else Enabled(s, steps[0]) && Runs(Apply(s, steps[0]), steps[1..], s')
  }

  // ---------------------------------------------------------------- what every state keeps

  predicate Holds(pc: Pc) {
    pc == Critical || pc == Subtract || pc == StoreZero
  }

  /** Awake on the slow path of `lock`: it will look at the word again before it sleeps. */
  predicate Awake(pc: Pc) {
    pc.Decide? || pc == Mark || pc == Wait || pc == TrySlow
  }

  predicate Waking(pc: Pc) {
    pc == StoreZero || pc == Wake
  }

  predicate OneHolder(s: State) {
    forall t, u :: 0 <= t < |s.threads| && 0 <= u < |s.threads| && Holds(s.threads[t]) && Holds(s.threads[u]) ==> t == u
  }

  predicate WordTells(s: State) {
    0 <= s.word <= 2 && (s.word == 0 <==> forall t :: 0 <= t < |s.threads| ==> !Holds(s.threads[t]))
  }

  /** No wake-up is lost. */
  predicate NoLostWakeUp(s: State) {
    SomeAsleep(s) ==>
      || s.word == 2
      || exists t :: 0 <= t < |s.threads| && (Waking(s.threads[t]) || Awake(s.threads[t]))
  }

  predicate Inv(s: State) {
    OneHolder(s) && WordTells(s) && NoLostWakeUp(s)
  }

  lemma InitInv(n: nat)
    ensures Inv(Init(n))
  {
  }

  /** A step changes its own thread, and a wake-up one sleeper. */
  lemma StepFrame(s: State, step: Step)
    requires Enabled(s, step)
    ensures |Apply(s, step).threads| == |s.threads|
    ensures forall u :: 0 <= u < |s.threads| && u != step.t && Apply(s, step).threads[u] != s.threads[u] ==>
              s.threads[u] == Asleep && Apply(s, step).threads[u] == TrySlow
  {
  }

  /** The word is 0 before a thread takes the lock and after it leaves it. */
  lemma StepWord(s: State, step: Step)
    requires Enabled(s, step) && 0 <= s.word <= 2 && (Holds(s.threads[step.t]) ==> s.word != 0)
    requires |Apply(s, step).threads| == |s.threads|
    ensures var s', was, now := Apply(s, step), s.threads[step.t], Apply(s, step).threads[step.t];
            && 0 <= s'.word <= 2
            && (Holds(now) && !Holds(was) ==> s.word == 0 && s'.word != 0)
            && (Holds(was) && !Holds(now) ==> s'.word == 0)
            && (Holds(was) && Holds(now) ==> s'.word != 0)
            && (!Holds(was) && !Holds(now) ==> (s.word == 0 <==> s'.word == 0))
  {
  }

  lemma StepKeepsHolder(s: State, step: Step)
    requires OneHolder(s) && WordTells(s) && Enabled(s, step)
    ensures OneHolder(Apply(s, step)) && WordTells(Apply(s, step))
  {
    var s', t := Apply(s, step), step.t;
    StepFrame(s, step);
    StepWord(s, step);
    assert forall u :: 0 <= u < |s.threads| && u != t ==> (Holds(s'.threads[u]) <==> Holds(s.threads[u]));
    if s'.word != 0 && !Holds(s'.threads[t]) {
      var h :| 0 <= h < |s.threads| && Holds(s.threads[h]);
      assert Holds(s'.threads[h]);
    }
  }

  lemma StepKeepsWakeUps(s: State, step: Step)
    requires Inv(s) && Enabled(s, step)
    ensures NoLostWakeUp(Apply(s, step))
  {
    var s', t := Apply(s, step), step.t;
    if SomeAsleep(s') && s'.word != 2 {
      if Waking(s'.threads[t]) || Awake(s'.threads[t]) {
      } else if s.threads[t] == Wake {
        assert SomeAsleep(s);
        assert Awake(s'.threads[step.woken]);
      } else {
        assert s.word != 2;
        assert SomeAsleep(s);
        var u :| 0 <= u < |s.threads| && (Waking(s.threads[u]) || Awake(s.threads[u]));
        assert u != t && s'.threads[u] == s.threads[u];
      }
    }
  }

  lemma {:induction false} RunsKeepInv(s: State, steps: seq<Step>, s': State)
    requires Inv(s) && Runs(s, steps, s')
    ensures Inv(s')
    decreases |steps|
  {
    if steps != [] {
      StepKeepsHolder(s, steps[0]);
      StepKeepsWakeUps(s, steps[0]);
      RunsKeepInv(Apply(s, steps[0]), steps[1..], s');
    }
  }

  /** In every run of any number of threads: at most one thread holds the lock, the word stays in
      {0, 1, 2}, and a sleeper always has someone who will see to it. */
  lemma MutexIsSafe(n: nat, steps: seq<Step>, s: State)
    requires Runs(Init(n), steps, s)
    ensures forall t, u :: 0 <= t < |s.threads| && 0 <= u < |s.threads| ==>
              (s.threads[t] == Critical && s.threads[u] == Critical ==> t == u)
    ensures 0 <= s.word <= 2
    ensures NoLostWakeUp(s)
  {
    InitInv(n);
    RunsKeepInv(Init(n), steps, s);
  }

  // ---------------------------------------------------------------- progress

  /** In a call of `lock` that has not succeeded yet. */
  predicate Locking(pc: Pc) {
    pc == TryFast || Awake(pc) || pc == Asleep
  }

  /** A step inside a call, or the owner calling `unlock`: neither a new `lock` nor a spurious return. */
  predicate GoesOn(s: State, step: Step)
    requires Enabled(s, step)
  {
    step.Run? || (step.Call? && s.threads[step.t] == Critical)
  }

  /** A run without new calls of `lock` and without spurious returns, after which thread `t` has the lock. */
  ghost predicate Acquires(s: State, steps: seq<Step>, t: nat)
    decreases |steps|
  {
    if steps == [] then t < |s.threads| && s.threads[t] == Critical
    else
      && Enabled(s, steps[0]) && GoesOn(s, steps[0])
      && Acquires(Apply(s, steps[0]), steps[1..], t)
  }

  function Rank(pc: Pc): nat {
    if pc.Decide? then 2 else if pc == Mark || pc == Wait then 1 else 0
  }

  /** With the word at 0, a thread awake in `lock` gets the lock by its own steps. */
  lemma {:induction false} AwakeAcquires(s: State, t: nat) returns (steps: seq<Step>)
    requires t < |s.threads| && s.word == 0 && (s.threads[t] == TryFast || Awake(s.threads[t]))
    ensures Acquires(s, steps, t) && |steps| <= 3
    ensures |steps| == 1 + Rank(s.threads[t])
    decreases Rank(s.threads[t])
  {
    var step := Run(t, 0);
    var s' := Apply(s, step);
    var rest := [];
    if s'.threads[t] != Critical {
      rest := AwakeAcquires(s', t);
    }
    steps := [step] + rest;
    assert steps[1..] == rest;
  }

  /** With the word at 0, some thread in `lock` can get the lock; a sleeper is woken by the pending wake-up. */
  lemma FreeLockIsAcquired(s: State) returns (steps: seq<Step>, t: nat)
    requires Inv(s) && s.word == 0 && exists u :: 0 <= u < |s.threads| && Locking(s.threads[u])
    ensures Acquires(s, steps, t) && |steps| <= 3
    ensures t < |s.threads| && Locking(s.threads[t])
  {
    if u :| 0 <= u < |s.threads| && (s.threads[u] == TryFast || Awake(s.threads[u])) {
      t := u;
      steps := AwakeAcquires(s, t);
    } else {
      t :| 0 <= t < |s.threads| && s.threads[t] == Asleep;
      var w :| 0 <= w < |s.threads| && (Waking(s.threads[w]) || Awake(s.threads[w]));
      assert s.threads[w] == Wake;
      var s' := Apply(s, Run(w, t));
      var rest := AwakeAcquires(s', t);
      steps := [Run(w, t)] + rest;
      assert steps[1..] == rest;
    }
  }

  function OwnerRank(pc: Pc): nat {
    if pc == Critical then 3 else if pc == Subtract then 2 else if pc == StoreZero then 1 else 0
  }

  /** No deadlock and no lost wake-up: whenever a thread is inside `lock`, the owner leaving and then the
      threads already inside `lock` taking at most three steps end with one of these holding the lock. */
  lemma {:induction false} SomeoneAcquires(s: State) returns (steps: seq<Step>, t: nat)
    requires Inv(s) && exists u :: 0 <= u < |s.threads| && Locking(s.threads[u])
    ensures Acquires(s, steps, t) && |steps| <= 6
    ensures t < |s.threads| && Locking(s.threads[t])
  {
    if s.word == 0 {
      steps, t := FreeLockIsAcquired(s);
    } else {
      var h :| 0 <= h < |s.threads| && Holds(s.threads[h]);
      steps, t := OwnerThenSomeone(s, h);
    }
  }

  /** The owner's next step leads towards the end of `unlock`, and nobody leaves `lock` meanwhile. */
  lemma OwnerStep(s: State, h: nat) returns (step: Step)
    requires Inv(s) && h < |s.threads| && Holds(s.threads[h])
    ensures step.t == h && Enabled(s, step) && GoesOn(s, step)
    ensures var s' := Apply(s, step);
            && Inv(s') && |s'.threads| == |s.threads|
            && OwnerRank(s'.threads[h]) < OwnerRank(s.threads[h])
            && (Holds(s'.threads[h]) || s'.word == 0)
            && (forall u :: 0 <= u < |s.threads| && Locking(s.threads[u]) ==> Locking(s'.threads[u]))
            && (forall u :: 0 <= u < |s.threads| && Locking(s'.threads[u]) ==> Locking(s.threads[u]))
  {
    step := if s.threads[h] == Critical then Call(h) else Run(h, 0);
    StepKeepsHolder(s, step);
    StepKeepsWakeUps(s, step);
    StepFrame(s, step);
    StepWord(s, step);
  }

  lemma {:induction false} OwnerThenSomeone(s: State, h: nat) returns (steps: seq<Step>, t: nat)
    requires Inv(s) && exists u :: 0 <= u < |s.threads| && Locking(s.threads[u])
    requires h < |s.threads| && Holds(s.threads[h])
    ensures Acquires(s, steps, t) && |steps| <= 3 + OwnerRank(s.threads[h])
    ensures t < |s.threads| && Locking(s.threads[t])
    decreases OwnerRank(s.threads[h])
  {
    var step := OwnerStep(s, h);
    var s' := Apply(s, step);
    var u :| 0 <= u < |s.threads| && Locking(s.threads[u]);
    assert Locking(s'.threads[u]);
    var rest;
    if Holds(s'.threads[h]) {
      rest, t := OwnerThenSomeone(s', h);
    } else {
      rest, t := FreeLockIsAcquired(s');
    }
    steps := [step] + rest;
    assert steps[1..] == rest;
  }

  lemma LockingThreadsProgress(n: nat, before: seq<Step>, s: State) returns (steps: seq<Step>, t: nat)
    requires Runs(Init(n), before, s) && exists u :: 0 <= u < |s.threads| && Locking(s.threads[u])
    ensures Acquires(s, steps, t) && |steps| <= 6
    ensures t < |s.threads| && Locking(s.threads[t])
  {
    InitInv(n);
    RunsKeepInv(Init(n), before, s);
    steps, t := SomeoneAcquires(s);
  }

  // ---------------------------------------------------------------- everybody is served

  /** A run without new calls of `lock` and without spurious returns. */
  ghost predicate Finishes(s: State, steps: seq<Step>, s': State)
    decreases |steps|
  {
    if steps == [] then s' == s
    else Enabled(s, steps[0]) && GoesOn(s, steps[0]) && Finishes(Apply(s, steps[0]), steps[1..], s')
  }

  ghost predicate Stuck(s: State) {
    forall step :: Enabled(s, step) ==> !GoesOn(s, step)
  }

  /** How far a thread is from having unlocked. */
  function Major(pc: Pc): nat {
    match pc
    case Idle => 0
    case Wake => 1
    case StoreZero => 2
    case Subtract => 3
    case Critical => 4
    case _ => 5
  }

  /** How far a thread in `lock` is from the lock or from sleep, as long as no thread makes major progress. */
  function Minor(word: int, pc: Pc): nat {
    match pc
    case TryFast => 5
    case TrySlow => 4
    case Decide(c) => if word == 0 || (word == 1 && c == 2) then 6 else 3
    case Mark => if word == 0 then 5 else 2
    case Wait => if word == 2 then 1 else 5
    case _ => 0
  }

  function MinorAt(word: int): Pc -> nat {
    pc => Minor(word, pc)
  }

  function Left(s: State): nat {
    Sum(s.threads, Major) * (6 * |s.threads| + 1) + Sum(s.threads, MinorAt(s.word))
  }

  lemma LeftBounds(s: State)
    ensures Sum(s.threads, MinorAt(s.word)) <= 6 * |s.threads|
    ensures Sum(s.threads, Major) <= 5 * |s.threads|
  {
    SumAtMost(s.threads, MinorAt(s.word), 6);
    SumAtMost(s.threads, Major, 5);
  }

  lemma MajorStep(s: State, step: Step)
    requires Enabled(s, step) && GoesOn(s, step)
    ensures var s', t := Apply(s, step), step.t;
            Sum(s'.threads, Major) == Sum(s.threads, Major) - Major(s.threads[t]) + Major(s'.threads[t])
  {
    var s', t := Apply(s, step), step.t;
    SumUpdate(s.threads, Major, t, s'.threads[t]);
    if s.threads[t] == Wake && SomeAsleep(s) {
      SumUpdate(s.threads, Major, step.woken, TrySlow);
      SumUpdate(s.threads[step.woken := TrySlow], Major, t, Idle);
    }
  }

  /** Minor progress of one thread sets no other back. */
  lemma MinorOfThreads(s: State, step: Step)
    requires 0 <= s.word <= 2 && Enabled(s, step) && GoesOn(s, step)
    requires Major(Apply(s, step).threads[step.t]) == Major(s.threads[step.t])
    ensures Apply(s, step).threads == s.threads[step.t := Apply(s, step).threads[step.t]]
    ensures Minor(Apply(s, step).word, Apply(s, step).threads[step.t]) < Minor(Apply(s, step).word, s.threads[step.t])
    ensures forall pc :: Minor(Apply(s, step).word, pc) <= Minor(s.word, pc)
  {
  }

  lemma MinorStep(s: State, step: Step)
    requires 0 <= s.word <= 2 && Enabled(s, step) && GoesOn(s, step)
    requires Major(Apply(s, step).threads[step.t]) == Major(s.threads[step.t])
    ensures Sum(Apply(s, step).threads, MinorAt(Apply(s, step).word)) < Sum(s.threads, MinorAt(s.word))
  {
    var s', t := Apply(s, step), step.t;
    MinorOfThreads(s, step);
    SumUpdate(s.threads, MinorAt(s'.word), t, s'.threads[t]);
    SumWithin(s.threads, MinorAt(s'.word), MinorAt(s.word));
  }

  lemma MajorDoesNotGrow(s: State, step: Step)
    requires Enabled(s, step) && GoesOn(s, step)
    ensures Major(Apply(s, step).threads[step.t]) <= Major(s.threads[step.t])
  {
  }

  lemma StepDecreases(s: State, step: Step)
    requires 0 <= s.word <= 2 && Enabled(s, step) && GoesOn(s, step)
    ensures Left(Apply(s, step)) < Left(s)
  {
    var s' := Apply(s, step);
    StepFrame(s, step);
    MajorStep(s, step);
    MajorDoesNotGrow(s, step);
    if Major(s'.threads[step.t]) == Major(s.threads[step.t]) {
      MinorStep(s, step);
    }
    LeftBounds(s');
    LessWithMinor(6 * |s.threads| + 1, Sum(s.threads, Major), Sum(s.threads, MinorAt(s.word)),
                  Sum(s'.threads, Major), Sum(s'.threads, MinorAt(s'.word)));
  }

  /** When nothing more can happen nobody is left in the middle of a call, asleep or not. */
  lemma StuckIsIdle(s: State)
    requires Inv(s) && Stuck(s)
    ensures forall t :: 0 <= t < |s.threads| ==> s.threads[t] == Idle
  {
    forall t | 0 <= t < |s.threads|
      ensures s.threads[t] == Idle || s.threads[t] == Asleep
    {
      if s.threads[t] == Critical {
        assert GoesOn(s, Call(t));
      } else if s.threads[t] != Idle && s.threads[t] != Asleep {
        var woken: nat :| SomeAsleep(s) ==> woken < |s.threads| && s.threads[woken] == Asleep;
        assert GoesOn(s, Run(t, woken));
      }
    }
  }

  lemma {:induction false} FinishesInTime(s: State, steps: seq<Step>, s': State)
    requires Inv(s) && Finishes(s, steps, s')
    ensures Inv(s') && |s'.threads| == |s.threads| && |steps| + Left(s') <= Left(s)
    decreases |steps|
  {
    if steps != [] {
      StepKeepsHolder(s, steps[0]);
      StepKeepsWakeUps(s, steps[0]);
      StepFrame(s, steps[0]);
      StepDecreases(s, steps[0]);
      FinishesInTime(Apply(s, steps[0]), steps[1..], s');
    }
  }

  /** A thread leaves `lock` only with the lock. */
  lemma {:induction false} LeavesWithLock(s: State, steps: seq<Step>, s': State, t: nat) returns (k: nat)
    requires Finishes(s, steps, s') && t < |s.threads| && Locking(s.threads[t])
    requires t < |s'.threads| && s'.threads[t] == Idle
    ensures k <= |steps| && Acquires(s, steps[..k], t)
    decreases |steps|
  {
    var next := Apply(s, steps[0]);
    StepFrame(s, steps[0]);
    if next.threads[t] == Critical {
      k := 1;
      assert steps[..1][1..] == [];
    } else {
      var rest := LeavesWithLock(next, steps[1..], s', t);
      k := rest + 1;
      assert steps[..k][1..] == steps[1..][..rest];
    }
  }

  function MostSteps(n: nat): nat {
    (5 * n) * (6 * n + 1) + 6 * n
  }

  lemma LeftAtMost(s: State)
    ensures Left(s) <= MostSteps(|s.threads|)
  {
    LeftBounds(s);
    TimesKeepsOrder(Sum(s.threads, Major), 5 * |s.threads|, 6 * |s.threads| + 1);
  }

  /** Without spurious returns every wake-up that is needed arrives: from every reachable state all runs in
      which no thread begins a new `lock` end, and at the end every thread that was in `lock` has had the
      lock and has left it again. */
  lemma EverybodyIsServed(n: nat, before: seq<Step>, s: State, steps: seq<Step>, s': State)
    requires Runs(Init(n), before, s) && Finishes(s, steps, s')
    ensures |steps| <= MostSteps(|s.threads|)
    ensures Stuck(s') ==> forall t :: 0 <= t < |s'.threads| ==> s'.threads[t] == Idle
    ensures Stuck(s') ==> forall t: nat :: t < |s.threads| && Locking(s.threads[t]) ==>
              exists k :: 0 <= k <= |steps| && Acquires(s, steps[..k], t)
  {
    InitInv(n);
    RunsKeepInv(Init(n), before, s);
    FinishesInTime(s, steps, s');
    LeftAtMost(s);
    if Stuck(s') {
      StuckIsIdle(s');
      forall t: nat | t < |s.threads| && Locking(s.threads[t])
        ensures exists k :: 0 <= k <= |steps| && Acquires(s, steps[..k], t)
      {
        var k := LeavesWithLock(s, steps, s', t);
      }
    }
  }

  // ---------------------------------------------------------------- without contention

  /** The accesses of a thread that meets no other: one to lock and one to unlock, and the word tells which. */
  predicate Uncontended(s: State) {
    |s.threads| == 1 &&
    match s.threads[0]
    case Idle => s.word == 0
    case TryFast => s.word == 0
    case Critical => s.word == 1
    case Subtract => s.word == 1
    case _ => false
  }

  lemma {:induction false} StaysUncontended(s: State, steps: seq<Step>, s': State)
    requires Uncontended(s) && Runs(s, steps, s')
    ensures Uncontended(s')
    decreases |steps|
  {
    if steps != [] {
      StaysUncontended(Apply(s, steps[0]), steps[1..], s');
    }
  }

  /** A single thread never waits and never wakes: it makes no system call and takes the lock at its first access. */
  lemma NoContentionNoFutex(steps: seq<Step>, s: State)
    requires Runs(Init(1), steps, s)
    ensures |s.threads| == 1 && s.threads[0] in {Idle, TryFast, Critical, Subtract}
    ensures s.word == if s.threads[0] in {Critical, Subtract} then 1 else 0
    ensures s.threads[0] == TryFast ==> Apply(s, Run(0, 0)).threads[0] == Critical
    ensures s.threads[0] == Subtract ==> Apply(s, Run(0, 0)).threads[0] == Idle
  {
    StaysUncontended(Init(1), steps, s);
  }
}
