/** `first_n`: the callbacks of the input futures claim, fill and count slots, and the one that fills the
    last slot collects them. Every access to the shared context is one step; writing a slot takes two, so
    that a read in between would show. */
module FirstN {
  import opened Options
  import opened Counting

  datatype Pc<R> =
    | Pending                      // the input future has no result yet
    | Claim                        // completed.fetch_add
    | Skipped                      // returned: enough callbacks came earlier
    | BeginStore                   // start writing v[i]
    | EndStore                     // v[i] is half written
    | CountStored                  // stored.fetch_add
    | Collect(j: nat, acc: seq<R>) // read v[j]
    | SetPromise(acc: seq<R>)      // promise_.set
    | Done

  datatype State<R> = State(
    slots: seq<Option<R>>,
    completed: nat,
    stored: nat,
    promised: seq<seq<R>>,         // every value the promise has been set to
    callbacks: seq<Pc<R>>)

  datatype Step = Complete(i: nat) | Run(i: nat)

  /** `None` is the future that carries the error "not enough futures". */
  function Start<R>(size: nat, n: nat): Option<State<R>> {
    if size < n then None else Some(Init(size))
  }

  function Init<R>(size: nat): State<R> {
    State(seq(size, _ => None), 0, 0, [], seq(size, _ => Pending))
  }

  predicate Enabled<R>(s: State<R>, step: Step) {
    step.i < |s.callbacks| && step.i < |s.slots| &&
    match step
    case Complete(i) => s.callbacks[i].Pending?
    case Run(i) => !s.callbacks[i].Pending? && !s.callbacks[i].Skipped? && !s.callbacks[i].Done?
  }

  function Goto<R>(s: State<R>, i: nat, pc: Pc<R>): State<R>
    requires i < |s.callbacks|
  {
    s.(callbacks := s.callbacks[i := pc])
  }

  /** `results[i]` is what the i-th input future delivers. */
  function Apply<R>(results: seq<R>, n: nat, s: State<R>, step: Step): State<R>
    requires Enabled(s, step) && |results| == |s.slots|
  {
    match step
    case Complete(i) => Goto(s, i, Claim)
    case Run(i) =>
      match s.callbacks[i]
      case Claim => Goto(s, i, if 1 + s.completed > n then Skipped else BeginStore).(completed := 1 + s.completed)
      case BeginStore => Goto(s, i, EndStore)
      case EndStore => Goto(s, i, CountStored).(slots := s.slots[i := Some(results[i])])
      case CountStored => Goto(s, i, if 1 + s.stored < n then Done else Collect(0, [])).(stored := 1 + s.stored)
      case Collect(j, acc) =>
        if j < |s.slots| then Goto(s, i, Collect(j + 1, if s.slots[j].Some? then acc + [s.slots[j].value] else acc))
        else Goto(s, i, SetPromise(acc))
      case SetPromise(acc) => Goto(s, i, Done).(promised := s.promised + [acc])
      case _ => s
  }

  ghost predicate Runs<R(!new)>(results: seq<R>, n: nat, s: State<R>, steps: seq<Step>, s': State<R>)
    decreases |steps|
  {
    if steps == [] then s' == s
    else Enabled(s, steps[0]) && |results| == |s.slots| &&
         Runs(results, n, Apply(results, n, s, steps[0]), steps[1..], s')
  }

  /** `s` is reached by `first_n` on these futures; with fewer than `n` of them it returns the error at once. */
  ghost predicate Reached<R(!new)>(results: seq<R>, n: nat, steps: seq<Step>, s: State<R>) {
    Start<R>(|results|, n).Some? && Runs(results, n, Start<R>(|results|, n).value, steps, s)
  }

  // ---------------------------------------------------------------- the kinds of callback

  predicate HasClaimed<R>(pc: Pc<R>) {
    !pc.Pending? && !pc.Claim?
  }

  predicate Accepted<R>(pc: Pc<R>) {
    HasClaimed(pc) && !pc.Skipped?
  }

  predicate Counted<R>(pc: Pc<R>) {
    pc.Collect? || pc.SetPromise? || pc.Done?
  }

  predicate Collecting<R>(pc: Pc<R>) {
    pc.Collect? || pc.SetPromise?
  }

  predicate Filled<R>(pc: Pc<R>) {
    pc.CountStored? || Counted(pc)
  }

  predicate Writing<R>(pc: Pc<R>) {
    pc.BeginStore? || pc.EndStore?
  }

  /** The filled slots among the first `j`, in index order. */
  function Gather<R>(slots: seq<Option<R>>, j: nat): seq<R>
    requires j <= |slots|
  {
    if j == 0 then [] else Gather(slots, j - 1) + (if slots[j - 1].Some? then [slots[j - 1].value] else [])
  }

  /** A collector finds its slots complete: nobody is still to write one of them. */
  ghost predicate CollectorOk<R>(s: State<R>, pc: Pc<R>) {
    match pc
    case Collect(j, acc) => j <= |s.slots| && acc == Gather(s.slots, j)
    case SetPromise(acc) => acc == Gather(s.slots, |s.slots|)
    case _ => true
  }

  ghost predicate Counts<R>(n: nat, s: State<R>) {
    && s.completed == CountIf(s.callbacks, HasClaimed)
    && CountIf(s.callbacks, Accepted) == (if s.completed <= n then s.completed else n)
    && s.stored == CountIf(s.callbacks, Counted)
    && CountIf(s.callbacks, Collecting) + |s.promised| == (if 0 < n && s.stored == n then 1 else 0)
  }

  ghost predicate SlotsOk<R>(results: seq<R>, s: State<R>) {
    && |s.slots| == |s.callbacks| == |results|
    && forall i :: 0 <= i < |s.slots| ==>
         s.slots[i] == if Filled(s.callbacks[i]) then Some(results[i]) else None
  }

  ghost predicate Inv<R>(results: seq<R>, n: nat, s: State<R>) {
    && SlotsOk(results, s)
    && Counts(n, s)
    && ResultsOk(s)
  }

  lemma InitInv<R>(results: seq<R>, n: nat)
    ensures Inv(results, n, Init(|results|))
  {
    var s := Init<R>(|results|);
    CountNone(s.callbacks, HasClaimed);
    CountNone(s.callbacks, Accepted);
    CountNone(s.callbacks, Counted);
    CountNone(s.callbacks, Collecting);
  }

  predicate Moved<R>(callbacks: seq<Pc<R>>, i: nat, pc: Pc<R>, p: Pc<R> -> bool)
    requires i < |callbacks|
  {
    CountIf(callbacks[i := pc], p) ==
    CountIf(callbacks, p) - (if p(callbacks[i]) then 1 else 0) + (if p(pc) then 1 else 0)
  }

  lemma CountsMove<R>(s: State<R>, i: nat, pc: Pc<R>)
    requires i < |s.callbacks|
    ensures Moved(s.callbacks, i, pc, HasClaimed) && Moved(s.callbacks, i, pc, Accepted)
    ensures Moved(s.callbacks, i, pc, Counted) && Moved(s.callbacks, i, pc, Collecting)
  {
    CountUpdate(s.callbacks, HasClaimed, i, pc);
    CountUpdate(s.callbacks, Accepted, i, pc);
    CountUpdate(s.callbacks, Counted, i, pc);
    CountUpdate(s.callbacks, Collecting, i, pc);
  }

  /** Once somebody collects, every accepted callback has been counted. */
  lemma AllCounted<R>(n: nat, s: State<R>)
    requires Counts(n, s) && (CountIf(s.callbacks, Collecting) > 0 || |s.promised| > 0)
    ensures s.stored == n && 0 < n
    ensures forall i :: 0 <= i < |s.callbacks| && Accepted(s.callbacks[i]) ==> Counted(s.callbacks[i])
  {
    CountWithin(s.callbacks, Counted, Accepted);
  }

  lemma LastCounted<R>(results: seq<R>, n: nat, s: State<R>, i: nat)
    requires SlotsOk(results, s) && Counts(n, s) && Enabled(s, Run(i)) && s.callbacks[i].CountStored?
    ensures Counts(n, Apply(results, n, s, Run(i)))
  {
    var s' := Apply(results, n, s, Run(i));
    CountsMove(s, i, s'.callbacks[i]);
    CountWithin(s.callbacks, Counted, Accepted);
    CountWithin(s'.callbacks, Counted, Accepted);
  }

  lemma ClaimCounted<R>(results: seq<R>, n: nat, s: State<R>, i: nat)
    requires SlotsOk(results, s) && Counts(n, s) && Enabled(s, Run(i)) && s.callbacks[i].Claim?
    ensures Counts(n, Apply(results, n, s, Run(i)))
  {
    CountsMove(s, i, Apply(results, n, s, Run(i)).callbacks[i]);
    CountWithin(s.callbacks, Counted, Accepted);
  }

  lemma StepKeepsCounts<R>(results: seq<R>, n: nat, s: State<R>, step: Step)
    requires SlotsOk(results, s) && Counts(n, s) && Enabled(s, step)
    ensures Counts(n, Apply(results, n, s, step))
  {
    if step.Run? && s.callbacks[step.i].CountStored? {
      LastCounted(results, n, s, step.i);
    } else if step.Run? && s.callbacks[step.i].Claim? {
      ClaimCounted(results, n, s, step.i);
    } else {
      CountsMove(s, step.i, Apply(results, n, s, step).callbacks[step.i]);
    }
  }

  lemma StepKeepsSlots<R>(results: seq<R>, n: nat, s: State<R>, step: Step)
    requires SlotsOk(results, s) && Enabled(s, step)
    ensures SlotsOk(results, Apply(results, n, s, step))
  {
  }

  /** While a slot is being filled nobody collects yet. */
  lemma NobodyCollects<R>(results: seq<R>, n: nat, s: State<R>, i: nat)
    requires Inv(results, n, s) && i < |s.callbacks| && s.callbacks[i].EndStore?
    ensures |s.promised| == 0 && forall k :: 0 <= k < |s.callbacks| ==> !Collecting(s.callbacks[k])
  {
    if CountIf(s.callbacks, Collecting) > 0 || |s.promised| > 0 {
      AllCounted(n, s);
    }
    CountNone(s.callbacks, Collecting);
  }

  ghost predicate ResultsOk<R>(s: State<R>) {
    && (forall i :: 0 <= i < |s.callbacks| ==> CollectorOk(s, s.callbacks[i]))
    && (forall k :: 0 <= k < |s.promised| ==> s.promised[k] == Gather(s.slots, |s.slots|))
  }

  lemma StepKeepsResults<R>(results: seq<R>, n: nat, s: State<R>, step: Step)
    requires Enabled(s, step) && |results| == |s.slots| && ResultsOk(s)
    requires s.callbacks[step.i].EndStore? ==>
               |s.promised| == 0 && forall k :: 0 <= k < |s.callbacks| ==> !Collecting(s.callbacks[k])
    ensures ResultsOk(Apply(results, n, s, step))
  {
    var s' := Apply(results, n, s, step);
    assert CollectorOk(s, s.callbacks[step.i]);
    forall i | 0 <= i < |s'.callbacks|
      ensures CollectorOk(s', s'.callbacks[i])
    {
      assert CollectorOk(s, s.callbacks[i]);
    }
  }

  lemma StepKeepsInv<R>(results: seq<R>, n: nat, s: State<R>, step: Step)
    requires Inv(results, n, s) && Enabled(s, step)
    ensures Inv(results, n, Apply(results, n, s, step))
  {
    StepKeepsSlots(results, n, s, step);
    StepKeepsCounts(results, n, s, step);
    if s.callbacks[step.i].EndStore? {
      NobodyCollects(results, n, s, step.i);
    }
    StepKeepsResults(results, n, s, step);
  }

  lemma {:induction false} RunsKeepInv<R(!new)>(results: seq<R>, n: nat, s: State<R>, steps: seq<Step>, s': State<R>)
    requires Inv(results, n, s) && Runs(results, n, s, steps, s')
    ensures Inv(results, n, s')
    decreases |steps|
  {
    if steps != [] {
      StepKeepsInv(results, n, s, steps[0]);
      RunsKeepInv(results, n, Apply(results, n, s, steps[0]), steps[1..], s');
    }
  }

  // ---------------------------------------------------------------- what the promise receives

  /** `xs` are the results of the futures `indices`, in increasing order. */
  ghost predicate FromFutures<R>(xs: seq<R>, results: seq<R>, indices: seq<nat>) {
    && |xs| == |indices|
    && (forall k :: 0 <= k < |indices| ==> indices[k] < |results| && xs[k] == results[indices[k]])
    && (forall k, m :: 0 <= k < m < |indices| ==> indices[k] < indices[m])
  }

  lemma OneMoreFuture<R>(xs: seq<R>, results: seq<R>, indices: seq<nat>, j: nat)
    requires FromFutures(xs, results, indices) && j < |results| && forall k :: 0 <= k < |indices| ==> indices[k] < j
    ensures FromFutures(xs + [results[j]], results, indices + [j])
    ensures forall i :: i in indices + [j] <==> i in indices || i == j
  {
  }

  lemma {:induction false} GatherIndices<R>(results: seq<R>, s: State<R>, j: nat) returns (indices: seq<nat>)
    requires SlotsOk(results, s) && j <= |s.slots|
    ensures FromFutures(Gather(s.slots, j), results, indices)
    ensures forall k :: 0 <= k < |indices| ==> indices[k] < j && Filled(s.callbacks[indices[k]])
    ensures forall i: nat :: i < j && Filled(s.callbacks[i]) ==> i in indices
    ensures |indices| == CountIf(s.callbacks[..j], Filled)
  {
    indices := [];
    if j != 0 {
      indices := GatherIndices(results, s, j - 1);
      assert s.callbacks[..j][..j - 1] == s.callbacks[..j - 1];
      if s.slots[j - 1].Some? {
        OneMoreFuture(Gather(s.slots, j - 1), results, indices, j - 1);
        indices := indices + [j - 1];
      }
    }
  }

  /** `xs` are the results of the futures in `chosen`, in increasing order. */
  ghost predicate ResultsOf<R>(xs: seq<R>, results: seq<R>, chosen: seq<nat>) {
    exists indices :: FromFutures(xs, results, indices) && forall i: nat :: i in indices <==> i in chosen
  }

  /** The callbacks in the order in which they incremented `completed`. */
  function Claims<R>(results: seq<R>, n: nat, s: State<R>, steps: seq<Step>): seq<nat>
    decreases |steps|
  {
    if steps == [] || !Enabled(s, steps[0]) || |results| != |s.slots| then []
    else
      (if steps[0].Run? && s.callbacks[steps[0].i].Claim? then [steps[0].i] else []) +
      Claims(results, n, Apply(results, n, s, steps[0]), steps[1..])
  }

  function First(claims: seq<nat>, n: nat): seq<nat> {
    if |claims| <= n then claims else claims[..n]
  }

  /** Exactly the first `n` callbacks to claim have been accepted. */
  ghost predicate ClaimsOk<R>(n: nat, s: State<R>, claims: seq<nat>) {
    && |claims| == s.completed
    && forall i: nat :: i < |s.callbacks| ==> (Accepted(s.callbacks[i]) <==> i in First(claims, n))
  }

  lemma StepKeepsClaims<R>(results: seq<R>, n: nat, s: State<R>, step: Step, claims: seq<nat>)
    requires Enabled(s, step) && |results| == |s.slots| && ClaimsOk(n, s, claims)
    ensures ClaimsOk(n, Apply(results, n, s, step),
                     claims + if step.Run? && s.callbacks[step.i].Claim? then [step.i] else [])
  {
    if step.Run? && s.callbacks[step.i].Claim? {
      assert First(claims + [step.i], n) == if |claims| < n then claims + [step.i] else First(claims, n);
    } else {
      assert claims + [] == claims;
    }
  }

  lemma {:induction false} RunsKeepClaims<R(!new)>(
    results: seq<R>, n: nat, s: State<R>, steps: seq<Step>, s': State<R>, claims: seq<nat>)
    requires ClaimsOk(n, s, claims) && Runs(results, n, s, steps, s')
    ensures ClaimsOk(n, s', claims + Claims(results, n, s, steps))
    decreases |steps|
  {
    if steps == [] {
      assert claims + [] == claims;
    } else {
      var now := if steps[0].Run? && s.callbacks[steps[0].i].Claim? then [steps[0].i] else [];
      StepKeepsClaims(results, n, s, steps[0], claims);
      RunsKeepClaims(results, n, Apply(results, n, s, steps[0]), steps[1..], s', claims + now);
      var later := Claims(results, n, Apply(results, n, s, steps[0]), steps[1..]);
      assert claims + now + later == claims + (now + later);
    }
  }

  /** The promise is set at most once, to the results of the first `n` callbacks to claim, in index order. */
  lemma PromiseIsRight<R(!new)>(results: seq<R>, n: nat, steps: seq<Step>, s: State<R>)
    requires Reached(results, n, steps, s)
    ensures |s.promised| <= 1
    ensures forall k :: 0 <= k < |s.promised| ==>
              |s.promised[k]| == n &&
              ResultsOf(s.promised[k], results, First(Claims(results, n, Init(|results|), steps), n))
  {
    InitInv(results, n);
    RunsKeepInv(results, n, Init(|results|), steps, s);
    if |s.promised| > 0 {
      var indices := PromisedIndices(results, n, s);
      var claims := Claims(results, n, Init(|results|), steps);
      RunsKeepClaims(results, n, Init(|results|), steps, s, []);
      assert [] + claims == claims;
      ClaimsInRange(results, n, Init(|results|), steps);
      assert SlotsOk(results, s);
      forall i: nat
        ensures i in indices <==> i in First(claims, n)
      {
        if i in First(claims, n) {
          assert i in claims;
        }
      }
    }
  }

  lemma {:induction false} ClaimsInRange<R>(results: seq<R>, n: nat, s: State<R>, steps: seq<Step>)
    ensures forall i :: i in Claims(results, n, s, steps) ==> i < |s.callbacks|
    decreases |steps|
  {
    if steps != [] && Enabled(s, steps[0]) && |results| == |s.slots| {
      ClaimsInRange(results, n, Apply(results, n, s, steps[0]), steps[1..]);
    }
  }

  lemma PromisedIndices<R>(results: seq<R>, n: nat, s: State<R>) returns (indices: seq<nat>)
    requires Inv(results, n, s) && |s.promised| > 0
    ensures |s.promised| == 1 && |s.promised[0]| == n && FromFutures(s.promised[0], results, indices)
    ensures forall i: nat :: i in indices <==> i < |s.callbacks| && Accepted(s.callbacks[i])
  {
    AllCounted(n, s);
    indices := GatherIndices(results, s, |s.slots|);
    assert s.callbacks[..|s.slots|] == s.callbacks;
    CountWithin(s.callbacks, Counted, Filled);
    CountWithin(s.callbacks, Filled, Accepted);
  }

  /** A slot is never read while it is being written. */
  lemma NoTornRead<R(!new)>(results: seq<R>, n: nat, steps: seq<Step>, s: State<R>, i: nat, j: nat)
    requires Reached(results, n, steps, s)
    requires i < |s.callbacks| && j < |s.callbacks| && s.callbacks[i].Collect? && s.callbacks[i].j == j
    ensures !Writing(s.callbacks[j])
  {
    InitInv(results, n);
    RunsKeepInv(results, n, Init(|results|), steps, s);
    CountNone(s.callbacks, Collecting);
    AllCounted(n, s);
  }

  /** No callback is in the middle of its work. */
  predicate Quiet<R>(s: State<R>) {
    forall i :: 0 <= i < |s.callbacks| ==> s.callbacks[i].Pending? || s.callbacks[i].Skipped? || s.callbacks[i].Done?
  }

  function InputsDone<R>(s: State<R>): nat {
    CountIf(s.callbacks, (pc: Pc<R>) => !pc.Pending?)
  }

  /** When at least `n` inputs have completed and their callbacks have run, the promise has been set,
      unless `n` is 0: then it never is. */
  lemma FulfilledIff<R(!new)>(results: seq<R>, n: nat, steps: seq<Step>, s: State<R>)
    requires Reached(results, n, steps, s) && Quiet(s) && n <= InputsDone(s)
    ensures |s.promised| == 1 <==> 0 < n
  {
    InitInv(results, n);
    RunsKeepInv(results, n, Init(|results|), steps, s);
    CountNone(s.callbacks, Collecting);
    var notPending := (pc: Pc<R>) => !pc.Pending?;
    CountWithin(s.callbacks, HasClaimed, notPending);
    CountWithin(s.callbacks, notPending, HasClaimed);
    CountWithin(s.callbacks, Accepted, Counted);
    CountWithin(s.callbacks, Counted, Accepted);
  }

  // ---------------------------------------------------------------- every run ends

  /** How many steps a callback can still take. */
  function StepsLeft<R>(size: nat, pc: Pc<R>): nat {
    match pc
    case Pending => size + 7
    case Claim => size + 6
    case BeginStore => size + 5
    case EndStore => size + 4
    case CountStored => size + 3
    case Collect(j, _) => if j <= size then size + 2 - j else 0
    case SetPromise(_) => 1
    case _ => 0
  }

  function LeftOf<R>(size: nat): Pc<R> -> nat {
    pc => StepsLeft(size, pc)
  }

  lemma CallbackMoves<R>(results: seq<R>, n: nat, s: State<R>, step: Step)
    requires Enabled(s, step) && |results| == |s.slots| && CollectorOk(s, s.callbacks[step.i])
    ensures var callbacks' := Apply(results, n, s, step).callbacks;
            && |callbacks'| == |s.callbacks|
            && callbacks' == s.callbacks[step.i := callbacks'[step.i]]
            && StepsLeft(|results|, callbacks'[step.i]) < StepsLeft(|results|, s.callbacks[step.i])
  {
  }

  lemma StepDecreases<R>(results: seq<R>, n: nat, s: State<R>, step: Step)
    requires SlotsOk(results, s) && ResultsOk(s) && Enabled(s, step)
    ensures Sum(Apply(results, n, s, step).callbacks, LeftOf(|results|)) < Sum(s.callbacks, LeftOf(|results|))
  {
    CallbackMoves(results, n, s, step);
    SumUpdate(s.callbacks, LeftOf(|results|), step.i, Apply(results, n, s, step).callbacks[step.i]);
  }

  lemma {:induction false} RunsAreBounded<R(!new)>(
    results: seq<R>, n: nat, s: State<R>, steps: seq<Step>, s': State<R>)
    requires Inv(results, n, s) && Runs(results, n, s, steps, s')
    ensures |steps| + Sum(s'.callbacks, LeftOf(|results|)) <= Sum(s.callbacks, LeftOf(|results|))
    decreases |steps|
  {
    if steps != [] {
      StepKeepsInv(results, n, s, steps[0]);
      StepDecreases(results, n, s, steps[0]);
      RunsAreBounded(results, n, Apply(results, n, s, steps[0]), steps[1..], s');
    }
  }

  /** No callback has a step to take. */
  ghost predicate Resting<R>(s: State<R>) {
    forall i: nat :: !Enabled(s, Run(i))
  }

  /** Every run ends, and when at its end at least `n` inputs have completed, the promise has been set,
      unless `n` is 0. */
  lemma FirstNTerminates<R(!new)>(results: seq<R>, n: nat, steps: seq<Step>, s: State<R>)
    requires Reached(results, n, steps, s)
    ensures |steps| <= |results| * (|results| + 7)
    ensures Resting(s) && n <= InputsDone(s) ==> (|s.promised| == 1 <==> 0 < n)
  {
    InitInv(results, n);
    RunsAreBounded(results, n, Init(|results|), steps, s);
    SumAtMost(Init<R>(|results|).callbacks, LeftOf(|results|), |results| + 7);
    if Resting(s) && n <= InputsDone(s) {
      RunsKeepInv(results, n, Init(|results|), steps, s);
      forall i | 0 <= i < |s.callbacks|
        ensures s.callbacks[i].Pending? || s.callbacks[i].Skipped? || s.callbacks[i].Done?
      {
        assert !Enabled(s, Run(i));
      }
      FulfilledIff(results, n, steps, s);
    }
  }

  // ---------------------------------------------------------------- what can happen does

  /** No step is left: all inputs have completed and all callbacks have run. */
  ghost predicate Over<R(!new)>(s: State<R>) {
    forall step :: !Enabled(s, step)
  }

  lemma OverIsDone<R(!new)>(results: seq<R>, s: State<R>)
    requires SlotsOk(results, s) && Over(s)
    ensures Resting(s) && InputsDone(s) == |results|
  {
    var notPending := (pc: Pc<R>) => !pc.Pending?;
    forall i | 0 <= i < |s.callbacks|
      ensures notPending(s.callbacks[i])
    {
      assert !Enabled(s, Complete(i));
    }
    CountWithin(s.callbacks, notPending, notPending);
    CountAll(s.callbacks, notPending);
  }

  lemma {:induction false} RunsToTheEnd<R(!new)>(results: seq<R>, n: nat, s: State<R>)
    returns (steps: seq<Step>, s': State<R>)
    requires Inv(results, n, s)
    ensures Runs(results, n, s, steps, s') && Over(s')
    decreases Sum(s.callbacks, LeftOf(|results|))
  {
    if Over(s) {
      steps, s' := [], s;
    } else {
      var step :| Enabled(s, step);
      StepKeepsInv(results, n, s, step);
      StepDecreases(results, n, s, step);
      var rest;
      rest, s' := RunsToTheEnd(results, n, Apply(results, n, s, step));
      steps := [step] + rest;
      assert steps[1..] == rest;
    }
  }

  lemma {:induction false} RunsCompose<R(!new)>(
    results: seq<R>, n: nat, s: State<R>, first: seq<Step>, t: State<R>, more: seq<Step>, u: State<R>)
    requires Runs(results, n, s, first, t) && Runs(results, n, t, more, u)
    ensures Runs(results, n, s, first + more, u)
    decreases |first|
  {
    if first == [] {
      assert first + more == more;
    } else {
      RunsCompose(results, n, Apply(results, n, s, first[0]), first[1..], t, more, u);
      assert (first + more)[1..] == first[1..] + more;
    }
  }

  /** However a run of `first_n` has begun, it can go on until the promise holds `n` results, if `n` is positive. */
  lemma CanFulfil<R(!new)>(results: seq<R>, n: nat, steps: seq<Step>, s: State<R>)
    returns (more: seq<Step>, s': State<R>)
    requires Reached(results, n, steps, s)
    ensures Reached(results, n, steps + more, s') && Over(s')
    ensures 0 < n ==> |s'.promised| == 1 && |s'.promised[0]| == n
    ensures n == 0 ==> s'.promised == []
  {
    InitInv(results, n);
    RunsKeepInv(results, n, Init(|results|), steps, s);
    more, s' := RunsToTheEnd(results, n, s);
    RunsCompose(results, n, Init(|results|), steps, s, more, s');
    RunsKeepInv(results, n, s, more, s');
    OverIsDone(results, s');
    FirstNTerminates(results, n, steps + more, s');
    PromiseIsRight(results, n, steps + more, s');
  }

  /** `first_n` starts its callbacks exactly if there are enough futures: with fewer there is no run, but the
      error, and with enough of them some run sets the promise to `n` results. */
  lemma StartsIffEnough<R(!new)>(results: seq<R>, n: nat)
    ensures Start<R>(|results|, n) == None <==> |results| < n
    ensures (exists steps, s :: Reached(results, n, steps, s)) <==> n <= |results|
    ensures 1 <= n <= |results| ==>
              exists steps, s :: Reached(results, n, steps, s) && |s.promised| == 1 && |s.promised[0]| == n
  {
    if n <= |results| {
      assert Start<R>(|results|, n) == Some(Init(|results|));
      assert Reached(results, n, [], Init(|results|));
      var more, s' := CanFulfil(results, n, [], Init(|results|));
      assert Reached(results, n, [] + more, s');
    }
  }
}
