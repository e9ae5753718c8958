/** The progress that the lock-free stack promises: a call that runs alone returns with its effect, a failed
    compare-and-swap means that another thread got ahead, and without new calls all calls return. */
module LockFreeStackProgress {
  import opened Options
  import opened Counting
  import opened LockFreeStack
  import opened LockFreeStackProof
  import opened LockFreeStackTheorems

  // ---------------------------------------------------------------- how far a call is from its return

  predicate Starting<T>(pc: Pc<T>) {
    pc.PushStart?
  }

  /** The nodes allocated, and those that the running pushes are still to allocate. */
  function Nodes<T>(s: State<T>): nat {
    s.nextId + CountIf(s.threads, Starting)
  }

  /** Of these, the nodes not deleted yet. */
  function Undeleted<T>(s: State<T>): nat {
    if |s.freed| <= Nodes(s) then Nodes(s) - |s.freed| else 0
  }

  /** How many steps a thread takes to its return if it runs alone, at most; `live` nodes are not deleted. */
  function Rank<T>(s: State<T>, live: nat, pc: Pc<T>): nat {
    match pc
    case Idle => 0
    case PushReturn => 1
    case PushCas(n) => if n in s.heap && s.stack == s.heap[n].next then 2 else 3
    case PushStart(_) => 3
    case PopReturn(_) => 1
    case DeleteOwn(_) => 2
    case RetireCas(own) => if own.node in s.heap && s.free == s.heap[own.node].next then 2 else 3
    case RetireLoad(_) => 3
    case PopLeave(_) => 4
    case EraseDelete(_, _, _) => 5 + 2 * live
    case EraseRead(_, _) => 6 + 2 * live
    case FreeCas(_, _) => 7 + 2 * live
    case FreeCount(_, _) => 8 + 2 * live
    case FreeLoad(_) => 9 + 2 * live
    case PopTake(_) => 10 + 2 * live
    case PopCas(c, _) => if s.stack == Some(c) then 11 + 2 * live else 13 + 2 * live
    case PopRead(c) => if s.stack == Some(c) then 12 + 2 * live else 14 + 2 * live
    case PopLoad => 13 + 2 * live
    case PopStart => 14 + 2 * live
  }

  function RankIn<T>(s: State<T>): Pc<T> -> nat {
    pc => Rank(s, Undeleted(s), pc)
  }

  predicate Deletes<T>(pc: Pc<T>) {
    pc.EraseDelete? || pc.DeleteOwn?
  }

  /** A compare-and-swap that does not fail spuriously. */
  function Prompt<T>(t: nat): Step<T> {
    Run(t, false)
  }

  lemma {:induction false} FewDeletions(freed: multiset<NodeId>, n: nat)
    requires forall x :: freed[x] <= 1
    requires forall x :: x in freed ==> x < n
    ensures |freed| <= n
    decreases n
  {
    if n == 0 {
      assert freed == multiset{};
    } else {
      var fewer := freed[n - 1 := 0];
      assert forall x :: x in fewer ==> x in freed && x != n - 1;
      FewDeletions(fewer, n - 1);
    }
  }

  lemma DeletionsBounded<T>(s: State<T>, v: View)
    requires Inv(s, v)
    ensures Bounded(s)
  {
    assert FreedOnce(s.freed, v.owner) && Allocated(s.heap, s.nextId, v.owner);
    FewDeletions(s.freed, s.nextId);
  }

  lemma TopRankFalls<T>(s: State<T>, live: nat, t: nat)
    requires Enabled(s, Prompt(t)) && OnTop(s.threads[t])
    ensures var s' := Advance(s, t, false);
            |s'.threads| == |s.threads| && Rank(s', live, s'.threads[t]) < Rank(s, live, s.threads[t])
  {
  }

  lemma ReclaimRankFalls<T>(s: State<T>, live: nat, live': nat, t: nat)
    requires Enabled(s, Prompt(t)) && !OnTop(s.threads[t])
    requires live == live' + if Deletes(s.threads[t]) then 1 else 0
    ensures var s' := Advance(s, t, false);
            |s'.threads| == |s.threads| && Rank(s', live', s'.threads[t]) < Rank(s, live, s.threads[t])
  {
  }

  /** A step keeps the number of nodes, and only a deletion changes the number of those deleted. */
  lemma NodesKept<T>(s: State<T>, t: nat, spurious: bool)
    requires Enabled(s, Run(t, spurious))
    ensures var s' := Advance(s, t, spurious);
            && |s'.threads| == |s.threads| && Nodes(s') == Nodes(s)
            && |s'.freed| == |s.freed| + if Deletes(s.threads[t]) then 1 else 0
  {
    var s' := Advance(s, t, spurious);
    ThreadsMove(s, t, spurious);
    CountUpdate(s.threads, Starting, t, s'.threads[t]);
  }

  lemma ThreadsMove<T>(s: State<T>, t: nat, spurious: bool)
    requires Enabled(s, Run(t, spurious))
    ensures var s' := Advance(s, t, spurious);
            && |s'.threads| == |s.threads| && s'.threads == s.threads[t := s'.threads[t]]
            && s'.nextId == s.nextId + (if Starting(s.threads[t]) then 1 else 0)
            && !Starting(s'.threads[t])
            && |s'.freed| == |s.freed| + if Deletes(s.threads[t]) then 1 else 0
  {
  }

  predicate Bounded<T>(s: State<T>) {
    |s.freed| <= s.nextId
  }

  lemma UndeletedFalls<T>(s: State<T>, t: nat, spurious: bool)
    requires Enabled(s, Run(t, spurious)) && Bounded(s) && Bounded(Advance(s, t, spurious))
    ensures Undeleted(s) == Undeleted(Advance(s, t, spurious)) + if Deletes(s.threads[t]) then 1 else 0
  {
    NodesKept(s, t, spurious);
  }

  lemma RankFalls<T>(s: State<T>, t: nat)
    requires Enabled(s, Prompt(t)) && Bounded(s) && Bounded(Advance(s, t, false))
    ensures var s' := Advance(s, t, false);
            |s'.threads| == |s.threads| &&
            Rank(s', Undeleted(s'), s'.threads[t]) < Rank(s, Undeleted(s), s.threads[t])
  {
    UndeletedFalls(s, t, false);
    if OnTop(s.threads[t]) {
      TopRankFalls(s, Undeleted(s), t);
    } else {
      ReclaimRankFalls(s, Undeleted(s), Undeleted(Advance(s, t, false)), t);
    }
  }

  /** A thread in a call can always take a step. */
  lemma CanStep<T>(s: State<T>, v: View, t: nat, spurious: bool)
    requires Inv(s, v) && t < |s.threads| && s.threads[t] != Idle
    ensures Enabled(s, Run(t, spurious))
  {
    InvShaped(s, v);
  }

  // ---------------------------------------------------------------- a call that runs alone

  /** The values on the stack, the top first. */
  ghost predicate Holds<T(!new)>(s: State<T>, values: seq<T>) {
    exists nodes :: Linked(s.heap, s.stack, nodes) && |values| == |nodes| &&
      forall i :: 0 <= i < |nodes| ==> values[i] == s.heap[nodes[i]].value
  }

  /** There is no other sequence of values on the stack. */
  lemma HoldsOne<T(!new)>(s: State<T>, a: seq<T>, b: seq<T>)
    requires Holds(s, a) && Holds(s, b)
    ensures a == b
  {
    var xs :| Linked(s.heap, s.stack, xs) && |a| == |xs| &&
      forall i :: 0 <= i < |xs| ==> a[i] == s.heap[xs[i]].value;
    var ys :| Linked(s.heap, s.stack, ys) && |b| == |ys| &&
      forall i :: 0 <= i < |ys| ==> b[i] == s.heap[ys[i]].value;
    LinkedOne(s.heap, s.stack, xs, ys);
  }

  lemma {:induction false} LinkedOne<T>(
    heap: map<NodeId, Node<T>>, head: Option<NodeId>, xs: seq<NodeId>, ys: seq<NodeId>)
    requires Linked(heap, head, xs) && Linked(heap, head, ys)
    ensures xs == ys
    decreases |xs|
  {
    if xs != [] {
      LinkedTail(heap, head, xs);
      LinkedTail(heap, head, ys);
      LinkedOne(heap, At(xs, 1), xs[1..], ys[1..]);
      assert xs == [xs[0]] + xs[1..] && ys == [ys[0]] + ys[1..];
    }
  }

  lemma AbsHolds<T(!new)>(s: State<T>, v: View)
    requires Inv(s, v) && Shaped(s, v)
    ensures Holds(s, Abs(s, v).stack)
  {
    assert Linked(s.heap, s.stack, v.stacked);
  }

  /** What a call that is not disturbed leaves on the stack, and what it returns. */
  datatype Outcome<T> = Outcome(stack: seq<T>, result: Option<T>)

  function Due<T>(stack: seq<T>, thread: AtomicThread<T>): Outcome<T> {
    match thread
    case Pushing(v) => Outcome([v] + stack, None)
    case Popping => if stack == [] then Outcome([], None) else Outcome(stack[1..], Some(stack[0]))
    case Popped(result) => Outcome(stack, result)
    case _ => Outcome(stack, None)
  }

  /** A step of `t` keeps what it is due. */
  lemma DueKept<T(!new)>(a: AtomicState<T>, e: Event<T>, a': AtomicState<T>, t: nat)
    requires t < |a.threads| == |a'.threads| && AtomicNext(a, e, a')
    requires e == Silent || e.ReturnPush? || e.ReturnPop?
    requires forall u :: 0 <= u < |a.threads| && u != t ==> a'.threads[u] == a.threads[u]
    ensures Due(a'.stack, a'.threads[t]).stack == Due(a.stack, a.threads[t]).stack
    ensures e == Silent ==> Due(a'.stack, a'.threads[t]) == Due(a.stack, a.threads[t])
    ensures e.ReturnPop? && e.t == t ==> e.result == Due(a.stack, a.threads[t]).result
  {
    if e == Silent && a' != a {
      var u :| 0 <= u < |a.threads| && Commits(a, u, a');
      assert a'.threads[u] != a.threads[u];
    }
  }

  ghost predicate Alone<T(!new)>(steps: seq<Step<T>>, t: nat) {
    forall i :: 0 <= i < |steps| ==> steps[i] == Prompt(t)
  }

  predicate InPush<T>(thread: AtomicThread<T>) {
    thread.Pushing? || thread.Pushed?
  }

  ghost function ReturnEvent<T>(thread: AtomicThread<T>, t: nat, result: Option<T>): Event<T> {
    if InPush(thread) then ReturnPush(t) else ReturnPop(t, result)
  }

  /** A step is the return of its call, or it does not leave the call. */
  lemma ReturnsAtEnd<T(!new)>(s: State<T>, t: nat)
    requires Enabled(s, Prompt(t)) && |Advance(s, t, false).threads| == |s.threads|
    ensures Advance(s, t, false).threads[t] == Idle <==> EventOf(s, Prompt(t)) != Silent
    ensures EventOf(s, Prompt(t)) == Silent || EventOf(s, Prompt(t)) == ReturnPush(t) ||
            (EventOf(s, Prompt(t)).ReturnPop? && EventOf(s, Prompt(t)).t == t)
  {
  }

  /** One step of a thread that runs alone, as the atomic stack sees it. */
  lemma DueStep<T(!new)>(s: State<T>, v: View, t: nat, v': View)
    requires Enabled(s, Prompt(t)) && Shaped(s, v) && Shaped(Advance(s, t, false), v')
    requires AtomicNext(Abs(s, v), EventOf(s, Prompt(t)), Abs(Advance(s, t, false), v'))
    ensures var s', e := Advance(s, t, false), EventOf(s, Prompt(t));
            var a, a' := Abs(s, v), Abs(s', v');
            && s'.threads == s.threads[t := s'.threads[t]] && |s'.threads| == |s.threads| == |a.threads| == |a'.threads|
            && Due(a'.stack, a'.threads[t]).stack == Due(a.stack, a.threads[t]).stack
            && (s'.threads[t] != Idle ==>
                  Due(a'.stack, a'.threads[t]) == Due(a.stack, a.threads[t]) &&
                  (InPush(a'.threads[t]) <==> InPush(a.threads[t])))
            && (s'.threads[t] == Idle ==> e == ReturnEvent(a.threads[t], t, Due(a.stack, a.threads[t]).result))
  {
    var s' := Advance(s, t, false);
    AdvanceFrame(s, t, false);
    ThreadsKept(s, v, s', t);
    ReturnsAtEnd(s, t);
    DueKept(Abs(s, v), EventOf(s, Prompt(t)), Abs(s', v'), t);
  }

  lemma RankStep<T>(s: State<T>, v: View, t: nat, v': View)
    requires Inv(s, v) && Enabled(s, Prompt(t)) && Inv(Advance(s, t, false), v')
    ensures var s' := Advance(s, t, false);
            |s'.threads| == |s.threads| &&
            Rank(s', Undeleted(s'), s'.threads[t]) < Rank(s, Undeleted(s), s.threads[t])
  {
    DeletionsBounded(s, v);
    DeletionsBounded(Advance(s, t, false), v');
    RankFalls(s, t);
  }

  lemma {:induction false} AloneReturns<T(!new)>(s: State<T>, v: View, t: nat)
    returns (steps: seq<Step<T>>, s': State<T>)
    requires Inv(s, v) && t < |s.threads| && s.threads[t] != Idle
    ensures Runs(s, steps, s') && Alone(steps, t) && 0 < |steps| <= Rank(s, Undeleted(s), s.threads[t])
    ensures t < |s'.threads| && s'.threads[t] == Idle
    decreases Rank(s, Undeleted(s), s.threads[t])
  {
    CanStep(s, v, t, false);
    var u := Advance(s, t, false);
    var w := AdvanceKeepsInv(s, v, t, false);
    RankStep(s, v, t, w);
    steps, s' := [], u;
    assert Runs(u, [], u);
    if u.threads[t] != Idle {
      steps, s' := AloneReturns(u, w, t);
    }
    steps := OneMoreStep(s, t, u, steps, s');
  }

  lemma OneMoreStep<T(!new)>(s: State<T>, t: nat, u: State<T>, rest: seq<Step<T>>, s': State<T>)
    returns (steps: seq<Step<T>>)
    requires Enabled(s, Prompt(t)) && u == Advance(s, t, false) && Runs(u, rest, s') && Alone(rest, t)
    ensures Runs(s, steps, s') && Alone(steps, t) && |steps| == |rest| + 1
  {
    steps := [Prompt(t)] + rest;
    assert steps[1..] == rest;
  }

  /** The effect and the return of a call that runs alone to its end. */
  ghost predicate Fulfils<T(!new)>(
    a: AtomicState<T>, t: nat, s: State<T>, steps: seq<Step<T>>, s': State<T>, a': AtomicState<T>)
    requires t < |a.threads|
  {
    && Runs(s, steps, s') && |Events(s, steps, s')| == |steps| > 0
    && a'.stack == Due(a.stack, a.threads[t]).stack
    && Events(s, steps, s')[|steps| - 1] == ReturnEvent(a.threads[t], t, Due(a.stack, a.threads[t]).result)
  }

  lemma {:induction false} AloneFulfils<T(!new)>(s: State<T>, v: View, steps: seq<Step<T>>, s': State<T>, t: nat)
    returns (v': View)
    requires Inv(s, v) && Shaped(s, v) && Runs(s, steps, s') && Alone(steps, t) && steps != []
    requires t < |s.threads| && t < |s'.threads| && s'.threads[t] == Idle
    ensures Inv(s', v') && Shaped(s', v') && s'.threads == s.threads[t := Idle]
    ensures Fulfils(Abs(s, v), t, s, steps, s', Abs(s', v'))
    decreases |steps|
  {
    var u, rest := Advance(s, t, false), steps[1..];
    assert steps[0] == Prompt(t);
    var w := StepRefines(s, v, Prompt(t));
    DueStep(s, v, t, w);
    if rest == [] {
      v' := w;
      FulfilledAtOnce(Abs(s, v), t, s, steps, s', Abs(s', v'));
    } else {
      v' := AloneFulfils(u, w, rest, s', t);
      FulfilledLater(Abs(s, v), t, s, steps, u, s', Abs(u, w), Abs(s', v'));
    }
  }

  lemma FulfilledAtOnce<T(!new)>(
    a: AtomicState<T>, t: nat, s: State<T>, steps: seq<Step<T>>, s': State<T>, a': AtomicState<T>)
    requires t < |a.threads| && steps == [Prompt(t)] && Runs(s, steps, s') && Enabled(s, Prompt(t))
    requires EventOf(s, Prompt(t)) == ReturnEvent(a.threads[t], t, Due(a.stack, a.threads[t]).result)
    requires a'.stack == Due(a.stack, a.threads[t]).stack
    ensures Fulfils(a, t, s, steps, s', a')
  {
    assert steps[1..] == [];
  }

  lemma FulfilledLater<T(!new)>(
    a: AtomicState<T>, t: nat, s: State<T>, steps: seq<Step<T>>, u: State<T>, s': State<T>, b: AtomicState<T>,
    a': AtomicState<T>)
    requires t < |a.threads| && t < |b.threads| && steps != [] && steps[0] == Prompt(t)
    requires Enabled(s, Prompt(t)) && u == Advance(s, t, false)
    requires Fulfils(b, t, u, steps[1..], s', a')
    requires Due(b.stack, b.threads[t]) == Due(a.stack, a.threads[t])
    requires InPush(b.threads[t]) <==> InPush(a.threads[t])
    ensures Fulfils(a, t, s, steps, s', a')
  {
  }

  /** From every reachable state, a thread inside a call that runs alone returns within a bound given by the nodes
      not deleted, and the other threads stay where they are. A push leaves its value on top of those that are on
      the stack; a pop that has taken none yet takes the top one, or finds the stack empty, and returns that. */
  lemma AloneReturnsInTime<T(!new)>(threads: nat, before: seq<Step<T>>, s: State<T>, t: nat)
    returns (steps: seq<Step<T>>, s': State<T>, values: seq<T>)
    requires Runs(Init(threads), before, s) && t < |s.threads| && s.threads[t] != Idle
    ensures Runs(s, steps, s') && Alone(steps, t) && 0 < |steps| <= 14 + 2 * Undeleted(s)
    ensures s'.threads == s.threads[t := Idle]
    ensures var thread := AbsThread(s.heap, s.threads[t]);
            var due := Due(values, thread);
            && Holds(s, values) && Holds(s', due.stack) && |Events(s, steps, s')| == |steps|
            && Events(s, steps, s')[|steps| - 1] == ReturnEvent(thread, t, due.result)
  {
    var v := ReachedInv(threads, before, s);
    steps, s' := AloneReturns(s, v, t);
    RankBounded(s, Undeleted(s), s.threads[t]);
    values := AloneEffect(s, v, steps, s', t);
  }

  lemma ReachedInv<T(!new)>(threads: nat, steps: seq<Step<T>>, s: State<T>) returns (v: View)
    requires Runs(Init(threads), steps, s)
    ensures Inv(s, v) && Shaped(s, v)
  {
    InitInv<T>(threads);
    v := RunRefines(Init(threads), InitialView(threads), steps, s);
    InvShaped(s, v);
  }

  lemma AloneEffect<T(!new)>(s: State<T>, v: View, steps: seq<Step<T>>, s': State<T>, t: nat)
    returns (values: seq<T>)
    requires Inv(s, v) && Shaped(s, v) && Runs(s, steps, s') && Alone(steps, t) && steps != []
    requires t < |s.threads| && t < |s'.threads| && s'.threads[t] == Idle
    ensures s'.threads == s.threads[t := Idle]
    ensures var thread := AbsThread(s.heap, s.threads[t]);
            var due := Due(values, thread);
            && Holds(s, values) && Holds(s', due.stack) && |Events(s, steps, s')| == |steps|
            && Events(s, steps, s')[|steps| - 1] == ReturnEvent(thread, t, due.result)
  {
    var v' := AloneFulfils(s, v, steps, s', t);
    AbsHolds(s, v);
    AbsHolds(s', v');
    values := Abs(s, v).stack;
  }

  // ---------------------------------------------------------------- a pop among idle threads cleans up

  /** The thread is the only one inside `pop`, and it finds or has taken the whole free list. */
  predicate CleansUp<T>(s: State<T>, t: nat)
    requires t < |s.threads|
  {
    match s.threads[t]
    case PopStart => s.popped == 0
    case PopLoad => s.popped == 1
    case PopRead(_) => s.popped == 1
    case PopCas(_, _) => s.popped == 1
    case PopTake(_) => s.popped == 1
    case FreeLoad(_) => s.popped == 1
    case FreeCount(_, head) => s.popped == 1 && s.free == Some(head)
    case FreeCas(_, head) => s.popped == 1 && s.free == Some(head)
    case EraseRead(_, _) => s.popped == 1 && s.free == None
    case EraseDelete(_, _, _) => s.popped == 1 && s.free == None
    case PopLeave(_) => s.popped == 1 && s.free == None
    case DeleteOwn(_) => s.free == None
    case PopReturn(_) => s.free == None
    case Idle => s.free == None
    case _ => false
  }

  lemma CleaningStep<T>(s: State<T>, t: nat)
    requires Enabled(s, Prompt(t)) && CleansUp(s, t)
    ensures |Advance(s, t, false).threads| == |s.threads| && CleansUp(Advance(s, t, false), t)
  {
  }

  lemma {:induction false} CleaningRun<T(!new)>(s: State<T>, steps: seq<Step<T>>, s': State<T>, t: nat)
    requires Runs(s, steps, s') && Alone(steps, t) && t < |s.threads| && CleansUp(s, t)
    ensures |s'.threads| == |s.threads| && CleansUp(s', t)
    decreases |steps|
  {
    if steps != [] {
      assert steps[0] == Prompt(t);
      CleaningStep(s, t);
      CleaningRun(Advance(s, t, false), steps[1..], s', t);
    }
  }

  lemma {:induction false} NobodyInPop<T>(threads: seq<Pc<T>>)
    requires forall i :: 0 <= i < |threads| ==> !InPop(threads[i])
    ensures Poppers(threads) == 0
  {
    if threads != [] {
      NobodyInPop(threads[..|threads| - 1]);
    }
  }

  /** A pop that runs while all other threads are idle leaves no node waiting for its deletion: afterwards exactly
      the nodes on the stack are not deleted. */
  lemma LonePopCleansUp<T(!new)>(threads: nat, before: seq<Step<T>>, s: State<T>, t: nat, steps: seq<Step<T>>,
                                 s': State<T>) returns (nodes: seq<NodeId>)
    requires Runs(Init(threads), before, s) && t < |s.threads| && s.threads[t] == PopStart
    requires forall u :: 0 <= u < |s.threads| && u != t ==> s.threads[u] == Idle
    requires Runs(s, steps, s') && Alone(steps, t) && t < |s'.threads| && s'.threads[t] == Idle
    ensures Linked(s'.heap, s'.stack, nodes)
    ensures forall x :: x in s'.heap ==> s'.freed[x] == if x in nodes then 0 else 1
  {
    var v := ReachedInv(threads, before, s);
    NobodyInPop(s.threads);
    CleaningRun(s, steps, s', t);
    var v' := AloneFulfils(s, v, steps, s', t);
    OnlyStackLeft(s', v');
    nodes := v'.stacked;
  }

  lemma OnlyStackLeft<T>(s: State<T>, v: View)
    requires Inv(s, v) && s.free == None && forall t :: 0 <= t < |s.threads| ==> s.threads[t] == Idle
    ensures Linked(s.heap, s.stack, v.stacked)
    ensures forall x :: x in s.heap ==> s.freed[x] == if x in v.stacked then 0 else 1
  {
    forall x | x in s.heap
      ensures s.freed[x] == if x in v.stacked then 0 else 1
    {
      QuiescentOwners(s, v, x);
      StackedOrGone(s, v, x);
    }
  }

  lemma StackedOrGone<T>(s: State<T>, v: View, x: NodeId)
    requires HeapInv(s, v) && s.free == None && x in s.heap
    requires x in v.owner ==> v.owner[x] == Stacked || v.owner[x] == Retired || v.owner[x] == Gone
    ensures s.freed[x] == if x in v.stacked then 0 else 1
  {
    assert v.retired == [];
    assert x !in v.retired;
  }

  // ---------------------------------------------------------------- a failed compare-and-swap

  /** Some step of the run, not of thread `t`, changes the top of the stack, or of the free list if `free`. */
  ghost predicate OthersChange<T(!new)>(s: State<T>, steps: seq<Step<T>>, t: nat, free: bool)
    decreases |steps|
  {
    steps != [] && Enabled(s, steps[0]) &&
    var next := Apply(s, steps[0]);
    || (steps[0].t != t && if free then next.free != s.free else next.stack != s.stack)
    || OthersChange(next, steps[1..], t, free)
  }

  function OwnSteps<T>(steps: seq<Step<T>>, t: nat): nat {
    if steps == [] then 0 else (if steps[0].t == t then 1 else 0) + OwnSteps(steps[1..], t)
  }

  /** The node whose link a step rewrites. */
  function Writes<T>(pc: Pc<T>): Option<NodeId> {
    match pc
    case PushCas(n) => Some(n)
    case RetireLoad(own) => Some(own.node)
    case RetireCas(own) => Some(own.node)
    case _ => None
  }

  lemma LinksKept<T>(s: State<T>, t: nat, spurious: bool)
    requires Enabled(s, Run(t, spurious)) && s.nextId !in s.heap
    ensures var s' := Advance(s, t, spurious);
            forall x :: x in s.heap && Writes(s.threads[t]) != Some(x) ==>
              x in s'.heap && s'.heap[x].next == s.heap[x].next
  {
  }

  /** Two threads do not write to the same node. */
  lemma WritesApart<T>(s: State<T>, v: View, t: nat, u: nat)
    requires |v.doomed| == |s.threads| && LocalInv(s, v) && t < |s.threads| && u < |s.threads| && t != u
    requires Writes(s.threads[t]).Some?
    ensures Writes(s.threads[u]) != Writes(s.threads[t])
  {
    assert Local(s, v, t) && Local(s, v, u);
  }

  /** The link that `t` is about to compare with the head is not changed by others. */
  lemma OwnLinkKept<T>(s: State<T>, v: View, t: nat, u: nat, spurious: bool)
    requires Inv(s, v) && Enabled(s, Run(u, spurious)) && t < |s.threads| && t != u && Writes(s.threads[t]).Some?
    ensures var n, s' := Writes(s.threads[t]).value, Advance(s, u, spurious);
            n in s.heap && n in s'.heap && s'.heap[n].next == s.heap[n].next
  {
    InvShaped(s, v);
    WritesApart(s, v, t, u);
    LinksKept(s, u, spurious);
  }

  lemma StepKeepsInv<T>(s: State<T>, v: View, step: Step<T>) returns (v': View)
    requires Inv(s, v) && Enabled(s, step)
    ensures Inv(Apply(s, step), v') && |Apply(s, step).threads| == |s.threads|
    ensures forall u :: 0 <= u < |s.threads| && u != step.t ==> Apply(s, step).threads[u] == s.threads[u]
    ensures !step.Run? ==> Apply(s, step).(threads := s.threads) == s
  {
    if step.Run? {
      v' := AdvanceKeepsInv(s, v, step.t, step.spurious);
      ThreadsMove(s, step.t, step.spurious);
    } else {
      v' := v;
      InvokeKeepsInv(s, v, step);
    }
  }

  /** While others run, a thread about to compare its node's link with a head keeps that link; so if the head
      differs from the link in the end but not in the beginning, one of the others has changed it. */
  lemma {:induction false} OthersGotAhead<T(!new)>(
    s: State<T>, v: View, steps: seq<Step<T>>, s': State<T>, t: nat, n: NodeId, free: bool)
    requires Inv(s, v) && Runs(s, steps, s') && OwnSteps(steps, t) == 0
    requires t < |s.threads| && Writes(s.threads[t]) == Some(n) && n in s.heap
    requires (if free then s.free else s.stack) == s.heap[n].next
    ensures t < |s'.threads| && s'.threads[t] == s.threads[t] && n in s'.heap
    ensures (if free then s'.free else s'.stack) != s'.heap[n].next ==> OthersChange(s, steps, t, free)
    decreases |steps|
  {
    if steps != [] {
      var next := Apply(s, steps[0]);
      var w := StepKeepsInv(s, v, steps[0]);
      if steps[0].Run? {
        OwnLinkKept(s, v, t, steps[0].t, steps[0].spurious);
      }
      if (if free then next.free == s.free else next.stack == s.stack) {
        OthersGotAhead(next, w, steps[1..], s', t, n, free);
      } else {
        ThreadStays(next, w, steps[1..], s', t, n);
      }
    }
  }

  lemma {:induction false} ThreadStays<T(!new)>(
    s: State<T>, v: View, steps: seq<Step<T>>, s': State<T>, t: nat, n: NodeId)
    requires Inv(s, v) && Runs(s, steps, s') && OwnSteps(steps, t) == 0
    requires t < |s.threads| && Writes(s.threads[t]) == Some(n)
    ensures t < |s'.threads| && s'.threads[t] == s.threads[t] && n in s'.heap
    decreases |steps|
  {
    if steps == [] {
      InvShaped(s, v);
    } else {
      var w := StepKeepsInv(s, v, steps[0]);
      ThreadStays(Apply(s, steps[0]), w, steps[1..], s', t, n);
    }
  }

  /** A step of `t` that leaves it before a compare-and-swap has just read the head. */
  lemma HeadJustRead<T>(s: State<T>, t: nat, spurious: bool)
    requires Enabled(s, Run(t, spurious)) && |Advance(s, t, spurious).threads| == |s.threads|
    ensures JustRead(Advance(s, t, spurious), t)
  {
    if OnTop(s.threads[t]) {
      TopJustRead(s, t, spurious);
    } else if Writes(s.threads[t]).Some? {
      FreeJustRead(s, t, spurious);
    } else {
      NothingToCompare(s, t, spurious);
    }
  }

  predicate JustRead<T>(s: State<T>, t: nat)
    requires t < |s.threads|
  {
    match s.threads[t]
    case PushCas(n) => n in s.heap && s.stack == s.heap[n].next
    case RetireCas(own) => own.node in s.heap && s.free == s.heap[own.node].next
    case PopRead(c) => s.stack == Some(c)
    case _ => true
  }

  lemma TopJustRead<T>(s: State<T>, t: nat, spurious: bool)
    requires Enabled(s, Run(t, spurious)) && |Advance(s, t, spurious).threads| == |s.threads| && OnTop(s.threads[t])
    ensures JustRead(Advance(s, t, spurious), t)
  {
  }

  lemma FreeJustRead<T>(s: State<T>, t: nat, spurious: bool)
    requires Enabled(s, Run(t, spurious)) && |Advance(s, t, spurious).threads| == |s.threads|
    requires s.threads[t].RetireLoad? || s.threads[t].RetireCas?
    ensures JustRead(Advance(s, t, spurious), t)
  {
  }

  lemma NothingToCompare<T>(s: State<T>, t: nat, spurious: bool)
    requires Enabled(s, Run(t, spurious)) && |Advance(s, t, spurious).threads| == |s.threads|
    requires !OnTop(s.threads[t]) && Writes(s.threads[t]) == None
    ensures var pc := Advance(s, t, spurious).threads[t]; !pc.PushCas? && !pc.RetireCas? && !pc.PopRead?
  {
  }

  /** The thread finds itself where it was: its compare-and-swap has failed. */
  lemma CasFails<T>(s: State<T>, t: nat)
    requires Enabled(s, Prompt(t)) && |Advance(s, t, false).threads| == |s.threads|
    requires Advance(s, t, false).threads[t] == s.threads[t]
    ensures s.threads[t].PushCas? ==> s.stack != s.heap[s.threads[t].node].next
    ensures s.threads[t].RetireCas? ==> s.free != s.heap[s.threads[t].own.node].next
  {
  }

  /** Lock-freedom of `push_to`: if its compare-and-swap fails, and not spuriously, another thread has changed the
      head since the thread read it. */
  lemma FailedPushToIsOvertaken<T(!new)>(
    threads: nat, before: seq<Step<T>>, loading: State<T>, spurious: bool, steps: seq<Step<T>>, s: State<T>, t: nat)
    requires Runs(Init(threads), before, loading) && Enabled(loading, Run(t, spurious))
    requires |Advance(loading, t, spurious).threads| == |loading.threads|
    requires Advance(loading, t, spurious).threads[t].PushCas? || Advance(loading, t, spurious).threads[t].RetireCas?
    requires Runs(Advance(loading, t, spurious), steps, s) && OwnSteps(steps, t) == 0
    requires Enabled(s, Prompt(t)) && |Advance(s, t, false).threads| == |s.threads|
    requires Advance(s, t, false).threads[t] == s.threads[t]
    ensures OthersChange(Advance(loading, t, spurious), steps, t, Advance(loading, t, spurious).threads[t].RetireCas?)
  {
    var v := ReachedInv(threads, before, loading);
    var w := AdvanceKeepsInv(loading, v, t, spurious);
    HeadJustRead(loading, t, spurious);
    var loaded := Advance(loading, t, spurious);
    OthersGotAhead(loaded, w, steps, s, t, Writes(loaded.threads[t]).value, loaded.threads[t].RetireCas?);
    CasFails(s, t);
  }

  /** The same for `pop`, which reads the link of the top node before its compare-and-swap. */
  lemma FailedPopIsOvertaken<T(!new)>(
    loading: State<T>, spurious: bool, steps: seq<Step<T>>, s: State<T>, t: nat)
    requires Enabled(loading, Run(t, spurious)) && |Advance(loading, t, spurious).threads| == |loading.threads|
    requires Advance(loading, t, spurious).threads[t].PopRead?
    requires Runs(Advance(loading, t, spurious), steps, s) && OwnSteps(steps, t) == 1
    requires Enabled(s, Prompt(t)) && |Advance(s, t, false).threads| == |s.threads|
    requires !Advance(s, t, false).threads[t].PopTake?
    ensures OthersChange(Advance(loading, t, spurious), steps, t, false)
  {
    HeadJustRead(loading, t, spurious);
    var loaded := Advance(loading, t, spurious);
    TopReadAgain(loaded, steps, s, t, loaded.threads[t].current);
  }

  lemma {:induction false} TopReadAgain<T(!new)>(s: State<T>, steps: seq<Step<T>>, s': State<T>, t: nat, c: NodeId)
    requires Runs(s, steps, s') && t < |s.threads|
    requires if OwnSteps(steps, t) == 1 then s.threads[t] == PopRead(c)
             else OwnSteps(steps, t) == 0 && s.threads[t].PopCas? && s.threads[t].current == c
    ensures t < |s'.threads| && s'.threads[t].PopCas? && s'.threads[t].current == c
    ensures s.stack == Some(c) && s'.stack != Some(c) ==> OthersChange(s, steps, t, false)
    decreases |steps|
  {
    if steps != [] {
      var next := Apply(s, steps[0]);
      if steps[0].Run? {
        ThreadsMove(s, steps[0].t, steps[0].spurious);
      }
      TopReadAgain(next, steps[1..], s', t, c);
    }
  }

  // ---------------------------------------------------------------- all calls return

  /** How many changes of the two heads a thread can still make. */
  function Changes<T>(pc: Pc<T>): nat {
    match pc
    case PushStart(_) => 1
    case PushCas(_) => 1
    case PopStart => 3
    case PopLoad => 3
    case PopRead(_) => 3
    case PopCas(_, _) => 3
    case PopTake(_) => 2
    case FreeLoad(_) => 2
    case FreeCount(_, _) => 2
    case FreeCas(_, _) => 2
    case EraseRead(_, _) => 1
    case EraseDelete(_, _, _) => 1
    case PopLeave(_) => 1
    case RetireLoad(_) => 1
    case RetireCas(_) => 1
    case _ => 0
  }

  predicate HeadsKept<T>(s: State<T>, s': State<T>) {
    s'.stack == s.stack && s'.free == s.free
  }

  lemma ChangesFall<T>(s: State<T>, t: nat)
    requires Enabled(s, Prompt(t))
    ensures var s' := Advance(s, t, false);
            && |s'.threads| == |s.threads|
            && Changes(s'.threads[t]) <= Changes(s.threads[t])
            && (!HeadsKept(s, s') ==> Changes(s'.threads[t]) < Changes(s.threads[t]))
  {
    if OnTop(s.threads[t]) {
      TopChangesFall(s, t);
    } else if s.threads[t].FreeCas? || s.threads[t].RetireCas? {
      FreeListChangesFall(s, t);
    } else {
      NoChange(s, t);
    }
  }

  lemma TopChangesFall<T>(s: State<T>, t: nat)
    requires Enabled(s, Prompt(t)) && OnTop(s.threads[t])
    ensures var s' := Advance(s, t, false);
            && |s'.threads| == |s.threads|
            && Changes(s'.threads[t]) <= Changes(s.threads[t])
            && (!HeadsKept(s, s') ==> Changes(s'.threads[t]) < Changes(s.threads[t]))
  {
  }

  lemma FreeListChangesFall<T>(s: State<T>, t: nat)
    requires Enabled(s, Prompt(t)) && (s.threads[t].FreeCas? || s.threads[t].RetireCas?)
    ensures var s' := Advance(s, t, false);
            && |s'.threads| == |s.threads|
            && Changes(s'.threads[t]) <= Changes(s.threads[t])
            && (!HeadsKept(s, s') ==> Changes(s'.threads[t]) < Changes(s.threads[t]))
  {
  }

  lemma NoChange<T>(s: State<T>, t: nat)
    requires Enabled(s, Prompt(t)) && !OnTop(s.threads[t]) && !s.threads[t].FreeCas? && !s.threads[t].RetireCas?
    ensures var s' := Advance(s, t, false);
            |s'.threads| == |s.threads| && Changes(s'.threads[t]) <= Changes(s.threads[t]) && HeadsKept(s, s')
  {
  }

  /** As long as the heads stay, no step takes another thread farther from its return. */
  lemma OthersNotDelayed<T>(s: State<T>, v: View, t: nat, u: nat, live: nat)
    requires Inv(s, v) && Enabled(s, Prompt(t)) && u < |s.threads| && u != t && live <= Undeleted(s)
    requires HeadsKept(s, Advance(s, t, false))
    ensures Rank(Advance(s, t, false), live, s.threads[u]) <= Rank(s, Undeleted(s), s.threads[u])
  {
    if Writes(s.threads[u]).Some? {
      OwnLinkKept(s, v, u, t, false);
    }
    NotDelayed(s, Advance(s, t, false), s.threads[u], live, Undeleted(s));
  }

  lemma NotDelayed<T>(s: State<T>, s': State<T>, pc: Pc<T>, live': nat, live: nat)
    requires HeadsKept(s, s') && live' <= live
    requires Writes(pc).Some? ==>
               Writes(pc).value in s.heap && Writes(pc).value in s'.heap &&
               s'.heap[Writes(pc).value].next == s.heap[Writes(pc).value].next
    ensures Rank(s', live', pc) <= Rank(s, live, pc)
  {
  }

  lemma RanksFall<T>(s: State<T>, v: View, t: nat, v': View)
    requires Inv(s, v) && Enabled(s, Prompt(t)) && Inv(Advance(s, t, false), v')
    requires HeadsKept(s, Advance(s, t, false))
    ensures var s' := Advance(s, t, false); Sum(s'.threads, RankIn(s')) < Sum(s.threads, RankIn(s))
  {
    var s' := Advance(s, t, false);
    RankStep(s, v, t, v');
    ThreadsMove(s, t, false);
    DeletionsBounded(s, v);
    DeletionsBounded(s', v');
    UndeletedFalls(s, t, false);
    forall u | 0 <= u < |s.threads|
      ensures RankIn(s')(s'.threads[u]) <= RankIn(s)(s.threads[u])
    {
      if u != t {
        OthersNotDelayed(s, v, t, u, Undeleted(s'));
      }
    }
    SumBelow(s'.threads, RankIn(s'), s.threads, RankIn(s), t);
  }

  /** A bound for the ranks of all threads together. */
  function MostRanks<T>(s: State<T>): nat {
    |s.threads| * (14 + 2 * Nodes(s))
  }

  lemma RanksBounded<T>(s: State<T>)
    ensures Sum(s.threads, RankIn(s)) <= MostRanks(s)
  {
    forall i | 0 <= i < |s.threads|
      ensures RankIn(s)(s.threads[i]) <= 14 + 2 * Nodes(s)
    {
      RankBounded(s, Undeleted(s), s.threads[i]);
    }
    SumAtMost(s.threads, RankIn(s), 14 + 2 * Nodes(s));
  }

  lemma RankBounded<T>(s: State<T>, live: nat, pc: Pc<T>)
    ensures Rank(s, live, pc) <= 14 + 2 * live
  {
  }

  function Left<T>(s: State<T>): nat {
    Sum(s.threads, Changes) * (MostRanks(s) + 1) + Sum(s.threads, RankIn(s))
  }

  lemma LeftFalls<T>(s: State<T>, v: View, t: nat, v': View)
    requires Inv(s, v) && Enabled(s, Prompt(t)) && Inv(Advance(s, t, false), v')
    ensures var s' := Advance(s, t, false);
            |s'.threads| == |s.threads| && Nodes(s') == Nodes(s) && Left(s') < Left(s)
  {
    var s' := Advance(s, t, false);
    NodesKept(s, t, false);
    ThreadsMove(s, t, false);
    ChangesFall(s, t);
    SumUpdate(s.threads, Changes, t, s'.threads[t]);
    RanksBounded(s');
    if HeadsKept(s, s') {
      RanksFall(s, v, t, v');
    }
    LessWithMinor(MostRanks(s) + 1, Sum(s.threads, Changes), Sum(s.threads, RankIn(s)),
                  Sum(s'.threads, Changes), Sum(s'.threads, RankIn(s')));
  }

  /** A run without new calls and without spurious failures. */
  ghost predicate NoNewCalls<T(!new)>(steps: seq<Step<T>>) {
    forall i :: 0 <= i < |steps| ==> steps[i] == Prompt(steps[i].t)
  }

  lemma {:induction false} RunsBounded<T(!new)>(s: State<T>, v: View, steps: seq<Step<T>>, s': State<T>)
    returns (v': View)
    requires Inv(s, v) && Runs(s, steps, s') && NoNewCalls(steps)
    ensures Inv(s', v') && |steps| + Left(s') <= Left(s)
    decreases |steps|
  {
    v' := v;
    if steps != [] {
      var t := steps[0].t;
      assert steps[0] == Prompt(t);
      var w := AdvanceKeepsInv(s, v, t, false);
      LeftFalls(s, v, t, w);
      v' := RunsBounded(Advance(s, t, false), w, steps[1..], s');
    }
  }

  lemma LeftBounded<T>(s: State<T>)
    ensures Left(s) <= 3 * |s.threads| * (MostRanks(s) + 1) + MostRanks(s)
  {
    RanksBounded(s);
    SumAtMost(s.threads, Changes, 3);
    TimesKeepsOrder(Sum(s.threads, Changes), 3 * |s.threads|, MostRanks(s) + 1);
  }

  /** Nobody can starve the others for ever: from every reachable state, every run without new calls and without
      spurious failures is bounded, and when it can go no further all calls have returned. */
  lemma AllCallsReturn<T(!new)>(
    threads: nat, before: seq<Step<T>>, s: State<T>, steps: seq<Step<T>>, s': State<T>)
    requires Runs(Init(threads), before, s) && Runs(s, steps, s') && NoNewCalls(steps)
    ensures |steps| <= 3 * |s.threads| * (MostRanks(s) + 1) + MostRanks(s)
    ensures (forall t :: !Enabled(s', Prompt(t))) ==> forall t :: 0 <= t < |s'.threads| ==> s'.threads[t] == Idle
  {
    var v := ReachedInv(threads, before, s);
    var v' := RunsBounded(s, v, steps, s');
    LeftBounded(s);
    forall t | 0 <= t < |s'.threads| && !Enabled(s', Prompt(t))
      ensures s'.threads[t] == Idle
    {
      if s'.threads[t] != Idle {
        CanStep(s', v', t, false);
      }
    }
  }
}
