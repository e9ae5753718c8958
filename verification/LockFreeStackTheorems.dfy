/** What the lock-free stack promises: it is linearizable, and it reclaims every node exactly once and
    never while a thread may still look at it. */
module LockFreeStackTheorems {
  import opened Options
  import opened LockFreeStack
  import opened LockFreeStackProof

  // ---------------------------------------------------------------- the atomic stack

  /** A thread of the atomic stack: a call takes effect once, between its invocation and its return. */
  datatype AtomicThread<T> =
    | AtomicIdle
    | Pushing(v: T)
    | Pushed
    | Popping
    | Popped(result: Option<T>)

  datatype AtomicState<T> = AtomicState(stack: seq<T>, threads: seq<AtomicThread<T>>)

  datatype Event<T> =
    | Silent
    | CallPush(t: nat, v: T)
    | ReturnPush(t: nat)
    | CallPop(t: nat)
    | ReturnPop(t: nat, result: Option<T>)

  /** The moment at which the call of `t` takes effect. */
  ghost predicate Commits<T(!new)>(a: AtomicState<T>, t: nat, a': AtomicState<T>)
    requires t < |a.threads|
  {
    match a.threads[t]
    case Pushing(v) => a' == AtomicState([v] + a.stack, a.threads[t := Pushed])
    case Popping =>
      if a.stack == [] then a' == AtomicState([], a.threads[t := Popped(None)])
      else a' == AtomicState(a.stack[1..], a.threads[t := Popped(Some(a.stack[0]))])
    case _ => false
  }

  ghost predicate Becomes<T(!new)>(
    a: AtomicState<T>, t: nat, before: AtomicThread<T>, after: AtomicThread<T>, a': AtomicState<T>)
  {
    t < |a.threads| && a.threads[t] == before && a' == a.(threads := a.threads[t := after])
  }

  ghost predicate AtomicNext<T(!new)>(a: AtomicState<T>, e: Event<T>, a': AtomicState<T>) {
    match e
    case Silent => a' == a || exists t :: 0 <= t < |a.threads| && Commits(a, t, a')
    case CallPush(t, v) => Becomes(a, t, AtomicIdle, Pushing(v), a')
    case ReturnPush(t) => Becomes(a, t, Pushed, AtomicIdle, a')
    case CallPop(t) => Becomes(a, t, AtomicIdle, Popping, a')
    case ReturnPop(t, result) => Becomes(a, t, Popped(result), AtomicIdle, a')
  }

  /** The atomic stack can produce exactly these events. */
  ghost predicate AtomicRun<T(!new)>(a: AtomicState<T>, events: seq<Event<T>>)
    decreases |events|
  {
    events == [] || exists a' :: AtomicNext(a, events[0], a') && AtomicRun(a', events[1..])
  }

  function AtomicInit<T>(threads: nat): AtomicState<T> {
    AtomicState([], seq(threads, _ => AtomicIdle))
  }

  // ---------------------------------------------------------------- runs of the code

  ghost predicate Runs<T(!new)>(s: State<T>, steps: seq<Step<T>>, s': State<T>)
    decreases |steps|
  {
    if steps == [] then s' == s
    else Enabled(s, steps[0]) && Runs(Apply(s, steps[0]), steps[1..], s')
  }

  /** What a caller of the stack observes of one step. */
  function EventOf<T>(s: State<T>, step: Step<T>): Event<T>
    requires Enabled(s, step)
  {
    match step
    case InvokePush(t, v) => CallPush(t, v)
    case InvokePop(t) => CallPop(t)
    case Run(t, _) =>
      match s.threads[t]
      case PushReturn => ReturnPush(t)
      case PopReturn(result) => ReturnPop(t, result)
      case _ => Silent
  }

  ghost function Events<T(!new)>(s: State<T>, steps: seq<Step<T>>, s': State<T>): seq<Event<T>>
    requires Runs(s, steps, s')
    decreases |steps|
  {
    if steps == [] then []
    else [EventOf(s, steps[0])] + Events(Apply(s, steps[0]), steps[1..], s')
  }

  // ---------------------------------------------------------------- the abstraction

  function ValuesOf<T>(heap: map<NodeId, Node<T>>, nodes: seq<NodeId>): seq<T>
    requires forall x :: x in nodes ==> x in heap
  {
    seq(|nodes|, i requires 0 <= i < |nodes| => heap[nodes[i]].value)
  }

  function AbsTaken<T>(taken: Option<Taken<T>>): AtomicThread<T> {
    Popped(if taken == None then None else Some(taken.value.value))
  }

  /** A push has taken effect once its CAS succeeded, a pop once its CAS succeeded or it saw no node. */
  function AbsThread<T>(heap: map<NodeId, Node<T>>, pc: Pc<T>): AtomicThread<T> {
    match pc
    case Idle => AtomicIdle
    case PushStart(v) => Pushing(v)
    case PushCas(n) => if n in heap then Pushing(heap[n].value) else AtomicIdle
    case PushReturn => Pushed
    case PopStart => Popping
    case PopLoad => Popping
    case PopRead(_) => Popping
    case PopCas(_, _) => Popping
    case PopTake(c) => if c in heap then Popped(Some(heap[c].value)) else AtomicIdle
    case FreeLoad(taken) => AbsTaken(taken)
    case FreeCount(taken, _) => AbsTaken(taken)
    case FreeCas(taken, _) => AbsTaken(taken)
    case EraseRead(taken, _) => AbsTaken(taken)
    case EraseDelete(taken, _, _) => AbsTaken(taken)
    case PopLeave(taken) => AbsTaken(taken)
    case DeleteOwn(own) => Popped(Some(own.value))
    case RetireLoad(own) => Popped(Some(own.value))
    case RetireCas(own) => Popped(Some(own.value))
    case PopReturn(result) => Popped(result)
  }

  function AbsThreads<T>(heap: map<NodeId, Node<T>>, threads: seq<Pc<T>>): seq<AtomicThread<T>> {
    seq(|threads|, i requires 0 <= i < |threads| => AbsThread(heap, threads[i]))
  }

  /** All that the abstraction needs to know about a state. */
  ghost predicate Shaped<T>(s: State<T>, v: View) {
    && (forall x :: x in v.stacked ==> x in s.heap)
    && s.stack == At(v.stacked, 0)
    && s.nextId !in s.heap
    && (forall t :: 0 <= t < |s.threads| ==> Touches(s.threads[t]) <= s.heap.Keys)
  }

  ghost function Abs<T>(s: State<T>, v: View): AtomicState<T>
    requires Shaped(s, v)
  {
    AtomicState(ValuesOf(s.heap, v.stacked), AbsThreads(s.heap, s.threads))
  }

  /** How the list moves in one step of `t`. */
  ghost predicate ListMoves<T>(s: State<T>, v: View, t: nat, s': State<T>, v': View)
    requires t < |s.threads| == |s'.threads|
  {
    match s.threads[t]
    case PushCas(n) => v'.stacked == if s'.threads[t] == PushReturn then [n] + v.stacked else v.stacked
    case PopCas(c, _) =>
      if s'.threads[t] == PopTake(c) then v.stacked != [] && v.stacked[0] == c && v'.stacked == v.stacked[1..]
      else v'.stacked == v.stacked
    case _ => v'.stacked == v.stacked
  }

  lemma ValuesKept<T>(heap: map<NodeId, Node<T>>, heap': map<NodeId, Node<T>>, nodes: seq<NodeId>)
    requires forall x :: x in nodes ==> x in heap
    requires forall x :: x in heap ==> x in heap' && heap'[x].value == heap[x].value
    ensures ValuesOf(heap', nodes) == ValuesOf(heap, nodes)
  {
    assert forall i :: 0 <= i < |nodes| ==> nodes[i] in nodes;
  }

  /** A step of `t` changes the caller's view of no other thread. */
  lemma ThreadsKept<T>(s: State<T>, v: View, s': State<T>, t: nat)
    requires Shaped(s, v) && t < |s.threads| == |s'.threads| && s'.threads == s.threads[t := s'.threads[t]]
    requires forall x :: x in s.heap ==> x in s'.heap && s'.heap[x].value == s.heap[x].value
    ensures AbsThreads(s'.heap, s'.threads) ==
            AbsThreads(s.heap, s.threads)[t := AbsThread(s'.heap, s'.threads[t])]
  {
    forall u | 0 <= u < |s.threads| && u != t
      ensures AbsThread(s'.heap, s'.threads[u]) == AbsThread(s.heap, s.threads[u])
    {
      assert Touches(s.threads[u]) <= s.heap.Keys;
    }
  }

  lemma AdvanceFrame<T>(s: State<T>, t: nat, spurious: bool)
    requires Enabled(s, Run(t, spurious)) && s.nextId !in s.heap
    ensures var s' := Advance(s, t, spurious);
            && |s'.threads| == |s.threads| && s'.threads == s.threads[t := s'.threads[t]]
            && forall x :: x in s.heap ==> x in s'.heap && s'.heap[x].value == s.heap[x].value
  {
  }

  /** The steps of `t` at which its call may take effect. */
  predicate AtCommit<T>(pc: Pc<T>) {
    pc.PushCas? || pc.PopLoad? || pc.PopCas?
  }

  lemma OtherStepStutters<T>(s: State<T>, t: nat, spurious: bool)
    requires Enabled(s, Run(t, spurious)) && s.nextId !in s.heap
    requires !AtCommit(s.threads[t]) && !s.threads[t].PushReturn? && !s.threads[t].PopReturn?
    ensures var s' := Advance(s, t, spurious);
            |s'.threads| == |s.threads| &&
            AbsThread(s'.heap, s'.threads[t]) == AbsThread(s.heap, s.threads[t])
  {
  }

  lemma ValuesOfMore<T>(heap: map<NodeId, Node<T>>, n: NodeId, nodes: seq<NodeId>)
    requires forall x :: x in [n] + nodes ==> x in heap
    requires n in heap && forall x :: x in nodes ==> x in heap
    ensures ValuesOf(heap, [n] + nodes) == [heap[n].value] + ValuesOf(heap, nodes)
  {
  }

  lemma ValuesOfRest<T>(heap: map<NodeId, Node<T>>, nodes: seq<NodeId>)
    requires nodes != [] && forall x :: x in nodes ==> x in heap
    ensures nodes[0] in heap && ValuesOf(heap, nodes)[0] == heap[nodes[0]].value
    ensures (forall x :: x in nodes[1..] ==> x in heap) && ValuesOf(heap, nodes[1..]) == ValuesOf(heap, nodes)[1..]
  {
    assert nodes[0] in nodes;
  }

  lemma PushRefines<T(!new)>(s: State<T>, v: View, t: nat, spurious: bool, v': View)
    requires Enabled(s, Run(t, spurious)) && Shaped(s, v) && s.threads[t].PushCas?
    requires var s' := Advance(s, t, spurious);
             Shaped(s', v') && |s'.threads| == |s.threads| && ListMoves(s, v, t, s', v')
    ensures AtomicNext(Abs(s, v), Silent, Abs(Advance(s, t, spurious), v'))
  {
    var s' := Advance(s, t, spurious);
    AdvanceFrame(s, t, spurious);
    ThreadsKept(s, v, s', t);
    ValuesKept(s.heap, s'.heap, v.stacked);
    if s'.threads[t] == PushReturn {
      ValuesOfMore(s'.heap, s.threads[t].node, v.stacked);
      assert Commits(Abs(s, v), t, Abs(s', v'));
    } else {
      assert Abs(s', v').threads == Abs(s, v).threads;
    }
  }

  lemma PopRefines<T(!new)>(s: State<T>, v: View, t: nat, spurious: bool, v': View)
    requires Enabled(s, Run(t, spurious)) && Shaped(s, v) && (s.threads[t].PopLoad? || s.threads[t].PopCas?)
    requires var s' := Advance(s, t, spurious);
             Shaped(s', v') && |s'.threads| == |s.threads| && ListMoves(s, v, t, s', v')
    ensures AtomicNext(Abs(s, v), Silent, Abs(Advance(s, t, spurious), v'))
  {
    var s' := Advance(s, t, spurious);
    AdvanceFrame(s, t, spurious);
    ThreadsKept(s, v, s', t);
    ValuesKept(s.heap, s'.heap, v.stacked);
    if s'.threads[t].PopTake? {
      ValuesOfRest(s'.heap, v.stacked);
      assert Commits(Abs(s, v), t, Abs(s', v'));
    } else if s'.threads[t].FreeLoad? {
      assert Commits(Abs(s, v), t, Abs(s', v'));
    } else {
      assert Abs(s', v').threads == Abs(s, v).threads;
    }
  }

  lemma CommitRefines<T(!new)>(s: State<T>, v: View, t: nat, spurious: bool, v': View)
    requires Enabled(s, Run(t, spurious)) && Shaped(s, v) && AtCommit(s.threads[t])
    requires var s' := Advance(s, t, spurious);
             Shaped(s', v') && |s'.threads| == |s.threads| && ListMoves(s, v, t, s', v')
    ensures AtomicNext(Abs(s, v), Silent, Abs(Advance(s, t, spurious), v'))
  {
    if s.threads[t].PushCas? {
      PushRefines(s, v, t, spurious, v');
    } else {
      PopRefines(s, v, t, spurious, v');
    }
  }

  /** Every step of the code is a step of the atomic stack with the same event. */
  lemma AdvanceRefines<T(!new)>(s: State<T>, v: View, t: nat, spurious: bool, v': View)
    requires Enabled(s, Run(t, spurious)) && Shaped(s, v)
    requires var s' := Advance(s, t, spurious);
             Shaped(s', v') && |s'.threads| == |s.threads| && ListMoves(s, v, t, s', v')
    ensures AtomicNext(Abs(s, v), EventOf(s, Run(t, spurious)), Abs(Advance(s, t, spurious), v'))
  {
    if AtCommit(s.threads[t]) {
      CommitRefines(s, v, t, spurious, v');
    } else {
      var s' := Advance(s, t, spurious);
      AdvanceFrame(s, t, spurious);
      ThreadsKept(s, v, s', t);
      ValuesKept(s.heap, s'.heap, v.stacked);
      if !s.threads[t].PushReturn? && !s.threads[t].PopReturn? {
        OtherStepStutters(s, t, spurious);
        assert Abs(s', v').threads == Abs(s, v).threads;
      }
    }
  }

  lemma InvokeRefines<T(!new)>(s: State<T>, v: View, step: Step<T>)
    requires Enabled(s, step) && !step.Run? && Shaped(s, v) && Shaped(Apply(s, step), v)
    ensures AtomicNext(Abs(s, v), EventOf(s, step), Abs(Apply(s, step), v))
  {
    var s' := Apply(s, step);
    ThreadsKept(s, v, s', step.t);
    ValuesKept(s.heap, s'.heap, v.stacked);
  }

  // ---------------------------------------------------------------- each step keeps the invariant

  /** A node about to be touched is owned and not gone. */
  lemma TouchesOwned<T>(s: State<T>, v: View, t: nat)
    requires t < |s.threads| == |v.doomed| && Local(s, v, t)
    requires forall x :: x in v.doomed[t] ==> Owns(v, x, Doomed(t))
    ensures forall x :: x in Touches(s.threads[t]) ==> x in v.owner && v.owner[x] != Gone
  {
    var pc := s.threads[t];
    if Erasing(pc) {
      assert v.doomed[t][0] in v.doomed[t];
    }
  }

  lemma InvShaped<T>(s: State<T>, v: View)
    requires Inv(s, v)
    ensures Shaped(s, v)
  {
    forall t | 0 <= t < |s.threads|
      ensures Touches(s.threads[t]) <= s.heap.Keys
    {
      assert Local(s, v, t);
      TouchesOwned(s, v, t);
    }
  }

  lemma PushStepKeepsInv<T>(s: State<T>, v: View, t: nat, spurious: bool) returns (v': View)
    requires Inv(s, v) && Enabled(s, Run(t, spurious)) && (s.threads[t].PushStart? || s.threads[t].PushCas?)
    ensures Inv(Advance(s, t, spurious), v')
    ensures |Advance(s, t, spurious).threads| == |s.threads| && ListMoves(s, v, t, Advance(s, t, spurious), v')
  {
    var s' := Advance(s, t, spurious);
    assert Local(s, v, t);
    match s.threads[t]
    case PushStart(value) =>
      v' := v.(owner := v.owner[s.nextId := New(t)]);
      AllocKeepsInv(s, v, t, value, s', v');
    case PushCas(n) =>
      if s.stack == s.heap[n].next && !spurious {
        v' := v.(owner := v.owner[n := Stacked], stacked := [n] + v.stacked);
        PushKeepsInv(s, v, t, n, s', v');
      } else {
        v' := v;
        RelinkKeepsInv(s, v, t, n, s.stack, s', v');
      }
  }

  lemma ObserveKeepsInv<T>(s: State<T>, v: View, t: nat)
    requires Inv(s, v) && t < |s.threads| && (s.threads[t].PopLoad? || s.threads[t].PopCas?)
    ensures Inv(Goto(s, t, Seen(s.stack)), v)
  {
    assert Local(s, v, t);
    assert s.stack.Some? ==> s.stack.value == v.stacked[0] && v.stacked[0] in v.stacked;
    MoveKeepsInv(s, v, t, Seen(s.stack), s.popped);
  }

  lemma PopCasKeepsInv<T>(s: State<T>, v: View, t: nat, spurious: bool, c: NodeId, next: Option<NodeId>)
    returns (v': View)
    requires Inv(s, v) && Enabled(s, Run(t, spurious)) && s.threads[t] == PopCas(c, next)
    ensures Inv(Advance(s, t, spurious), v')
    ensures |Advance(s, t, spurious).threads| == |s.threads| && ListMoves(s, v, t, Advance(s, t, spurious), v')
  {
    if s.stack == Some(c) && !spurious {
      v' := v.(owner := v.owner[c := Held(t)], stacked := v.stacked[1..]);
      UnlinkKeepsInv(s, v, t, c, next, Advance(s, t, spurious), v');
    } else {
      v' := v;
      ObserveKeepsInv(s, v, t);
    }
  }

  lemma EndStepKeepsInv<T>(s: State<T>, v: View, t: nat, spurious: bool)
    requires Inv(s, v) && Enabled(s, Run(t, spurious))
    requires s.threads[t].PushReturn? || s.threads[t].PopReturn? || s.threads[t].PopStart?
    ensures Inv(Advance(s, t, spurious), v)
  {
    var s' := Advance(s, t, spurious);
    assert Local(s, v, t);
    MoveKeepsInv(s, v, t, s'.threads[t], s'.popped);
  }

  /** Steps of `pop` that only read a node. */
  lemma PopReadKeepsInv<T>(s: State<T>, v: View, t: nat, c: NodeId)
    requires Inv(s, v) && t < |s.threads| && s.threads[t] == PopRead(c) && c in s.heap
    ensures Inv(Goto(s, t, PopCas(c, s.heap[c].next)), v)
  {
    assert Local(s, v, t);
    MoveKeepsInv(s, v, t, PopCas(c, s.heap[c].next), s.popped);
  }

  lemma PopTakeKeepsInv<T>(s: State<T>, v: View, t: nat, c: NodeId)
    requires Inv(s, v) && t < |s.threads| && s.threads[t] == PopTake(c) && c in s.heap
    ensures Inv(Goto(s, t, FreeLoad(Some(Taken(c, s.heap[c].value)))), v)
  {
    assert Local(s, v, t);
    MoveKeepsInv(s, v, t, FreeLoad(Some(Taken(c, s.heap[c].value))), s.popped);
  }

  lemma NextLinked<T>(heap: map<NodeId, Node<T>>, c: NodeId, nodes: seq<NodeId>)
    requires Linked(heap, Some(c), nodes)
    ensures c in heap && heap[c].next == At(nodes, 1)
  {
  }

  lemma EraseReadKeepsInv<T>(s: State<T>, v: View, t: nat, taken: Option<Taken<T>>, c: NodeId)
    requires Inv(s, v) && t < |s.threads| && s.threads[t] == EraseRead(taken, c) && c in s.heap
    ensures Inv(Goto(s, t, EraseDelete(taken, c, s.heap[c].next)), v)
  {
    assert Local(s, v, t);
    NextLinked(s.heap, c, v.doomed[t]);
    MoveKeepsInv(s, v, t, EraseDelete(taken, c, s.heap[c].next), s.popped);
  }

  lemma FreeLoadKeepsInv<T>(s: State<T>, v: View, t: nat, taken: Option<Taken<T>>)
    requires Inv(s, v) && t < |s.threads| && s.threads[t] == FreeLoad(taken)
    ensures Inv(Goto(s, t, if s.free == None then PopLeave(taken) else FreeCount(taken, s.free.value)), v)
  {
    var pc := if s.free == None then PopLeave(taken) else FreeCount(taken, s.free.value);
    assert Local(s, v, t);
    assert s.free.Some? ==> s.free.value == v.retired[0] && v.retired[0] in v.retired;
    MoveKeepsInv(s, v, t, pc, s.popped);
  }

  lemma GiveUpKeepsInv<T>(s: State<T>, v: View, t: nat, taken: Option<Taken<T>>, head: NodeId)
    requires Inv(s, v) && t < |s.threads|
    requires s.threads[t] == FreeCount(taken, head) || s.threads[t] == FreeCas(taken, head)
    ensures Inv(Goto(s, t, PopLeave(taken)), v)
  {
    assert Local(s, v, t);
    MoveKeepsInv(s, v, t, PopLeave(taken), s.popped);
  }

  lemma FreeCasKeepsInv<T>(s: State<T>, v: View, t: nat, spurious: bool, taken: Option<Taken<T>>, head: NodeId)
    returns (v': View)
    requires Inv(s, v) && Enabled(s, Run(t, spurious)) && s.threads[t] == FreeCas(taken, head)
    ensures Inv(Advance(s, t, spurious), v') && v'.stacked == v.stacked
  {
    if s.free == Some(head) {
      v' := v.(owner := DoomRetired(v.owner, t), retired := [], doomed := v.doomed[t := v.retired]);
      GrabKeepsInv(s, v, t, taken, head, Advance(s, t, spurious), v');
    } else {
      v' := v;
      GiveUpKeepsInv(s, v, t, taken, head);
    }
  }

  lemma EraseDeleteKeepsInv<T>(
    s: State<T>, v: View, t: nat, spurious: bool, taken: Option<Taken<T>>, c: NodeId, next: Option<NodeId>)
    returns (v': View)
    requires Inv(s, v) && Enabled(s, Run(t, spurious)) && s.threads[t] == EraseDelete(taken, c, next)
    ensures Inv(Advance(s, t, spurious), v') && v'.stacked == v.stacked
  {
    assert Local(s, v, t);
    v' := v.(owner := v.owner[c := Gone], doomed := v.doomed[t := v.doomed[t][1..]]);
    DeleteKeepsInv(s, v, t, taken, c, next, Advance(s, t, spurious), v');
  }

  lemma EmptyLeaveKeepsInv<T>(s: State<T>, v: View, t: nat)
    requires Inv(s, v) && t < |s.threads| && s.threads[t] == PopLeave(None)
    ensures Inv(Goto(s, t, PopReturn(None)).(popped := s.popped - 1), v)
  {
    assert Local(s, v, t);
    MoveKeepsInv(s, v, t, PopReturn(None), s.popped - 1);
  }

  lemma StayLeaveKeepsInv<T>(s: State<T>, v: View, t: nat, own: Taken<T>)
    requires Inv(s, v) && t < |s.threads| && s.threads[t] == PopLeave(Some(own))
    ensures Inv(Goto(s, t, RetireLoad(own)).(popped := s.popped - 1), v)
  {
    assert Local(s, v, t);
    MoveKeepsInv(s, v, t, RetireLoad(own), s.popped - 1);
  }

  lemma PopLeaveKeepsInv<T>(s: State<T>, v: View, t: nat, spurious: bool, taken: Option<Taken<T>>)
    returns (v': View)
    requires Inv(s, v) && Enabled(s, Run(t, spurious)) && s.threads[t] == PopLeave(taken)
    ensures Inv(Advance(s, t, spurious), v') && v'.stacked == v.stacked
  {
    if taken.Some? && s.popped == 1 {
      v' := v.(owner := v.owner[taken.value.node := Doomed(t)], doomed := v.doomed[t := [taken.value.node]]);
      LastLeaveKeepsInv(s, v, t, taken.value, Advance(s, t, spurious), v');
    } else {
      v' := v;
      if taken.Some? {
        StayLeaveKeepsInv(s, v, t, taken.value);
      } else {
        EmptyLeaveKeepsInv(s, v, t);
      }
    }
  }

  lemma RetireMovesOn<T>(s: State<T>, v: View, t: nat, own: Taken<T>)
    requires Inv(s, v) && t < |s.threads| && s.threads[t] == RetireLoad(own)
    ensures Inv(Goto(s, t, RetireCas(own)), v) && Owns(v, own.node, Held(t))
  {
    assert Local(s, v, t);
    MoveKeepsInv(s, v, t, RetireCas(own), s.popped);
  }

  lemma RetireLoadKeepsInv<T>(s: State<T>, v: View, t: nat, own: Taken<T>)
    requires Inv(s, v) && t < |s.threads| && s.threads[t] == RetireLoad(own) && own.node in s.heap
    ensures Inv(Goto(s, t, RetireCas(own)).(heap := SetNext(s.heap, own.node, s.free)), v)
  {
    RetireMovesOn(s, v, t, own);
    var s1 := Goto(s, t, RetireCas(own));
    RelinkKeepsInv(s1, v, t, own.node, s.free, s1.(heap := SetNext(s.heap, own.node, s.free)), v);
  }

  lemma RetireCasKeepsInv<T>(s: State<T>, v: View, t: nat, spurious: bool, own: Taken<T>) returns (v': View)
    requires Inv(s, v) && Enabled(s, Run(t, spurious)) && s.threads[t] == RetireCas(own)
    ensures Inv(Advance(s, t, spurious), v') && v'.stacked == v.stacked
  {
    var s' := Advance(s, t, spurious);
    if s.free == s.heap[own.node].next && !spurious {
      v' := v.(owner := v.owner[own.node := Retired], retired := [own.node] + v.retired);
      RetireKeepsInv(s, v, t, own, s', v');
    } else {
      v' := v;
      assert Local(s, v, t);
      RelinkKeepsInv(s, v, t, own.node, s.free, s', v');
    }
  }

  lemma DeleteOwnKeepsInv<T>(s: State<T>, v: View, t: nat, spurious: bool, own: Taken<T>) returns (v': View)
    requires Inv(s, v) && Enabled(s, Run(t, spurious)) && s.threads[t] == DeleteOwn(own)
    ensures Inv(Advance(s, t, spurious), v') && v'.stacked == v.stacked
  {
    v' := v.(owner := v.owner[own.node := Gone], doomed := v.doomed[t := []]);
    DropOwnKeepsInv(s, v, t, own, Advance(s, t, spurious), v');
  }

  /** The first half of an operation: up to unlinking a node or finding none. */
  predicate OnTop<T>(pc: Pc<T>) {
    pc.PushStart? || pc.PushCas? || pc.PushReturn? || pc.PopStart? || pc.PopLoad? || pc.PopRead? || pc.PopCas? ||
    pc.PopTake? || pc.PopReturn?
  }

  lemma TopStepKeepsInv<T>(s: State<T>, v: View, t: nat, spurious: bool) returns (v': View)
    requires Inv(s, v) && Enabled(s, Run(t, spurious)) && OnTop(s.threads[t])
    ensures Inv(Advance(s, t, spurious), v')
    ensures |Advance(s, t, spurious).threads| == |s.threads| && ListMoves(s, v, t, Advance(s, t, spurious), v')
  {
    v' := v;
    match s.threads[t]
    case PushStart(_) => v' := PushStepKeepsInv(s, v, t, spurious);
    case PushCas(_) => v' := PushStepKeepsInv(s, v, t, spurious);
    case PopLoad => ObserveKeepsInv(s, v, t);
    case PopCas(c, next) => v' := PopCasKeepsInv(s, v, t, spurious, c, next);
    case PopRead(c) => PopReadKeepsInv(s, v, t, c);
    case PopTake(c) => PopTakeKeepsInv(s, v, t, c);
    case _ => EndStepKeepsInv(s, v, t, spurious);
  }

  lemma ReclaimStepKeepsInv<T>(s: State<T>, v: View, t: nat, spurious: bool) returns (v': View)
    requires Inv(s, v) && Enabled(s, Run(t, spurious)) && !OnTop(s.threads[t])
    ensures Inv(Advance(s, t, spurious), v') && v'.stacked == v.stacked
  {
    v' := v;
    match s.threads[t]
    case FreeLoad(taken) => FreeLoadKeepsInv(s, v, t, taken);
    case FreeCount(taken, head) =>
      if s.popped == 1 {
        CountedAlone(s, v, t, taken, head);
      } else {
        GiveUpKeepsInv(s, v, t, taken, head);
      }
    case FreeCas(taken, head) => v' := FreeCasKeepsInv(s, v, t, spurious, taken, head);
    case EraseRead(taken, c) => EraseReadKeepsInv(s, v, t, taken, c);
    case EraseDelete(taken, c, next) => v' := EraseDeleteKeepsInv(s, v, t, spurious, taken, c, next);
    case PopLeave(taken) => v' := PopLeaveKeepsInv(s, v, t, spurious, taken);
    case DeleteOwn(own) => v' := DeleteOwnKeepsInv(s, v, t, spurious, own);
    case RetireLoad(own) => RetireLoadKeepsInv(s, v, t, own);
    case RetireCas(own) => v' := RetireCasKeepsInv(s, v, t, spurious, own);
  }

  lemma ThreadsStay<T>(s: State<T>, t: nat, spurious: bool)
    requires Enabled(s, Run(t, spurious))
    ensures |Advance(s, t, spurious).threads| == |s.threads|
  {
  }

  lemma AdvanceKeepsInv<T>(s: State<T>, v: View, t: nat, spurious: bool) returns (v': View)
    requires Inv(s, v) && Enabled(s, Run(t, spurious))
    ensures Inv(Advance(s, t, spurious), v')
    ensures |Advance(s, t, spurious).threads| == |s.threads| && ListMoves(s, v, t, Advance(s, t, spurious), v')
  {
    if OnTop(s.threads[t]) {
      v' := TopStepKeepsInv(s, v, t, spurious);
    } else {
      v' := ReclaimStepKeepsInv(s, v, t, spurious);
      ThreadsStay(s, t, spurious);
    }
  }

  lemma InvokeKeepsInv<T>(s: State<T>, v: View, step: Step<T>)
    requires Inv(s, v) && Enabled(s, step) && !step.Run?
    ensures Inv(Apply(s, step), v)
  {
    assert Local(s, v, step.t);
    MoveKeepsInv(s, v, step.t, Apply(s, step).threads[step.t], s.popped);
  }

  lemma StepRefines<T(!new)>(s: State<T>, v: View, step: Step<T>) returns (v': View)
    requires Inv(s, v) && Enabled(s, step)
    ensures Inv(Apply(s, step), v') && Shaped(s, v) && Shaped(Apply(s, step), v')
    ensures AtomicNext(Abs(s, v), EventOf(s, step), Abs(Apply(s, step), v'))
  {
    InvShaped(s, v);
    if step.Run? {
      v' := AdvanceKeepsInv(s, v, step.t, step.spurious);
      InvShaped(Apply(s, step), v');
      AdvanceRefines(s, v, step.t, step.spurious, v');
    } else {
      v' := v;
      InvokeKeepsInv(s, v, step);
      InvShaped(Apply(s, step), v');
      InvokeRefines(s, v, step);
    }
  }

  // ---------------------------------------------------------------- whole runs

  function InitialView(threads: nat): View {
    View([], [], seq(threads, _ => []), map[])
  }

  lemma {:induction false} NoPoppersYet<T>(threads: seq<Pc<T>>)
    requires forall i :: 0 <= i < |threads| ==> threads[i] == Idle
    ensures Poppers(threads) == 0
  {
    if threads != [] {
      NoPoppersYet(threads[..|threads| - 1]);
    }
  }

  lemma InitInv<T>(threads: nat)
    ensures Inv(Init<T>(threads), InitialView(threads))
  {
    NoPoppersYet(Init<T>(threads).threads);
  }

  lemma {:induction false} RunRefines<T(!new)>(s: State<T>, v: View, steps: seq<Step<T>>, s': State<T>)
    returns (v': View)
    requires Inv(s, v) && Runs(s, steps, s')
    ensures Inv(s', v') && Shaped(s, v)
    ensures AtomicRun(Abs(s, v), Events(s, steps, s'))
    decreases |steps|
  {
    InvShaped(s, v);
    v' := v;
    if steps != [] {
      var u := StepRefines(s, v, steps[0]);
      v' := RunRefines(Apply(s, steps[0]), u, steps[1..], s');
      var events := Events(s, steps, s');
      assert events[1..] == Events(Apply(s, steps[0]), steps[1..], s');
      assert AtomicNext(Abs(s, v), events[0], Abs(Apply(s, steps[0]), u));
    }
  }

  /** Linearizability: whatever the interleaving of any number of threads, the calls and returns are
      those of a run of the atomic stack, each call taking effect once between its call and return. */
  lemma Linearizable<T(!new)>(threads: nat, steps: seq<Step<T>>, s: State<T>)
    requires Runs(Init(threads), steps, s)
    ensures AtomicRun(AtomicInit(threads), Events(Init(threads), steps, s))
  {
    InitInv<T>(threads);
    var v := RunRefines(Init(threads), InitialView(threads), steps, s);
    var a := Abs(Init<T>(threads), InitialView(threads));
    assert a.stack == [];
    assert a.threads == AtomicInit<T>(threads).threads;
  }

  /** No thread dereferences or deletes a deleted node, and no node is deleted twice. In particular
      every thread inside an operation can always take its next step. */
  lemma ReclamationIsSafe<T(!new)>(threads: nat, steps: seq<Step<T>>, s: State<T>, t: nat)
    requires Runs(Init(threads), steps, s) && t < |s.threads|
    ensures forall x :: x in Touches(s.threads[t]) ==> x in s.heap && s.freed[x] == 0
    ensures forall x :: s.freed[x] <= 1
  {
    InitInv<T>(threads);
    var v := RunRefines(Init(threads), InitialView(threads), steps, s);
    assert Local(s, v, t);
    TouchesOwned(s, v, t);
  }

  // ---------------------------------------------------------------- the destructor

  method Erase<T>(heap: map<NodeId, Node<T>>, head: Option<NodeId>, freed: multiset<NodeId>, ghost nodes: seq<NodeId>)
    returns (freed': multiset<NodeId>)
    requires Linked(heap, head, nodes)
    ensures freed' == freed + multiset(nodes)
  {
    freed' := freed;
    var current := head;
    ghost var done := 0;
    while current != None
      invariant done <= |nodes| && current == At(nodes, done)
      invariant freed' == freed + multiset(nodes[..done])
      decreases |nodes| - done
    {
      var next := heap[current.value].next;
      assert nodes[..done + 1] == nodes[..done] + [nodes[done]];
      freed' := freed' + multiset{current.value};
      current := next;
      done := done + 1;
    }
    assert nodes[..done] == nodes;
  }

  lemma {:induction false} DistinctCounts(nodes: seq<NodeId>, x: NodeId)
    requires Distinct(nodes)
    ensures multiset(nodes)[x] == if x in nodes then 1 else 0
  {
    if nodes != [] {
      assert nodes == [nodes[0]] + nodes[1..];
      DropHead(nodes);
      DistinctCounts(nodes[1..], x);
    }
  }

  lemma QuiescentOwners<T>(s: State<T>, v: View, x: NodeId)
    requires Inv(s, v) && forall t :: 0 <= t < |s.threads| ==> s.threads[t] == Idle
    ensures x in v.owner ==> v.owner[x] == Stacked || v.owner[x] == Retired || v.owner[x] == Gone
  {
    forall t | 0 <= t < |s.threads|
      ensures v.doomed[t] == []
    {
      assert Local(s, v, t);
    }
  }

  /** The destructor of a quiescent stack leaves every node ever allocated deleted exactly once. */
  method Destroy<T(!new)>(s: State<T>, ghost threads: nat, ghost steps: seq<Step<T>>)
    returns (freed: multiset<NodeId>)
    requires Runs(Init(threads), steps, s)
    requires forall t :: 0 <= t < |s.threads| ==> s.threads[t] == Idle
    ensures forall x :: freed[x] == if x in s.heap then 1 else 0
  {
    InitInv<T>(threads);
    ghost var v := RunRefines(Init(threads), InitialView(threads), steps, s);
    freed := Erase(s.heap, s.stack, s.freed, v.stacked);
    freed := Erase(s.heap, s.free, freed, v.retired);
    forall x
      ensures freed[x] == if x in s.heap then 1 else 0
    {
      DistinctCounts(v.stacked, x);
      DistinctCounts(v.retired, x);
      QuiescentOwners(s, v, x);
    }
  }
}
