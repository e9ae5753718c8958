/** The lock-free stack with deferred reclamation, one step per access to shared memory. Any number of
    threads take the steps in any order; a weak compare-and-swap may also fail spuriously. Node
    identities are never reused. */
module LockFreeStack {
  import opened Options

  type NodeId = nat

  datatype Node<T> = Node(value: T, next: Option<NodeId>)

  /** What a successful `pop` carries to its end: the node it unlinked and the value moved out of it. */
  datatype Taken<T> = Taken(node: NodeId, value: T)

  /** Where a thread is; the comment names the access it performs next. */
  datatype Pc<T> =
    | Idle
    | PushStart(v: T)                                              // load stack_, allocate the node
    | PushCas(node: NodeId)                                        // CAS stack_
    | PushReturn
    | PopStart                                                     // ++popped_count
    | PopLoad                                                      // load stack_
    | PopRead(current: NodeId)                                     // read current->next
    | PopCas(current: NodeId, next: Option<NodeId>)                // CAS stack_
    | PopTake(current: NodeId)                                     // move current->value
    | FreeLoad(taken: Option<Taken<T>>)                            // load free_stack_
    | FreeCount(taken: Option<Taken<T>>, head: NodeId)             // read popped_count
    | FreeCas(taken: Option<Taken<T>>, head: NodeId)               // CAS free_stack_ to null
    | EraseRead(taken: Option<Taken<T>>, current: NodeId)          // read current->next
    | EraseDelete(taken: Option<Taken<T>>, current: NodeId, next: Option<NodeId>)  // delete current
    | PopLeave(taken: Option<Taken<T>>)                            // --popped_count
    | DeleteOwn(own: Taken<T>)                                     // delete the popped node
    | RetireLoad(own: Taken<T>)                                    // load free_stack_ into own->next
    | RetireCas(own: Taken<T>)                                     // CAS free_stack_
    | PopReturn(result: Option<T>)

  /** `heap` keeps every node ever allocated and `freed` counts the deletions of each. */
  datatype State<T> = State(
    heap: map<NodeId, Node<T>>,
    nextId: NodeId,
    freed: multiset<NodeId>,
    stack: Option<NodeId>,
    free: Option<NodeId>,
    popped: int,
    threads: seq<Pc<T>>)

  datatype Step<T> =
    | InvokePush(t: nat, v: T)
    | InvokePop(t: nat)
    | Run(t: nat, spurious: bool)

  function Init<T>(threads: nat): State<T> {
    State(map[], 0, multiset{}, None, None, 0, seq(threads, _ => Idle))
  }

  /** The nodes a thread dereferences or deletes in its next step. */
  function Touches<T>(pc: Pc<T>): set<NodeId> {
    match pc
    case PushCas(n) => {n}
    case PopRead(c) => {c}
    case PopTake(c) => {c}
    case EraseRead(_, c) => {c}
    case EraseDelete(_, c, _) => {c}
    case DeleteOwn(own) => {own.node}
    case RetireLoad(own) => {own.node}
    case RetireCas(own) => {own.node}
    case _ => {}
  }

  predicate Enabled<T>(s: State<T>, step: Step<T>) {
    && step.t < |s.threads|
    && match step
       case Run(t, _) => s.threads[t] != Idle && Touches(s.threads[t]) <= s.heap.Keys
       case _ => s.threads[step.t] == Idle
  }

  function Goto<T>(s: State<T>, t: nat, pc: Pc<T>): State<T>
    requires t < |s.threads|
  {
    s.(threads := s.threads[t := pc])
  }

  function SetNext<T>(heap: map<NodeId, Node<T>>, n: NodeId, next: Option<NodeId>): map<NodeId, Node<T>>
    requires n in heap
  {
    heap[n := heap[n].(next := next)]
  }

  /** Where `pop` continues once it has seen `head` on top of the stack. */
  function Seen<T>(head: Option<NodeId>): Pc<T> {
    if head == None then FreeLoad(None) else PopRead(head.value)
  }

  function Apply<T>(s: State<T>, step: Step<T>): State<T>
    requires Enabled(s, step)
  {
    match step
    case InvokePush(t, v) => Goto(s, t, PushStart(v))
    case InvokePop(t) => Goto(s, t, PopStart)
    case Run(t, spurious) => Advance(s, t, spurious)
  }

  function Advance<T>(s: State<T>, t: nat, spurious: bool): State<T>
    requires Enabled(s, Run(t, spurious))
  {
    match s.threads[t]
    case PushStart(v) =>
      Goto(s, t, PushCas(s.nextId)).(heap := s.heap[s.nextId := Node(v, s.stack)], nextId := s.nextId + 1)
    case PushCas(n) =>
      if s.stack == s.heap[n].next && !spurious then Goto(s, t, PushReturn).(stack := Some(n))
      else s.(heap := SetNext(s.heap, n, s.stack))
    case PushReturn => Goto(s, t, Idle)
    case PopStart => Goto(s, t, PopLoad).(popped := s.popped + 1)
    case PopLoad => Goto(s, t, Seen(s.stack))
    case PopRead(c) => Goto(s, t, PopCas(c, s.heap[c].next))
    case PopCas(c, next) =>
      if s.stack == Some(c) && !spurious then Goto(s, t, PopTake(c)).(stack := next)
      else Goto(s, t, Seen(s.stack))
    case PopTake(c) => Goto(s, t, FreeLoad(Some(Taken(c, s.heap[c].value))))
    case FreeLoad(taken) => Goto(s, t, if s.free == None then PopLeave(taken) else FreeCount(taken, s.free.value))
    case FreeCount(taken, head) => Goto(s, t, if s.popped == 1 then FreeCas(taken, head) else PopLeave(taken))
    case FreeCas(taken, head) =>
      if s.free == Some(head) then Goto(s, t, EraseRead(taken, head)).(free := None)
      else Goto(s, t, PopLeave(taken))
    case EraseRead(taken, c) => Goto(s, t, EraseDelete(taken, c, s.heap[c].next))
    case EraseDelete(taken, c, next) =>
      Goto(s, t, if next == None then PopLeave(taken) else EraseRead(taken, next.value)).(
        freed := s.freed + multiset{c})
    case PopLeave(taken) =>
      Goto(s, t,
           if taken == None then PopReturn(None)
           else if s.popped - 1 == 0 then DeleteOwn(taken.value)
           else RetireLoad(taken.value)).(popped := s.popped - 1)
    case DeleteOwn(own) => Goto(s, t, PopReturn(Some(own.value))).(freed := s.freed + multiset{own.node})
    case RetireLoad(own) => Goto(s, t, RetireCas(own)).(heap := SetNext(s.heap, own.node, s.free))
    case RetireCas(own) =>
      if s.free == s.heap[own.node].next && !spurious
      then Goto(s, t, PopReturn(Some(own.value))).(free := Some(own.node))
      else s.(heap := SetNext(s.heap, own.node, s.free))
    case PopReturn(_) => Goto(s, t, Idle)
  }

  // ---------------------------------------------------------------- ownership of nodes

  /** Who may still reach a node. Every node moves down this list. */
  datatype Owner =
    | New(t: nat)       // being pushed by t
    | Stacked           // on stack_
    | Held(t: nat)      // unlinked by t, perhaps still referenced by stale poppers
    | Retired           // on free_stack_
    | Doomed(t: nat)    // about to be deleted by t
    | Gone

  /** The proof's view of a state: the two lists, the list each thread is deleting, and the owners. */
  datatype View = View(
    stacked: seq<NodeId>,
    retired: seq<NodeId>,
    doomed: seq<seq<NodeId>>,
    owner: map<NodeId, Owner>)

  function At(nodes: seq<NodeId>, i: nat): Option<NodeId> {
    if i < |nodes| then Some(nodes[i]) else None
  }

  ghost predicate Distinct(nodes: seq<NodeId>) {
    forall i, j :: 0 <= i < j < |nodes| ==> nodes[i] != nodes[j]
  }

  ghost predicate Linked<T>(heap: map<NodeId, Node<T>>, head: Option<NodeId>, nodes: seq<NodeId>) {
    && head == At(nodes, 0)
    && forall i :: 0 <= i < |nodes| ==> nodes[i] in heap && heap[nodes[i]].next == At(nodes, i + 1)
  }

  /** `nodes` is the linked list from `head` and holds exactly the nodes of `who`. */
  ghost predicate OwnedList<T>(
    heap: map<NodeId, Node<T>>, head: Option<NodeId>, nodes: seq<NodeId>, owner: map<NodeId, Owner>, who: Owner)
  {
    && Linked(heap, head, nodes)
    && Distinct(nodes)
    && (forall x :: x in nodes <==> x in owner && owner[x] == who)
  }

  /** Exactly the nodes that are gone have been deleted, each once. */
  ghost predicate FreedOnce(freed: multiset<NodeId>, owner: map<NodeId, Owner>) {
    forall x :: freed[x] == if x in owner && owner[x] == Gone then 1 else 0
  }

  ghost predicate Allocated<T>(heap: map<NodeId, Node<T>>, nextId: NodeId, owner: map<NodeId, Owner>) {
    && (forall x: NodeId :: x in heap <==> x < nextId)
    && owner.Keys == heap.Keys
  }

  ghost predicate Owns(v: View, x: NodeId, who: Owner) {
    x in v.owner && v.owner[x] == who
  }

  /** A node that a thread inside `pop` may dereference. */
  ghost predicate Safe(v: View, x: NodeId) {
    x in v.owner && (v.owner[x] == Stacked || v.owner[x].Held? || v.owner[x] == Retired)
  }

  ghost predicate Discarded(v: View, x: NodeId) {
    x in v.owner && (v.owner[x] == Retired || v.owner[x].Doomed? || v.owner[x] == Gone)
  }

  ghost predicate HoldsTaken<T>(s: State<T>, v: View, t: nat, taken: Option<Taken<T>>) {
    taken.Some? ==> Owns(v, taken.value.node, Held(t)) && taken.value.node in s.heap &&
                    s.heap[taken.value.node].value == taken.value.value
  }

  /** The node a thread holds privately: one being pushed, or one it unlinked. */
  function Private<T>(pc: Pc<T>): Option<NodeId> {
    match pc
    case PushCas(n) => Some(n)
    case PopTake(c) => Some(c)
    case FreeLoad(taken) => TakenNode(taken)
    case FreeCount(taken, _) => TakenNode(taken)
    case FreeCas(taken, _) => TakenNode(taken)
    case EraseRead(taken, _) => TakenNode(taken)
    case EraseDelete(taken, _, _) => TakenNode(taken)
    case PopLeave(taken) => TakenNode(taken)
    case RetireLoad(own) => Some(own.node)
    case RetireCas(own) => Some(own.node)
    case _ => None
  }

  function TakenNode<T>(taken: Option<Taken<T>>): Option<NodeId> {
    if taken.Some? then Some(taken.value.node) else None
  }

  /** The node read from `stack_` that a popper still means to dereference or unlink. */
  function Ref<T>(pc: Pc<T>): Option<NodeId> {
    match pc
    case PopRead(c) => Some(c)
    case PopCas(c, _) => Some(c)
    case _ => None
  }

  ghost predicate NoRefsToRetired<T>(s: State<T>, v: View, t: nat) {
    forall u :: 0 <= u < |s.threads| && u != t && Ref(s.threads[u]).Some? && Ref(s.threads[u]).value in v.owner ==>
      v.owner[Ref(s.threads[u]).value] != Retired
  }

  predicate Erasing<T>(pc: Pc<T>) {
    pc.EraseRead? || pc.EraseDelete? || pc.DeleteOwn?
  }

  ghost predicate Local<T>(s: State<T>, v: View, t: nat)
    requires t < |s.threads| == |v.doomed|
  {
    && (!Erasing(s.threads[t]) ==> v.doomed[t] == [])
    && match s.threads[t]
       case PushCas(n) => Owns(v, n, New(t))
       case PopRead(c) => Safe(v, c)
       case PopCas(c, next) =>
         Safe(v, c) && c in s.heap && (v.owner[c] == Stacked ==> s.heap[c].next == next)
       case PopTake(c) => Owns(v, c, Held(t))
       case FreeLoad(taken) => HoldsTaken(s, v, t, taken)
       case FreeCount(taken, head) => HoldsTaken(s, v, t, taken) && Discarded(v, head)
       case FreeCas(taken, head) =>
         HoldsTaken(s, v, t, taken) && Discarded(v, head) && (s.free == Some(head) ==> NoRefsToRetired(s, v, t))
       case EraseRead(taken, c) => HoldsTaken(s, v, t, taken) && Linked(s.heap, Some(c), v.doomed[t])
       case EraseDelete(taken, c, next) =>
         HoldsTaken(s, v, t, taken) && Linked(s.heap, Some(c), v.doomed[t]) && next == At(v.doomed[t], 1)
       case PopLeave(taken) => HoldsTaken(s, v, t, taken)
       case DeleteOwn(own) => v.doomed[t] == [own.node]
       case RetireLoad(own) => HoldsTaken(s, v, t, Some(own))
       case RetireCas(own) => HoldsTaken(s, v, t, Some(own))
       case _ => true
  }

  /** Counted by `popped_count`: after its increment and before its decrement. */
  predicate InPop<T>(pc: Pc<T>) {
    match pc
    case PopLoad => true
    case PopRead(_) => true
    case PopCas(_, _) => true
    case PopTake(_) => true
    case FreeLoad(_) => true
    case FreeCount(_, _) => true
    case FreeCas(_, _) => true
    case EraseRead(_, _) => true
    case EraseDelete(_, _, _) => true
    case PopLeave(_) => true
    case _ => false
  }

  function Poppers<T>(threads: seq<Pc<T>>): nat {
    if threads == [] then 0
    else Poppers(threads[..|threads| - 1]) + (if InPop(threads[|threads| - 1]) then 1 else 0)
  }

  ghost predicate HeapInv<T>(s: State<T>, v: View) {
    && |v.doomed| == |s.threads|
    && Allocated(s.heap, s.nextId, v.owner)
    && FreedOnce(s.freed, v.owner)
    && OwnedList(s.heap, s.stack, v.stacked, v.owner, Stacked)
    && OwnedList(s.heap, s.free, v.retired, v.owner, Retired)
  }

  ghost predicate OwnerInv<T>(s: State<T>, v: View) {
    && |v.doomed| == |s.threads|
    && (forall x :: x in v.owner && v.owner[x].New? ==>
          v.owner[x].t < |s.threads| && s.threads[v.owner[x].t] == PushCas(x))
    && (forall x :: x in v.owner && v.owner[x].Held? ==>
          v.owner[x].t < |s.threads| && !s.threads[v.owner[x].t].PushCas? &&
          Private(s.threads[v.owner[x].t]) == Some(x))
    && (forall x :: x in v.owner && v.owner[x].Doomed? ==>
          v.owner[x].t < |s.threads| && x in v.doomed[v.owner[x].t])
    && (forall t :: 0 <= t < |s.threads| ==>
          Distinct(v.doomed[t]) && forall x :: x in v.doomed[t] ==> Owns(v, x, Doomed(t)))
  }

  ghost predicate LocalInv<T>(s: State<T>, v: View)
    requires |v.doomed| == |s.threads|
  {
    forall t :: 0 <= t < |s.threads| ==> Local(s, v, t)
  }

  ghost predicate Inv<T>(s: State<T>, v: View) {
    HeapInv(s, v) && OwnerInv(s, v) && LocalInv(s, v) && s.popped == Poppers(s.threads)
  }
}
