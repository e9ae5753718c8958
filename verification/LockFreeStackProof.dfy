/** Every step of the lock-free stack keeps the ownership discipline. */
module LockFreeStackProof {
  import opened Options
  import opened LockFreeStack

  // ---------------------------------------------------------------- counting poppers

  lemma {:induction false} PoppersUpdate<T>(threads: seq<Pc<T>>, t: nat, pc: Pc<T>)
    requires t < |threads|
    ensures Poppers(threads[t := pc]) ==
            Poppers(threads) - (if InPop(threads[t]) then 1 else 0) + (if InPop(pc) then 1 else 0)
  {
    var last := |threads| - 1;
    if t < last {
      PoppersUpdate(threads[..last], t, pc);
      assert threads[t := pc][..last] == threads[..last][t := pc];
    } else {
      assert threads[t := pc][..last] == threads[..last];
    }
  }

  lemma {:induction false} NoPoppers<T>(threads: seq<Pc<T>>, t: nat)
    requires t < |threads| && Poppers(threads) == 0
    ensures !InPop(threads[t])
  {
    var last := |threads| - 1;
    if t < last {
      NoPoppers(threads[..last], t);
    }
  }

  lemma OnlyPopper<T>(threads: seq<Pc<T>>, t: nat, u: nat)
    requires t < |threads| && u < |threads| && t != u && InPop(threads[t]) && Poppers(threads) == 1
    ensures !InPop(threads[u])
  {
    PoppersUpdate(threads, t, Idle);
    NoPoppers(threads[t := Idle], u);
  }

  lemma NoOtherRefs<T>(threads: seq<Pc<T>>, t: nat)
    requires t < |threads| && InPop(threads[t]) && Poppers(threads) == 1
    ensures forall u :: 0 <= u < |threads| && u != t ==> Ref(threads[u]) == None
  {
    forall u | 0 <= u < |threads| && u != t
      ensures Ref(threads[u]) == None
    {
      OnlyPopper(threads, t, u);
    }
  }

  // ---------------------------------------------------------------- what a step of `t` leaves to the others

  /** The ways in which a step of `t` may pass a node on. */
  ghost predicate Passes(t: nat, who: Owner, who': Owner) {
    || who' == who
    || (who == New(t) && who' == Stacked)
    || (who == Stacked && who' == Held(t))
    || (who == Held(t) && (who' == Retired || who' == Doomed(t)))
    || (who == Retired && who' == Doomed(t))
    || (who == Doomed(t) && who' == Gone)
  }

  ghost predicate SameOthers<T>(s: State<T>, v: View, s': State<T>, v': View, t: nat) {
    && |s'.threads| == |s.threads| == |v.doomed| == |v'.doomed|
    && t < |s.threads|
    && (forall u :: 0 <= u < |s.threads| && u != t ==> s'.threads[u] == s.threads[u] && v'.doomed[u] == v.doomed[u])
  }

  ghost predicate HeapEvolves<T>(s: State<T>, v: View, s': State<T>, v': View, t: nat) {
    && (forall x :: x in v.owner ==> x in v'.owner && Passes(t, v.owner[x], v'.owner[x]))
    && (forall x :: x in v'.owner && x !in v.owner ==> v'.owner[x] == New(t))
    && (forall x :: x in s.heap ==> x in s'.heap && s'.heap[x].value == s.heap[x].value)
    && (forall x :: x in s.heap && x in v.owner && v.owner[x] != New(t) && v.owner[x] != Held(t) ==>
          s'.heap[x].next == s.heap[x].next)
  }

  /** No popper loses the node it refers to, and a changed free list never starts where it started before. */
  ghost predicate RefsEvolve<T>(s: State<T>, v: View, s': State<T>, v': View, t: nat)
    requires SameOthers(s, v, s', v', t)
  {
    && (forall u :: 0 <= u < |s.threads| && u != t && Ref(s.threads[u]).Some? ==>
          Ref(s.threads[u]).value in v'.owner && !v'.owner[Ref(s.threads[u]).value].Doomed?)
    && (Ref(s'.threads[t]).Some? && Ref(s'.threads[t]) != Ref(s.threads[t]) ==>
          Owns(v', Ref(s'.threads[t]).value, Stacked))
    && (s'.free == s.free || s'.free == None || Owns(v, s'.free.value, Held(t)))
    && (s'.free == s.free ==> forall x :: x in v.owner && Owns(v', x, Retired) ==> v.owner[x] == Retired)
  }

  ghost predicate Evolves<T>(s: State<T>, v: View, s': State<T>, v': View, t: nat) {
    SameOthers(s, v, s', v', t) && HeapEvolves(s, v, s', v', t) && RefsEvolve(s, v, s', v', t)
  }

  lemma OtherKeepsNoRefs<T>(s: State<T>, v: View, s': State<T>, v': View, t: nat, u: nat, head: NodeId)
    requires Evolves(s, v, s', v', t) && LocalInv(s, v) && u < |s.threads| && u != t
    requires Discarded(v, head) && (s.free == Some(head) ==> NoRefsToRetired(s, v, u))
    ensures s'.free == Some(head) ==> NoRefsToRetired(s', v', u)
  {
    if s'.free == Some(head) {
      assert s'.free == s.free;
      forall w | 0 <= w < |s'.threads| && w != u && Ref(s'.threads[w]).Some? && Ref(s'.threads[w]).value in v'.owner
        ensures v'.owner[Ref(s'.threads[w]).value] != Retired
      {
        assert Local(s, v, w);
      }
    }
  }

  lemma OtherKeepsLocal<T>(s: State<T>, v: View, s': State<T>, v': View, t: nat, u: nat)
    requires Evolves(s, v, s', v', t) && u < |s.threads| && u != t && Local(s, v, u)
    requires forall x :: x in v.doomed[u] ==> Owns(v, x, Doomed(u))
    requires s.threads[u].FreeCas? && s'.free == Some(s.threads[u].head) ==> NoRefsToRetired(s', v', u)
    ensures Local(s', v', u)
  {
    if s.threads[u].EraseRead? || s.threads[u].EraseDelete? {
      OtherKeepsErasing(s, v, s', v', t, u);
    } else if s.threads[u].PopRead? || s.threads[u].PopCas? {
      OtherKeepsReading(s, v, s', v', t, u);
    }
  }

  lemma OtherKeepsErasing<T>(s: State<T>, v: View, s': State<T>, v': View, t: nat, u: nat)
    requires SameOthers(s, v, s', v', t) && HeapEvolves(s, v, s', v', t)
    requires u < |s.threads| && u != t && Local(s, v, u)
    requires forall x :: x in v.doomed[u] ==> Owns(v, x, Doomed(u))
    requires s.threads[u].EraseRead? || s.threads[u].EraseDelete?
    ensures Local(s', v', u)
  {
    assert forall i :: 0 <= i < |v.doomed[u]| ==> v.doomed[u][i] in v.doomed[u];
  }

  lemma OtherKeepsReading<T>(s: State<T>, v: View, s': State<T>, v': View, t: nat, u: nat)
    requires Evolves(s, v, s', v', t) && u < |s.threads| && u != t && Local(s, v, u)
    requires s.threads[u].PopRead? || s.threads[u].PopCas?
    ensures Local(s', v', u)
  {
  }

  lemma OthersKeepLocal<T>(s: State<T>, v: View, s': State<T>, v': View, t: nat)
    requires Evolves(s, v, s', v', t) && LocalInv(s, v) && OwnerInv(s, v)
    ensures forall u :: 0 <= u < |s.threads| && u != t ==> Local(s', v', u)
  {
    forall u | 0 <= u < |s.threads| && u != t
      ensures Local(s', v', u)
    {
      assert Local(s, v, u);
      if s.threads[u].FreeCas? {
        OtherKeepsNoRefs(s, v, s', v', t, u, s.threads[u].head);
      }
      OtherKeepsLocal(s, v, s', v', t, u);
    }
  }

  /** What `t` itself has to answer for after its step. */
  ghost predicate OwnPart<T>(s: State<T>, v: View, t: nat)
    requires t < |s.threads| == |v.doomed|
  {
    && (forall x :: x in v.owner && v.owner[x] == New(t) ==> s.threads[t] == PushCas(x))
    && (forall x :: x in v.owner && v.owner[x] == Held(t) ==>
          !s.threads[t].PushCas? && Private(s.threads[t]) == Some(x))
    && (forall x :: x in v.owner && v.owner[x] == Doomed(t) ==> x in v.doomed[t])
    && Distinct(v.doomed[t])
    && (forall x :: x in v.doomed[t] ==> Owns(v, x, Doomed(t)))
  }

  lemma OwnersKept<T>(s: State<T>, v: View, s': State<T>, v': View, t: nat)
    requires OwnerInv(s, v) && SameOthers(s, v, s', v', t) && HeapEvolves(s, v, s', v', t)
    requires OwnPart(s', v', t)
    ensures OwnerInv(s', v')
  {
    forall x | x in v'.owner
      ensures v'.owner[x].New? ==> v'.owner[x].t < |s'.threads| && s'.threads[v'.owner[x].t] == PushCas(x)
      ensures v'.owner[x].Held? ==>
                v'.owner[x].t < |s'.threads| && !s'.threads[v'.owner[x].t].PushCas? &&
                Private(s'.threads[v'.owner[x].t]) == Some(x)
      ensures v'.owner[x].Doomed? ==> v'.owner[x].t < |s'.threads| && x in v'.doomed[v'.owner[x].t]
    {
      OwnerKept(s, v, s', v', t, x);
    }
    forall u | 0 <= u < |s'.threads|
      ensures Distinct(v'.doomed[u]) && forall x :: x in v'.doomed[u] ==> Owns(v', x, Doomed(u))
    {
      if u != t {
        DoomedKept(s, v, s', v', t, u);
      }
    }
  }

  /** One node: either `t` answers for it, or its owner is the same as before. */
  lemma OwnerKept<T>(s: State<T>, v: View, s': State<T>, v': View, t: nat, x: NodeId)
    requires OwnerInv(s, v) && SameOthers(s, v, s', v', t) && HeapEvolves(s, v, s', v', t)
    requires OwnPart(s', v', t) && x in v'.owner
    ensures v'.owner[x].New? ==> v'.owner[x].t < |s'.threads| && s'.threads[v'.owner[x].t] == PushCas(x)
    ensures v'.owner[x].Held? ==>
              v'.owner[x].t < |s'.threads| && !s'.threads[v'.owner[x].t].PushCas? &&
              Private(s'.threads[v'.owner[x].t]) == Some(x)
    ensures v'.owner[x].Doomed? ==> v'.owner[x].t < |s'.threads| && x in v'.doomed[v'.owner[x].t]
  {
    if v'.owner[x] != New(t) && v'.owner[x] != Held(t) && v'.owner[x] != Doomed(t) {
      assert x in v.owner && Passes(t, v.owner[x], v'.owner[x]);
    }
  }

  lemma DoomedKept<T>(s: State<T>, v: View, s': State<T>, v': View, t: nat, u: nat)
    requires OwnerInv(s, v) && SameOthers(s, v, s', v', t) && HeapEvolves(s, v, s', v', t)
    requires u < |s.threads| && u != t
    ensures Distinct(v'.doomed[u]) && forall x :: x in v'.doomed[u] ==> Owns(v', x, Doomed(u))
  {
    assert forall x :: x in v.doomed[u] ==> Owns(v, x, Doomed(u));
  }

  lemma Assemble<T>(s: State<T>, v: View, s': State<T>, v': View, t: nat)
    requires Inv(s, v) && HeapInv(s', v') && Evolves(s, v, s', v', t)
    requires OwnPart(s', v', t) && Local(s', v', t)
    requires s'.threads == s.threads[t := s'.threads[t]]
    requires s'.popped == s.popped - (if InPop(s.threads[t]) then 1 else 0) + (if InPop(s'.threads[t]) then 1 else 0)
    ensures Inv(s', v')
  {
    PoppersUpdate(s.threads, t, s'.threads[t]);
    OwnersKept(s, v, s', v', t);
    OthersKeepLocal(s, v, s', v', t);
    forall u | 0 <= u < |s'.threads|
      ensures Local(s', v', u)
    {
    }
  }

  // ---------------------------------------------------------------- steps that move only a program counter

  lemma OwnPartOf<T>(s: State<T>, v: View, t: nat)
    requires Inv(s, v) && t < |s.threads|
    ensures OwnPart(s, v, t)
  {
  }

  /** The nodes the other threads refer to are not being deleted. */
  ghost predicate OthersSafe<T>(s: State<T>, v: View, t: nat) {
    forall u :: 0 <= u < |s.threads| && u != t && Ref(s.threads[u]).Some? ==> Safe(v, Ref(s.threads[u]).value)
  }

  lemma RefsAreSafe<T>(s: State<T>, v: View, t: nat)
    requires |v.doomed| == |s.threads| && LocalInv(s, v)
    ensures OthersSafe(s, v, t)
  {
    forall u | 0 <= u < |s.threads| && u != t && Ref(s.threads[u]).Some?
      ensures Safe(v, Ref(s.threads[u]).value)
    {
      assert Local(s, v, u);
    }
  }

  /** `t` moves to `pc`, `popped_count` follows, and nothing else changes. */
  lemma MoveKeepsInv<T>(s: State<T>, v: View, t: nat, pc: Pc<T>, popped: int)
    requires Inv(s, v) && t < |s.threads|
    requires Private(pc) == Private(s.threads[t]) && !pc.PushCas? && !s.threads[t].PushCas?
    requires Local(Goto(s, t, pc), v, t)
    requires popped == s.popped - (if InPop(s.threads[t]) then 1 else 0) + (if InPop(pc) then 1 else 0)
    requires Ref(pc).Some? && Ref(pc) != Ref(s.threads[t]) ==> Owns(v, Ref(pc).value, Stacked)
    ensures Inv(Goto(s, t, pc).(popped := popped), v)
  {
    var s' := Goto(s, t, pc).(popped := popped);
    MoveEvolves(s, v, t, pc, popped);
    MoveKeepsOwn(s, v, t, pc, popped);
    assert HeapInv(s', v);
    Assemble(s, v, s', v, t);
  }

  lemma MoveEvolves<T>(s: State<T>, v: View, t: nat, pc: Pc<T>, popped: int)
    requires |v.doomed| == |s.threads| && LocalInv(s, v) && t < |s.threads|
    requires Ref(pc).Some? && Ref(pc) != Ref(s.threads[t]) ==> Owns(v, Ref(pc).value, Stacked)
    ensures Evolves(s, v, Goto(s, t, pc).(popped := popped), v, t)
  {
    RefsAreSafe(s, v, t);
  }

  lemma MoveKeepsOwn<T>(s: State<T>, v: View, t: nat, pc: Pc<T>, popped: int)
    requires OwnerInv(s, v) && t < |s.threads|
    requires Private(pc) == Private(s.threads[t]) && !pc.PushCas? && !s.threads[t].PushCas?
    ensures OwnPart(Goto(s, t, pc).(popped := popped), v, t)
  {
  }

  lemma CountedAlone<T>(s: State<T>, v: View, t: nat, taken: Option<Taken<T>>, head: NodeId)
    requires Inv(s, v) && t < |s.threads| && s.threads[t] == FreeCount(taken, head) && s.popped == 1
    ensures Inv(Goto(s, t, FreeCas(taken, head)), v)
  {
    assert Local(s, v, t);
    var s' := Goto(s, t, FreeCas(taken, head));
    NoOtherRefs(s.threads, t);
    MoveKeepsInv(s, v, t, FreeCas(taken, head), s.popped);
  }

  // ---------------------------------------------------------------- lists

  lemma ListGainsHead<T>(
    heap: map<NodeId, Node<T>>, head: Option<NodeId>, nodes: seq<NodeId>, owner: map<NodeId, Owner>, who: Owner,
    n: NodeId)
    requires OwnedList(heap, head, nodes, owner, who)
    requires n in owner && owner[n] != who && n in heap && heap[n].next == head
    ensures OwnedList(heap, Some(n), [n] + nodes, owner[n := who], who)
  {
    var longer := [n] + nodes;
    assert forall i :: 0 < i < |longer| ==> longer[i] == nodes[i - 1];
    assert forall i :: 0 <= i < |longer| ==> At(longer, i + 1) == At(nodes, i);
    assert n !in nodes;
  }

  lemma ListLosesHead<T>(
    heap: map<NodeId, Node<T>>, head: Option<NodeId>, nodes: seq<NodeId>, owner: map<NodeId, Owner>, who: Owner,
    who': Owner)
    requires OwnedList(heap, head, nodes, owner, who) && head.Some? && who' != who
    ensures nodes != [] && nodes[0] == head.value && head.value in heap
    ensures heap[head.value].next == At(nodes, 1)
    ensures OwnedList(heap, heap[head.value].next, nodes[1..], owner[head.value := who'], who)
  {
    var rest := nodes[1..];
    assert nodes == [head.value] + rest;
    assert forall i :: 0 <= i < |rest| ==> rest[i] == nodes[i + 1];
    assert forall i :: 0 <= i <= |rest| ==> At(rest, i) == At(nodes, i + 1);
    assert head.value !in rest;
  }

  lemma DropHead(nodes: seq<NodeId>)
    requires nodes != [] && Distinct(nodes)
    ensures Distinct(nodes[1..])
    ensures forall x :: x in nodes[1..] <==> x in nodes && x != nodes[0]
  {
    assert nodes == [nodes[0]] + nodes[1..];
  }

  lemma LinkedTail<T>(heap: map<NodeId, Node<T>>, head: Option<NodeId>, nodes: seq<NodeId>)
    requires nodes != [] && Linked(heap, head, nodes)
    ensures head == Some(nodes[0]) && nodes[0] in heap && heap[nodes[0]].next == At(nodes, 1)
    ensures Linked(heap, At(nodes, 1), nodes[1..]) && At(nodes[1..], 0) == At(nodes, 1)
  {
    var rest := nodes[1..];
    assert forall i :: 0 <= i < |rest| ==> rest[i] == nodes[i + 1];
    assert forall i :: 0 <= i <= |rest| ==> At(rest, i) == At(nodes, i + 1);
  }

  /** The list of `who` does not notice changes to other nodes. */
  lemma ListKept<T>(
    heap: map<NodeId, Node<T>>, head: Option<NodeId>, nodes: seq<NodeId>, owner: map<NodeId, Owner>, who: Owner,
    heap': map<NodeId, Node<T>>, owner': map<NodeId, Owner>)
    requires OwnedList(heap, head, nodes, owner, who)
    requires forall x :: x in owner && owner[x] == who ==>
               x in owner' && owner'[x] == who && (x in heap ==> x in heap' && heap'[x].next == heap[x].next)
    requires forall x :: x in owner' && owner'[x] == who ==> x in owner && owner[x] == who
    ensures OwnedList(heap', head, nodes, owner', who)
  {
    assert forall i :: 0 <= i < |nodes| ==> nodes[i] in nodes;
  }

  // ---------------------------------------------------------------- steps on the heap and the lists

  /** `push` has loaded the top and allocated its node. */
  ghost predicate Alloc<T>(s: State<T>, v: View, t: nat, value: T, s': State<T>, v': View)
  {
    && t < |s.threads| == |v.doomed|
    && s.threads[t] == PushStart(value)
    && s' == Goto(s, t, PushCas(s.nextId)).(heap := s.heap[s.nextId := Node(value, s.stack)], nextId := s.nextId + 1)
    && v' == v.(owner := v.owner[s.nextId := New(t)])
  }

  lemma AllocKeepsHeap<T>(s: State<T>, v: View, t: nat, value: T, s': State<T>, v': View)
    requires Alloc(s, v, t, value, s', v') && HeapInv(s, v)
    ensures HeapInv(s', v')
  {
    assert s.nextId !in v.owner;
    AllocKeepsLists(s, v, t, value, s', v');
  }

  lemma AllocKeepsLists<T>(s: State<T>, v: View, t: nat, value: T, s': State<T>, v': View)
    requires Alloc(s, v, t, value, s', v') && HeapInv(s, v)
    ensures OwnedList(s'.heap, s'.stack, v'.stacked, v'.owner, Stacked)
    ensures OwnedList(s'.heap, s'.free, v'.retired, v'.owner, Retired)
  {
    assert s.nextId !in v.owner;
    ListKept(s.heap, s.stack, v.stacked, v.owner, Stacked, s'.heap, v'.owner);
    ListKept(s.heap, s.free, v.retired, v.owner, Retired, s'.heap, v'.owner);
  }

  lemma AllocEvolves<T>(s: State<T>, v: View, t: nat, value: T, s': State<T>, v': View)
    requires Alloc(s, v, t, value, s', v') && OthersSafe(s, v, t)
    requires s.nextId !in v.owner && s.nextId !in s.heap
    ensures Evolves(s, v, s', v', t)
  {
  }

  lemma AllocKeepsOwn<T>(s: State<T>, v: View, t: nat, value: T, s': State<T>, v': View)
    requires Alloc(s, v, t, value, s', v') && OwnPart(s, v, t) && s.nextId !in v.owner
    ensures |v'.doomed| == |s'.threads| && OwnPart(s', v', t)
  {
  }

  lemma AllocKeepsLocal<T>(s: State<T>, v: View, t: nat, value: T, s': State<T>, v': View)
    requires Alloc(s, v, t, value, s', v') && HeapInv(s, v) && OwnPart(s, v, t) && Local(s, v, t)
    ensures |v'.doomed| == |s'.threads| && Local(s', v', t)
  {
  }

  lemma AllocKeepsInv<T>(s: State<T>, v: View, t: nat, value: T, s': State<T>, v': View)
    requires Alloc(s, v, t, value, s', v') && Inv(s, v)
    requires s'.popped == s.popped - (if InPop(s.threads[t]) then 1 else 0) + (if InPop(s'.threads[t]) then 1 else 0)
    ensures Inv(s', v')
  {
    assert Local(s, v, t);
    OwnPartOf(s, v, t);
    AllocKeepsHeap(s, v, t, value, s', v');
    RefsAreSafe(s, v, t);
    AllocEvolves(s, v, t, value, s', v');
    AllocKeepsOwn(s, v, t, value, s', v');
    AllocKeepsLocal(s, v, t, value, s', v');
    Assemble(s, v, s', v', t);
  }

  /** The link of a node on neither list is rewritten. */
  ghost predicate Relink<T>(s: State<T>, v: View, t: nat, n: NodeId, next: Option<NodeId>, s': State<T>, v': View)
  {
    && t < |s.threads| == |v.doomed|
    && (Owns(v, n, New(t)) || Owns(v, n, Held(t))) && n in s.heap
    && s' == s.(heap := SetNext(s.heap, n, next))
    && v' == v
  }

  lemma RelinkKeepsHeap<T>(s: State<T>, v: View, t: nat, n: NodeId, next: Option<NodeId>, s': State<T>, v': View)
    requires Relink(s, v, t, n, next, s', v') && HeapInv(s, v)
    ensures HeapInv(s', v')
  {
    ListKept(s.heap, s.stack, v.stacked, v.owner, Stacked, s'.heap, v'.owner);
    ListKept(s.heap, s.free, v.retired, v.owner, Retired, s'.heap, v'.owner);
  }

  lemma RelinkEvolves<T>(s: State<T>, v: View, t: nat, n: NodeId, next: Option<NodeId>, s': State<T>, v': View)
    requires Relink(s, v, t, n, next, s', v') && OthersSafe(s, v, t)
    ensures Evolves(s, v, s', v', t)
  {
  }

  lemma RelinkKeepsOwn<T>(s: State<T>, v: View, t: nat, n: NodeId, next: Option<NodeId>, s': State<T>, v': View)
    requires Relink(s, v, t, n, next, s', v') && OwnPart(s, v, t)
    ensures |v'.doomed| == |s'.threads| && OwnPart(s', v', t)
  {
    assert forall i :: 0 <= i < |v.doomed[t]| ==> v.doomed[t][i] in v.doomed[t];
    assert n !in v.doomed[t];
  }

  lemma RelinkKeepsLocal<T>(s: State<T>, v: View, t: nat, n: NodeId, next: Option<NodeId>, s': State<T>, v': View)
    requires Relink(s, v, t, n, next, s', v') && HeapInv(s, v) && OwnPart(s, v, t) && Local(s, v, t)
    ensures |v'.doomed| == |s'.threads| && Local(s', v', t)
  {
    assert forall i :: 0 <= i < |v.doomed[t]| ==> v.doomed[t][i] in v.doomed[t];
    assert n !in v.doomed[t];
  }

  lemma RelinkKeepsInv<T>(s: State<T>, v: View, t: nat, n: NodeId, next: Option<NodeId>, s': State<T>, v': View)
    requires Relink(s, v, t, n, next, s', v') && Inv(s, v)
    requires s'.popped == s.popped - (if InPop(s.threads[t]) then 1 else 0) + (if InPop(s'.threads[t]) then 1 else 0)
    ensures Inv(s', v')
  {
    assert Local(s, v, t);
    OwnPartOf(s, v, t);
    RelinkKeepsHeap(s, v, t, n, next, s', v');
    RefsAreSafe(s, v, t);
    RelinkEvolves(s, v, t, n, next, s', v');
    RelinkKeepsOwn(s, v, t, n, next, s', v');
    RelinkKeepsLocal(s, v, t, n, next, s', v');
    Assemble(s, v, s', v', t);
  }

  /** The CAS of `push` succeeds. */
  ghost predicate Push<T>(s: State<T>, v: View, t: nat, n: NodeId, s': State<T>, v': View)
  {
    && t < |s.threads| == |v.doomed|
    && s.threads[t] == PushCas(n) && n in s.heap && s.stack == s.heap[n].next
    && s' == Goto(s, t, PushReturn).(stack := Some(n))
    && v' == v.(owner := v.owner[n := Stacked], stacked := [n] + v.stacked)
  }

  lemma PushKeepsHeap<T>(s: State<T>, v: View, t: nat, n: NodeId, s': State<T>, v': View)
    requires Push(s, v, t, n, s', v') && HeapInv(s, v) && Owns(v, n, New(t))
    ensures HeapInv(s', v')
  {
    PushKeepsLists(s, v, t, n, s', v');
  }

  lemma PushKeepsLists<T>(s: State<T>, v: View, t: nat, n: NodeId, s': State<T>, v': View)
    requires Push(s, v, t, n, s', v') && HeapInv(s, v) && Owns(v, n, New(t))
    ensures OwnedList(s'.heap, s'.stack, v'.stacked, v'.owner, Stacked)
    ensures OwnedList(s'.heap, s'.free, v'.retired, v'.owner, Retired)
  {
    ListGainsHead(s.heap, s.stack, v.stacked, v.owner, Stacked, n);
    ListKept(s.heap, s.free, v.retired, v.owner, Retired, s'.heap, v'.owner);
  }

  lemma PushEvolves<T>(s: State<T>, v: View, t: nat, n: NodeId, s': State<T>, v': View)
    requires Push(s, v, t, n, s', v') && OthersSafe(s, v, t)
    requires Owns(v, n, New(t))
    ensures Evolves(s, v, s', v', t)
  {
  }

  lemma PushKeepsOwn<T>(s: State<T>, v: View, t: nat, n: NodeId, s': State<T>, v': View)
    requires Push(s, v, t, n, s', v') && OwnPart(s, v, t) && v.doomed[t] == []
    ensures |v'.doomed| == |s'.threads| && OwnPart(s', v', t)
  {
  }

  lemma PushKeepsLocal<T>(s: State<T>, v: View, t: nat, n: NodeId, s': State<T>, v': View)
    requires Push(s, v, t, n, s', v') && HeapInv(s, v) && OwnPart(s, v, t) && Local(s, v, t)
    ensures |v'.doomed| == |s'.threads| && Local(s', v', t)
  {
  }

  lemma PushKeepsInv<T>(s: State<T>, v: View, t: nat, n: NodeId, s': State<T>, v': View)
    requires Push(s, v, t, n, s', v') && Inv(s, v)
    requires s'.popped == s.popped - (if InPop(s.threads[t]) then 1 else 0) + (if InPop(s'.threads[t]) then 1 else 0)
    ensures Inv(s', v')
  {
    assert Local(s, v, t);
    OwnPartOf(s, v, t);
    PushKeepsHeap(s, v, t, n, s', v');
    RefsAreSafe(s, v, t);
    PushEvolves(s, v, t, n, s', v');
    PushKeepsOwn(s, v, t, n, s', v');
    PushKeepsLocal(s, v, t, n, s', v');
    Assemble(s, v, s', v', t);
  }

  /** The CAS of `pop` succeeds. */
  ghost predicate Unlink<T>(s: State<T>, v: View, t: nat, c: NodeId, next: Option<NodeId>, s': State<T>, v': View)
  {
    && t < |s.threads| == |v.doomed|
    && s.threads[t] == PopCas(c, next) && s.stack == Some(c) && v.stacked != []
    && s' == Goto(s, t, PopTake(c)).(stack := next)
    && v' == v.(owner := v.owner[c := Held(t)], stacked := v.stacked[1..])
  }

  lemma UnlinkKeepsHeap<T>(s: State<T>, v: View, t: nat, c: NodeId, next: Option<NodeId>, s': State<T>, v': View)
    requires Unlink(s, v, t, c, next, s', v') && HeapInv(s, v) && c in s.heap
    requires Owns(v, c, Stacked) && s.heap[c].next == next
    ensures HeapInv(s', v')
  {
    UnlinkKeepsLists(s, v, t, c, next, s', v');
  }

  lemma UnlinkKeepsLists<T>(s: State<T>, v: View, t: nat, c: NodeId, next: Option<NodeId>, s': State<T>, v': View)
    requires Unlink(s, v, t, c, next, s', v') && HeapInv(s, v) && c in s.heap
    requires Owns(v, c, Stacked) && s.heap[c].next == next
    ensures OwnedList(s'.heap, s'.stack, v'.stacked, v'.owner, Stacked)
    ensures OwnedList(s'.heap, s'.free, v'.retired, v'.owner, Retired)
  {
    ListLosesHead(s.heap, s.stack, v.stacked, v.owner, Stacked, Held(t));
    assert c in v.stacked;
    ListKept(s.heap, s.free, v.retired, v.owner, Retired, s'.heap, v'.owner);
  }

  lemma UnlinkEvolves<T>(s: State<T>, v: View, t: nat, c: NodeId, next: Option<NodeId>, s': State<T>, v': View)
    requires Unlink(s, v, t, c, next, s', v') && OthersSafe(s, v, t)
    requires Owns(v, c, Stacked)
    ensures Evolves(s, v, s', v', t)
  {
  }

  lemma UnlinkKeepsOwn<T>(s: State<T>, v: View, t: nat, c: NodeId, next: Option<NodeId>, s': State<T>, v': View)
    requires Unlink(s, v, t, c, next, s', v') && OwnPart(s, v, t) && v.doomed[t] == []
    ensures |v'.doomed| == |s'.threads| && OwnPart(s', v', t)
  {
  }

  lemma UnlinkKeepsLocal<T>(s: State<T>, v: View, t: nat, c: NodeId, next: Option<NodeId>, s': State<T>, v': View)
    requires Unlink(s, v, t, c, next, s', v') && HeapInv(s, v) && OwnPart(s, v, t) && Local(s, v, t)
    ensures |v'.doomed| == |s'.threads| && Local(s', v', t)
  {
  }

  lemma UnlinkerEvolves<T>(s: State<T>, v: View, t: nat, c: NodeId, next: Option<NodeId>, s': State<T>, v': View)
    requires Unlink(s, v, t, c, next, s', v') && LocalInv(s, v) && Owns(v, c, Stacked)
    ensures Evolves(s, v, s', v', t)
  {
    RefsAreSafe(s, v, t);
    UnlinkEvolves(s, v, t, c, next, s', v');
  }

  lemma HeadIsStacked<T>(s: State<T>, v: View, c: NodeId)
    requires HeapInv(s, v) && s.stack == Some(c) && v.stacked != []
    ensures Owns(v, c, Stacked)
  {
    assert v.stacked[0] in v.stacked;
  }

  lemma UnlinkKeepsInv<T>(s: State<T>, v: View, t: nat, c: NodeId, next: Option<NodeId>, s': State<T>, v': View)
    requires Unlink(s, v, t, c, next, s', v') && Inv(s, v)
    requires s'.popped == s.popped - (if InPop(s.threads[t]) then 1 else 0) + (if InPop(s'.threads[t]) then 1 else 0)
    ensures Inv(s', v')
  {
    assert Local(s, v, t);
    OwnPartOf(s, v, t);
    HeadIsStacked(s, v, c);
    UnlinkKeepsHeap(s, v, t, c, next, s', v');
    UnlinkerEvolves(s, v, t, c, next, s', v');
    UnlinkKeepsOwn(s, v, t, c, next, s', v');
    UnlinkKeepsLocal(s, v, t, c, next, s', v');
    Assemble(s, v, s', v', t);
  }

  function DoomRetired(owner: map<NodeId, Owner>, t: nat): map<NodeId, Owner> {
    map x | x in owner :: if owner[x] == Retired then Doomed(t) else owner[x]
  }

  /** The CAS that takes the whole free list succeeds. */
  ghost predicate Grab<T>(s: State<T>, v: View, t: nat, taken: Option<Taken<T>>, head: NodeId, s': State<T>, v': View)
  {
    && t < |s.threads| == |v.doomed|
    && s.threads[t] == FreeCas(taken, head) && s.free == Some(head)
    && s' == Goto(s, t, EraseRead(taken, head)).(free := None)
    && v' == v.(owner := DoomRetired(v.owner, t), retired := [], doomed := v.doomed[t := v.retired])
  }

  lemma GrabKeepsHeap<T>(s: State<T>, v: View, t: nat, taken: Option<Taken<T>>, head: NodeId, s': State<T>, v': View)
    requires Grab(s, v, t, taken, head, s', v') && HeapInv(s, v)
    ensures HeapInv(s', v')
  {
    ListKept(s.heap, s.stack, v.stacked, v.owner, Stacked, s'.heap, v'.owner);
  }

  lemma GrabEvolves<T>(s: State<T>, v: View, t: nat, taken: Option<Taken<T>>, head: NodeId, s': State<T>, v': View)
    requires Grab(s, v, t, taken, head, s', v') && OthersSafe(s, v, t)
    requires NoRefsToRetired(s, v, t)
    ensures Evolves(s, v, s', v', t)
  {
  }

  lemma GrabKeepsOwn<T>(s: State<T>, v: View, t: nat, taken: Option<Taken<T>>, head: NodeId, s': State<T>, v': View)
    requires Grab(s, v, t, taken, head, s', v') && OwnPart(s, v, t)
    requires v.doomed[t] == [] && Distinct(v.retired) && (forall x :: x in v.retired <==> Owns(v, x, Retired))
    ensures |v'.doomed| == |s'.threads| && OwnPart(s', v', t)
  {
  }

  lemma GrabKeepsLocal<T>(s: State<T>, v: View, t: nat, taken: Option<Taken<T>>, head: NodeId, s': State<T>, v': View)
    requires Grab(s, v, t, taken, head, s', v') && HeapInv(s, v) && OwnPart(s, v, t) && Local(s, v, t)
    ensures |v'.doomed| == |s'.threads| && Local(s', v', t)
  {
  }

  lemma GrabberIsAlone<T>(s: State<T>, v: View, t: nat, taken: Option<Taken<T>>, head: NodeId)
    requires t < |s.threads| == |v.doomed| && Local(s, v, t)
    requires s.threads[t] == FreeCas(taken, head) && s.free == Some(head)
    ensures NoRefsToRetired(s, v, t)
  {
  }

  lemma GrabberEvolves<T>(
    s: State<T>, v: View, t: nat, taken: Option<Taken<T>>, head: NodeId, s': State<T>, v': View)
    requires Grab(s, v, t, taken, head, s', v') && LocalInv(s, v)
    ensures Evolves(s, v, s', v', t)
  {
    assert Local(s, v, t);
    GrabberIsAlone(s, v, t, taken, head);
    RefsAreSafe(s, v, t);
    GrabEvolves(s, v, t, taken, head, s', v');
  }

  lemma GrabKeepsInv<T>(s: State<T>, v: View, t: nat, taken: Option<Taken<T>>, head: NodeId, s': State<T>, v': View)
    requires Grab(s, v, t, taken, head, s', v') && Inv(s, v)
    requires s'.popped == s.popped - (if InPop(s.threads[t]) then 1 else 0) + (if InPop(s'.threads[t]) then 1 else 0)
    ensures Inv(s', v')
  {
    assert Local(s, v, t);
    OwnPartOf(s, v, t);
    GrabKeepsHeap(s, v, t, taken, head, s', v');
    GrabberEvolves(s, v, t, taken, head, s', v');
    GrabKeepsOwn(s, v, t, taken, head, s', v');
    GrabKeepsLocal(s, v, t, taken, head, s', v');
    Assemble(s, v, s', v', t);
  }

  /** One node of a grabbed list is deleted. */
  ghost predicate Delete<T>(
    s: State<T>, v: View, t: nat, taken: Option<Taken<T>>, c: NodeId, next: Option<NodeId>, s': State<T>, v': View)
  {
    && t < |s.threads| == |v.doomed|
    && s.threads[t] == EraseDelete(taken, c, next) && v.doomed[t] != [] && v.doomed[t][0] == c
    && s' == Goto(s, t, if next == None then PopLeave(taken) else EraseRead(taken, next.value)).(
               freed := s.freed + multiset{c})
    && v' == v.(owner := v.owner[c := Gone], doomed := v.doomed[t := v.doomed[t][1..]])
  }

  lemma DeleteKeepsHeap<T>(
    s: State<T>, v: View, t: nat, taken: Option<Taken<T>>, c: NodeId, next: Option<NodeId>, s': State<T>, v': View)
    requires Delete(s, v, t, taken, c, next, s', v') && HeapInv(s, v) && Owns(v, c, Doomed(t))
    ensures HeapInv(s', v')
  {
    DeleteKeepsLists(s, v, t, taken, c, next, s', v');
  }

  lemma DeleteKeepsLists<T>(
    s: State<T>, v: View, t: nat, taken: Option<Taken<T>>, c: NodeId, next: Option<NodeId>, s': State<T>, v': View)
    requires Delete(s, v, t, taken, c, next, s', v') && HeapInv(s, v) && Owns(v, c, Doomed(t))
    ensures OwnedList(s'.heap, s'.stack, v'.stacked, v'.owner, Stacked)
    ensures OwnedList(s'.heap, s'.free, v'.retired, v'.owner, Retired)
  {
    ListKept(s.heap, s.stack, v.stacked, v.owner, Stacked, s'.heap, v'.owner);
    ListKept(s.heap, s.free, v.retired, v.owner, Retired, s'.heap, v'.owner);
  }

  lemma DeleteEvolves<T>(
    s: State<T>, v: View, t: nat, taken: Option<Taken<T>>, c: NodeId, next: Option<NodeId>, s': State<T>, v': View)
    requires Delete(s, v, t, taken, c, next, s', v') && OthersSafe(s, v, t)
    requires Owns(v, c, Doomed(t))
    ensures Evolves(s, v, s', v', t)
  {
  }

  lemma DeleteKeepsOwn<T>(
    s: State<T>, v: View, t: nat, taken: Option<Taken<T>>, c: NodeId, next: Option<NodeId>, s': State<T>, v': View)
    requires Delete(s, v, t, taken, c, next, s', v') && OwnPart(s, v, t)
    ensures |v'.doomed| == |s'.threads| && OwnPart(s', v', t)
  {
    DropHead(v.doomed[t]);
  }

  lemma DeleteKeepsLocal<T>(
    s: State<T>, v: View, t: nat, taken: Option<Taken<T>>, c: NodeId, next: Option<NodeId>, s': State<T>, v': View)
    requires Delete(s, v, t, taken, c, next, s', v') && HeapInv(s, v) && OwnPart(s, v, t) && Local(s, v, t)
    ensures |v'.doomed| == |s'.threads| && Local(s', v', t)
  {
    LinkedTail(s.heap, Some(c), v.doomed[t]);
    assert c in v.doomed[t] && Owns(v, c, Doomed(t));
    assert HoldsTaken(s', v', t, taken);
    if next == None {
      assert v.doomed[t][1..] == [];
    }
  }

  lemma DeleteKeepsInv<T>(
    s: State<T>, v: View, t: nat, taken: Option<Taken<T>>, c: NodeId, next: Option<NodeId>, s': State<T>, v': View)
    requires Delete(s, v, t, taken, c, next, s', v') && Inv(s, v)
    requires s'.popped == s.popped - (if InPop(s.threads[t]) then 1 else 0) + (if InPop(s'.threads[t]) then 1 else 0)
    ensures Inv(s', v')
  {
    assert Local(s, v, t);
    OwnPartOf(s, v, t);
    assert c in v.doomed[t];
    DeleteKeepsHeap(s, v, t, taken, c, next, s', v');
    RefsAreSafe(s, v, t);
    DeleteEvolves(s, v, t, taken, c, next, s', v');
    DeleteKeepsOwn(s, v, t, taken, c, next, s', v');
    DeleteKeepsLocal(s, v, t, taken, c, next, s', v');
    Assemble(s, v, s', v', t);
  }

  /** The last thread leaves `pop` with an unlinked node. */
  ghost predicate LastLeave<T>(s: State<T>, v: View, t: nat, own: Taken<T>, s': State<T>, v': View)
  {
    && t < |s.threads| == |v.doomed|
    && s.threads[t] == PopLeave(Some(own)) && s.popped == Poppers(s.threads) == 1
    && s' == Goto(s, t, DeleteOwn(own)).(popped := 0)
    && v' == v.(owner := v.owner[own.node := Doomed(t)], doomed := v.doomed[t := [own.node]])
  }

  lemma LastLeaveKeepsHeap<T>(s: State<T>, v: View, t: nat, own: Taken<T>, s': State<T>, v': View)
    requires LastLeave(s, v, t, own, s', v') && HeapInv(s, v) && Owns(v, own.node, Held(t))
    ensures HeapInv(s', v')
  {
    LastLeaveKeepsLists(s, v, t, own, s', v');
  }

  lemma LastLeaveKeepsLists<T>(s: State<T>, v: View, t: nat, own: Taken<T>, s': State<T>, v': View)
    requires LastLeave(s, v, t, own, s', v') && HeapInv(s, v) && Owns(v, own.node, Held(t))
    ensures OwnedList(s'.heap, s'.stack, v'.stacked, v'.owner, Stacked)
    ensures OwnedList(s'.heap, s'.free, v'.retired, v'.owner, Retired)
  {
    ListKept(s.heap, s.stack, v.stacked, v.owner, Stacked, s'.heap, v'.owner);
    ListKept(s.heap, s.free, v.retired, v.owner, Retired, s'.heap, v'.owner);
  }

  lemma LastLeaveEvolves<T>(s: State<T>, v: View, t: nat, own: Taken<T>, s': State<T>, v': View)
    requires LastLeave(s, v, t, own, s', v') && LocalInv(s, v)
    ensures Evolves(s, v, s', v', t)
  {
    assert Local(s, v, t);
    NoOtherRefs(s.threads, t);
  }

  lemma LastLeaveKeepsOwn<T>(s: State<T>, v: View, t: nat, own: Taken<T>, s': State<T>, v': View)
    requires LastLeave(s, v, t, own, s', v') && OwnPart(s, v, t) && v.doomed[t] == []
    ensures |v'.doomed| == |s'.threads| && OwnPart(s', v', t)
  {
  }

  lemma LastLeaveKeepsLocal<T>(s: State<T>, v: View, t: nat, own: Taken<T>, s': State<T>, v': View)
    requires LastLeave(s, v, t, own, s', v') && HeapInv(s, v) && OwnPart(s, v, t) && Local(s, v, t)
    ensures |v'.doomed| == |s'.threads| && Local(s', v', t)
  {
  }

  lemma LastLeaveKeepsInv<T>(s: State<T>, v: View, t: nat, own: Taken<T>, s': State<T>, v': View)
    requires LastLeave(s, v, t, own, s', v') && Inv(s, v)
    requires s'.popped == s.popped - (if InPop(s.threads[t]) then 1 else 0) + (if InPop(s'.threads[t]) then 1 else 0)
    ensures Inv(s', v')
  {
    assert Local(s, v, t);
    OwnPartOf(s, v, t);
    LastLeaveKeepsHeap(s, v, t, own, s', v');
    LastLeaveEvolves(s, v, t, own, s', v');
    LastLeaveKeepsOwn(s, v, t, own, s', v');
    LastLeaveKeepsLocal(s, v, t, own, s', v');
    Assemble(s, v, s', v', t);
  }

  /** That thread deletes its node. */
  ghost predicate DropOwn<T>(s: State<T>, v: View, t: nat, own: Taken<T>, s': State<T>, v': View)
  {
    && t < |s.threads| == |v.doomed|
    && s.threads[t] == DeleteOwn(own)
    && s' == Goto(s, t, PopReturn(Some(own.value))).(freed := s.freed + multiset{own.node})
    && v' == v.(owner := v.owner[own.node := Gone], doomed := v.doomed[t := []])
  }

  lemma DropOwnKeepsHeap<T>(s: State<T>, v: View, t: nat, own: Taken<T>, s': State<T>, v': View)
    requires DropOwn(s, v, t, own, s', v') && HeapInv(s, v) && Owns(v, own.node, Doomed(t))
    ensures HeapInv(s', v')
  {
    DropOwnKeepsLists(s, v, t, own, s', v');
  }

  lemma DropOwnKeepsLists<T>(s: State<T>, v: View, t: nat, own: Taken<T>, s': State<T>, v': View)
    requires DropOwn(s, v, t, own, s', v') && HeapInv(s, v) && Owns(v, own.node, Doomed(t))
    ensures OwnedList(s'.heap, s'.stack, v'.stacked, v'.owner, Stacked)
    ensures OwnedList(s'.heap, s'.free, v'.retired, v'.owner, Retired)
  {
    ListKept(s.heap, s.stack, v.stacked, v.owner, Stacked, s'.heap, v'.owner);
    ListKept(s.heap, s.free, v.retired, v.owner, Retired, s'.heap, v'.owner);
  }

  lemma DropOwnEvolves<T>(s: State<T>, v: View, t: nat, own: Taken<T>, s': State<T>, v': View)
    requires DropOwn(s, v, t, own, s', v') && OthersSafe(s, v, t)
    requires Owns(v, own.node, Doomed(t))
    ensures Evolves(s, v, s', v', t)
  {
  }

  lemma DropOwnKeepsOwn<T>(s: State<T>, v: View, t: nat, own: Taken<T>, s': State<T>, v': View)
    requires DropOwn(s, v, t, own, s', v') && OwnPart(s, v, t) && v.doomed[t] == [own.node]
    ensures |v'.doomed| == |s'.threads| && OwnPart(s', v', t)
  {
    assert own.node in v.doomed[t];
  }

  lemma DropOwnKeepsLocal<T>(s: State<T>, v: View, t: nat, own: Taken<T>, s': State<T>, v': View)
    requires DropOwn(s, v, t, own, s', v') && HeapInv(s, v) && OwnPart(s, v, t) && Local(s, v, t)
    ensures |v'.doomed| == |s'.threads| && Local(s', v', t)
  {
    assert own.node in v.doomed[t];
  }

  lemma DropOwnKeepsInv<T>(s: State<T>, v: View, t: nat, own: Taken<T>, s': State<T>, v': View)
    requires DropOwn(s, v, t, own, s', v') && Inv(s, v)
    requires s'.popped == s.popped - (if InPop(s.threads[t]) then 1 else 0) + (if InPop(s'.threads[t]) then 1 else 0)
    ensures Inv(s', v')
  {
    assert Local(s, v, t);
    OwnPartOf(s, v, t);
    assert own.node in v.doomed[t];
    DropOwnKeepsHeap(s, v, t, own, s', v');
    RefsAreSafe(s, v, t);
    DropOwnEvolves(s, v, t, own, s', v');
    DropOwnKeepsOwn(s, v, t, own, s', v');
    DropOwnKeepsLocal(s, v, t, own, s', v');
    Assemble(s, v, s', v', t);
  }

  /** The CAS that defers the deletion succeeds. */
  ghost predicate Retire<T>(s: State<T>, v: View, t: nat, own: Taken<T>, s': State<T>, v': View)
  {
    && t < |s.threads| == |v.doomed|
    && s.threads[t] == RetireCas(own) && own.node in s.heap && s.free == s.heap[own.node].next
    && s' == Goto(s, t, PopReturn(Some(own.value))).(free := Some(own.node))
    && v' == v.(owner := v.owner[own.node := Retired], retired := [own.node] + v.retired)
  }

  lemma RetireKeepsHeap<T>(s: State<T>, v: View, t: nat, own: Taken<T>, s': State<T>, v': View)
    requires Retire(s, v, t, own, s', v') && HeapInv(s, v) && Owns(v, own.node, Held(t))
    ensures HeapInv(s', v')
  {
    RetireKeepsLists(s, v, t, own, s', v');
  }

  lemma RetireKeepsLists<T>(s: State<T>, v: View, t: nat, own: Taken<T>, s': State<T>, v': View)
    requires Retire(s, v, t, own, s', v') && HeapInv(s, v) && Owns(v, own.node, Held(t))
    ensures OwnedList(s'.heap, s'.stack, v'.stacked, v'.owner, Stacked)
    ensures OwnedList(s'.heap, s'.free, v'.retired, v'.owner, Retired)
  {
    ListGainsHead(s.heap, s.free, v.retired, v.owner, Retired, own.node);
    ListKept(s.heap, s.stack, v.stacked, v.owner, Stacked, s'.heap, v'.owner);
  }

  lemma RetireEvolves<T>(s: State<T>, v: View, t: nat, own: Taken<T>, s': State<T>, v': View)
    requires Retire(s, v, t, own, s', v') && OthersSafe(s, v, t)
    requires Owns(v, own.node, Held(t)) && (s.free.Some? ==> Owns(v, s.free.value, Retired))
    ensures Evolves(s, v, s', v', t)
  {
  }

  lemma RetireKeepsOwn<T>(s: State<T>, v: View, t: nat, own: Taken<T>, s': State<T>, v': View)
    requires Retire(s, v, t, own, s', v') && OwnPart(s, v, t) && v.doomed[t] == []
    ensures |v'.doomed| == |s'.threads| && OwnPart(s', v', t)
  {
  }

  lemma RetireKeepsLocal<T>(s: State<T>, v: View, t: nat, own: Taken<T>, s': State<T>, v': View)
    requires Retire(s, v, t, own, s', v') && HeapInv(s, v) && OwnPart(s, v, t) && Local(s, v, t)
    ensures |v'.doomed| == |s'.threads| && Local(s', v', t)
  {
  }

  lemma RetireKeepsInv<T>(s: State<T>, v: View, t: nat, own: Taken<T>, s': State<T>, v': View)
    requires Retire(s, v, t, own, s', v') && Inv(s, v)
    requires s'.popped == s.popped - (if InPop(s.threads[t]) then 1 else 0) + (if InPop(s'.threads[t]) then 1 else 0)
    ensures Inv(s', v')
  {
    assert Local(s, v, t);
    OwnPartOf(s, v, t);
    RetireKeepsHeap(s, v, t, own, s', v');
    assert s.free.Some? ==> s.free.value == v.retired[0] && v.retired[0] in v.retired;
    RefsAreSafe(s, v, t);
    RetireEvolves(s, v, t, own, s', v');
    RetireKeepsOwn(s, v, t, own, s', v');
    RetireKeepsLocal(s, v, t, own, s', v');
    Assemble(s, v, s', v', t);
  }

}
