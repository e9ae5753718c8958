# Proofs about the dsac data structures and protocols

This project models the algorithms and protocols of the dsac library in Dafny and proves what they
promise: over all inputs, all runs and all interleavings. `dafny verify dfyconfig.toml` checks everything.

## The parts

| part | modules | form |
|---|---|---|
| replicated register | `Register`, `RegisterCluster`, `RegisterStaleRead`, `RegisterProgress` | replica class, selection loop, step relation over n replicas and any number of coordinator operations |
| lock-free stack | `LockFreeStack`, `LockFreeStackProof`, `LockFreeStackTheorems`, `LockFreeStackProgress` | one step per atomic access, refinement of an atomic stack, progress |
| travelling salesman | `Bits`, `Combinations`, `HeldKarp` | methods over the `memo` array, specified by paths and tours |
| red-black tree | `RedBlackSpec`, `Shapes`, `RedBlackTree` | nodes with parent links, specified by functions on values |
| AVL tree | `AvlSpec`, `AvlDeletion`, `AvlRuns`, `AvlTree` | nodes with stored heights, specified by functions on values |
| binary search tree | `SortedSequences`, `BinarySearchTree` | nodes with parent links, iteration and destruction loops |
| futex mutex, cyclic barrier | `Counting`, `FutexMutex`, `CyclicBarrier` | step relations over any number of threads |
| futures | `FirstN`, `FutureChain` | step relations over the callbacks and shared states |
| graph algorithms | `BreadthFirstSearch`, `DisjointSets` | loops with a ghost search tree, a class over the parent array |
| LRU cache | `IntrusiveList`, `LruSpec`, `LruStale`, `LruCache` | nodes of a circular list, index and list in one class, traces of operations |
| DOT language | `DotLexer`, `DotSyntax`, `DotParser` | analyzer classes, specified by functions on texts and tokens |

Pointer structures are classes whose ghost `Shape` records which node is where. Each method's `ensures`
says that the new nodes stand for the specification function applied to the old ones; the properties are
then proved of the specification functions. Protocols are datatypes with an `Enabled` and an `Apply` per
step; theorems speak of all runs from the initial state. `Options` holds the optional value they share.

## What the model assumes, and where code and documentation part

- Keys and values of the templates are `int` or `nat` with their usual order, or a type parameter where no
  order is needed. Integers are unbounded unless said otherwise.
- Register: the comparison in `cluster.cpp:25` is kept as written, on the stored values. The documentation
  asks for the maximum by timestamp (`tests/test_spec_majority_quorum.py:5-9`). The two agree exactly when
  values grow with timestamps (`Register.FreshIsNewestIff`), and reads are atomic exactly then or with at
  most two replicas (`RegisterStaleRead.ReadsAreAtomicIff`). Replicas are not reset, and a counted response
  comes from a replica that served the request; late deliveries and lost requests are included, as requests
  may be served at any later time or never.
- Stack: atomic accesses are sequentially consistent, spurious failures of the weak compare-and-swap are
  included, and a deleted node's identity is not used again for a new node.
- Mutex: `FUTEX_WAIT` compares and sleeps in one step and may return at any time; `FUTEX_WAKE` wakes one
  sleeper of its choice.
- Barrier: the two branches of `arrive_and_wait` are atomic under the mutex. `notify_all` marks all waiters;
  only a marked waiter resumes, or one that resumes spuriously, and it returns if it finds its condition true
  and waits again otherwise. Liveness counts on notifications only. A size of zero is not considered: the
  counter would wrap around.
- Futures: atomic accesses are sequentially consistent, each shared state has one producer and one consumer,
  executors are fixed beforehand and run a submitted job at any later time. `first_n` with n = 0 never sets
  its promise (`FirstN.FulfilledIff`).
- Held-Karp: costs are mathematical integers, but INT_MAX remains the initial minimum, so the cheapest costs, of
  the paths in the table and of the tour, may not exceed it (`HeldKarp.Fits`). It suffices that the number of
  nodes times the largest absolute cost does not exceed it, and then no sum wraps around
  (`HeldKarp.SmallCostsFit`, `HeldKarp.SumsAreInts`). From eleven nodes on `std::stoi` throws
  (`Combinations.StoiFitsIff`), which is the result `None` or `false`.
- Red-black tree: `MaxDepth() / 2 <= MinDepth()` fails for the empty tree only, with C++ division
  (`RedBlackSpec.DepthsAreClose`).
- AVL tree: deletion rebalances with single rotations only and gives the successor of the deleted node no new
  height, so it does not always keep the balance; `AvlDeletion.DeletionKeepsBalanceIff` says when it does. On a
  tree that it has left unbalanced an insertion may dereference null; `AvlSpec.NullDereferencedIff` says when.
- Disjoint sets: the exception for a vertex out of range is the result `None` or `false`. The two calls of
  `Find` in `IsConnected` run from left to right.
- LRU cache: the capacity is at least one; with zero the code would dereference a null pointer. `put` of a
  present key promotes it and keeps the old value, as the tests of the library expect; hence a larger cache may
  answer with an older value, and `LruStale.SameHitsIff` says when it cannot.
- DOT: the header's grammar (`graphviz_syntax_analyzer.hpp:35-64`) allows identifiers only as attribute values
  and asks for a node on both sides of an edge; the code also accepts literals, and edges whose nodes are
  missing. The model follows the code: `None` stands for the null pointer of an empty statement. The printer
  puts a space after every token, since `-` belongs to identifiers. Text after the closing bracket is not
  looked at. Symbols are classified as in the "C" locale; all others end the token stream.

## Model

| member | source | states |
|---|---|---|
| Register.Stored | dsac/examples/dist.registry.replication/src/domains/register/infrastructure/inmemory/detail/register.cpp:13-22 | a write never lowers the timestamp a replica holds, ends at or above the incoming one, and leaves either the old or the incoming register |
| Register.StoredIsFirstNewest | dsac/examples/dist.registry.replication/src/domains/register/infrastructure/inmemory/detail/register.cpp:13-22 | after any write requests the replica holds the first of the newest values among them |
| Register.Replica.Write | dsac/examples/dist.registry.replication/src/domains/register/infrastructure/inmemory/detail/register.cpp:13-22 | the request joins those processed, and the new state is `Stored` of the old one, the first of the newest values so far |
| Register.Replica.Read | dsac/examples/dist.registry.replication/src/domains/register/infrastructure/inmemory/detail/register.cpp:24-27 | a read answers with the first of the newest values among all write requests processed, in whatever order they came, or that there have been none |
| Register.GetFreshSnapshot | dsac/examples/dist.registry.replication/src/domains/register/domain/cluster.cpp:15-31 | the selection loop computes the fold of `Choose` that starts at the first snapshot, error answers included |
| Register.FreshIsFirstLargestValue | dsac/examples/dist.registry.replication/src/domains/register/domain/cluster.cpp:20-30 | stated without the loop: the choice is the first of the snapshots with the largest value, and is an error answer only if all are |
| Register.FreshIsNewest | dsac/examples/dist.registry.replication/src/domains/register/domain/cluster.cpp:25 | if values grow with timestamps the choice has the largest timestamp |
| Register.FreshIsNewestIff | dsac/examples/dist.registry.replication/src/domains/register/domain/cluster.cpp:25 | comparing values picks a newest snapshot from every collection over a set of writes if and only if values grow with timestamps in that set |
| Register.FreshCanBeStale | dsac/examples/dist.registry.replication/src/domains/register/domain/cluster.cpp:25 | a concrete collection on which the choice is not the newest |
| RegisterCluster.QuorumsMeet | dsac/examples/dist.registry.replication/src/domains/register/infrastructure/policy/majority_quorum.hpp:11-13 | two quorums of n/2+1 out of n replicas have a replica in common |
| RegisterCluster.StepKeepsInv | dsac/examples/dist.registry.replication/src/domains/register/domain/cluster.cpp:44-57 | every step (invoke, serve a read or write at any later time, end a phase) keeps the cluster invariant, and replicas only move to newer timestamps |
| RegisterCluster.CompletedOperationPersists | dsac/examples/dist.registry.replication/src/domains/register/domain/cluster.cpp:82-99 | once an operation has finished with timestamp t, in every later state a majority of the replicas holds a timestamp of at least t; no assumption about values |
| RegisterCluster.LaterQuorumSeesCompleted | dsac/examples/dist.registry.replication/src/domains/register/domain/cluster.cpp:44-57 | every quorum counted by a read that starts later contains a snapshot of at least t; no assumption about values |
| RegisterCluster.ResultsWereWritten | dsac/examples/dist.registry.replication/src/domains/register/application/commands/coordinator/read_and_write_register_command_handler.cpp:11-26 | every result was carried by a write that had been invoked |
| RegisterCluster.ReadsAreAtomic | dsac/examples/dist.registry.replication/src/domains/register/application/commands/coordinator/read_and_write_register_command_handler.cpp:11-26 | over all runs, a read that starts after an operation finished with timestamp t returns at least t although a consistent quorum skips the write-back, for n <= 2 or values growing with timestamps |
| RegisterStaleRead.ReadsAreAtomicIff | dsac/examples/dist.registry.replication/src/domains/register/application/commands/coordinator/read_and_write_register_command_handler.cpp:11-26 | the exact condition: reads over n replicas and the write set w are atomic in all runs if and only if n <= 2 or values grow with timestamps in w |
| RegisterStaleRead.StaleRead | dsac/examples/dist.registry.replication/src/domains/register/domain/cluster.cpp:25 | for n >= 3 and any two writes of w whose values do not grow with their timestamps there is a run whose read answers with the older one |
| RegisterProgress.QuorumIsLeast | dsac/examples/dist.registry.replication/src/domains/register/infrastructure/policy/majority_quorum.hpp:11-13 | n/2+1 is the least number of replicas of which any two choices out of n meet |
| RegisterProgress.ReadPhaseDecides | dsac/examples/dist.registry.replication/src/domains/register/domain/cluster.cpp:59-66 | a read phase ends the read exactly when the counted answers are all equal, with that answer; otherwise it writes back one of them, with a largest value |
| RegisterProgress.OperationFinishes | dsac/examples/dist.registry.replication/src/domains/register/domain/cluster.cpp:44-99 | from every reachable state every unfinished operation can finish by its own steps on the replicas of any majority, at most two requests to each and the end of each phase, whatever the other replicas do |
| RegisterProgress.WriteFinishes | dsac/examples/dist.registry.replication/src/domains/register/domain/cluster.cpp:82-99 | in every reachable state a new write can begin and finish on any majority, with its value |
| LockFreeStackTheorems.StepRefines | dsac/include/dsac/concurrency/lockfree/stack.hpp:30-66 | every atomic access of every thread keeps the invariant and is matched by a step of the atomic stack or by none |
| LockFreeStackTheorems.Linearizable | dsac/include/dsac/concurrency/lockfree/stack.hpp:30-66 | in every interleaving of any number of threads the calls and returns are those of an atomic sequence stack, each call taking effect between its call and return; an empty pop takes effect while the stack is empty |
| LockFreeStackProgress.AloneReturnsInTime | dsac/include/dsac/concurrency/lockfree/stack.hpp:30-87 | from every reachable state a thread inside `push` or `pop` that runs alone returns within a stated bound, and the others stay where they are: a push leaves its value on top of the values there were, a pop that has taken nothing yet takes and returns the top value, or answers none if there is none |
| LockFreeStackProgress.HoldsOne | dsac/include/dsac/concurrency/lockfree/stack.hpp:10-18 | the values on the stack are determined by the state |
| LockFreeStackProgress.FailedPushToIsOvertaken | dsac/include/dsac/concurrency/lockfree/stack.hpp:63-66 | a compare-and-swap of `push_to`, on the stack or on the free list, that fails without being spurious fails because another thread has changed that head since the thread read it |
| LockFreeStackProgress.FailedPopIsOvertaken | dsac/include/dsac/concurrency/lockfree/stack.hpp:38-39 | the same for the compare-and-swap of `pop`, which reads the link of the top node in between |
| LockFreeStackProgress.AllCallsReturn | dsac/include/dsac/concurrency/lockfree/stack.hpp:30-87 | from every reachable state every run without new calls and without spurious failures is bounded, and when it can go no further all calls have returned |
| LockFreeStackProgress.LonePopCleansUp | dsac/include/dsac/concurrency/lockfree/stack.hpp:36-84 | after a `pop` that runs while all other threads are idle, exactly the nodes on the stack are not deleted |
| LockFreeStackTheorems.ReclamationIsSafe | dsac/include/dsac/concurrency/lockfree/stack.hpp:36-84 | no thread dereferences or deletes a deleted node and no node is deleted twice |
| LockFreeStackTheorems.Erase | dsac/include/dsac/concurrency/lockfree/stack.hpp:68-74 | the deletion loop deletes exactly the nodes of the list, each once |
| LockFreeStackTheorems.Destroy | dsac/include/dsac/concurrency/lockfree/stack.hpp:25-28 | after the destructor of a quiescent stack every node ever allocated has been deleted exactly once |
| LockFreeStackProof.PushKeepsInv | dsac/include/dsac/concurrency/lockfree/stack.hpp:63-66 | a successful compare-and-swap of `push_to` on the stack keeps lists, owners and the popper count |
| LockFreeStackProof.UnlinkKeepsInv | dsac/include/dsac/concurrency/lockfree/stack.hpp:38-40 | a successful compare-and-swap of `pop` keeps the invariant: the expected head still has the successor that was read |
| LockFreeStackProof.GrabKeepsInv | dsac/include/dsac/concurrency/lockfree/stack.hpp:76-84 | taking the free list keeps the invariant: with one popper no other thread refers to a node of it |
| LockFreeStackProof.RetireKeepsInv | dsac/include/dsac/concurrency/lockfree/stack.hpp:47-49 | handing a node to the free list keeps the invariant |
| LockFreeStackProof.DropOwnKeepsInv | dsac/include/dsac/concurrency/lockfree/stack.hpp:44-45 | deleting the own node at a popper count of zero keeps the invariant |
| Combinations.ConvertBinary | dsac/src/container/graph/travelling_salesman_problem.cpp:10-21 | the loop reads a decimal number digit by digit as base-two digits |
| Combinations.ConvertsStoi | dsac/src/container/graph/travelling_salesman_problem.cpp:34 | conversion after `std::stoi`, where that does not throw, gives the mask that the digit string denotes |
| Combinations.StoiFitsIff | dsac/src/container/graph/travelling_salesman_problem.cpp:34 | `std::stoi` accepts every string that `combinations(bits, size)` visits if and only if size is at most ten or bits is zero |
| Combinations.NextIsSuccessor | dsac/src/container/graph/travelling_salesman_problem.cpp:35 | the next arrangement is the successor among all strings with the same number of ones, and there is none only after the largest |
| Combinations.CombinationsOf | dsac/src/container/graph/travelling_salesman_problem.cpp:26-37 | every mask of `size` bits with exactly `bits` set, each once, in increasing order; the exception of `std::stoi` exactly if there are more than ten digits and some bit is set |
| HeldKarp.Setup | dsac/src/container/graph/travelling_salesman_problem.cpp:42-50 | after the first layer the table holds a cheapest path for every pair |
| HeldKarp.BestStep | dsac/src/container/graph/travelling_salesman_problem.cpp:66-76 | the recurrence: the least `memo[e][S-v] + cost(e,v)` is the cost of a cheapest path from the start through exactly S to v |
| HeldKarp.MinDistance | dsac/src/container/graph/travelling_salesman_problem.cpp:66-75 | the innermost loop finds that least value although it starts at INT_MAX |
| HeldKarp.SolveSubset | dsac/src/container/graph/travelling_salesman_problem.cpp:59-77 | a subset's row is filled with cheapest-path costs and nothing else in the table changes |
| HeldKarp.SolveLayer | dsac/src/container/graph/travelling_salesman_problem.cpp:55-79 | the layer of r-node subsets is filled from the smaller ones; the exception exactly from eleven nodes on |
| HeldKarp.FillTable | dsac/src/container/graph/travelling_salesman_problem.cpp:52-80 | `memo[v][S]` is the cost of a cheapest path from the start through exactly S ending at v, for all S and v; or the exception, exactly from eleven nodes on |
| HeldKarp.FindMinCost | dsac/src/container/graph/travelling_salesman_problem.cpp:82-93 | the reported cost is the least closing of a full path; INT_MAX for a single node |
| HeldKarp.ChooseIndex | dsac/src/container/graph/travelling_salesman_problem.cpp:105-120 | the first cheapest predecessor within the remaining set |
| HeldKarp.PlaceIndex | dsac/src/container/graph/travelling_salesman_problem.cpp:104-125 | one turn of the reconstruction: the suffix stays a part of an optimal tour |
| HeldKarp.FindOptimalTour | dsac/src/container/graph/travelling_salesman_problem.cpp:95-130 | the reconstructed tour visits every node once and costs exactly the minimum |
| HeldKarp.SumsAreInts | dsac/src/container/graph/travelling_salesman_problem.cpp:73-88 | with that bound on the absolute costs, no sum that the program forms leaves the range of `int` |
| HeldKarp.SmallCostsFit | dsac/src/container/graph/travelling_salesman_problem.cpp:66-93 | what `Solve` assumes of the costs holds whenever the number of nodes times the largest edge does not exceed INT_MAX |
| HeldKarp.Solve | dsac/src/container/graph/travelling_salesman_problem.cpp:133-144 | the reported cost is the minimum over all Hamiltonian cycles through the start, and the reported tour is such a cycle of that cost; from eleven nodes on there is the exception of `std::stoi` instead |
| RedBlackSpec.FixupIsRedBlack | dsac/include/dsac/container/tree/rb_tree-inl.hpp:110-155 | rebalancing repairs a red node under a red parent wherever it is: no red-red edge, equal black heights, black root |
| RedBlackSpec.FixupInOrder | dsac/include/dsac/container/tree/rb_tree-inl.hpp:110-155 | rebalancing never changes the in-order sequence |
| RedBlackSpec.InsertedIsRedBlack | dsac/include/dsac/container/tree/rb_tree-inl.hpp:175-202 | an insertion into a red-black tree gives one |
| RedBlackSpec.InsertedInOrder | dsac/include/dsac/container/tree/rb_tree-inl.hpp:175-202 | an insertion keeps the in-order sequence sorted and adds exactly one occurrence of the key |
| RedBlackSpec.MaxDepthIsDeepest | dsac/include/dsac/container/tree/rb_tree-inl.hpp:6-11 | every node is at most `MaxDepth()` edges below the root and some node is exactly that deep; without nodes it is -1 |
| RedBlackSpec.MinDepthIsNearest | dsac/include/dsac/container/tree/rb_tree-inl.hpp:12-17 | every path to a missing child has at least `MinDepth()` + 1 edges and one has exactly that many |
| RedBlackSpec.DepthsAreClose | dsac/include/dsac/container/tree/rb_tree-inl.hpp:204-212 | `MaxDepth() / 2 <= MinDepth()` holds of every red-black tree except the empty one, where it is 0 <= -1 |
| RedBlackSpec.AnyInsertions | dsac/include/dsac/container/tree/rb_tree-inl.hpp:175-202 | after any sequence of insertions, duplicates included: balanced, sorted, the multiset inserted, depths within a factor of two |
| RedBlackTree.RBTree.SmallLeftRotation | dsac/include/dsac/container/tree/rb_tree-inl.hpp:67-86 | the pointer statements of a left rotation anywhere in a tree, parent links and root included |
| RedBlackTree.RBTree.SmallRightRotation | dsac/include/dsac/container/tree/rb_tree-inl.hpp:88-107 | the pointer statements of a right rotation anywhere in a tree, parent links and root included |
| RedBlackTree.RBTree.Rebalance | dsac/include/dsac/container/tree/rb_tree-inl.hpp:112-148 | one turn of the loop moves closer to the root and to the tree that `Fixup` prescribes |
| RedBlackTree.RBTree.BalancingSubtree | dsac/include/dsac/container/tree/rb_tree-inl.hpp:109-155 | the loop terminates in the tree that `Fixup` prescribes, with a black root and all links consistent |
| RedBlackTree.RBTree.Search | dsac/include/dsac/container/tree/rb_tree-inl.hpp:178-183 | the search loop finds the place that `Descend` prescribes, duplicates going right |
| RedBlackTree.RBTree.Insert | dsac/include/dsac/container/tree/rb_tree-inl.hpp:174-202 | the linked tree after an insertion is `Inserted` of the tree before, valid and red-black |
| RedBlackTree.RBTree.Visit | dsac/include/dsac/container/tree/rb_tree-inl.hpp:157-164 | visiting hands out the in-order sequence |
| RedBlackTree.RBTree.Contains | dsac/include/dsac/container/tree/rb_tree-inl.hpp:45-52 | membership in the in-order sequence, found without using the order |
| RedBlackTree.RBTree.Depths | dsac/include/dsac/container/tree/rb_tree-inl.hpp:204-212 | the reported depths are those of the value, which `RedBlackSpec.MaxDepthIsDeepest` and `MinDepthIsNearest` characterise by paths |
| AvlSpec.TryBalanced | dsac/include/dsac/container/tree/avl_tree-inl.hpp:113-135 | rebalancing dereferences null exactly if a rotation asked for does not find its children |
| AvlSpec.PlacedIsAvl | dsac/include/dsac/container/tree/avl_tree-inl.hpp:137-159 | insertion into a balanced tree meets no null pointer, leaves true heights and balance within one, and grows the height by one at most, on the side of the key |
| AvlSpec.PlacedKeepsOrder | dsac/include/dsac/container/tree/avl_tree-inl.hpp:137-159 | insertion into any ordered tree, whatever its stored heights, keeps strict order and adds exactly the key; it does nothing if and only if the key is present |
| AvlSpec.NullDereferencedIff | dsac/include/dsac/container/tree/avl_tree-inl.hpp:137-159 | for every ordered tree: an insertion dereferences null if and only if, on the way back from the new node, a double rotation is asked for on the far side of a node whose heavy child has no inner child |
| AvlSpec.AvlCanPlace | dsac/include/dsac/container/tree/avl_tree-inl.hpp:137-159 | on balanced trees that never happens |
| AvlSpec.BalancedOnLeft | dsac/include/dsac/container/tree/avl_tree-inl.hpp:113-135 | comparing the added key with the possibly rotated child's key selects the right rotation after an insertion on the left |
| AvlSpec.BalancedOnRight | dsac/include/dsac/container/tree/avl_tree-inl.hpp:113-135 | the same after an insertion on the right |
| AvlSpec.BalancedKeepsOrder | dsac/include/dsac/container/tree/avl_tree-inl.hpp:113-135 | rebalancing keeps strict order and the keys, whatever the stored heights |
| AvlSpec.InOrderIncreases | dsac/include/dsac/container/tree/avl_tree-inl.hpp:213-220 | the traversal of an ordered tree lists its keys once each in strictly increasing order |
| AvlSpec.DepthIsTrue | dsac/include/dsac/container/tree/avl_tree-inl.hpp:253-256 | the stored depth of a balanced tree is the true height |
| AvlSpec.FibonacciBound | dsac/include/dsac/container/tree/avl_tree-inl.hpp:253-256 | a balanced tree of depth d has at least Fib(d + 3) - 1 keys |
| AvlSpec.FibonacciBoundIsTight | dsac/include/dsac/container/tree/avl_tree-inl.hpp:253-256 | for every d some balanced tree of depth d has exactly that many |
| AvlRuns.AnyInsertions | dsac/include/dsac/container/tree/avl_tree-inl.hpp:230-237 | after any insertions: strictly increasing, exactly the keys inserted, balanced, true depth, Fibonacci bound |
| AvlRuns.AnyRun | dsac/include/dsac/container/tree/avl_tree-inl.hpp:230-241 | after any insertions and deletions that have met no null pointer: strictly ordered, exactly the keys that remain |
| AvlRuns.RunGoesOnIff | dsac/include/dsac/container/tree/avl_tree-inl.hpp:230-241 | after any run, the next operation meets no null pointer if and only if it is a deletion or the guard of the insertion holds |
| AvlRuns.StaysBalancedIff | dsac/include/dsac/container/tree/avl_tree-inl.hpp:230-241 | a run of insertions and deletions stays balanced throughout if and only if each deletion meets the condition `KeepsBalance` |
| AvlRuns.MixedRunDereferencesNull | dsac/include/dsac/container/tree/avl_tree-inl.hpp:101-111 | from the empty tree a run of twelve insertions and deletions reaches the null pointer |
| AvlDeletion.MinIsSmallest | dsac/include/dsac/container/tree/avl_tree-inl.hpp:168-183 | taking out the leftmost node removes exactly the smallest key |
| AvlDeletion.DeletedRemovesKey | dsac/include/dsac/container/tree/avl_tree-inl.hpp:185-211 | deletion keeps strict order and removes exactly the key from any ordered tree, whatever its stored heights |
| AvlDeletion.DeletionKeepsBalanceIff | dsac/include/dsac/container/tree/avl_tree-inl.hpp:185-211 | for every balanced tree and key: deletion keeps the balance, stored heights included, if and only if the deleted node has no right child or is succeeded by that child at the same height, and above it no lighter side shrinks beside a child that leans inward |
| AvlDeletion.DeletionLosesHeight | dsac/include/dsac/container/tree/avl_tree-inl.hpp:207-210 | the smallest case in which it does not: `Depth()` is wrong afterwards |
| AvlTree.SmallLeftRotation | dsac/include/dsac/container/tree/avl_tree-inl.hpp:75-86 | the pointer and height updates of a left rotation |
| AvlTree.SmallRightRotation | dsac/include/dsac/container/tree/avl_tree-inl.hpp:88-99 | the pointer and height updates of a right rotation |
| AvlTree.BalancingSubtree | dsac/include/dsac/container/tree/avl_tree-inl.hpp:113-135 | rebalancing on nodes does what `Balanced` prescribes |
| AvlTree.InsertImpl | dsac/include/dsac/container/tree/avl_tree-inl.hpp:137-159 | insertion on nodes does what `Placed` prescribes and adds exactly the new node, on every tree on which `Placed` dereferences no null pointer |
| AvlTree.DeleteImpl | dsac/include/dsac/container/tree/avl_tree-inl.hpp:185-211 | deletion on nodes does what `Deleted` prescribes and frees only a node with the key |
| AvlTree.AVLTree.Insert | dsac/include/dsac/container/tree/avl_tree-inl.hpp:230-237 | under the exact guard `CanPlace`, balanced or not: the result says whether the key was new, the tree stays strictly ordered, gains exactly the key, and stays balanced if it was |
| AvlTree.AVLTree.Delete | dsac/include/dsac/container/tree/avl_tree-inl.hpp:238-241 | the tree stays strictly ordered and loses exactly the key; a balanced tree stays balanced if and only if `KeepsBalance` held |
| AvlTree.AVLTree.Depth | dsac/include/dsac/container/tree/avl_tree-inl.hpp:253-256 | the stored depth, which is the true one on balanced trees |
| BinarySearchTree.FindNextNode | dsac/include/dsac/container/tree/bs_tree.hpp:40-50 | the walk along the links returns the in-order successor, or null after the last node |
| BinarySearchTree.KeysInOrderIncrease | dsac/include/dsac/container/tree/bs_tree.hpp:285-316 | the in-order keys of an ordered tree are exactly its keys, strictly increasing |
| BinarySearchTree.PlacedKeepsOrder | dsac/include/dsac/container/tree/bs_tree.hpp:285-316 | insertion keeps strict order, adds exactly the key, and changes nothing if it is present |
| BinarySearchTree.SearchTree.InsertUnique | dsac/include/dsac/container/tree/bs_tree.hpp:285-316 | the linked tree after an insertion is `Placed` of the tree before, parent links included; the result says whether the key was new |
| BinarySearchTree.SearchTree.Iterate | dsac/include/dsac/container/tree/bs_tree.hpp:175-177 | iterating from `Begin()` visits every key once in strictly increasing order and ends |
| BinarySearchTree.SearchTree.FindUnique | dsac/include/dsac/container/tree/bs_tree.hpp:348-361 | the search finds a node with the key if and only if the key is present |
| BinarySearchTree.Rotate | dsac/include/dsac/container/tree/bs_tree.hpp:339-341 | the rotation of the destruction loop keeps the in-order sequence and shortens the left subtree |
| BinarySearchTree.DestroySubtree | dsac/include/dsac/container/tree/bs_tree.hpp:332-346 | the loop terminates and destroys every node exactly once, from the smallest to the largest |
| BinarySearchTree.SearchTree.Clear | dsac/include/dsac/container/tree/bs_tree.hpp:233-235 | clearing destroys every node and leaves an empty tree |
| FutexMutex.StepKeepsHolder | dsac/src/concurrency/synchronization/mutex.cpp:27-44 | every step keeps at most one holder and the word equal to what the holder's progress says |
| FutexMutex.StepKeepsWakeUps | dsac/src/concurrency/synchronization/mutex.cpp:27-44 | every step keeps the promise that whoever sleeps will be woken: the word is 2, a wake is pending, or another slow-path thread is awake |
| FutexMutex.MutexIsSafe | dsac/src/concurrency/synchronization/mutex.cpp:27-44 | in every run of any number of threads, spurious returns allowed: mutual exclusion, the word in 0..2, no lost wake-up |
| FutexMutex.LockingThreadsProgress | dsac/src/concurrency/synchronization/mutex.cpp:27-44 | from every reachable state in which a thread is inside `lock`, at most six steps, none of them a new call of `lock` or a spurious return, give some such thread the lock |
| FutexMutex.EverybodyIsServed | dsac/src/concurrency/synchronization/mutex.cpp:27-44 | from every reachable state, every run without new calls of `lock` and without spurious returns is bounded, and when it can go no further all threads are idle and every thread that was inside `lock` has had the lock: every wake-up that is needed arrives, whatever the schedule |
| FutexMutex.NoContentionNoFutex | dsac/src/concurrency/synchronization/mutex.cpp:27-44 | a single thread takes the lock with its first access and leaves it with one, without any system call |
| CyclicBarrier.NoLostNotification | dsac/src/concurrency/synchronization/barrier.cpp:30-47 | with any number of participants, every waiter whose condition holds has been notified |
| CyclicBarrier.StepInRound | dsac/src/concurrency/synchronization/barrier.cpp:30-47 | every step keeps the round invariant |
| CyclicBarrier.ExactlySizeIsCorrect | dsac/src/concurrency/synchronization/barrier.cpp:30-47 | with exactly N participants nobody returns from the k-th call before all have made it, and when all are inside one has been notified and can return |
| CyclicBarrier.NoMissedPhase | dsac/src/concurrency/synchronization/barrier.cpp:30-47 | a waiter whose condition has become true has been notified and keeps both until its next step, which is its return, although the flag is reused every round |
| CyclicBarrier.RunsEnd | dsac/src/concurrency/synchronization/barrier.cpp:30-47 | with any number of participants that make at most k calls each, every run without spurious resumptions is bounded |
| CyclicBarrier.AllCallsReturn | dsac/src/concurrency/synchronization/barrier.cpp:30-47 | when N participants make k calls each, every state in which nothing more can happen has all calls made and returned, by notifications alone |
| CyclicBarrier.TooFewBlock | dsac/src/concurrency/synchronization/barrier.cpp:30-47 | fewer participants can all wait for ever |
| CyclicBarrier.TooManySlipThrough | dsac/src/concurrency/synchronization/barrier.cpp:30-47 | with more participants one can return before all have arrived |
| CyclicBarrier.CorrectIff | dsac/src/concurrency/synchronization/barrier.cpp:30-47 | the barrier is correct if and only if the number of participants is the size it was built for |
| FirstN.StepKeepsInv | dsac/include/dsac/concurrency/futures/combine/first_n.hpp:35-56 | every step of every callback keeps the counters, the slots and the collected results consistent |
| FirstN.PromiseIsRight | dsac/include/dsac/concurrency/futures/combine/first_n.hpp:29-56 | given enough futures, in every interleaving the promise is set at most once, to exactly n results: those of the first n callbacks to increment `completed`, in index order |
| FirstN.NoTornRead | dsac/include/dsac/concurrency/futures/combine/first_n.hpp:40-54 | a slot is never read while it is being written |
| FirstN.FulfilledIff | dsac/include/dsac/concurrency/futures/combine/first_n.hpp:29-56 | once n inputs have completed and the callbacks have run, the promise has been set exactly once if and only if n is positive |
| FirstN.FirstNTerminates | dsac/include/dsac/concurrency/futures/combine/first_n.hpp:35-56 | every run is bounded, so the callbacks come to rest, and then `FulfilledIff` applies if n inputs have completed |
| FirstN.CanFulfil | dsac/include/dsac/concurrency/futures/combine/first_n.hpp:29-59 | however a run has begun, it can go on until all inputs have completed and the promise holds n results, for every positive n |
| FirstN.StartsIffEnough | dsac/include/dsac/concurrency/futures/combine/first_n.hpp:29-33 | there is a run exactly if there are at least n futures, and then one that sets the promise to n results; with fewer there is the error |
| FutureChain.ProducerKeeps | dsac/include/dsac/concurrency/futures/detail/state-inl.hpp:37-61 | every access of `set_result` keeps the protocol of a shared state |
| FutureChain.ConsumerKeeps | dsac/include/dsac/concurrency/futures/detail/state-inl.hpp:68-91 | every access of `set_callback` keeps the protocol of a shared state |
| FutureChain.ChainIsSafe | dsac/include/dsac/concurrency/futures/detail/future-inl.hpp:34-52 | in every interleaving: a future that has a result has the left-to-right composition, no callback runs twice, no unexpected state is met |
| FutureChain.ChainDelivers | dsac/include/dsac/concurrency/futures/detail/future-inl.hpp:34-52 | when no step is left, every callback has run exactly once and the last future holds the composition of all continuations, thrown exceptions included |
| FutureChain.ResultsArePassedOn | dsac/include/dsac/concurrency/futures/detail/future-inl.hpp:42-49 | in every state of every run: the first future gets the input, and any other that has a result has the value that its continuation returned for the result of its predecessor, be that a value or an exception, or the exception that the continuation threw |
| FutureChain.AllPassedOn | dsac/include/dsac/concurrency/futures/detail/future-inl.hpp:42-49 | when no step is left, all futures have their results, each made from the one before in this way |
| FutureChain.ChainTerminates | dsac/include/dsac/concurrency/futures/detail/future-inl.hpp:34-52 | every run of a chain of k continuations has at most 14 (k + 1) steps, so delivery is reached |
| BreadthFirstSearch.Bfs | dsac/include/dsac/algorithm/detail/breadth_first_search-inl.hpp:19-62 | a non-empty path if and only if the destination is reachable; it follows edges from source to destination and no path is shorter |
| BreadthFirstSearch.ShortPathVisited | dsac/include/dsac/algorithm/detail/breadth_first_search-inl.hpp:32-46 | a path too short to leave the expanded nodes ends in a visited node no farther than its length |
| BreadthFirstSearch.FrontIsNearest | dsac/include/dsac/algorithm/detail/breadth_first_search-inl.hpp:32-37 | the node at the front of the queue is at its true distance |
| BreadthFirstSearch.Expand | dsac/include/dsac/algorithm/detail/breadth_first_search-inl.hpp:39-45 | visiting the edges of the front node keeps the search invariant |
| BreadthFirstSearch.Reconstruct | dsac/include/dsac/algorithm/detail/breadth_first_search-inl.hpp:53-59 | the reconstruction loop terminates in a path as long as the destination is deep |
| DisjointSets.RelatedIsEquivalence | dsac/src/container/graph/disjoint_set_union.cpp:12-18 | the closure used as specification is itself an equivalence that contains the united pairs |
| DisjointSets.ShortcutsKeepRoots | dsac/src/container/graph/disjoint_set_union.cpp:33-40 | replacing links by links to the root leaves the forest acyclic and every root unchanged |
| DisjointSets.LinkMergesTrees | dsac/src/container/graph/disjoint_set_union.cpp:14-16 | hanging one root below another merges exactly these two trees and leaves the forest acyclic |
| DisjointSets.CommonRootIffRelated | dsac/src/container/graph/disjoint_set_union.cpp:45-47 | two vertices have a common root if and only if the equivalence closure of the united pairs relates them |
| DisjointSets.CompressedAgain | dsac/src/container/graph/disjoint_set_union.cpp:33-40 | a search after others relinks what they all pass in the original forest, although it takes shortcuts itself |
| DisjointSets.DisjointSet.Find | dsac/src/container/graph/disjoint_set_union.cpp:20-43 | the root, or the out-of-range error; both loops terminate, exactly the vertices on the path are relinked, all roots stay |
| DisjointSets.DisjointSet.IsConnected | dsac/src/container/graph/disjoint_set_union.cpp:45-47 | connected if and only if related by the closure of the unions so far; an error if a vertex is out of range; exactly the vertices on the paths searched are relinked |
| DisjointSets.DisjointSet.Union | dsac/src/container/graph/disjoint_set_union.cpp:12-18 | the tree of the second vertex takes over the root of the first, no other root changes, and the pair joins the unions; of the links, only those on the two paths and the one between the roots change, also when it fails |
| IntrusiveList.ListNode.Attach | dsac/include/dsac/container/intrusive/detail/list-inl.hpp:19-24 | the three assignments of `attach` |
| IntrusiveList.ListNode.Detach | dsac/include/dsac/container/intrusive/detail/list-inl.hpp:36-45 | the neighbours are linked to each other and the node to nothing |
| IntrusiveList.List.AttachAt | dsac/include/dsac/container/intrusive/detail/list-inl.hpp:19-24 | attaching a node in front of another inserts it there in the ring and disturbs nothing else |
| IntrusiveList.List.DetachAt | dsac/include/dsac/container/intrusive/detail/list-inl.hpp:36-45 | detaching a node removes it from the ring and disturbs nothing else |
| IntrusiveList.List.PushFront | dsac/include/dsac/container/intrusive/detail/list-inl.hpp:88-91 | the node becomes the first |
| IntrusiveList.List.PushBack | dsac/include/dsac/container/intrusive/detail/list-inl.hpp:58-61 | the node becomes the last |
| IntrusiveList.List.PopFront | dsac/include/dsac/container/intrusive/detail/list-inl.hpp:63-73 | the first node leaves the list, or null if there is none |
| IntrusiveList.List.PopBack | dsac/include/dsac/container/intrusive/detail/list-inl.hpp:75-86 | the last node leaves the list, or null if there is none |
| LruSpec.RunIsBounded | dsac/include/dsac/cache/detail/lru-inl.hpp:13-33 | over any trace: at most `capacity` items and no key twice |
| LruSpec.HoldsMostRecentlyUsed | dsac/include/dsac/cache/detail/lru-inl.hpp:13-59 | over any trace the cache holds exactly the `capacity` most recently used keys in the order of their last use |
| LruSpec.LargerCacheKeepsMore | dsac/include/dsac/cache/detail/lru-inl.hpp:13-59 | for one trace a smaller cache's keys are always a subsequence of a larger one's |
| LruSpec.LargerCacheHits | dsac/include/dsac/cache/detail/lru-inl.hpp:35-47 | enlarging the cache never loses a hit |
| LruStale.StaleHit | dsac/include/dsac/cache/detail/lru-inl.hpp:30 | but its values may be older, because `put` does not update: for all sizes c < d, a key, two values and c other keys, a trace whose hit differs |
| LruStale.SameHitsIff | dsac/include/dsac/cache/detail/lru-inl.hpp:13-47 | the exact condition, for all c < d and every set of items that may be put: all hits of the smaller cache give the same item in the larger one if and only if no key with two values has c other keys beside it |
| LruStale.LargerCacheMayBeStale | dsac/include/dsac/cache/detail/lru-inl.hpp:30 | the smallest such trace |
| LruCache.Lru.Put | dsac/include/dsac/cache/detail/lru-inl.hpp:12-33 | index and list go together to `After` of the recency order: promotion without update, or insertion with eviction of the last item |
| LruCache.Lru.Get | dsac/include/dsac/cache/detail/lru-inl.hpp:35-47 | the value or none; a hit moves to the front in index and list alike |
| LruCache.Lru.Evict | dsac/include/dsac/cache/detail/lru-inl.hpp:18-22 | the least recently used item leaves list and index |
| LruCache.Lru.Promote | dsac/include/dsac/cache/detail/lru-inl.hpp:54-59 | the item moves to the front |
| DotLexer.NextIsLongest | dsac/src/container/graph/detail/graphviz_lexical_analyzer.cpp:82-91 | after all blanks, the six of `isspace`, the next token is the longest documented token that the text begins with, and the only one of its length; there is none only if the text begins with no such token |
| DotLexer.TokensOfLayout | dsac/src/container/graph/detail/graphviz_lexical_analyzer.cpp:82-91 | lexing gives back any documented tokens in any layout: with any blanks before, between and after them, and with none where the next token does not continue the one before |
| DotLexer.TokensOfPrint | dsac/src/container/graph/detail/graphviz_lexical_analyzer.cpp:82-91 | lexing printed tokens, separated by spaces, gives back the tokens |
| DotLexer.TokensAreLexable | dsac/src/container/graph/detail/graphviz_lexical_analyzer.cpp:82-91 | every text has only tokens of the documented forms |
| DotLexer.LexicalAnalyzer.GetNextWord | dsac/src/container/graph/detail/graphviz_lexical_analyzer.cpp:50-65 | a word is scanned to its end and is a keyword or an identifier |
| DotLexer.LexicalAnalyzer.GetNextLiteral | dsac/src/container/graph/detail/graphviz_lexical_analyzer.cpp:67-80 | a literal begins with a digit and runs over digits and dots |
| DotLexer.LexicalAnalyzer.GetNextEntity | dsac/src/container/graph/detail/graphviz_lexical_analyzer.cpp:29-48 | operators and punctuators: the longest match is taken, and no match leaves the cursor alone |
| DotLexer.LexicalAnalyzer.GetNextToken | dsac/src/container/graph/detail/graphviz_lexical_analyzer.cpp:82-91 | the token that `Next` prescribes; the cursor never moves back and moves on with every token but the fallback; `DotLexer.NextIsLongest` says which that is |
| DotSyntax.RoundTrip | dsac/src/container/graph/detail/graphviz_syntax_analyzer.cpp:68-151 | parsing the printed text of any well-formed tree gives back that tree |
| DotSyntax.LayoutRoundTrip | dsac/src/container/graph/detail/graphviz_syntax_analyzer.cpp:68-151 | the same for the tokens of the tree in any layout |
| DotSyntax.OneEdge | dsac/src/container/graph/detail/graphviz_syntax_analyzer.cpp:68-151 | the concrete form of a graph of one edge with an attribute: `digraph` and `->` are the directed forms |
| DotSyntax.ParsesExactlyThePrinted | dsac/src/container/graph/detail/graphviz_syntax_analyzer.cpp:68-151 | a text is parsed to a tree if and only if its tokens begin with the printed form of that tree |
| DotSyntax.ParsedReadsBack | dsac/src/container/graph/detail/graphviz_syntax_analyzer.cpp:68-151 | what is parsed is well-formed, so printing and parsing it again changes nothing |
| DotSyntax.GraphReadsBack | dsac/src/container/graph/detail/graphviz_syntax_analyzer.cpp:135-151 | on tokens: the parser undoes the printer, whatever follows |
| DotSyntax.GraphReprints | dsac/src/container/graph/detail/graphviz_syntax_analyzer.cpp:135-151 | on tokens: the printer undoes the parser |
| DotParser.SyntaxAnalyzer.GetToken | dsac/include/dsac/container/graph/detail/graphviz_syntax_analyzer.hpp:73-87 | one token is consumed if it is of the expected kind, else none |
| DotParser.SyntaxAnalyzer.Attribute | dsac/src/container/graph/detail/graphviz_syntax_analyzer.cpp:68-84 | the method does on the token stream what `ParseAttribute` does, exceptions included |
| DotParser.SyntaxAnalyzer.AttributesList | dsac/src/container/graph/detail/graphviz_syntax_analyzer.cpp:86-102 | the same for bracketed attribute lists |
| DotParser.SyntaxAnalyzer.NodeStatement | dsac/src/container/graph/detail/graphviz_syntax_analyzer.cpp:104-110 | the same for nodes |
| DotParser.SyntaxAnalyzer.Statement | dsac/src/container/graph/detail/graphviz_syntax_analyzer.cpp:112-122 | the same for statements; the recursion ends on every text |
| DotParser.SyntaxAnalyzer.StatementList | dsac/src/container/graph/detail/graphviz_syntax_analyzer.cpp:124-133 | the same for statement lists; the loop ends on every text |
| DotParser.SyntaxAnalyzer.Graph | dsac/src/container/graph/detail/graphviz_syntax_analyzer.cpp:135-151 | the same for whole graphs |
| DotParser.ParseText | dsac/src/container/graph/detail/graphviz_syntax_analyzer.cpp:153-155 | a parse of any text terminates with the graph or the exception that `Parse` prescribes |

## Left out

- HeldKarp.Solve: does not model the wrap-around of `int` for costs beyond the bound of `HeldKarp.SumsAreInts`; it computes the cost before the tour, the reverse of the source's order, where neither reads what the other writes.
- LruCache.Lru.Get: returns the value instead of a pointer through which the caller could change it.
- FutureChain.ChainIsSafe: as `ChainDelivers`, all futures of the chain carry one type of value.
- FutureChain.ChainDelivers: all futures of the chain carry one type of value, and the executor is a job that is run at some later time.
- BinarySearchTree: `Erase` is not part of this model; it leaves parent links stale, so iteration after it is not what the structure promises.
- Destructors of the red-black and AVL trees: plain recursive deletion.
- Node allocation failures, moves, allocators and iterator plumbing.
- HTTP, JSON, controllers, factories, replica reset and the rest of the register's application.
- Weak memory orderings: all protocols take sequentially consistent steps.
- Barrier of size zero.
- B-tree: `SplitChild` copies t-1 children and removes none from the split node, so its invariant does not hold.
- Extendible hashtable: a split repoints two directory entries only.
- Dijkstra search: the queue order pops the farthest node, so it does not compute shortest paths.
- LRU-K cache: `get` fills the buffer without its overflow check.
- Semaphore: `release` notifies outside the mutex.
- Array sorts, binary heap, dynamic array, chained hashtable, thread pool, mvar, spin lock: they would add easier members only.
