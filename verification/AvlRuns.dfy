/** Runs of insertions and deletions on an AVL tree that begins empty. */
module AvlRuns {
  import opened Options
  import opened SortedSequences
  import opened AvlSpec
  import opened AvlDeletion

  // ---------------------------------------------------------------- insertions only

  function InsertedAll(keys: seq<int>): (t: Tree)
    ensures IsAvl(t)
  {
    if keys == [] then Leaf
    else
      var t := InsertedAll(keys[..|keys| - 1]);
      PlacedIsAvl(t, keys[|keys| - 1]);
      var placing := Inserted(t, keys[|keys| - 1]);
      if placing.Added? then placing.tree else t
  }

  lemma {:induction false} AnyInsertionsInOrder(keys: seq<int>)
    ensures Ordered(InsertedAll(keys)) && (forall x :: x in Keys(InsertedAll(keys)) <==> x in keys)
  {
    if keys != [] {
      var init, last := keys[..|keys| - 1], keys[|keys| - 1];
      AnyInsertionsInOrder(init);
      PlacedKeepsOrder(InsertedAll(init), last);
      PlacedIsAvl(InsertedAll(init), last);
      assert keys == init + [last];
    }
  }

  /** After any sequence of insertions: strictly increasing, the keys inserted, balanced, with the stored
      depth the true one and within the Fibonacci bound. */
  lemma AnyInsertions(keys: seq<int>)
    ensures IsAvl(InsertedAll(keys)) && Increasing(InOrder(InsertedAll(keys)))
    ensures forall x :: x in InOrder(InsertedAll(keys)) <==> x in keys
    ensures -1 <= Depth(InsertedAll(keys)) == TrueHeight(InsertedAll(keys))
    ensures Fib(Depth(InsertedAll(keys)) + 3) <= |InOrder(InsertedAll(keys))| + 1
  {
    var t := InsertedAll(keys);
    AnyInsertionsInOrder(keys);
    InOrderIncreases(t);
    DepthIsTrue(t);
    FibonacciBound(t);
  }

  // ---------------------------------------------------------------- insertions and deletions

  datatype Operation = Insert(key: int) | Delete(key: int)

  /** `None` once a null pointer has been dereferenced. */
  function After(t: Tree, op: Operation): Option<Tree> {
    match op
    case Insert(key) =>
      (match Inserted(t, key)
       case NullDereferenced => None
       case Present => Some(t)
       case Added(t') => Some(t'))
    case Delete(key) => Some(Deleted(t, key))
  }

  function Ran(ops: seq<Operation>): Option<Tree> {
    if ops == [] then Some(Leaf)
    else
      match Ran(ops[..|ops| - 1])
      case None => None
      case Some(t) => After(t, ops[|ops| - 1])
  }

  /** The keys inserted and not deleted since. */
  function Remaining(ops: seq<Operation>): set<int> {
    if ops == [] then {}
    else
      var before, op := Remaining(ops[..|ops| - 1]), ops[|ops| - 1];
      if op.Insert? then before + {op.key} else before - {op.key}
  }

  /** Whatever the operations: as long as no null pointer is dereferenced the tree is ordered and holds exactly
      the keys that remain. */
  lemma {:induction false} AnyRun(ops: seq<Operation>)
    requires Ran(ops).Some?
    ensures Ordered(Ran(ops).value) && Keys(Ran(ops).value) == Remaining(ops)
    ensures Increasing(InOrder(Ran(ops).value))
  {
    InOrderIncreases(Ran(ops).value);
    if ops != [] {
      var init, op := ops[..|ops| - 1], ops[|ops| - 1];
      AnyRun(init);
      PlacedKeepsOrder(Ran(init).value, op.key);
      DeletedRemovesKey(Ran(init).value, op.key);
    }
  }

  /** The run goes on exactly if the guard of the insertion holds. */
  lemma RunGoesOnIff(ops: seq<Operation>, op: Operation)
    requires Ran(ops).Some?
    ensures Ran(ops + [op]).Some? <==> op.Delete? || CanPlace(Ran(ops).value, op.key)
  {
    var t := Ran(ops).value;
    assert (ops + [op])[..|ops|] == ops;
    AnyRun(ops);
    NullDereferencedIff(t, op.key);
    PlacedKeepsOrder(t, op.key);
  }

  /** The tree has been balanced all the time. */
  predicate StaysBalanced(ops: seq<Operation>) {
    Ran(ops).Some? && IsAvl(Ran(ops).value) && (ops != [] ==> StaysBalanced(ops[..|ops| - 1]))
  }

  /** No deletion has met a tree whose balance it does not keep. */
  predicate DeletionsKeep(ops: seq<Operation>) {
    ops != [] ==>
      var init, op := ops[..|ops| - 1], ops[|ops| - 1];
      DeletionsKeep(init) && (op.Delete? && Ran(init).Some? ==> KeepsBalance(Ran(init).value, op.key))
  }

  /** A run stays balanced, and so clear of null pointers, exactly if each of its deletions keeps the balance. */
  lemma {:induction false} StaysBalancedIff(ops: seq<Operation>)
    ensures StaysBalanced(ops) <==> DeletionsKeep(ops)
  {
    if ops != [] {
      var init, op := ops[..|ops| - 1], ops[|ops| - 1];
      StaysBalancedIff(init);
      if StaysBalanced(init) {
        var t := Ran(init).value;
        PlacedIsAvl(t, op.key);
        DeletionKeepsBalanceIff(t, op.key);
      }
    }
  }

  // ---------------------------------------------------------------- a run that fails

  /** Some run of `n` operations ends with `t`. */
  ghost predicate Reached(n: nat, t: Tree) {
    exists ops :: |ops| == n && Ran(ops) == Some(t)
  }

  lemma ReachedByInsertion(n: nat, t: Tree, key: int, t': Tree)
    requires Reached(n, t) && Placed(t, key) == Added(t')
    ensures Reached(n + 1, t')
  {
    var ops :| |ops| == n && Ran(ops) == Some(t);
    assert (ops + [Insert(key)])[..|ops|] == ops;
    AnyRun(ops);
    PlacedKeepsOrder(t, key);
    assert Ran(ops + [Insert(key)]) == Some(t');
  }

  lemma ReachedByDeletion(n: nat, t: Tree, key: int)
    requires Reached(n, t)
    ensures Reached(n + 1, Deleted(t, key))
  {
    var ops :| |ops| == n && Ran(ops) == Some(t);
    assert (ops + [Delete(key)])[..|ops|] == ops;
    assert Ran(ops + [Delete(key)]) == Some(Deleted(t, key));
  }

  function One(key: int): Tree {
    Branch(Leaf, key, 0, Leaf)
  }

  /** A node with its true height. */
  function Node(l: Tree, key: int, r: Tree): Tree {
    Branch(l, key, MaxHeight(l, r), r)
  }

  lemma ThreeInsertions()
    ensures Reached(3, Node(One(0), 3, One(4)))
  {
    assert Ran([]) == Some(Leaf);
    ReachedByInsertion(0, Leaf, 0, One(0));
    ReachedByInsertion(1, One(0), 3, Node(Leaf, 0, One(3)));
    assert Placed(One(3), 4) == Added(Node(Leaf, 3, One(4)));
    ReachedByInsertion(2, Node(Leaf, 0, One(3)), 4, Node(One(0), 3, One(4)));
  }

  lemma FiveInsertions()
    ensures Reached(5, Node(One(0), 3, Node(One(4), 5, One(6))))
  {
    ThreeInsertions();
    ReachedByInsertion(3, Node(One(0), 3, One(4)), 5, Node(One(0), 3, Node(Leaf, 4, One(5))));
    assert Placed(Node(Leaf, 4, One(5)), 6) == Added(Node(One(4), 5, One(6)));
    ReachedByInsertion(4, Node(One(0), 3, Node(Leaf, 4, One(5))), 6, Node(One(0), 3, Node(One(4), 5, One(6))));
  }

  /** A step back from the new node without a rotation. */
  lemma CalmOnLeft(t: Tree, key: int, l': Tree)
    requires t.Branch? && key < t.key && Placed(t.left, key) == Added(l')
    requires BalanceFactor(t.(left := l')) != -2 && BalanceFactor(t.(left := l')) != 2
    ensures Placed(t, key) == Added(Node(l', t.key, t.right))
  {
  }

  /** The next two insertions, 7 and 1; only the first one turns the root. */
  lemma SevenInsertions(pair: Tree, right: Tree)
    requires pair == Node(Leaf, 0, One(1)) && right == Node(Leaf, 6, One(7))
    ensures Reached(7, Node(Node(pair, 3, One(4)), 5, right))
  {
    FiveInsertions();
    assert Placed(Node(One(4), 5, One(6)), 7) == Added(Node(One(4), 5, right));
    var t5, t6 := Node(One(0), 3, Node(One(4), 5, One(6))), Node(Node(One(0), 3, One(4)), 5, right);
    assert Placed(t5, 7) == Added(t6);
    ReachedByInsertion(5, t5, 7, t6);
    CalmOnLeft(Node(One(0), 3, One(4)), 1, pair);
    CalmOnLeft(t6, 1, Node(pair, 3, One(4)));
    ReachedByInsertion(6, t6, 1, Node(Node(pair, 3, One(4)), 5, right));
  }

  lemma PlacedTwo(pair: Tree, low: Tree)
    requires pair == Node(Leaf, 0, One(1)) && low == Node(One(0), 1, One(2))
    ensures Placed(pair, 2) == Added(low)
  {
    assert Placed(One(1), 2) == Added(Node(Leaf, 1, One(2)));
  }

  /** Two steps back without a rotation. */
  lemma CalmTwice(t: Tree, key: int, low: Tree)
    requires t.Branch? && t.left.Branch? && key < t.left.key && key < t.key
    requires Placed(t.left.left, key) == Added(low)
    requires -1 <= Rise(t.left.right) - Rise(low) <= 1
    requires -1 <= Rise(t.right) - Rise(Node(low, t.left.key, t.left.right)) <= 1
    ensures Placed(t, key) == Added(Node(Node(low, t.left.key, t.left.right), t.key, t.right))
  {
    CalmOnLeft(t.left, key, low);
    CalmOnLeft(t, key, Node(low, t.left.key, t.left.right));
  }

  lemma EightInsertions(pair: Tree, low: Tree, right: Tree)
    requires pair == Node(Leaf, 0, One(1)) && low == Node(One(0), 1, One(2)) && right == Node(Leaf, 6, One(7))
    ensures Reached(8, Node(Node(low, 3, One(4)), 5, right))
  {
    SevenInsertions(pair, right);
    PlacedTwo(pair, low);
    var t7 := Node(Node(pair, 3, One(4)), 5, right);
    CalmTwice(t7, 2, low);
    ReachedByInsertion(7, t7, 2, Node(Node(low, 3, One(4)), 5, right));
  }

  /** Deleting 3 leaves the node 4 with the stored height 0 above a subtree of height 1; 6 goes as well. */
  lemma TwoDeletions(low: Tree)
    requires low == Node(One(0), 1, One(2))
    ensures Reached(10, Branch(Branch(low, 4, 0, Leaf), 5, 1, One(7)))
  {
    var right := Node(Leaf, 6, One(7));
    EightInsertions(Node(Leaf, 0, One(1)), low, right);
    var t8 := Node(Node(low, 3, One(4)), 5, right);
    ReachedByDeletion(8, t8, 3);
    var heavy := Branch(low, 4, 0, Leaf);
    assert Deleted(t8, 3) == Branch(heavy, 5, 2, right);
    ReachedByDeletion(9, Branch(heavy, 5, 2, right), 6);
    assert Deleted(right, 6) == One(7);
  }

  lemma PlacedThree(low: Tree, tall: Tree)
    requires low == Node(One(0), 1, One(2)) && tall == Node(One(0), 1, Node(Leaf, 2, One(3)))
    ensures Placed(low, 3) == Added(tall)
  {
    assert Placed(One(2), 3) == Added(Node(Leaf, 2, One(3)));
  }

  /** Inserting 3 repairs the stored heights of 4 and 5, and shows how far the tree leans. */
  lemma ReinsertedThree(low: Tree, tall: Tree)
    requires Reached(10, Branch(Branch(low, 4, 0, Leaf), 5, 1, One(7)))
    requires Placed(low, 3) == Added(tall) && Rise(tall) == 3
    ensures Reached(11, Node(Node(tall, 4, Leaf), 5, One(7)))
  {
    var heavy := Branch(low, 4, 0, Leaf);
    CalmOnLeft(heavy, 3, tall);
    CalmOnLeft(Branch(heavy, 5, 1, One(7)), 3, Node(tall, 4, Leaf));
    ReachedByInsertion(10, Branch(heavy, 5, 1, One(7)), 3, Node(Node(tall, 4, Leaf), 5, One(7)));
  }

  lemma ElevenOperations(tall: Tree)
    requires tall == Node(One(0), 1, Node(Leaf, 2, One(3)))
    ensures Reached(11, Node(Node(tall, 4, Leaf), 5, One(7))) && Rise(tall) == 3
  {
    var low := Node(One(0), 1, One(2));
    TwoDeletions(low);
    PlacedThree(low, tall);
    ReinsertedThree(low, tall);
  }

  lemma SixCannotBePlaced(tall: Tree)
    requires Rise(tall) == 3
    ensures !CanPlace(Node(Node(tall, 4, Leaf), 5, One(7)), 6)
  {
    assert tall.height == 2;
    CalmOnLeft(One(7), 6, One(6));
  }

  /** A run of both kinds that dereferences null: inserting 6 to the right of the root 5 asks for a double rotation
      on the left, where the heavy child 4 has no right child. */
  lemma MixedRunDereferencesNull()
    ensures exists ops :: |ops| == 12 && Ran(ops) == None
  {
    var tall := Node(One(0), 1, Node(Leaf, 2, One(3)));
    ElevenOperations(tall);
    var t := Node(Node(tall, 4, Leaf), 5, One(7));
    var ops :| |ops| == 11 && Ran(ops) == Some(t);
    SixCannotBePlaced(tall);
    RunGoesOnIff(ops, Insert(6));
    assert |ops + [Insert(6)]| == 12;
  }
}
