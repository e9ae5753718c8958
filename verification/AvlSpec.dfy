/** Rotations of and insertion into an AVL tree, on values. Every node stores a height, which need not be the
    true one: deletion leaves trees that are not balanced. */
module AvlSpec {
  import opened Options
  import opened SortedSequences

  datatype Tree = Leaf | Branch(left: Tree, key: int, height: int, right: Tree)

  /** What a child contributes to the height of its parent. */
  function Rise(t: Tree): int {
    if t.Leaf? then 0 else t.height + 1
  }

  /** `GetMaxHeight`. */
  function MaxHeight(l: Tree, r: Tree): int {
    if Rise(l) < Rise(r) then Rise(r) else Rise(l)
  }

  function SmallLeft(t: Tree): Tree
    requires t.Branch? && t.right.Branch?
  {
    var lower := Branch(t.left, t.key, MaxHeight(t.left, t.right.left), t.right.left);
    Branch(lower, t.right.key, MaxHeight(lower, t.right.right), t.right.right)
  }

  function SmallRight(t: Tree): Tree
    requires t.Branch? && t.left.Branch?
  {
    var lower := Branch(t.left.right, t.key, MaxHeight(t.left.right, t.right), t.right);
    Branch(t.left.left, t.left.key, MaxHeight(t.left.left, lower), lower)
  }

  function LargeLeft(t: Tree): Tree
    requires t.Branch? && t.right.Branch? && t.right.left.Branch?
  {
    SmallLeft(t.(right := SmallRight(t.right)))
  }

  function LargeRight(t: Tree): Tree
    requires t.Branch? && t.left.Branch? && t.left.right.Branch?
  {
    SmallRight(t.(left := SmallLeft(t.left)))
  }

  function BalanceFactor(t: Tree): int
    requires t.Branch?
  {
    MaxHeight(t.left, Leaf) - MaxHeight(Leaf, t.right)
  }

  /** The children that the rotations take apart exist. */
  predicate CanBalance(t: Tree, large: bool) {
    && t.Branch?
    && (BalanceFactor(t) == -2 ==> t.right.Branch? && (large ==> t.right.left.Branch?))
    && (BalanceFactor(t) == 2 ==> t.left.Branch? && (large ==> t.left.right.Branch?))
  }

  function Turned(t: Tree, large: bool): (top: Tree)
    requires CanBalance(t, large)
    ensures top.Branch?
  {
    if BalanceFactor(t) == -2 then if large then LargeLeft(t) else SmallLeft(t)
    else if BalanceFactor(t) == 2 then if large then LargeRight(t) else SmallRight(t)
    else t
  }

  function Balanced(t: Tree, large: bool): Tree
    requires CanBalance(t, large)
  {
    var top := Turned(t, large);
    top.(height := MaxHeight(top.left, top.right))
  }

  /** The rotations as the code performs them: `None` where a null pointer is dereferenced. */
  function TrySmallLeft(t: Tree): Option<Tree> {
    if t.Leaf? || t.right.Leaf? then None else Some(SmallLeft(t))
  }

  function TrySmallRight(t: Tree): Option<Tree> {
    if t.Leaf? || t.left.Leaf? then None else Some(SmallRight(t))
  }

  function TryLargeLeft(t: Tree): Option<Tree> {
    if t.Leaf? then None
    else
      match TrySmallRight(t.right)
      case None => None
      case Some(r) => TrySmallLeft(t.(right := r))
  }

  function TryLargeRight(t: Tree): Option<Tree> {
    if t.Leaf? then None
    else
      match TrySmallLeft(t.left)
      case None => None
      case Some(l) => TrySmallRight(t.(left := l))
  }

  /** `BalancingSubtree`. */
  function TryBalanced(t: Tree, large: bool): (r: Option<Tree>)
    requires t.Branch?
    ensures r == if CanBalance(t, large) then Some(Balanced(t, large)) else None
  {
    var turned :=
      if BalanceFactor(t) == -2 then if large then TryLargeLeft(t) else TrySmallLeft(t)
      else if BalanceFactor(t) == 2 then if large then TryLargeRight(t) else TrySmallRight(t)
      else Some(t);
    match turned
    case None => None
    case Some(top) => Some(top.(height := MaxHeight(top.left, top.right)))
  }

  /** What becomes of an insertion. */
  datatype Placing = NullDereferenced | Present | Added(tree: Tree)

  function Rebalanced(t: Tree, large: bool): (r: Placing)
    requires t.Branch?
    ensures r.Added? ==> r.tree.Branch?
  {
    match TryBalanced(t, large)
    case None => NullDereferenced
    case Some(top) => Added(top)
  }

  /** `InsertImpl`. */
  function Placed(t: Tree, key: int): (r: Placing)
    ensures r.Added? ==> r.tree.Branch?
  {
    match t
    case Leaf => Added(Branch(Leaf, key, 0, Leaf))
    case Branch(l, k, _, r) =>
      if key < k then
        match Placed(l, key)
        case NullDereferenced => NullDereferenced
        case Present => Present
        case Added(l') => Rebalanced(t.(left := l'), key > l'.key)
      else if key > k then
        match Placed(r, key)
        case NullDereferenced => NullDereferenced
        case Present => Present
        case Added(r') => Rebalanced(t.(right := r'), key < r'.key)
      else Present
  }

  /** `Insert`: the whole tree is searched first. */
  function Inserted(t: Tree, key: int): Placing {
    if key in Keys(t) then Present else Placed(t, key)
  }

  // ---------------------------------------------------------------- order

  function Keys(t: Tree): set<int> {
    match t
    case Leaf => {}
    case Branch(l, k, _, r) => Keys(l) + {k} + Keys(r)
  }

  predicate Ordered(t: Tree) {
    match t
    case Leaf => true
    case Branch(l, k, _, r) =>
      && Ordered(l) && Ordered(r)
      && (forall x :: x in Keys(l) ==> x < k) && (forall x :: x in Keys(r) ==> k < x)
  }

  lemma SmallLeftKeepsOrder(t: Tree)
    requires t.Branch? && t.right.Branch? && Ordered(t)
    ensures Ordered(SmallLeft(t)) && Keys(SmallLeft(t)) == Keys(t)
  {
    assert t.right.key in Keys(t.right);
  }

  lemma SmallRightKeepsOrder(t: Tree)
    requires t.Branch? && t.left.Branch? && Ordered(t)
    ensures Ordered(SmallRight(t)) && Keys(SmallRight(t)) == Keys(t)
  {
    assert t.left.key in Keys(t.left);
  }

  lemma BalancedKeepsOrder(t: Tree, large: bool)
    requires CanBalance(t, large) && Ordered(t)
    ensures Ordered(Balanced(t, large)) && Keys(Balanced(t, large)) == Keys(t)
  {
    if BalanceFactor(t) == -2 {
      if large {
        SmallRightKeepsOrder(t.right);
        SmallLeftKeepsOrder(t.(right := SmallRight(t.right)));
      } else {
        SmallLeftKeepsOrder(t);
      }
    } else if BalanceFactor(t) == 2 {
      if large {
        SmallLeftKeepsOrder(t.left);
        SmallRightKeepsOrder(t.(left := SmallLeft(t.left)));
      } else {
        SmallRightKeepsOrder(t);
      }
    }
  }

  /** Insertion into any ordered tree, whatever its stored heights: order stays, exactly the key is added, and
      nothing happens exactly when the key is there. */
  lemma {:induction false} PlacedKeepsOrder(t: Tree, key: int)
    requires Ordered(t)
    ensures Placed(t, key) == Present <==> key in Keys(t)
    ensures Placed(t, key).Added? ==>
              Ordered(Placed(t, key).tree) && Keys(Placed(t, key).tree) == Keys(t) + {key}
  {
    match t
    case Leaf =>
    case Branch(l, k, h, r) =>
      if key < k {
        PlacedKeepsOrder(l, key);
        if Placed(l, key).Added? {
          var l' := Placed(l, key).tree;
          PlacedOnLeft(t, key, l');
        }
      } else if key > k {
        PlacedKeepsOrder(r, key);
        if Placed(r, key).Added? {
          var r' := Placed(r, key).tree;
          PlacedOnRight(t, key, r');
        }
      }
  }

  lemma PlacedOnLeft(t: Tree, key: int, l': Tree)
    requires t.Branch? && Ordered(t) && key < t.key && Placed(t.left, key) == Added(l')
    requires Ordered(l') && Keys(l') == Keys(t.left) + {key}
    ensures Placed(t, key) != Present
    ensures Placed(t, key).Added? ==>
              Ordered(Placed(t, key).tree) && Keys(Placed(t, key).tree) == Keys(t) + {key}
  {
    if CanBalance(t.(left := l'), key > l'.key) {
      BalancedKeepsOrder(t.(left := l'), key > l'.key);
    }
  }

  lemma PlacedOnRight(t: Tree, key: int, r': Tree)
    requires t.Branch? && Ordered(t) && key > t.key && Placed(t.right, key) == Added(r')
    requires Ordered(r') && Keys(r') == Keys(t.right) + {key}
    ensures Placed(t, key) != Present
    ensures Placed(t, key).Added? ==>
              Ordered(Placed(t, key).tree) && Keys(Placed(t, key).tree) == Keys(t) + {key}
  {
    if CanBalance(t.(right := r'), key < r'.key) {
      BalancedKeepsOrder(t.(right := r'), key < r'.key);
    }
  }

  // ---------------------------------------------------------------- the guard of an insertion

  /** On the way back from the new node no double rotation is asked for on the far side of a node whose heavy
      child has no inner child. The near side needs no guard: the child holds the new key on its inner side. */
  predicate CanPlace(t: Tree, key: int) {
    match t
    case Leaf => true
    case Branch(l, k, _, r) =>
      if key < k then
        CanPlace(l, key) &&
        (Placed(l, key).Added? ==>
           var l' := Placed(l, key).tree;
           BalanceFactor(t.(left := l')) == -2 && key > l'.key ==> r.Branch? && r.left.Branch?)
      else if key > k then
        CanPlace(r, key) &&
        (Placed(r, key).Added? ==>
           var r' := Placed(r, key).tree;
           BalanceFactor(t.(right := r')) == 2 && key < r'.key ==> l.Branch? && l.right.Branch?)
      else true
  }

  /** The exact guard, for every ordered tree: without it a null pointer is dereferenced. */
  lemma {:induction false} NullDereferencedIff(t: Tree, key: int)
    requires Ordered(t)
    ensures Placed(t, key) == NullDereferenced <==> !CanPlace(t, key)
  {
    match t
    case Leaf =>
    case Branch(l, k, _, r) =>
      if key < k {
        NullDereferencedIff(l, key);
        PlacedKeepsOrder(l, key);
        if Placed(l, key).Added? {
          NearSideHolds(Placed(l, key).tree, key);
        }
      } else if key > k {
        NullDereferencedIff(r, key);
        PlacedKeepsOrder(r, key);
        if Placed(r, key).Added? {
          NearSideHolds(Placed(r, key).tree, key);
        }
      }
  }

  lemma NearSideHolds(t: Tree, key: int)
    requires t.Branch? && Ordered(t) && key in Keys(t)
    ensures key > t.key ==> t.right.Branch?
    ensures key < t.key ==> t.left.Branch?
  {
  }

  function InOrder(t: Tree): seq<int> {
    match t
    case Leaf => []
    case Branch(l, k, _, r) => InOrder(l) + [k] + InOrder(r)
  }

  /** In-order traversal lists the keys of an ordered tree once each, in strictly increasing order. */
  lemma {:induction false} InOrderIncreases(t: Tree)
    ensures forall x :: x in InOrder(t) <==> x in Keys(t)
    ensures Ordered(t) ==> Increasing(InOrder(t)) && |InOrder(t)| == |Keys(t)|
  {
    match t
    case Leaf =>
    case Branch(l, k, _, r) =>
      InOrderIncreases(l);
      InOrderIncreases(r);
      if Ordered(t) {
        IncreasingAround(InOrder(l), k, InOrder(r));
        DisjointSizes(Keys(l), k, Keys(r));
      }
  }

  lemma DisjointSizes(a: set<int>, k: int, b: set<int>)
    requires (forall x :: x in a ==> x < k) && (forall x :: x in b ==> k < x)
    ensures |a + {k} + b| == |a| + 1 + |b|
  {
    forall x | x in b
      ensures x !in a + {k}
    {
      assert k < x;
    }
    assert a !! {k};
  }

  // ---------------------------------------------------------------- balance

  predicate IsAvl(t: Tree) {
    match t
    case Leaf => true
    case Branch(l, _, h, r) => IsAvl(l) && IsAvl(r) && h == MaxHeight(l, r) && -1 <= Rise(l) - Rise(r) <= 1
  }

  /** How an insertion of `key` has changed `t`: the height grows by one at most, and if it grows then a
      tree with more than one node leans to the side of `key`. */
  predicate GrownBy(t: Tree, key: int, t': Tree) {
    && t'.Branch? && Rise(t) <= Rise(t') <= Rise(t) + 1
    && (Rise(t') > Rise(t) && Rise(t') > 1 ==>
          && t'.key != key
          && (key < t'.key ==> Rise(t'.left) == Rise(t'.right) + 1)
          && (key > t'.key ==> Rise(t'.right) == Rise(t'.left) + 1))
  }

  lemma {:induction false} RiseOfAvl(t: Tree)
    requires IsAvl(t)
    ensures 0 <= Rise(t) && (Rise(t) == 0 <==> t == Leaf)
  {
    if t.Branch? {
      RiseOfAvl(t.left);
      RiseOfAvl(t.right);
    }
  }

  lemma BalancedOnLeft(t: Tree, key: int, l': Tree)
    requires t.Branch? && IsAvl(t) && key < t.key && IsAvl(l') && GrownBy(t.left, key, l')
    ensures CanBalance(t.(left := l'), key > l'.key)
    ensures IsAvl(Balanced(t.(left := l'), key > l'.key))
    ensures GrownBy(t, key, Balanced(t.(left := l'), key > l'.key))
  {
    RiseOfAvl(t.right);
    RiseOfAvl(l'.left);
    RiseOfAvl(l'.right);
    if l'.right.Branch? {
      RiseOfAvl(l'.right.left);
      RiseOfAvl(l'.right.right);
    }
  }

  lemma BalancedOnRight(t: Tree, key: int, r': Tree)
    requires t.Branch? && IsAvl(t) && key > t.key && IsAvl(r') && GrownBy(t.right, key, r')
    ensures CanBalance(t.(right := r'), key < r'.key)
    ensures IsAvl(Balanced(t.(right := r'), key < r'.key))
    ensures GrownBy(t, key, Balanced(t.(right := r'), key < r'.key))
  {
    RiseOfAvl(t.left);
    RiseOfAvl(r'.left);
    RiseOfAvl(r'.right);
    if r'.left.Branch? {
      RiseOfAvl(r'.left.left);
      RiseOfAvl(r'.left.right);
    }
  }

  /** Insertion into a balanced tree never meets a null pointer and leaves a balanced tree. */
  lemma {:induction false} PlacedIsAvl(t: Tree, key: int)
    requires IsAvl(t)
    ensures Placed(t, key) != NullDereferenced
    ensures Placed(t, key).Added? ==> IsAvl(Placed(t, key).tree) && GrownBy(t, key, Placed(t, key).tree)
  {
    match t
    case Leaf =>
    case Branch(l, k, _, r) =>
      if key < k {
        PlacedIsAvl(l, key);
        if Placed(l, key).Added? {
          BalancedOnLeft(t, key, Placed(l, key).tree);
        }
      } else if key > k {
        PlacedIsAvl(r, key);
        if Placed(r, key).Added? {
          BalancedOnRight(t, key, Placed(r, key).tree);
        }
      }
  }

  /** Balanced trees satisfy the guard. */
  lemma {:induction false} AvlCanPlace(t: Tree, key: int)
    requires IsAvl(t)
    ensures CanPlace(t, key)
  {
    match t
    case Leaf =>
    case Branch(l, k, _, r) =>
      RiseOfAvl(l);
      RiseOfAvl(r);
      if key < k {
        AvlCanPlace(l, key);
        PlacedIsAvl(l, key);
      } else if key > k {
        AvlCanPlace(r, key);
        PlacedIsAvl(r, key);
      }
  }

  // ---------------------------------------------------------------- height

  /** The number of edges from the root to the deepest node, -1 for the empty tree. */
  function TrueHeight(t: Tree): int {
    match t
    case Leaf => -1
    case Branch(l, _, _, r) => 1 + if TrueHeight(l) < TrueHeight(r) then TrueHeight(r) else TrueHeight(l)
  }

  /** `Depth()`. */
  function Depth(t: Tree): int {
    if t.Leaf? then -1 else t.height
  }

  lemma {:induction false} DepthIsTrue(t: Tree)
    requires IsAvl(t)
    ensures Depth(t) == TrueHeight(t) >= -1
  {
    match t
    case Leaf =>
    case Branch(l, _, _, r) =>
      DepthIsTrue(l);
      DepthIsTrue(r);
  }

  function Fib(n: nat): nat {
    if n < 2 then n else Fib(n - 1) + Fib(n - 2)
  }

  /** The Fibonacci bound: a tree of depth `d` has at least `Fib(d + 3) - 1` keys. */
  lemma {:induction false} FibonacciBound(t: Tree)
    requires IsAvl(t)
    ensures Depth(t) >= -1 && Fib(Depth(t) + 3) <= |InOrder(t)| + 1
  {
    match t
    case Leaf =>
    case Branch(l, _, _, r) =>
      FibonacciBound(l);
      FibonacciBound(r);
      DepthOfNode(t);
      FibOfChildren(Depth(t), Depth(l), Depth(r));
  }

  lemma DepthOfNode(t: Tree)
    requires t.Branch? && IsAvl(t)
    ensures Depth(t) >= 0
    ensures Depth(t) == 1 + if Depth(t.left) < Depth(t.right) then Depth(t.right) else Depth(t.left)
    ensures -1 <= Depth(t.left) && -1 <= Depth(t.right)
    ensures Depth(t) - 2 <= Depth(t.left) && Depth(t) - 2 <= Depth(t.right)
  {
    DepthIsTrue(t.left);
    DepthIsTrue(t.right);
  }

  lemma FibOfChildren(d: int, left: int, right: int)
    requires d >= 0 && left >= -1 && right >= -1 && d == 1 + (if left < right then right else left)
    requires d - 2 <= left && d - 2 <= right
    ensures Fib(d + 3) <= Fib(left + 3) + Fib(right + 3)
  {
    FibMonotone(d + 1, left + 3);
    FibMonotone(d + 1, right + 3);
  }

  lemma {:induction false} FibMonotone(m: nat, n: nat)
    requires m <= n
    ensures Fib(m) <= Fib(n)
  {
    if m < n {
      FibMonotone(m, n - 1);
      if n < 3 {
        assert Fib(0) == 0 && Fib(1) == 1 && Fib(2) == 1;
      }
    }
  }

  /** The bound is reached: no better one holds. */
  lemma {:induction false} FibonacciBoundIsTight(d: nat) returns (t: Tree)
    ensures IsAvl(t) && Depth(t) == d && Fib(d + 3) == |InOrder(t)| + 1
  {
    assert Fib(0) == 0 && Fib(1) == 1 && Fib(2) == 1 && Fib(3) == 2 && Fib(4) == 3;
    if d == 0 {
      t := Branch(Leaf, 0, 0, Leaf);
    } else if d == 1 {
      t := Branch(Branch(Leaf, 0, 0, Leaf), 1, 1, Leaf);
    } else {
      var l := FibonacciBoundIsTight(d - 1);
      var r := FibonacciBoundIsTight(d - 2);
      t := Branch(l, 0, d, r);
    }
  }
}
