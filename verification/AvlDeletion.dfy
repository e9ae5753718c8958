/** Deletion from an AVL tree, on values: it keeps the order of any tree, and the balance of a balanced one
    exactly under a condition that can be read off the stored heights. */
module AvlDeletion {
  import opened AvlSpec

  /** `FindMinChild`: the leftmost node, here the subtree under it. */
  function MinChild(t: Tree): (m: Tree)
    requires t.Branch?
    ensures m.Branch?
  {
    if t.left.Leaf? then t else MinChild(t.left)
  }

  /** `DeleteMinChild`. */
  function WithoutMin(t: Tree): Tree
    requires t.Branch?
  {
    if t.left.Leaf? then t.right else t.(left := WithoutMin(t.left))
  }

  /** `DeleteImpl`. The smallest node of the right subtree takes the place of the deleted node and keeps its
      own stored height; rebalancing uses single rotations only. */
  function Deleted(t: Tree, key: int): Tree {
    match t
    case Leaf => Leaf
    case Branch(l, k, h, r) =>
      if key < k then Balanced(t.(left := Deleted(l, key)), false)
      else if key > k then Balanced(t.(right := Deleted(r, key)), false)
      else if r.Leaf? then l
      else Branch(l, MinChild(r).key, MinChild(r).height, WithoutMin(r))
  }

  lemma {:induction false} MinIsSmallest(t: Tree)
    requires t.Branch? && Ordered(t)
    ensures Ordered(WithoutMin(t)) && MinChild(t).key in Keys(t)
    ensures Keys(WithoutMin(t)) == Keys(t) - {MinChild(t).key}
    ensures forall x :: x in Keys(WithoutMin(t)) ==> MinChild(t).key < x
  {
    if t.left.Branch? {
      MinIsSmallest(t.left);
    }
  }

  /** Deletion removes exactly the given key from any ordered tree, whatever its stored heights. */
  lemma {:induction false} DeletedRemovesKey(t: Tree, key: int)
    requires Ordered(t)
    ensures Ordered(Deleted(t, key)) && Keys(Deleted(t, key)) == Keys(t) - {key}
  {
    match t
    case Leaf =>
    case Branch(l, k, h, r) =>
      if key < k {
        DeletedRemovesKey(l, key);
        BalancedKeepsOrder(t.(left := Deleted(l, key)), false);
      } else if key > k {
        DeletedRemovesKey(r, key);
        BalancedKeepsOrder(t.(right := Deleted(r, key)), false);
      } else if r.Branch? {
        MinIsSmallest(r);
      }
  }

  // ---------------------------------------------------------------- when deletion keeps the balance

  function LeftRise(t: Tree): int {
    if t.Leaf? then 0 else Rise(t.left)
  }

  function RightRise(t: Tree): int {
    if t.Leaf? then 0 else Rise(t.right)
  }

  /** Whether a node gets lower when its left child `l` does, the right child being `r`. */
  predicate Lower(l: Tree, r: Tree) {
    Rise(l) > Rise(r) || (Rise(l) < Rise(r) && LeftRise(r) < RightRise(r))
  }

  predicate LowerMirrored(r: Tree, l: Tree) {
    Rise(r) > Rise(l) || (Rise(r) < Rise(l) && RightRise(l) < LeftRise(l))
  }

  /** Whether the subtree gets lower, if it stays balanced. */
  predicate Shrinks(t: Tree, key: int) {
    match t
    case Leaf => false
    case Branch(l, k, _, r) =>
      if key < k then Shrinks(l, key) && Lower(l, r)
      else if key > k then Shrinks(r, key) && LowerMirrored(r, l)
      else true
  }

  /** The deleted node has no right child, or its right child succeeds it and has the stored height that the
      place needs; above it, where the lighter side shrinks, the other child does not lean inward. */
  predicate KeepsBalance(t: Tree, key: int) {
    match t
    case Leaf => true
    case Branch(l, k, _, r) =>
      if key < k then
        KeepsBalance(l, key) && (Shrinks(l, key) && Rise(l) < Rise(r) ==> LeftRise(r) <= RightRise(r))
      else if key > k then
        KeepsBalance(r, key) && (Shrinks(r, key) && Rise(r) < Rise(l) ==> RightRise(l) <= LeftRise(l))
      else r.Leaf? || (r.left.Leaf? && Rise(l) == Rise(r.right))
  }

  lemma {:induction false} MinHeight(t: Tree)
    requires t.Branch? && IsAvl(t)
    ensures 0 <= MinChild(t).height <= t.height && MinChild(t).height <= 1
    ensures t.left.Branch? ==> WithoutMin(t).Branch? && WithoutMin(t).height == t.height >= 1
  {
    RiseOfAvl(t.left);
    RiseOfAvl(t.right);
    if t.left.Branch? {
      MinHeight(t.left);
    } else if t.right.Branch? {
      RiseOfAvl(t.right.left);
      RiseOfAvl(t.right.right);
    }
  }

  /** The place of the deleted node. */
  lemma RootDeleted(t: Tree)
    requires t.Branch? && IsAvl(t)
    ensures 0 <= Rise(Deleted(t, t.key)) <= Rise(t)
    ensures IsAvl(Deleted(t, t.key)) <==> KeepsBalance(t, t.key)
    ensures KeepsBalance(t, t.key) ==> Rise(Deleted(t, t.key)) == Rise(t) - 1
  {
    var l, r := t.left, t.right;
    RiseOfAvl(l);
    RiseOfAvl(r);
    if r.Branch? {
      MinHeight(r);
      RiseOfAvl(r.left);
      RiseOfAvl(r.right);
    }
  }

  /** A node whose left subtree has become `l'`, no higher than before. */
  lemma LeftDeleted(t: Tree, l': Tree)
    requires t.Branch? && IsAvl(t) && 0 <= Rise(l') <= Rise(t.left)
    requires IsAvl(l') ==> Rise(t.left) - 1 <= Rise(l')
    ensures var b, r := Balanced(t.(left := l'), false), t.right;
            && 0 <= Rise(b) <= Rise(t)
            && (IsAvl(b) <==> IsAvl(l') && (Rise(l') < Rise(t.left) < Rise(r) ==> LeftRise(r) <= RightRise(r)))
            && (IsAvl(b) ==> Rise(b) == Rise(t) - if Rise(l') < Rise(t.left) && Lower(t.left, r) then 1 else 0)
  {
    RiseOfAvl(t.left);
    RiseOfAvl(t.right);
    if BalanceFactor(t.(left := l')) == -2 {
      LeftTurned(t, l');
    }
  }

  lemma LeftTurned(t: Tree, l': Tree)
    requires t.Branch? && IsAvl(t) && 0 <= Rise(l') <= Rise(t.left) && Rise(t.right) == Rise(l') + 2
    requires IsAvl(l') ==> Rise(t.left) - 1 <= Rise(l')
    ensures var b, r := Balanced(t.(left := l'), false), t.right;
            && r.Branch? && 0 <= Rise(b) <= Rise(t)
            && (IsAvl(b) <==> IsAvl(l') && Rise(r.left) <= Rise(r.right))
            && (IsAvl(b) ==> Rise(b) == Rise(t) - if Rise(r.left) < Rise(r.right) then 1 else 0)
  {
    RiseOfAvl(t.right.left);
    RiseOfAvl(t.right.right);
  }

  lemma RightDeleted(t: Tree, r': Tree)
    requires t.Branch? && IsAvl(t) && 0 <= Rise(r') <= Rise(t.right)
    requires IsAvl(r') ==> Rise(t.right) - 1 <= Rise(r')
    ensures var b, l := Balanced(t.(right := r'), false), t.left;
            && 0 <= Rise(b) <= Rise(t)
            && (IsAvl(b) <==> IsAvl(r') && (Rise(r') < Rise(t.right) < Rise(l) ==> RightRise(l) <= LeftRise(l)))
            && (IsAvl(b) ==>
                  Rise(b) == Rise(t) - if Rise(r') < Rise(t.right) && LowerMirrored(t.right, l) then 1 else 0)
  {
    RiseOfAvl(t.left);
    RiseOfAvl(t.right);
    if BalanceFactor(t.(right := r')) == 2 {
      RightTurned(t, r');
    }
  }

  lemma RightTurned(t: Tree, r': Tree)
    requires t.Branch? && IsAvl(t) && 0 <= Rise(r') <= Rise(t.right) && Rise(t.left) == Rise(r') + 2
    requires IsAvl(r') ==> Rise(t.right) - 1 <= Rise(r')
    ensures var b, l := Balanced(t.(right := r'), false), t.left;
            && l.Branch? && 0 <= Rise(b) <= Rise(t)
            && (IsAvl(b) <==> IsAvl(r') && Rise(l.right) <= Rise(l.left))
            && (IsAvl(b) ==> Rise(b) == Rise(t) - if Rise(l.right) < Rise(l.left) then 1 else 0)
  {
    RiseOfAvl(t.left.left);
    RiseOfAvl(t.left.right);
  }

  lemma {:induction false} DeletedHeight(t: Tree, key: int)
    requires IsAvl(t)
    ensures 0 <= Rise(Deleted(t, key)) <= Rise(t)
    ensures IsAvl(Deleted(t, key)) <==> KeepsBalance(t, key)
    ensures KeepsBalance(t, key) ==> Rise(Deleted(t, key)) == Rise(t) - if Shrinks(t, key) then 1 else 0
  {
    if t.Branch? {
      if key < t.key {
        DeletedHeight(t.left, key);
        LeftDeleted(t, Deleted(t.left, key));
      } else if key > t.key {
        DeletedHeight(t.right, key);
        RightDeleted(t, Deleted(t.right, key));
      } else {
        RootDeleted(t);
      }
    }
  }

  /** Deletion keeps the balance, stored heights included, exactly under this condition. */
  lemma DeletionKeepsBalanceIff(t: Tree, key: int)
    requires IsAvl(t)
    ensures IsAvl(Deleted(t, key)) <==> KeepsBalance(t, key)
  {
    DeletedHeight(t, key);
  }

  /** It does not always: once 2 is deleted from the balanced tree of 1, 2 and 3, `Depth()` is 0 although the
      tree has two levels. */
  lemma DeletionLosesHeight()
    ensures var t := Branch(Branch(Leaf, 1, 0, Leaf), 2, 1, Branch(Leaf, 3, 0, Leaf));
            && IsAvl(t) && Ordered(t) && !KeepsBalance(t, 2)
            && Depth(Deleted(t, 2)) == 0 && TrueHeight(Deleted(t, 2)) == 1
  {
    var l := Branch(Leaf, 1, 0, Leaf);
    assert TrueHeight(l) == 0;
  }
}
