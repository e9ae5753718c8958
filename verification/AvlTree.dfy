/** The AVL tree over linked nodes. A reference to a node pointer becomes an argument and a result. Shapes
    record which node is where, so that the pointer operations can be compared with those on values. */
module AvlTree {
  import opened AvlSpec
  import opened AvlDeletion
  import opened Shapes
  import opened SortedSequences

  class Node {
    const key: int
    var left: Node?
    var right: Node?
    var height: int

    constructor (key: int)
      ensures this.key == key && left == null && right == null && height == 0
    {
      this.key := key;
      left, right, height := null, null, 0;
    }
  }

  /** The pointers of `sh` are those of the tree under `n`. */
  ghost predicate Linked(sh: Shape<Node>, n: Node?)
    reads Nodes(sh)`left, Nodes(sh)`right
  {
    match sh
    case Nil => n == null
    case At(l, m, r) => n == m && Linked(l, m.left) && Linked(r, m.right)
  }

  ghost predicate Holds(sh: Shape<Node>, n: Node?)
    reads Nodes(sh)`left, Nodes(sh)`right
  {
    Tidy(sh) && Linked(sh, n)
  }

  ghost function Value(sh: Shape<Node>): Tree
    reads Nodes(sh)`height
  {
    match sh
    case Nil => Leaf
    case At(l, m, r) => Branch(Value(l), m.key, m.height, Value(r))
  }

  lemma Root(sh: Shape<Node>, n: Node?)
    requires Linked(sh, n)
    ensures if n == null then sh == Nil else sh.At? && sh.node == n && n in Nodes(sh)
  {
  }

  ghost function MinNode(sh: Shape<Node>): (m: Node)
    requires sh.At?
    ensures m in Nodes(sh)
  {
    if sh.left.Nil? then sh.node else MinNode(sh.left)
  }

  function GetMaxHeight(l: Node?, r: Node?): int
    reads (if l == null then {} else {l})`height, (if r == null then {} else {r})`height
  {
    var left := if l == null then 0 else l.height + 1;
    var right := if r == null then 0 else r.height + 1;
    if left < right then right else left
  }

  lemma MaxHeightValue(l: Shape<Node>, ln: Node?, r: Shape<Node>, rn: Node?)
    requires Linked(l, ln) && Linked(r, rn)
    ensures GetMaxHeight(ln, rn) == MaxHeight(Value(l), Value(r))
  {
  }

  /** A node gets its height from its two children. */
  method UpdateHeight(n: Node, ghost sh: Shape<Node>)
    requires Holds(sh, n) && sh.At?
    modifies n`height
    ensures Holds(sh, n)
    ensures Value(sh) == old(Branch(Value(sh.left), n.key, MaxHeight(Value(sh.left), Value(sh.right)), Value(sh.right)))
  {
    MaxHeightValue(sh.left, n.left, sh.right, n.right);
    n.height := GetMaxHeight(n.left, n.right);
  }

  /** The two assignments to child pointers of a left rotation. */
  method TurnLeft(x: Node, y: Node, ghost a: Shape<Node>, ghost b: Shape<Node>, ghost c: Shape<Node>)
    requires Tidy(At(a, x, At(b, y, c))) && Linked(a, x.left) && x.right == y
    requires Linked(b, y.left) && Linked(c, y.right)
    modifies x`right, y`left
    ensures Holds(At(At(a, x, b), y, c), y) && Holds(At(a, x, b), x)
  {
    RotationTidy(x, y, a, b, c);
    x.right := y.left;
    y.left := x;
  }

  method TurnRight(x: Node, y: Node, ghost a: Shape<Node>, ghost b: Shape<Node>, ghost c: Shape<Node>)
    requires Tidy(At(At(a, x, b), y, c)) && Linked(c, y.right) && y.left == x
    requires Linked(a, x.left) && Linked(b, x.right)
    modifies y`left, x`right
    ensures Holds(At(a, x, At(b, y, c)), x) && Holds(At(b, y, c), y)
  {
    RotationTidy(x, y, a, b, c);
    y.left := x.right;
    x.right := y;
  }

  /** The two new heights after a left rotation, the lower one first. */
  method HeightsOnLeft(x: Node, y: Node, ghost a: Shape<Node>, ghost b: Shape<Node>, ghost c: Shape<Node>)
    requires Holds(At(At(a, x, b), y, c), y) && Holds(At(a, x, b), x)
    modifies x`height, y`height
    ensures Holds(At(At(a, x, b), y, c), y)
    ensures var lower := Branch(old(Value(a)), x.key, MaxHeight(old(Value(a)), old(Value(b))), old(Value(b)));
            Value(At(At(a, x, b), y, c)) == Branch(lower, y.key, MaxHeight(lower, old(Value(c))), old(Value(c)))
  {
    assert allocated(Nodes(a)) && allocated(Nodes(b)) && allocated(Nodes(c));
    UpdateHeight(x, At(a, x, b));
    UpdateHeight(y, At(At(a, x, b), y, c));
  }

  method HeightsOnRight(x: Node, y: Node, ghost a: Shape<Node>, ghost b: Shape<Node>, ghost c: Shape<Node>)
    requires Holds(At(a, x, At(b, y, c)), x) && Holds(At(b, y, c), y)
    modifies x`height, y`height
    ensures Holds(At(a, x, At(b, y, c)), x)
    ensures var lower := Branch(old(Value(b)), y.key, MaxHeight(old(Value(b)), old(Value(c))), old(Value(c)));
            Value(At(a, x, At(b, y, c))) == Branch(old(Value(a)), x.key, MaxHeight(old(Value(a)), lower), lower)
  {
    assert allocated(Nodes(a)) && allocated(Nodes(b)) && allocated(Nodes(c));
    UpdateHeight(y, At(b, y, c));
    UpdateHeight(x, At(a, x, At(b, y, c)));
  }

  method SmallLeftRotation(subtree: Node, ghost sh: Shape<Node>) returns (top: Node, ghost sh': Shape<Node>)
    requires Holds(sh, subtree) && Value(sh).Branch? && Value(sh).right.Branch?
    modifies Nodes(sh)`left, Nodes(sh)`right, Nodes(sh)`height
    ensures Holds(sh', top) && Nodes(sh') == Nodes(sh)
    ensures Value(sh') == SmallLeft(old(Value(sh)))
  {
    assert Linked(sh.right, subtree.right) && Value(sh).right == Value(sh.right);
    top := subtree.right;
    ghost var a, b, c := sh.left, sh.right.left, sh.right.right;
    assert allocated(Nodes(a)) && allocated(Nodes(b)) && allocated(Nodes(c));
    RotationTidy(subtree, top, a, b, c);
    sh' := At(At(a, subtree, b), top, c);
    TurnLeft(subtree, top, a, b, c);
    HeightsOnLeft(subtree, top, a, b, c);
  }

  method SmallRightRotation(subtree: Node, ghost sh: Shape<Node>) returns (top: Node, ghost sh': Shape<Node>)
    requires Holds(sh, subtree) && Value(sh).Branch? && Value(sh).left.Branch?
    modifies Nodes(sh)`left, Nodes(sh)`right, Nodes(sh)`height
    ensures Holds(sh', top) && Nodes(sh') == Nodes(sh)
    ensures Value(sh') == SmallRight(old(Value(sh)))
  {
    assert Linked(sh.left, subtree.left) && Value(sh).left == Value(sh.left);
    top := subtree.left;
    ghost var a, b, c := sh.left.left, sh.left.right, sh.right;
    assert allocated(Nodes(a)) && allocated(Nodes(b)) && allocated(Nodes(c));
    RotationTidy(top, subtree, a, b, c);
    sh' := At(a, top, At(b, subtree, c));
    TurnRight(top, subtree, a, b, c);
    HeightsOnRight(top, subtree, a, b, c);
  }

  method SetLeftChild(n: Node, child: Node?, ghost l: Shape<Node>, ghost r: Shape<Node>) returns (ghost sh: Shape<Node>)
    requires Tidy(At(l, n, r)) && Linked(l, child) && Linked(r, n.right)
    modifies n`left
    ensures sh == At(l, n, r) && Holds(sh, n)
    ensures Value(sh) == old(Branch(Value(l), n.key, n.height, Value(r)))
  {
    sh := At(l, n, r);
    n.left := child;
  }

  method SetRightChild(
    n: Node, child: Node?, ghost l: Shape<Node>, ghost r: Shape<Node>)
    returns (ghost sh: Shape<Node>)
    requires Tidy(At(l, n, r)) && Linked(l, n.left) && Linked(r, child)
    modifies n`right
    ensures sh == At(l, n, r) && Holds(sh, n)
    ensures Value(sh) == old(Branch(Value(l), n.key, n.height, Value(r)))
  {
    sh := At(l, n, r);
    n.right := child;
  }

  method LargeLeftRotation(subtree: Node, ghost sh: Shape<Node>) returns (top: Node, ghost sh': Shape<Node>)
    requires Holds(sh, subtree) && Value(sh).Branch? && Value(sh).right.Branch? && Value(sh).right.left.Branch?
    modifies Nodes(sh)`left, Nodes(sh)`right, Nodes(sh)`height
    ensures Holds(sh', top) && Nodes(sh') == Nodes(sh)
    ensures Value(sh') == LargeLeft(old(Value(sh)))
  {
    ghost var l, r := sh.left, sh.right;
    assert Linked(r, subtree.right) && Value(sh).right == Value(r);
    assert allocated(Nodes(l)) && allocated(Nodes(r));
    Root(r, subtree.right);
    var child;
    ghost var r';
    child, r' := SmallRightRotation(subtree.right, r);
    ghost var mid := SetRightChild(subtree, child, l, r');
    top, sh' := SmallLeftRotation(subtree, mid);
  }

  method LargeRightRotation(subtree: Node, ghost sh: Shape<Node>) returns (top: Node, ghost sh': Shape<Node>)
    requires Holds(sh, subtree) && Value(sh).Branch? && Value(sh).left.Branch? && Value(sh).left.right.Branch?
    modifies Nodes(sh)`left, Nodes(sh)`right, Nodes(sh)`height
    ensures Holds(sh', top) && Nodes(sh') == Nodes(sh)
    ensures Value(sh') == LargeRight(old(Value(sh)))
  {
    ghost var l, r := sh.left, sh.right;
    assert Linked(l, subtree.left) && Value(sh).left == Value(l);
    assert allocated(Nodes(l)) && allocated(Nodes(r));
    Root(l, subtree.left);
    var child;
    ghost var l';
    child, l' := SmallLeftRotation(subtree.left, l);
    ghost var mid := SetLeftChild(subtree, child, l', r);
    top, sh' := SmallRightRotation(subtree, mid);
  }

  /** `large` is the outcome of comparing the keys. */
  method BalancingSubtree(subtree: Node, large: bool, ghost sh: Shape<Node>) returns (top: Node, ghost sh': Shape<Node>)
    requires Holds(sh, subtree) && CanBalance(Value(sh), large)
    modifies Nodes(sh)`left, Nodes(sh)`right, Nodes(sh)`height
    ensures Holds(sh', top) && Nodes(sh') == Nodes(sh)
    ensures Value(sh') == Balanced(old(Value(sh)), large)
  {
    MaxHeightValue(sh.left, subtree.left, Nil, null);
    MaxHeightValue(Nil, null, sh.right, subtree.right);
    var leftDepth := GetMaxHeight(subtree.left, null);
    var rightDepth := GetMaxHeight(null, subtree.right);
    var balanceFactor := leftDepth - rightDepth;
    ghost var t := Value(sh);
    assert t == Branch(Value(sh.left), subtree.key, subtree.height, Value(sh.right));
    assert balanceFactor == BalanceFactor(t);
    top, sh' := subtree, sh;
    if balanceFactor == -2 {
      if large {
        top, sh' := LargeLeftRotation(subtree, sh);
      } else {
        top, sh' := SmallLeftRotation(subtree, sh);
      }
    } else if balanceFactor == 2 {
      if large {
        top, sh' := LargeRightRotation(subtree, sh);
      } else {
        top, sh' := SmallRightRotation(subtree, sh);
      }
    }
    ghost var turned := Turned(t, large);
    assert Value(sh') == turned;
    assert sh'.At? && turned.left == Value(sh'.left) && turned.key == top.key && turned.right == Value(sh'.right);
    UpdateHeight(top, sh');
  }

  /** After an insertion into the left subtree. */
  method AdoptLeft(root: Node, child: Node, added: Node, ghost l: Shape<Node>, ghost r: Shape<Node>, ghost t: Tree)
    returns (top: Node, ghost sh': Shape<Node>)
    requires Tidy(At(l, root, r)) && Linked(l, child) && Linked(r, root.right)
    requires t.Branch? && added.key < t.key == root.key && t.height == root.height
    requires t.right == Value(r) && Placed(t.left, added.key) == Added(Value(l))
    requires Placed(t, added.key) != NullDereferenced
    modifies Nodes(At(l, root, r))`left, Nodes(At(l, root, r))`right, Nodes(At(l, root, r))`height
    ensures Holds(sh', top) && Nodes(sh') == Nodes(At(l, root, r)) && Placed(t, added.key) == Added(Value(sh'))
  {
    Root(l, child);
    ghost var mid := SetLeftChild(root, child, l, r);
    top, sh' := BalancingSubtree(root, added.key > child.key, mid);
  }

  method AdoptRight(root: Node, child: Node, added: Node, ghost l: Shape<Node>, ghost r: Shape<Node>, ghost t: Tree)
    returns (top: Node, ghost sh': Shape<Node>)
    requires Tidy(At(l, root, r)) && Linked(l, root.left) && Linked(r, child)
    requires t.Branch? && added.key > t.key == root.key && t.height == root.height
    requires t.left == Value(l) && Placed(t.right, added.key) == Added(Value(r))
    requires Placed(t, added.key) != NullDereferenced
    modifies Nodes(At(l, root, r))`left, Nodes(At(l, root, r))`right, Nodes(At(l, root, r))`height
    ensures Holds(sh', top) && Nodes(sh') == Nodes(At(l, root, r)) && Placed(t, added.key) == Added(Value(sh'))
  {
    Root(r, child);
    ghost var mid := SetRightChild(root, child, l, r);
    top, sh' := BalancingSubtree(root, added.key < child.key, mid);
  }

  /** What `InsertImpl` leaves of a subtree with the nodes `nodes` and the value `t`. */
  ghost predicate AfterInsert(
    t: Tree, nodes: set<Node>, sh: Shape<Node>, added: Node, isAdded: bool, top: Node?, sh': Shape<Node>)
    reads Nodes(sh')`left, Nodes(sh')`right, Nodes(sh')`height
  {
    && Holds(sh', top)
    && (if isAdded then top != null && Nodes(sh') == nodes + {added} else sh' == sh)
    && if isAdded then Placed(t, added.key) == Added(Value(sh')) else Placed(t, added.key) == Present && Value(sh') == t
  }

  method InsertImpl(root: Node?, added: Node, ghost sh: Shape<Node>)
    returns (isAdded: bool, top: Node?, ghost sh': Shape<Node>)
    requires Holds(sh, root) && Placed(Value(sh), added.key) != NullDereferenced
    requires added !in Nodes(sh) && added.left == null && added.right == null && added.height == 0
    modifies Nodes(sh)`left, Nodes(sh)`right, Nodes(sh)`height, added`left, added`right, added`height
    ensures AfterInsert(old(Value(sh)), Nodes(sh), sh, added, isAdded, top, sh')
    decreases sh, 1
  {
    Root(sh, root);
    isAdded, top, sh' := false, root, sh;
    if root == null {
      sh' := At(Nil, added, Nil);
      return true, added, sh';
    } else if added.key < root.key {
      isAdded, top, sh' := InsertOnLeft(root, added, sh);
    } else if added.key > root.key {
      isAdded, top, sh' := InsertOnRight(root, added, sh);
    }
  }

  method InsertOnLeft(root: Node, added: Node, ghost sh: Shape<Node>)
    returns (isAdded: bool, top: Node?, ghost sh': Shape<Node>)
    requires Holds(sh, root) && Placed(Value(sh), added.key) != NullDereferenced && added.key < root.key
    requires added !in Nodes(sh) && added.left == null && added.right == null && added.height == 0
    modifies Nodes(sh)`left, Nodes(sh)`right, Nodes(sh)`height, added`left, added`right, added`height
    ensures AfterInsert(old(Value(sh)), Nodes(sh), sh, added, isAdded, top, sh')
    decreases sh, 0
  {
    ghost var l, r, t := sh.left, sh.right, Value(sh);
    assert allocated(Nodes(l)) && allocated(Nodes(r));
    assert t == Branch(Value(l), root.key, root.height, Value(r));
    var child;
    isAdded, child, l := InsertImpl(root.left, added, l);
    top, sh' := root, sh;
    if isAdded {
      top, sh' := AdoptLeft(root, child, added, l, r, t);
    }
  }

  method InsertOnRight(root: Node, added: Node, ghost sh: Shape<Node>)
    returns (isAdded: bool, top: Node?, ghost sh': Shape<Node>)
    requires Holds(sh, root) && Placed(Value(sh), added.key) != NullDereferenced && added.key > root.key
    requires added !in Nodes(sh) && added.left == null && added.right == null && added.height == 0
    modifies Nodes(sh)`left, Nodes(sh)`right, Nodes(sh)`height, added`left, added`right, added`height
    ensures AfterInsert(old(Value(sh)), Nodes(sh), sh, added, isAdded, top, sh')
    decreases sh, 0
  {
    ghost var l, r, t := sh.left, sh.right, Value(sh);
    assert allocated(Nodes(l)) && allocated(Nodes(r));
    assert t == Branch(Value(l), root.key, root.height, Value(r));
    var child;
    isAdded, child, r := InsertImpl(root.right, added, r);
    top, sh' := root, sh;
    if isAdded {
      top, sh' := AdoptRight(root, child, added, l, r, t);
    }
  }

  // ---------------------------------------------------------------- deletion

  method FindMinChild(subtree: Node, ghost sh: Shape<Node>) returns (m: Node)
    requires Holds(sh, subtree) && sh.At?
    ensures m == MinNode(sh) && Value(sh).Branch?
    ensures m.key == MinChild(Value(sh)).key && m.height == MinChild(Value(sh)).height
    decreases sh
  {
    Root(sh.left, subtree.left);
    m := subtree;
    if subtree.left != null {
      m := FindMinChild(subtree.left, sh.left);
    }
  }

  method DeleteMinChild(subtree: Node, ghost sh: Shape<Node>) returns (rest: Node?, ghost sh': Shape<Node>)
    requires Holds(sh, subtree) && sh.At?
    modifies Nodes(sh)`left
    ensures Holds(sh', rest) && Nodes(sh') == Nodes(sh) - {MinNode(sh)}
    ensures old(Value(sh)).Branch? && Value(sh') == WithoutMin(old(Value(sh)))
    decreases sh
  {
    ghost var l, r, t := sh.left, sh.right, Value(sh);
    Root(l, subtree.left);
    if subtree.left == null {
      return subtree.right, r;
    }
    assert allocated(Nodes(l)) && allocated(Nodes(r));
    assert t == Branch(Value(l), subtree.key, subtree.height, Value(r));
    var child;
    child, l := DeleteMinChild(subtree.left, l);
    sh' := SetLeftChild(subtree, child, l, r);
    rest := subtree;
  }

  /** The node with the key leaves the tree and is freed. */
  ghost predicate AfterDelete(t: Tree, nodes: set<Node>, key: int, top: Node?, sh': Shape<Node>, freed: set<Node>)
    reads Nodes(sh')`left, Nodes(sh')`right, Nodes(sh')`height
  {
    && Holds(sh', top) && Value(sh') == Deleted(t, key)
    && freed <= nodes && Nodes(sh') == nodes - freed && (forall n :: n in freed ==> n.key == key)
  }

  method DeleteImpl(root: Node?, key: int, ghost sh: Shape<Node>)
    returns (top: Node?, ghost sh': Shape<Node>, ghost freed: set<Node>)
    requires Holds(sh, root)
    modifies Nodes(sh)`left, Nodes(sh)`right, Nodes(sh)`height
    ensures AfterDelete(old(Value(sh)), Nodes(sh), key, top, sh', freed)
    decreases sh, 1
  {
    Root(sh, root);
    if root == null {
      return null, sh, {};
    } else if key < root.key {
      top, sh', freed := DeleteOnLeft(root, key, sh);
    } else if key > root.key {
      top, sh', freed := DeleteOnRight(root, key, sh);
    } else {
      top, sh' := DeleteRoot(root, sh);
      freed := {root};
    }
  }

  method DeleteOnLeft(root: Node, key: int, ghost sh: Shape<Node>)
    returns (top: Node?, ghost sh': Shape<Node>, ghost freed: set<Node>)
    requires Holds(sh, root) && key < root.key
    modifies Nodes(sh)`left, Nodes(sh)`right, Nodes(sh)`height
    ensures AfterDelete(old(Value(sh)), Nodes(sh), key, top, sh', freed)
    decreases sh, 0
  {
    ghost var l, r, t := sh.left, sh.right, Value(sh);
    assert allocated(Nodes(l)) && allocated(Nodes(r));
    assert t == Branch(Value(l), root.key, root.height, Value(r));
    var child;
    child, l, freed := DeleteImpl(root.left, key, l);
    ghost var mid := SetLeftChild(root, child, l, r);
    top, sh' := BalancingSubtree(root, false, mid);
  }

  method DeleteOnRight(root: Node, key: int, ghost sh: Shape<Node>)
    returns (top: Node?, ghost sh': Shape<Node>, ghost freed: set<Node>)
    requires Holds(sh, root) && key > root.key
    modifies Nodes(sh)`left, Nodes(sh)`right, Nodes(sh)`height
    ensures AfterDelete(old(Value(sh)), Nodes(sh), key, top, sh', freed)
    decreases sh, 0
  {
    ghost var l, r, t := sh.left, sh.right, Value(sh);
    assert allocated(Nodes(l)) && allocated(Nodes(r));
    assert t == Branch(Value(l), root.key, root.height, Value(r));
    var child;
    child, r, freed := DeleteImpl(root.right, key, r);
    ghost var mid := SetRightChild(root, child, l, r);
    top, sh' := BalancingSubtree(root, false, mid);
  }

  method DeleteRoot(root: Node, ghost sh: Shape<Node>) returns (top: Node?, ghost sh': Shape<Node>)
    requires Holds(sh, root) && sh.At?
    modifies Nodes(sh)`left, Nodes(sh)`right
    ensures AfterDelete(old(Value(sh)), Nodes(sh), root.key, top, sh', {root})
  {
    ghost var l, r, t := sh.left, sh.right, Value(sh);
    assert allocated(Nodes(l)) && allocated(Nodes(r));
    assert t == Branch(Value(l), root.key, root.height, Value(r));
    var leftChild, rightChild := root.left, root.right;
    Root(r, rightChild);
    if rightChild == null {
      return leftChild, l;
    }
    top, sh' := LiftMin(leftChild, rightChild, l, r);
  }

  /** The smallest node of the right subtree takes both children. */
  method LiftMin(leftChild: Node?, rightChild: Node, ghost l: Shape<Node>, ghost r: Shape<Node>)
    returns (minChild: Node, ghost sh: Shape<Node>)
    requires Holds(l, leftChild) && Holds(r, rightChild) && r.At? && Nodes(l) !! Nodes(r)
    modifies Nodes(r)`left, Nodes(r)`right
    ensures Holds(sh, minChild) && Nodes(sh) == Nodes(l) + Nodes(r)
    ensures old(Value(r)).Branch?
    ensures Value(sh) == Branch(old(Value(l)), MinChild(old(Value(r))).key, MinChild(old(Value(r))).height,
                                WithoutMin(old(Value(r))))
  {
    assert allocated(Nodes(l)) && allocated(Nodes(r));
    minChild := FindMinChild(rightChild, r);
    var rest;
    ghost var r';
    rest, r' := DeleteMinChild(rightChild, r);
    minChild.right := rest;
    minChild.left := leftChild;
    sh := At(l, minChild, r');
  }

  // ---------------------------------------------------------------- the tree

  method NodeContains(node: Node, key: int, ghost sh: Shape<Node>) returns (found: bool)
    requires Holds(sh, node)
    ensures found <==> key in Keys(Value(sh))
    decreases sh
  {
    if key == node.key {
      return true;
    }
    assert allocated(Nodes(sh.left)) && allocated(Nodes(sh.right));
    Root(sh.left, node.left);
    Root(sh.right, node.right);
    found := false;
    if node.left != null {
      found := NodeContains(node.left, key, sh.left);
    }
    if !found && node.right != null {
      found := NodeContains(node.right, key, sh.right);
    }
  }

  method VisitImpl(root: Node?, ghost sh: Shape<Node>) returns (visited: seq<int>)
    requires Holds(sh, root)
    ensures visited == InOrder(Value(sh))
    decreases sh
  {
    Root(sh, root);
    visited := [];
    if root != null {
      assert allocated(Nodes(sh.left)) && allocated(Nodes(sh.right));
      var l := VisitImpl(root.left, sh.left);
      var r := VisitImpl(root.right, sh.right);
      visited := l + [root.key] + r;
    }
  }

  lemma InsertionIsRight(t: Tree, key: int)
    requires Ordered(t) && CanPlace(t, key)
    ensures Placed(t, key) != NullDereferenced && (Placed(t, key) == Present <==> key in Keys(t))
    ensures key !in Keys(t) ==>
              && Inserted(t, key) == Placed(t, key)
              && Ordered(Placed(t, key).tree) && Keys(Placed(t, key).tree) == Keys(t) + {key}
              && (IsAvl(t) ==> IsAvl(Placed(t, key).tree))
  {
    NullDereferencedIff(t, key);
    PlacedKeepsOrder(t, key);
    if IsAvl(t) {
      PlacedIsAvl(t, key);
    }
  }

  lemma BalanceAfterDeletion(t: Tree, key: int)
    ensures IsAvl(t) ==> (IsAvl(Deleted(t, key)) <==> KeepsBalance(t, key))
  {
    if IsAvl(t) {
      DeletionKeepsBalanceIff(t, key);
    }
  }

  class AVLTree {
    var root_: Node?
    ghost var shape: Shape<Node>

    ghost predicate Valid()
      reads this, Nodes(shape)
    {
      Holds(shape, root_) && Ordered(Value(shape))
    }

    ghost function Contents(): Tree
      reads this, Nodes(shape)
    {
      Value(shape)
    }

    constructor ()
      ensures Valid() && Contents() == Leaf && fresh(Nodes(shape))
    {
      root_, shape := null, Nil;
    }

    method Contains(key: int) returns (found: bool)
      requires Valid()
      ensures found <==> key in Keys(Contents())
    {
      Root(shape, root_);
      found := false;
      if root_ != null {
        found := NodeContains(root_, key, shape);
      }
    }

    /** The guard is the exact one: without it the code dereferences null. Balanced trees satisfy it, and those
        left by deletions may or may not. */
    method Insert(key: int) returns (isAdded: bool)
      requires Valid() && CanPlace(Contents(), key)
      modifies this, Nodes(shape)
      ensures Valid() && (isAdded <==> key !in Keys(old(Contents())))
      ensures if isAdded then Inserted(old(Contents()), key) == Added(Contents()) else Contents() == old(Contents())
      ensures Keys(Contents()) == Keys(old(Contents())) + {key}
      ensures IsAvl(old(Contents())) ==> IsAvl(Contents())
      ensures fresh(Nodes(shape) - old(Nodes(shape)))
    {
      assert allocated(Nodes(shape));
      ghost var t := Contents();
      InsertionIsRight(t, key);
      var exist := Contains(key);
      if exist {
        return false;
      }
      ghost var added;
      isAdded, added := InsertNew(key);
    }

    method InsertNew(key: int) returns (isAdded: bool, ghost added: Node)
      requires Holds(shape, root_) && Placed(Contents(), key).Added?
      modifies this, Nodes(shape)
      ensures isAdded && Holds(shape, root_) && Contents() == Placed(old(Contents()), key).tree
      ensures fresh(added) && Nodes(shape) == old(Nodes(shape)) + {added}
    {
      assert allocated(Nodes(shape));
      var newNode := new Node(key);
      added := newNode;
      isAdded, root_, shape := InsertImpl(root_, newNode, shape);
    }

    /** Balance is not asked for, and kept exactly under the condition `KeepsBalance`. */
    method Delete(key: int)
      requires Valid()
      modifies this, Nodes(shape)
      ensures Valid() && Contents() == Deleted(old(Contents()), key)
      ensures Keys(Contents()) == Keys(old(Contents())) - {key}
      ensures IsAvl(old(Contents())) ==> (IsAvl(Contents()) <==> old(KeepsBalance(Contents(), key)))
      ensures Nodes(shape) <= old(Nodes(shape))
    {
      DeletedRemovesKey(Contents(), key);
      BalanceAfterDeletion(Contents(), key);
      ghost var freed;
      root_, shape, freed := DeleteImpl(root_, key, shape);
    }

    /** The keys in the order in which `Visit` hands them to its visitor. */
    method Visit() returns (visited: seq<int>)
      requires Valid()
      ensures visited == InOrder(Contents()) && Increasing(visited)
      ensures forall x :: x in visited <==> x in Keys(Contents())
    {
      assert allocated(Nodes(shape));
      visited := VisitImpl(root_, shape);
      InOrderIncreases(Contents());
    }

    method Depth() returns (depth: int)
      requires Valid()
      ensures depth == AvlSpec.Depth(Contents())
      ensures IsAvl(Contents()) ==> depth == TrueHeight(Contents())
    {
      Root(shape, root_);
      depth := if root_ == null then -1 else root_.height;
      if IsAvl(Contents()) {
        DepthIsTrue(Contents());
      }
    }
  }
}
