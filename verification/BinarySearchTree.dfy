/** The binary search tree with parent links: insertion, iteration along the links, and destruction without
    recursion. */
module BinarySearchTree {
  import opened Shapes
  import opened SortedSequences

  class TreeNode {
    const key: int
    var left: TreeNode?
    var right: TreeNode?
    var parent: TreeNode?
    /** Whether the node has been given back to the allocator. */
    ghost var destroyed: bool

    constructor (key: int)
      ensures this.key == key && left == null && right == null && parent == null && !destroyed
    {
      this.key := key;
      left, right, parent, destroyed := null, null, null, false;
    }
  }

  // ---------------------------------------------------------------- order

  /** The nodes from the leftmost to the rightmost. */
  ghost function InOrder(sh: Shape<TreeNode>): seq<TreeNode> {
    match sh
    case Nil => []
    case At(l, n, r) => InOrder(l) + [n] + InOrder(r)
  }

  ghost function Keys(sh: Shape<TreeNode>): set<int> {
    match sh
    case Nil => {}
    case At(l, n, r) => Keys(l) + {n.key} + Keys(r)
  }

  ghost predicate Ordered(sh: Shape<TreeNode>) {
    match sh
    case Nil => true
    case At(l, n, r) =>
      && Ordered(l) && Ordered(r)
      && (forall k :: k in Keys(l) ==> k < n.key) && (forall k :: k in Keys(r) ==> n.key < k)
  }

  ghost function KeysInOrder(sh: Shape<TreeNode>): (keys: seq<int>)
    ensures |keys| == |InOrder(sh)| && forall i :: 0 <= i < |keys| ==> keys[i] == InOrder(sh)[i].key
  {
    match sh
    case Nil => []
    case At(l, n, r) => KeysInOrder(l) + [n.key] + KeysInOrder(r)
  }

  lemma {:induction false} KeysInOrderIncrease(sh: Shape<TreeNode>)
    ensures forall k :: k in KeysInOrder(sh) <==> k in Keys(sh)
    ensures Ordered(sh) ==> Increasing(KeysInOrder(sh))
  {
    match sh
    case Nil =>
    case At(l, n, r) =>
      KeysInOrderIncrease(l);
      KeysInOrderIncrease(r);
      if Ordered(sh) {
        IncreasingAround(KeysInOrder(l), n.key, KeysInOrder(r));
      }
  }

  lemma {:induction false} InOrderNodes(sh: Shape<TreeNode>)
    ensures Nodes(sh) == set n | n in InOrder(sh)
  {
    match sh
    case Nil =>
    case At(l, n, r) =>
      InOrderNodes(l);
      InOrderNodes(r);
  }

  /** The shape after the search of an insertion has run its course. */
  ghost function Placed(sh: Shape<TreeNode>, n: TreeNode): Shape<TreeNode> {
    match sh
    case Nil => At(Nil, n, Nil)
    case At(l, m, r) =>
      if n.key < m.key then At(Placed(l, n), m, r)
      else if m.key < n.key then At(l, m, Placed(r, n))
      else sh
  }

  lemma {:induction false} PlacedKeepsOrder(sh: Shape<TreeNode>, n: TreeNode)
    requires Ordered(sh)
    ensures Ordered(Placed(sh, n)) && Keys(Placed(sh, n)) == Keys(sh) + {n.key}
    ensures n.key in Keys(sh) ==> Placed(sh, n) == sh
    ensures n.key !in Keys(sh) ==> |InOrder(Placed(sh, n))| == |InOrder(sh)| + 1
  {
    match sh
    case Nil =>
    case At(l, m, r) =>
      PlacedKeepsOrder(l, n);
      PlacedKeepsOrder(r, n);
  }

  // ---------------------------------------------------------------- links

  ghost function Parent(p: Path<TreeNode>): TreeNode? {
    if p.Outermost? then null else p.node
  }

  ghost function Top(sh: Shape<TreeNode>): TreeNode? {
    if sh.Nil? then null else sh.node
  }

  /** The pointers of `sh` are those of the tree under `n`, whose parent is `parent`. */
  ghost predicate Linked(sh: Shape<TreeNode>, n: TreeNode?, parent: TreeNode?)
    reads Nodes(sh)`left, Nodes(sh)`right, Nodes(sh)`parent
  {
    match sh
    case Nil => n == null
    case At(l, m, r) => n == m && m.parent == parent && Linked(l, m.left, m) && Linked(r, m.right, m)
  }

  lemma LinkedTop(sh: Shape<TreeNode>, n: TreeNode?, parent: TreeNode?)
    requires Linked(sh, n, parent)
    ensures n == Top(sh) && (n != null ==> n in Nodes(sh))
  {
  }

  ghost predicate Holds(sh: Shape<TreeNode>, root: TreeNode?)
    reads Nodes(sh)`left, Nodes(sh)`right, Nodes(sh)`parent
  {
    Tidy(sh) && Linked(sh, root, null)
  }

  /** Every subtree of a tree is linked, below the node above it. */
  lemma {:induction false} LinkedWithin(p: Path<TreeNode>, sh: Shape<TreeNode>, root: TreeNode?)
    requires Holds(PlugShape(p, sh), root)
    ensures Tidy(sh) && Linked(sh, Top(sh), Parent(p)) && Nodes(sh) <= Nodes(PlugShape(p, sh))
    ensures p != Outermost ==>
              Tidy(Under(p, sh)) && Linked(Under(p, sh), p.node, Parent(p.up)) && p.node in Nodes(PlugShape(p, sh))
    decreases p
  {
    if p == Outermost {
      LinkedTop(sh, root, null);
    } else {
      LinkedWithin(p.up, Under(p, sh), root);
      LinkedTop(sh, if p.LeftOf? then p.node.left else p.node.right, p.node);
    }
  }

  // ---------------------------------------------------------------- iteration

  /** The nodes that follow those of a subtree. */
  ghost function After(p: Path<TreeNode>): seq<TreeNode> {
    match p
    case Outermost => []
    case LeftOf(n, r, up) => [n] + InOrder(r) + After(up)
    case RightOf(l, n, up) => After(up)
  }

  ghost function Before(p: Path<TreeNode>): seq<TreeNode> {
    match p
    case Outermost => []
    case LeftOf(n, r, up) => Before(up)
    case RightOf(l, n, up) => Before(up) + InOrder(l) + [n]
  }

  lemma {:induction false} InOrderAround(p: Path<TreeNode>, sh: Shape<TreeNode>)
    ensures InOrder(PlugShape(p, sh)) == Before(p) + InOrder(sh) + After(p)
    decreases p
  {
    if p != Outermost {
      InOrderAround(p.up, Under(p, sh));
      var b, a := Before(p.up), After(p.up);
      if p.LeftOf? {
        Regroup(b, InOrder(sh), p.node, InOrder(p.right), a);
      } else {
        Regroup(b, InOrder(p.left), p.node, InOrder(sh), a);
      }
    }
  }

  lemma Regroup(b: seq<TreeNode>, l: seq<TreeNode>, n: TreeNode, r: seq<TreeNode>, a: seq<TreeNode>)
    ensures b + (l + [n] + r) + a == b + l + ([n] + r + a)
    ensures b + (l + [n] + r) + a == (b + l + [n]) + r + a
  {
  }

  /** The place of the node that comes `i`-th. */
  lemma {:induction false} Locate(
    p: Path<TreeNode>, sh: Shape<TreeNode>, i: nat)
    returns (q: Path<TreeNode>, at: Shape<TreeNode>)
    requires i < |InOrder(sh)|
    ensures at.At? && at.node == InOrder(sh)[i] && PlugShape(q, at) == PlugShape(p, sh)
    ensures |Before(q)| + |InOrder(at.left)| == |Before(p)| + i
    decreases sh
  {
    var l := |InOrder(sh.left)|;
    if i < l {
      q, at := Locate(LeftOf(sh.node, sh.right, p), sh.left, i);
    } else if i == l {
      q, at := p, sh;
    } else {
      q, at := Locate(RightOf(sh.left, sh.node, p), sh.right, i - l - 1);
    }
  }

  method FindMinNode(start: TreeNode?, ghost sh: Shape<TreeNode>, ghost parent: TreeNode?) returns (node: TreeNode?)
    requires Linked(sh, start, parent)
    ensures node == if sh == Nil then null else InOrder(sh)[0]
  {
    node := start;
    ghost var rest, above := sh, parent;
    while node != null && node.left != null
      invariant Linked(rest, node, above)
      invariant rest == Nil <==> sh == Nil
      invariant rest != Nil ==> InOrder(rest)[0] == InOrder(sh)[0]
      decreases rest
    {
      LinkedTop(rest, node, above);
      LinkedTop(rest.left, node.left, node);
      rest, above := rest.left, node;
      node := node.left;
    }
    LinkedTop(rest, node, above);
    if rest != Nil {
      LinkedTop(rest.left, node.left, node);
    }
  }

  function IsLeftChild(node: TreeNode): bool
    reads node, node.parent
    requires node.parent != null
  {
    node == node.parent.left
  }

  /** The successor along the links; `i` is the position of `start`. */
  method FindNextNode(
    start: TreeNode, ghost root: TreeNode?, ghost whole: Shape<TreeNode>, ghost i: nat)
    returns (next: TreeNode?)
    requires Holds(whole, root) && i < |InOrder(whole)| && InOrder(whole)[i] == start
    ensures next == if i + 1 < |InOrder(whole)| then InOrder(whole)[i + 1] else null
  {
    ghost var p, sh := Locate(Outermost, whole, i);
    InOrderAround(p, sh);
    LinkedWithin(p, sh, root);
    if start.right != null {
      LinkedTop(sh.right, start.right, start);
      next := FindMinNode(start.right, sh.right, start);
      return;
    }
    LinkedTop(sh.right, start.right, start);
    var node := start;
    ghost var after := After(p);
    assert allocated(Nodes(whole));
    while node.parent != null && !IsLeftChild(node)
      invariant Holds(whole, root) && PlugShape(p, sh) == whole && sh.At? && sh.node == node && After(p) == after
      decreases p
    {
      LinkedWithin(p, sh, root);
      node, p, sh := node.parent, p.up, Under(p, sh);
    }
    LinkedWithin(p, sh, root);
    next := node.parent;
  }

  lemma OneMoreKey(keys: seq<int>, n: nat)
    requires n < |keys|
    ensures keys[..n + 1] == keys[..n] + [keys[n]]
  {
  }

  /** The loop from the leftmost node to the end. */
  method Collect(root: TreeNode?, ghost whole: Shape<TreeNode>) returns (keys: seq<int>)
    requires Holds(whole, root)
    ensures keys == KeysInOrder(whole)
  {
    assert allocated(Nodes(whole));
    ghost var all, allKeys := InOrder(whole), KeysInOrder(whole);
    var current := FindMinNode(root, whole, null);
    keys := [];
    while current != null
      invariant Holds(whole, root) && |keys| <= |all|
      invariant current == if |keys| < |all| then all[|keys|] else null
      invariant keys == allKeys[..|keys|]
      decreases |all| - |keys|
    {
      OneMoreKey(allKeys, |keys|);
      keys := keys + [current.key];
      current := FindNextNode(current, root, whole, |keys| - 1);
    }
  }

  // ---------------------------------------------------------------- insertion

  /** The pointers above the subtree `hole`, up to `root`. */
  ghost predicate LinkedPath(p: Path<TreeNode>, hole: TreeNode?, root: TreeNode?)
    reads Above(p)`left, Above(p)`right, Above(p)`parent
  {
    match p
    case Outermost => hole == root
    case LeftOf(m, r, up) =>
      m.left == hole && Linked(r, m.right, m) && m.parent == Parent(up) && LinkedPath(up, m, root)
    case RightOf(l, m, up) =>
      m.right == hole && Linked(l, m.left, m) && m.parent == Parent(up) && LinkedPath(up, m, root)
  }

  ghost predicate Fits(p: Path<TreeNode>, sh: Shape<TreeNode>, root: TreeNode?)
    reads Nodes(sh)`left, Nodes(sh)`right, Nodes(sh)`parent
    reads Above(p)`left, Above(p)`right, Above(p)`parent
  {
    && Tidy(sh) && TidyPath(p) && Nodes(sh) !! Above(p)
    && Linked(sh, Top(sh), Parent(p)) && LinkedPath(p, Top(sh), root)
  }

  lemma FitsDown(p: Path<TreeNode>, l: Shape<TreeNode>, n: TreeNode, r: Shape<TreeNode>, root: TreeNode?)
    requires Fits(p, At(l, n, r), root)
    ensures Fits(LeftOf(n, r, p), l, root) && n.left == Top(l) && All(LeftOf(n, r, p), l) == All(p, At(l, n, r))
    ensures Fits(RightOf(l, n, p), r, root) && n.right == Top(r) && All(RightOf(l, n, p), r) == All(p, At(l, n, r))
  {
    LinkedTop(l, n.left, n);
    LinkedTop(r, n.right, n);
  }

  lemma {:induction false} FitsInWhole(p: Path<TreeNode>, sh: Shape<TreeNode>, root: TreeNode?)
    requires Fits(p, sh, root)
    ensures Holds(PlugShape(p, sh), root) && Nodes(PlugShape(p, sh)) == All(p, sh)
    decreases p
  {
    if p != Outermost {
      FitsInWhole(p.up, Under(p, sh), root);
    }
  }

  /** `inserted` goes into the empty place below the last node of the search. */
  method Attach(inserted: TreeNode, parentBefore: TreeNode, ghost p: Path<TreeNode>, ghost root: TreeNode?)
    requires Fits(p, Nil, root) && p != Outermost && p.node == parentBefore
    requires p.LeftOf? <==> inserted.key < parentBefore.key
    requires inserted !in Above(p) && inserted.left == null && inserted.right == null
    modifies inserted`parent, parentBefore`left, parentBefore`right
    ensures Fits(p, At(Nil, inserted, Nil), root)
  {
    assert LinkedPath(p.up, parentBefore, root) && parentBefore !in Above(p.up);
    if inserted.key < parentBefore.key {
      parentBefore.left := inserted;
    } else {
      parentBefore.right := inserted;
    }
    inserted.parent := parentBefore;
  }

  // ---------------------------------------------------------------- destruction

  /** The links to children are those of the tree under `n`; nothing is said of parents. */
  ghost predicate Hung(sh: Shape<TreeNode>, n: TreeNode?)
    reads Nodes(sh)`left, Nodes(sh)`right
  {
    match sh
    case Nil => n == null
    case At(l, m, r) => n == m && Hung(l, m.left) && Hung(r, m.right)
  }

  lemma {:induction false} LinkedIsHung(sh: Shape<TreeNode>, n: TreeNode?, parent: TreeNode?)
    requires Linked(sh, n, parent)
    ensures Hung(sh, n)
  {
    if sh.At? {
      LinkedIsHung(sh.left, sh.node.left, sh.node);
      LinkedIsHung(sh.right, sh.node.right, sh.node);
    }
  }

  /** Nodes not yet destroyed, hung as `sh`. */
  ghost predicate Alive(sh: Shape<TreeNode>, n: TreeNode?)
    reads Nodes(sh)`left, Nodes(sh)`right, Nodes(sh)`destroyed
  {
    Tidy(sh) && Hung(sh, n) && forall m :: m in Nodes(sh) ==> !m.destroyed
  }

  /** Destroying a node twice is excluded. */
  method DestroyNode(n: TreeNode)
    requires !n.destroyed
    modifies n`destroyed
    ensures n.destroyed
  {
    n.destroyed := true;
  }

  ghost function LeftSize(sh: Shape<TreeNode>): nat {
    if sh.Nil? then 0 else |InOrder(sh.left)|
  }

  /** The nodes of `order` have been destroyed, those of `sh` are left. */
  ghost predicate Halfway(whole: Shape<TreeNode>, order: seq<TreeNode>, sh: Shape<TreeNode>)
    reads order
  {
    && Nodes(sh) <= Nodes(whole) && order + InOrder(sh) == InOrder(whole)
    && forall i :: 0 <= i < |order| ==> order[i] in Nodes(whole) && order[i].destroyed
  }

  /** The loop of `DestroySubtree`: every node is destroyed once, from the smallest to the largest. */
  method DestroySubtree(start: TreeNode?, ghost whole: Shape<TreeNode>) returns (ghost order: seq<TreeNode>)
    requires Alive(whole, start)
    modifies Nodes(whole)`left, Nodes(whole)`right, Nodes(whole)`destroyed
    ensures order == InOrder(whole) && forall n :: n in Nodes(whole) ==> n.destroyed
  {
    var root := start;
    ghost var sh := whole;
    order := [];
    while root != null
      invariant Alive(sh, root) && Halfway(whole, order, sh)
      decreases |InOrder(sh)|, LeftSize(sh)
    {
      if root.left == null {
        ghost var first := root;
        root, sh := DestroyFirst(root, sh);
        order := order + [first];
      } else {
        root, sh := Rotate(root, sh);
      }
    }
    HungTop(sh, root);
    assert order == InOrder(whole);
    InOrderNodes(whole);
    forall n | n in Nodes(whole)
      ensures n.destroyed
    {
      assert n in order;
    }
  }

  method DestroyFirst(root: TreeNode, ghost sh: Shape<TreeNode>) returns (next: TreeNode?, ghost sh': Shape<TreeNode>)
    requires Alive(sh, root) && root.left == null
    modifies root`destroyed
    ensures root in Nodes(sh) && root.destroyed
    ensures Alive(sh', next) && Nodes(sh') <= Nodes(sh) && InOrder(sh) == [root] + InOrder(sh')
  {
    next, sh' := root.right, sh.right;
    HungTop(sh.left, root.left);
    assert allocated(Nodes(sh')) && root !in Nodes(sh') && Hung(sh', next);
    DestroyNode(root);
    assert InOrder(sh) == [] + [root] + InOrder(sh');
  }

  lemma HungTop(sh: Shape<TreeNode>, n: TreeNode?)
    requires Hung(sh, n)
    ensures n == Top(sh)
  {
  }

  lemma RotationInOrder(x: TreeNode, y: TreeNode, a: Shape<TreeNode>, b: Shape<TreeNode>, c: Shape<TreeNode>)
    ensures InOrder(At(At(a, x, b), y, c)) == InOrder(At(a, x, At(b, y, c)))
  {
    var i, j, k := InOrder(a), InOrder(b), InOrder(c);
    assert (i + [x] + j) + [y] + k == i + [x] + (j + [y] + k);
  }

  /** The left child comes on top. */
  method Rotate(root: TreeNode, ghost sh: Shape<TreeNode>) returns (top: TreeNode, ghost sh': Shape<TreeNode>)
    requires Alive(sh, root) && root.left != null
    modifies Nodes(sh)`left, Nodes(sh)`right
    ensures Alive(sh', top) && Nodes(sh') == Nodes(sh) && InOrder(sh') == InOrder(sh)
    ensures LeftSize(sh') < LeftSize(sh)
  {
    top := root.left;
    HungTop(sh.left, top);
    ghost var a, b, c := sh.left.left, sh.left.right, sh.right;
    RotationTidy(top, root, a, b, c);
    RotationInOrder(top, root, a, b, c);
    assert Hung(At(a, top, b), top);
    root.left := top.right;
    top.right := root;
    sh' := At(a, top, At(b, root, c));
  }

  // ---------------------------------------------------------------- the tree

  class SearchTree {
    var root_: TreeNode?
    var size_: nat
    ghost var shape: Shape<TreeNode>

    ghost predicate Valid()
      reads this, Nodes(shape)
    {
      && Holds(shape, root_) && Ordered(shape) && size_ == |InOrder(shape)|
      && forall n :: n in Nodes(shape) ==> !n.destroyed
    }

    constructor ()
      ensures Valid() && shape == Nil
    {
      root_, size_, shape := null, 0, Nil;
    }

    /** `key` ends up in the tree once; a node for a key that is present is destroyed again. */
    method InsertUnique(key: int) returns (at: TreeNode, isAdded: bool)
      requires Valid()
      modifies this, Nodes(shape)
      ensures Valid() && (isAdded <==> key !in Keys(old(shape)))
      ensures at in Nodes(shape) && at.key == key
      ensures shape == Placed(old(shape), at) && Keys(shape) == Keys(old(shape)) + {key}
      ensures isAdded ==> fresh(at) && size_ == old(size_) + 1
    {
      assert allocated(Nodes(shape));
      var inserted := new TreeNode(key);
      PlacedKeepsOrder(shape, inserted);
      if root_ == null {
        LinkedTop(shape, root_, null);
        root_, size_, shape := inserted, size_ + 1, At(Nil, inserted, Nil);
        return inserted, true;
      }
      var parentBefore, found;
      ghost var p;
      parentBefore, found, p := FindPlace(inserted);
      if found != null {
        PlacedKeepsOrder(shape, found);
        DestroyNode(inserted);
        return found, false;
      }
      Hang(inserted, parentBefore, p);
      return inserted, true;
    }

    method Hang(inserted: TreeNode, parentBefore: TreeNode, ghost p: Path<TreeNode>)
      requires Fits(p, Nil, root_) && p != Outermost && p.node == parentBefore
      requires p.LeftOf? <==> inserted.key < parentBefore.key
      requires inserted !in Above(p) && inserted.left == null && inserted.right == null
      modifies this`size_, this`shape, inserted`parent, parentBefore`left, parentBefore`right
      ensures size_ == old(size_) + 1 && shape == PlugShape(p, At(Nil, inserted, Nil))
      ensures Holds(shape, root_) && Nodes(shape) == Above(p) + {inserted}
    {
      Attach(inserted, parentBefore, p, root_);
      size_ := size_ + 1;
      shape := PlugShape(p, At(Nil, inserted, Nil));
      FitsInWhole(p, At(Nil, inserted, Nil), root_);
    }

    /** The search loop of an insertion: the node with the same key, or the empty place and the node above it. */
    method FindPlace(inserted: TreeNode) returns (parentBefore: TreeNode, found: TreeNode?, ghost p: Path<TreeNode>)
      requires Valid() && root_ != null
      ensures found != null ==> found in Nodes(shape) && found.key == inserted.key && Placed(shape, inserted) == shape
      ensures found == null ==>
                && Fits(p, Nil, root_) && p != Outermost && p.node == parentBefore && Above(p) == Nodes(shape)
                && (p.LeftOf? <==> inserted.key < parentBefore.key)
                && Placed(shape, inserted) == PlugShape(p, At(Nil, inserted, Nil))
    {
      var parent := root_;
      parentBefore := root_;
      p := Outermost;
      ghost var sh := shape;
      LinkedTop(sh, root_, null);
      while parent != null
        invariant Fits(p, sh, root_) && parent == Top(sh) && All(p, sh) == Nodes(shape)
        invariant p != Outermost ==> p.node == parentBefore && (p.LeftOf? <==> inserted.key < parentBefore.key)
        invariant p == Outermost ==> parent != null
        invariant Placed(shape, inserted) == PlugShape(p, Placed(sh, inserted)) && shape == PlugShape(p, sh)
        decreases sh
      {
        parentBefore := parent;
        FitsDown(p, sh.left, parent, sh.right, root_);
        if inserted.key < parent.key {
          p, sh := LeftOf(parent, sh.right, p), sh.left;
          parent := parent.left;
        } else if parent.key < inserted.key {
          p, sh := RightOf(sh.left, parent, p), sh.right;
          parent := parent.right;
        } else {
          return parentBefore, parent, p;
        }
      }
      found := null;
    }

    /** All keys from `Begin()` to `End()`, by way of `operator++`. */
    method Iterate() returns (keys: seq<int>)
      requires Valid()
      ensures keys == KeysInOrder(shape) && Increasing(keys)
      ensures forall k :: k in keys <==> k in Keys(shape)
    {
      KeysInOrderIncrease(shape);
      keys := Collect(root_, shape);
    }

    method FindUnique(key: int) returns (found: TreeNode?)
      requires Valid()
      ensures found != null <==> key in Keys(shape)
      ensures found != null ==> found in Nodes(shape) && found.key == key
    {
      var root := root_;
      ghost var sh, parent: TreeNode? := shape, null;
      LinkedTop(sh, root, parent);
      while root != null
        invariant Linked(sh, root, parent) && Ordered(sh) && Nodes(sh) <= Nodes(shape)
        invariant key in Keys(shape) <==> key in Keys(sh)
        decreases sh
      {
        LinkedTop(sh, root, parent);
        parent := root;
        if key < root.key {
          sh, root := sh.left, root.left;
        } else if root.key < key {
          sh, root := sh.right, root.right;
        } else {
          return root;
        }
      }
      return null;
    }

    /** Every node is destroyed exactly once, from the smallest to the largest. */
    method Clear() returns (ghost order: seq<TreeNode>)
      requires Valid()
      modifies this, Nodes(shape)
      ensures Valid() && shape == Nil && root_ == null && size_ == 0
      ensures order == InOrder(old(shape)) && forall n :: n in old(Nodes(shape)) ==> n.destroyed
    {
      LinkedIsHung(shape, root_, null);
      order := DestroySubtree(root_, shape);
      root_, size_, shape := null, 0, Nil;
    }
  }
}
