/** The red-black tree over linked nodes with parent pointers. Shapes record which node is where, so that
    the pointer operations can be compared with the functions on values. */
module RedBlackTree {
  import opened RedBlackSpec
  import opened Shapes

  class Node {
    const key: int
    var left: Node?
    var right: Node?
    var parent: Node?
    var color: Color

    constructor (key: int)
      ensures this.key == key && left == null && right == null && parent == null && color == Red
    {
      this.key := key;
      left, right, parent, color := null, null, null, Red;
    }

    method Recolor()
      modifies this`color
      ensures color == Flip(old(color))
    {
      color := if color == Red then Black else Red;
    }
  }

  ghost function Parent(p: Path<Node>): Node? {
    if p.Outermost? then null else p.node
  }

  /** The pointers of `sh` are those of the tree under `n`, whose parent is `parent`. */
  ghost predicate Linked(sh: Shape<Node>, n: Node?, parent: Node?)
    reads Nodes(sh)`left, Nodes(sh)`right, Nodes(sh)`parent
  {
    match sh
    case Nil => n == null
    case At(l, m, r) => n == m && m.parent == parent && Linked(l, m.left, m) && Linked(r, m.right, m)
  }

  lemma LinkedRoot(sh: Shape<Node>, n: Node?, parent: Node?)
    requires Linked(sh, n, parent)
    ensures if n == null then sh == Nil else sh.At? && sh.node == n && n in Nodes(sh) && n.parent == parent
  {
  }

  /** The pointers above the subtree `hole`, up to `root`. */
  ghost predicate LinkedPath(p: Path<Node>, hole: Node?, root: Node?)
    reads Above(p)`left, Above(p)`right, Above(p)`parent
  {
    match p
    case Outermost => hole == root
    case LeftOf(m, r, up) =>
      m.left == hole && Linked(r, m.right, m) && m.parent == Parent(up) && LinkedPath(up, m, root)
    case RightOf(l, m, up) =>
      m.right == hole && Linked(l, m.left, m) && m.parent == Parent(up) && LinkedPath(up, m, root)
  }

  ghost function Value(sh: Shape<Node>): Tree
    reads Nodes(sh)`color
  {
    match sh
    case Nil => Leaf
    case At(l, m, r) => Branch(Value(l), m.key, m.color, Value(r))
  }

  ghost function ValuePath(p: Path<Node>): Zip
    reads Above(p)`color
  {
    match p
    case Outermost => Top
    case LeftOf(m, r, up) => InLeft(m.key, m.color, Value(r), ValuePath(up))
    case RightOf(l, m, up) => InRight(Value(l), m.key, m.color, ValuePath(up))
  }

  /** The subtree `sh` sits in its surroundings `p`. */
  ghost predicate Fits(p: Path<Node>, sh: Shape<Node>, n: Node?, root: Node?)
    reads Nodes(sh)`left, Nodes(sh)`right, Nodes(sh)`parent
    reads Above(p)`left, Above(p)`right, Above(p)`parent
  {
    Tidy(sh) && TidyPath(p) && Nodes(sh) !! Above(p) && Linked(sh, n, Parent(p)) && LinkedPath(p, n, root)
  }

  // ---------------------------------------------------------------- moving the focus

  lemma FitsUp(p: Path<Node>, sh: Shape<Node>, n: Node?, root: Node?)
    requires Fits(p, sh, n, root) && p != Outermost
    ensures Fits(p.up, Under(p, sh), p.node, root) && All(p.up, Under(p, sh)) == All(p, sh)
  {
  }

  lemma FitsDownLeft(p: Path<Node>, l: Shape<Node>, m: Node, r: Shape<Node>, root: Node?)
    requires Fits(p, At(l, m, r), m, root)
    ensures Fits(LeftOf(m, r, p), l, m.left, root) && All(LeftOf(m, r, p), l) == All(p, At(l, m, r))
  {
  }

  lemma FitsDownRight(p: Path<Node>, l: Shape<Node>, m: Node, r: Shape<Node>, root: Node?)
    requires Fits(p, At(l, m, r), m, root)
    ensures Fits(RightOf(l, m, p), r, m.right, root) && All(RightOf(l, m, p), r) == All(p, At(l, m, r))
  {
  }

  lemma {:induction false} PlugShapeFits(p: Path<Node>, sh: Shape<Node>, n: Node?, root: Node?)
    requires Fits(p, sh, n, root)
    ensures Fits(Outermost, PlugShape(p, sh), root, root)
    ensures Nodes(PlugShape(p, sh)) == All(p, sh)
    ensures Value(PlugShape(p, sh)) == Plug(ValuePath(p), Value(sh))
    decreases p
  {
    if p != Outermost {
      FitsUp(p, sh, n, root);
      PlugShapeFits(p.up, Under(p, sh), p.node, root);
    }
  }

  /** Below the root, the root is among the nodes above. */
  lemma {:induction false} RootAbove(p: Path<Node>, n: Node?, root: Node?)
    requires LinkedPath(p, n, root) && p != Outermost
    ensures root != null && root in Above(p)
    decreases p
  {
    if p.up != Outermost {
      RootAbove(p.up, p.node, root);
    }
  }

  lemma WhichChild(p: Path<Node>, sh: Shape<Node>, n: Node, root: Node?)
    requires Fits(p, sh, n, root) && p != Outermost
    ensures n.parent == p.node && (p.LeftOf? <==> p.node.left == n) && (p.RightOf? <==> p.node.right == n)
  {
    LinkedRoot(sh, n, p.node);
    if p.RightOf? {
      LinkedRoot(p.left, p.node.left, p.node);
    } else {
      LinkedRoot(p.right, p.node.right, p.node);
    }
  }

  /** What the code reads around `n`: parent, grandparent, uncle, and which child is which. */
  lemma Relatives(p: Path<Node>, sh: Shape<Node>, n: Node, root: Node?)
    requires Fits(p, sh, n, root) && p != Outermost && p.up != Outermost
    ensures n.parent == p.node && p.node.parent == p.up.node
    ensures p.LeftOf? <==> p.node.left == n
    ensures p.up.RightOf? <==> p.up.node.right == p.node
    ensures var uncle := if p.up.LeftOf? then p.up.node.right else p.up.node.left;
            if uncle == null then Sibling(p.up) == Nil else Sibling(p.up).At? && Sibling(p.up).node == uncle
  {
    WhichChild(p, sh, n, root);
    FitsUp(p, sh, n, root);
    WhichChild(p.up, Under(p, sh), p.node, root);
    LinkedRoot(Sibling(p.up), if p.up.LeftOf? then p.up.node.right else p.up.node.left, p.up.node);
  }

  // ---------------------------------------------------------------- the loop, on values

  /** Rebalancing from here leads to `goal`, and the red node under a red parent is the only fault. */
  ghost predicate Pending(z: Zip, t: Tree, goal: Tree) {
    && z != Top && RootBlack(z) && t.Branch?
    && if z.color == Black then Plug(z, t) == goal
       else IsRed(t) && Accepts(z, BlackHeight(t)) && NoRedRed(t) && EvenlyBlack(t) && Fixup(z, t) == goal
  }

  lemma PendingPush(z: Zip, t: Tree, goal: Tree)
    requires Pending(z, t, goal) && z.color == Red && TwoAbove(z) && IsRed(Uncle(z))
    ensures z.up.up == Top ==> Pushed(z, t) == goal
    ensures z.up.up != Top ==> Pending(z.up.up, Pushed(z, t), goal)
  {
    PushedIsRedBlack(z, t);
    assert RootBlack(z.up);
  }

  /** Both nodes lean the same way, possibly after one turn of the lower one. */
  lemma PendingRotate(z: Zip, t: Tree, goal: Tree, z1: Zip, t1: Tree)
    requires Pending(z, t, goal) && z.color == Red && TwoAbove(z) && !IsRed(Uncle(z))
    requires z.InLeft? == z.up.InLeft? ==> z1 == z && t1 == t
    requires z.InLeft? && z.up.InRight? ==>
               z1 == InRight(t.left, t.key, t.color, z.up) && t1 == Branch(t.right, z.key, z.color, z.right)
    requires z.InRight? && z.up.InLeft? ==>
               z1 == InLeft(t.key, t.color, t.right, z.up) && t1 == Branch(z.left, z.key, z.color, t.left)
    ensures z.up.InRight? ==>
              Pending(InRight(Branch(z.up.left, z.up.key, Flip(z.up.color), z1.left), z1.key, Flip(z1.color), z.up.up),
                      t1, goal)
    ensures z.up.InLeft? ==>
              Pending(InLeft(z1.key, Flip(z1.color), Branch(z1.right, z.up.key, Flip(z.up.color), z.up.right), z.up.up),
                      t1, goal)
  {
    assert RootBlack(z.up);
    assert goal == Plug(z.up.up, Rotated(z, t)) && Rotated(z1, t1) == Rotated(z, t);
  }

  class RBTree {
    var root_: Node?
    ghost var shape: Shape<Node>

    constructor ()
      ensures Valid() && Contents() == Leaf && shape == Nil
    {
      root_ := null;
      shape := Nil;
    }

    ghost predicate Valid()
      reads this, Nodes(shape)
    {
      Tidy(shape) && Linked(shape, root_, null) && IsRedBlack(Value(shape))
    }

    ghost function Contents(): Tree
      reads this, Nodes(shape)
    {
      Value(shape)
    }

    /** `heir` takes the place of `subtree` below the nodes of `p`. */
    method Relink(subtree: Node, heir: Node, ghost p: Path<Node>)
      requires TidyPath(p) && LinkedPath(p, subtree, root_) && subtree.parent == Parent(p)
      requires heir != subtree && heir !in Above(p) && subtree !in Above(p)
      modifies this`root_, heir`parent, Above(p)`left, Above(p)`right
      ensures heir.parent == Parent(p) && LinkedPath(p, heir, root_)
    {
      heir.parent := subtree.parent;
      if subtree.parent == null {
        root_ := heir;
      } else if subtree == subtree.parent.left {
        subtree.parent.left := heir;
      } else {
        subtree.parent.right := heir;
      }
      match p
      case Outermost =>
      case LeftOf(m, r, up) => assert Linked(r, m.right, m) && LinkedPath(up, m, root_);
      case RightOf(l, m, up) => assert Linked(l, m.left, m) && LinkedPath(up, m, root_);
    }

    /** Meanwhile `low` stays below `subtree`, and `side` below `heir`. */
    method Replace(
      subtree: Node, heir: Node, ghost p: Path<Node>, ghost low: Shape<Node>, ghost side: Shape<Node>, child: Node?)
      requires Linked(low, subtree, subtree.parent) && Nodes(low) !! Above(p) && heir !in Nodes(low)
      requires Linked(side, child, heir) && Nodes(side) !! Above(p) && heir !in Nodes(side)
      requires TidyPath(p) && LinkedPath(p, subtree, root_) && subtree.parent == Parent(p)
      requires heir != subtree && heir !in Above(p) && subtree !in Above(p)
      modifies this`root_, heir`parent, Above(p)`left, Above(p)`right
      ensures heir.parent == Parent(p) && LinkedPath(p, heir, root_)
      ensures Linked(low, subtree, subtree.parent) && Linked(side, child, heir)
    {
      assert allocated(Nodes(low)) && allocated(Nodes(side));
      Relink(subtree, heir, p);
    }

    /** `child`, if there is one, gets `parent` above it. */
    static method Adopt(child: Node?, parent: Node, ghost sh: Shape<Node>, ghost was: Node?)
      requires Tidy(sh) && Linked(sh, child, was)
      modifies (if child == null then {} else {child})`parent
      ensures Linked(sh, child, parent)
    {
      if child != null {
        child.parent := parent;
      }
    }

    /** The first statements of a left rotation: the inner subtree moves over. */
    static method TakeInnerLeft(
      subtree: Node, rightSubtree: Node, ghost a: Shape<Node>, ghost b: Shape<Node>, ghost c: Shape<Node>)
      requires var sh := At(a, subtree, At(b, rightSubtree, c));
               Tidy(sh) && Linked(sh, subtree, subtree.parent) && subtree.right == rightSubtree
      modifies subtree`right, (if rightSubtree.left == null then {} else {rightSubtree.left})`parent
      ensures Linked(At(a, subtree, b), subtree, subtree.parent) && Linked(c, rightSubtree.right, rightSubtree)
    {
      RotationTidy(subtree, rightSubtree, a, b, c);
      assert Linked(At(b, rightSubtree, c), rightSubtree, subtree);
      LinkedRoot(b, rightSubtree.left, rightSubtree);
      assert allocated(Nodes(a)) && allocated(Nodes(c));
      subtree.right := rightSubtree.left;
      Adopt(rightSubtree.left, subtree, b, rightSubtree);
    }

    /** The last statements: the old top goes below the new one. */
    static method PutLeft(
      subtree: Node, rightSubtree: Node, ghost a: Shape<Node>, ghost b: Shape<Node>, ghost c: Shape<Node>)
      requires Tidy(At(At(a, subtree, b), rightSubtree, c))
      requires Linked(At(a, subtree, b), subtree, subtree.parent) && Linked(c, rightSubtree.right, rightSubtree)
      modifies rightSubtree`left, subtree`parent
      ensures Linked(At(At(a, subtree, b), rightSubtree, c), rightSubtree, rightSubtree.parent)
      ensures rightSubtree.parent == old(rightSubtree.parent)
    {
      RotationTidy(subtree, rightSubtree, a, b, c);
      rightSubtree.left := subtree;
      subtree.parent := rightSubtree;
    }

    static method TakeInnerRight(
      subtree: Node, leftSubtree: Node, ghost a: Shape<Node>, ghost b: Shape<Node>, ghost c: Shape<Node>)
      requires var sh := At(At(a, leftSubtree, b), subtree, c);
               Tidy(sh) && Linked(sh, subtree, subtree.parent) && subtree.left == leftSubtree
      modifies subtree`left, (if leftSubtree.right == null then {} else {leftSubtree.right})`parent
      ensures Linked(At(b, subtree, c), subtree, subtree.parent) && Linked(a, leftSubtree.left, leftSubtree)
    {
      RotationTidy(leftSubtree, subtree, a, b, c);
      assert Linked(At(a, leftSubtree, b), leftSubtree, subtree);
      LinkedRoot(b, leftSubtree.right, leftSubtree);
      assert allocated(Nodes(a)) && allocated(Nodes(c));
      subtree.left := leftSubtree.right;
      Adopt(leftSubtree.right, subtree, b, leftSubtree);
    }

    static method PutRight(
      subtree: Node, leftSubtree: Node, ghost a: Shape<Node>, ghost b: Shape<Node>, ghost c: Shape<Node>)
      requires Tidy(At(a, leftSubtree, At(b, subtree, c)))
      requires Linked(At(b, subtree, c), subtree, subtree.parent) && Linked(a, leftSubtree.left, leftSubtree)
      modifies leftSubtree`right, subtree`parent
      ensures Linked(At(a, leftSubtree, At(b, subtree, c)), leftSubtree, leftSubtree.parent)
      ensures leftSubtree.parent == old(leftSubtree.parent)
    {
      RotationTidy(leftSubtree, subtree, a, b, c);
      leftSubtree.right := subtree;
      subtree.parent := leftSubtree;
    }

    static method TakeInnerLeftBelow(
      subtree: Node, rightSubtree: Node, ghost p: Path<Node>, ghost root: Node?,
      ghost a: Shape<Node>, ghost b: Shape<Node>, ghost c: Shape<Node>)
      requires var sh := At(a, subtree, At(b, rightSubtree, c));
               Fits(p, sh, subtree, root) && subtree.right == rightSubtree
      modifies subtree`right, (if rightSubtree.left == null then {} else {rightSubtree.left})`parent
      ensures Linked(At(a, subtree, b), subtree, subtree.parent) && Linked(c, rightSubtree.right, rightSubtree)
      ensures subtree.parent == Parent(p) && LinkedPath(p, subtree, root)
    {
      assert Linked(At(b, rightSubtree, c), rightSubtree, subtree);
      LinkedRoot(b, rightSubtree.left, rightSubtree);
      RotationTidy(subtree, rightSubtree, a, b, c);
      assert allocated(Above(p));
      TakeInnerLeft(subtree, rightSubtree, a, b, c);
    }

    static method PutLeftBelow(
      subtree: Node, rightSubtree: Node, ghost p: Path<Node>, ghost root: Node?,
      ghost a: Shape<Node>, ghost b: Shape<Node>, ghost c: Shape<Node>)
      requires Tidy(At(At(a, subtree, b), rightSubtree, c)) && TidyPath(p)
      requires Nodes(At(At(a, subtree, b), rightSubtree, c)) !! Above(p)
      requires Linked(At(a, subtree, b), subtree, subtree.parent) && Linked(c, rightSubtree.right, rightSubtree)
      requires rightSubtree.parent == Parent(p) && LinkedPath(p, rightSubtree, root)
      modifies rightSubtree`left, subtree`parent
      ensures Fits(p, At(At(a, subtree, b), rightSubtree, c), rightSubtree, root)
    {
      assert subtree in Nodes(At(a, subtree, b)) && rightSubtree != subtree;
      assert allocated(Above(p));
      PutLeft(subtree, rightSubtree, a, b, c);
    }

    method SmallLeftRotation(
      subtree: Node, ghost p: Path<Node>, ghost a: Shape<Node>, ghost b: Shape<Node>, ghost c: Shape<Node>)
      requires subtree.right != null
      requires Fits(p, At(a, subtree, At(b, subtree.right, c)), subtree, root_)
      modifies this`root_
      modifies All(p, At(a, subtree, At(b, subtree.right, c)))`left
      modifies All(p, At(a, subtree, At(b, subtree.right, c)))`right
      modifies All(p, At(a, subtree, At(b, subtree.right, c)))`parent
      ensures Fits(p, At(At(a, subtree, b), old(subtree.right), c), old(subtree.right), root_)
    {
      var rightSubtree := subtree.right;
      RotationTidy(subtree, rightSubtree, a, b, c);
      assert Linked(At(b, rightSubtree, c), rightSubtree, subtree);
      LinkedRoot(b, rightSubtree.left, rightSubtree);
      assert allocated(Nodes(a)) && allocated(Nodes(b)) && allocated(Nodes(c)) && allocated(Above(p));
      TakeInnerLeftBelow(subtree, rightSubtree, p, root_, a, b, c);
      Replace(subtree, rightSubtree, p, At(a, subtree, b), c, rightSubtree.right);
      PutLeftBelow(subtree, rightSubtree, p, root_, a, b, c);
    }

    static method TakeInnerRightBelow(
      subtree: Node, leftSubtree: Node, ghost p: Path<Node>, ghost root: Node?,
      ghost a: Shape<Node>, ghost b: Shape<Node>, ghost c: Shape<Node>)
      requires var sh := At(At(a, leftSubtree, b), subtree, c);
               Fits(p, sh, subtree, root) && subtree.left == leftSubtree
      modifies subtree`left, (if leftSubtree.right == null then {} else {leftSubtree.right})`parent
      ensures Linked(At(b, subtree, c), subtree, subtree.parent) && Linked(a, leftSubtree.left, leftSubtree)
      ensures subtree.parent == Parent(p) && LinkedPath(p, subtree, root)
    {
      assert Linked(At(a, leftSubtree, b), leftSubtree, subtree);
      LinkedRoot(b, leftSubtree.right, leftSubtree);
      RotationTidy(leftSubtree, subtree, a, b, c);
      assert allocated(Above(p));
      TakeInnerRight(subtree, leftSubtree, a, b, c);
    }

    static method PutRightBelow(
      subtree: Node, leftSubtree: Node, ghost p: Path<Node>, ghost root: Node?,
      ghost a: Shape<Node>, ghost b: Shape<Node>, ghost c: Shape<Node>)
      requires Tidy(At(a, leftSubtree, At(b, subtree, c))) && TidyPath(p)
      requires Nodes(At(a, leftSubtree, At(b, subtree, c))) !! Above(p)
      requires Linked(At(b, subtree, c), subtree, subtree.parent) && Linked(a, leftSubtree.left, leftSubtree)
      requires leftSubtree.parent == Parent(p) && LinkedPath(p, leftSubtree, root)
      modifies leftSubtree`right, subtree`parent
      ensures Fits(p, At(a, leftSubtree, At(b, subtree, c)), leftSubtree, root)
    {
      assert subtree in Nodes(At(b, subtree, c)) && leftSubtree != subtree;
      assert allocated(Above(p));
      PutRight(subtree, leftSubtree, a, b, c);
    }

    method SmallRightRotation(
      subtree: Node, ghost p: Path<Node>, ghost a: Shape<Node>, ghost b: Shape<Node>, ghost c: Shape<Node>)
      requires subtree.left != null
      requires Fits(p, At(At(a, subtree.left, b), subtree, c), subtree, root_)
      modifies this`root_
      modifies All(p, At(At(a, subtree.left, b), subtree, c))`left
      modifies All(p, At(At(a, subtree.left, b), subtree, c))`right
      modifies All(p, At(At(a, subtree.left, b), subtree, c))`parent
      ensures Fits(p, At(a, old(subtree.left), At(b, subtree, c)), old(subtree.left), root_)
    {
      var leftSubtree := subtree.left;
      RotationTidy(leftSubtree, subtree, a, b, c);
      assert Linked(At(a, leftSubtree, b), leftSubtree, subtree);
      LinkedRoot(b, leftSubtree.right, leftSubtree);
      assert allocated(Nodes(a)) && allocated(Nodes(b)) && allocated(Nodes(c)) && allocated(Above(p));
      TakeInnerRightBelow(subtree, leftSubtree, p, root_, a, b, c);
      Replace(subtree, leftSubtree, p, At(b, subtree, c), a, leftSubtree.left);
      PutRightBelow(subtree, leftSubtree, p, root_, a, b, c);
    }

    /** Case 3.1: the uncle, the parent and the grandparent change colour. */
    static method Push(
      uncle: Node, parent: Node, grandparent: Node, ghost p: Path<Node>, ghost sh: Shape<Node>,
      ghost side: Shape<Node>)
      requires TidyPath(p) && Nodes(sh) !! Above(p)
      requires p != Outermost && p.up != Outermost && p.node == parent && p.up.node == grandparent
      requires side == Sibling(p.up) && side.At? && side.node == uncle
      modifies uncle`color, parent`color, grandparent`color
      ensures TwoAbove(old(ValuePath(p)))
      ensures Value(Under(p.up, Under(p, sh))) == Pushed(old(ValuePath(p)), old(Value(sh)))
      ensures ValuePath(p.up.up) == old(ValuePath(p.up.up))
    {
      ghost var near, up := Sibling(p), p.up.up;
      assert allocated(Nodes(sh)) && allocated(Nodes(near)) && allocated(Above(up));
      assert allocated(Nodes(side.left)) && allocated(Nodes(side.right));
      assert Tidy(side) && Nodes(side) !! Above(up) && Nodes(near) !! Nodes(side) && Nodes(sh) !! Nodes(side);
      assert parent !in Nodes(side) && parent !in Above(up) && parent != grandparent;
      ghost var zs, zn, zl, zr, zu := Value(sh), Value(near), Value(side.left), Value(side.right), ValuePath(up);
      uncle.Recolor();
      parent.Recolor();
      grandparent.Recolor();
      assert Value(sh) == zs && Value(near) == zn && ValuePath(up) == zu;
      assert Value(side.left) == zl && Value(side.right) == zr;
    }

    /** The parent and the grandparent change colour, and no other node does. */
    static method RecolorAbove(parent: Node, grandparent: Node, ghost p: Path<Node>, ghost sh: Shape<Node>)
      requires TidyPath(p) && Nodes(sh) !! Above(p)
      requires p != Outermost && p.up != Outermost && p.node == parent && p.up.node == grandparent
      modifies parent`color, grandparent`color
      ensures parent.color == Flip(old(parent.color)) && grandparent.color == Flip(old(grandparent.color))
      ensures Value(sh) == old(Value(sh)) && Value(Sibling(p)) == old(Value(Sibling(p)))
      ensures Value(Sibling(p.up)) == old(Value(Sibling(p.up))) && ValuePath(p.up.up) == old(ValuePath(p.up.up))
    {
      ghost var near, side, up := Sibling(p), Sibling(p.up), p.up.up;
      assert allocated(Nodes(sh)) && allocated(Nodes(near)) && allocated(Nodes(side)) && allocated(Above(up));
      assert parent !in Nodes(side) && parent !in Above(up) && parent != grandparent;
      parent.Recolor();
      grandparent.Recolor();
    }

    /** Colours do not touch the links. */
    static method RecolorUnder(
      parent: Node, grandparent: Node, ghost p: Path<Node>, ghost sh: Shape<Node>, ghost root: Node?)
      requires TidyPath(p) && Nodes(sh) !! Above(p)
      requires p != Outermost && p.up != Outermost && p.node == parent && p.up.node == grandparent
      requires Fits(p.up.up, Under(p.up, Under(p, sh)), grandparent, root)
      modifies parent`color, grandparent`color
      ensures Fits(p.up.up, Under(p.up, Under(p, sh)), grandparent, root)
      ensures parent.color == Flip(old(parent.color)) && grandparent.color == Flip(old(grandparent.color))
      ensures Value(sh) == old(Value(sh)) && Value(Sibling(p)) == old(Value(Sibling(p)))
      ensures Value(Sibling(p.up)) == old(Value(Sibling(p.up))) && ValuePath(p.up.up) == old(ValuePath(p.up.up))
    {
      ghost var up, whole := p.up.up, Under(p.up, Under(p, sh));
      assert allocated(Nodes(whole)) && allocated(Above(up));
      RecolorAbove(parent, grandparent, p, sh);
    }

    /** The left rotation at the grandparent, seen from its right grandchild `c`. */
    method RotateLeftAbove(
      x: Node, y: Node, ghost p: Path<Node>, ghost a: Shape<Node>, ghost b: Shape<Node>, ghost c: Shape<Node>)
      requires Fits(p, At(a, x, At(b, y, c)), x, root_) && x.right == y
      modifies this`root_
      modifies All(p, At(a, x, At(b, y, c)))`left
      modifies All(p, At(a, x, At(b, y, c)))`right
      modifies All(p, At(a, x, At(b, y, c)))`parent
      ensures Fits(RightOf(At(a, x, b), y, p), c, old(y.right), root_)
      ensures Value(c) == old(Value(c))
      ensures ValuePath(RightOf(At(a, x, b), y, p)) ==
              old(InRight(Branch(Value(a), x.key, x.color, Value(b)), y.key, y.color, ValuePath(p)))
    {
      assert allocated(Nodes(a)) && allocated(Nodes(b)) && allocated(Nodes(c)) && allocated(Above(p));
      assert Linked(At(b, y, c), y, x);
      LinkedRoot(c, y.right, y);
      ghost var va, vb, vc, vp := Value(a), Value(b), Value(c), ValuePath(p);
      SmallLeftRotation(x, p, a, b, c);
      assert Value(a) == va && Value(b) == vb && Value(c) == vc && ValuePath(p) == vp;
      LinkedRoot(c, y.right, y);
      FitsDownRight(p, At(a, x, b), y, c, root_);
    }

    /** Case 3.2.1: `subtree` and its parent are right children. */
    method RotateLeftOut(subtree: Node, ghost p: Path<Node>, ghost sh: Shape<Node>) returns (ghost p': Path<Node>)
      requires Fits(p, sh, subtree, root_) && sh.At?
      requires p.RightOf? && p.up.RightOf?
      modifies this`root_, All(p, sh)`left, All(p, sh)`right, All(p, sh)`parent, p.node`color, p.up.node`color
      ensures p' == RightOf(At(p.up.left, p.up.node, p.left), p.node, p.up.up)
      ensures Fits(p', sh, subtree, root_) && All(p', sh) == All(p, sh)
      ensures Value(sh) == old(Value(sh))
      ensures ValuePath(p') == old(
        InRight(Branch(Value(p.up.left), p.up.node.key, Flip(p.up.node.color), Value(p.left)),
                p.node.key, Flip(p.node.color), ValuePath(p.up.up)))
    {
      var parent, grandparent := subtree.parent, subtree.parent.parent;
      ghost var inner, side, up := p.left, p.up.left, p.up.up;
      FitsUp(p, sh, subtree, root_);
      FitsUp(p.up, Under(p, sh), parent, root_);
      ghost var whole := At(side, grandparent, At(inner, parent, sh));
      assert allocated(Nodes(whole)) && allocated(Above(up));
      RecolorUnder(parent, grandparent, p, sh, root_);
      RotateLeftAbove(grandparent, parent, up, side, inner, sh);
      p' := RightOf(At(side, grandparent, inner), parent, up);
    }

    method RotateRightAbove(
      x: Node, y: Node, ghost p: Path<Node>, ghost a: Shape<Node>, ghost b: Shape<Node>, ghost c: Shape<Node>)
      requires Fits(p, At(At(a, y, b), x, c), x, root_) && x.left == y
      modifies this`root_
      modifies All(p, At(At(a, y, b), x, c))`left
      modifies All(p, At(At(a, y, b), x, c))`right
      modifies All(p, At(At(a, y, b), x, c))`parent
      ensures Fits(LeftOf(y, At(b, x, c), p), a, old(y.left), root_)
      ensures Value(a) == old(Value(a))
      ensures ValuePath(LeftOf(y, At(b, x, c), p)) ==
              old(InLeft(y.key, y.color, Branch(Value(b), x.key, x.color, Value(c)), ValuePath(p)))
    {
      assert allocated(Nodes(a)) && allocated(Nodes(b)) && allocated(Nodes(c)) && allocated(Above(p));
      assert Linked(At(a, y, b), y, x);
      LinkedRoot(a, y.left, y);
      ghost var va, vb, vc, vp := Value(a), Value(b), Value(c), ValuePath(p);
      SmallRightRotation(x, p, a, b, c);
      assert Value(a) == va && Value(b) == vb && Value(c) == vc && ValuePath(p) == vp;
      LinkedRoot(a, y.left, y);
      FitsDownLeft(p, a, y, At(b, x, c), root_);
    }

    /** Mirror of case 3.2.1: `subtree` and its parent are left children. */
    method RotateRightOut(subtree: Node, ghost p: Path<Node>, ghost sh: Shape<Node>) returns (ghost p': Path<Node>)
      requires Fits(p, sh, subtree, root_) && sh.At?
      requires p.LeftOf? && p.up.LeftOf?
      modifies this`root_, All(p, sh)`left, All(p, sh)`right, All(p, sh)`parent, p.node`color, p.up.node`color
      ensures p' == LeftOf(p.node, At(p.right, p.up.node, p.up.right), p.up.up)
      ensures Fits(p', sh, subtree, root_) && All(p', sh) == All(p, sh)
      ensures Value(sh) == old(Value(sh))
      ensures ValuePath(p') == old(
        InLeft(p.node.key, Flip(p.node.color),
               Branch(Value(p.right), p.up.node.key, Flip(p.up.node.color), Value(p.up.right)), ValuePath(p.up.up)))
    {
      var parent, grandparent := subtree.parent, subtree.parent.parent;
      ghost var inner, side, up := p.right, p.up.right, p.up.up;
      FitsUp(p, sh, subtree, root_);
      FitsUp(p.up, Under(p, sh), parent, root_);
      ghost var whole := At(At(sh, parent, inner), grandparent, side);
      assert allocated(Nodes(whole)) && allocated(Above(up));
      RecolorUnder(parent, grandparent, p, sh, root_);
      RotateRightAbove(grandparent, parent, up, sh, inner, side);
      p' := LeftOf(parent, At(inner, grandparent, side), up);
    }

    /** Case 3.2.2: `subtree` is a left child; its parent becomes its right child and the new focus. */
    method TurnRight(
      subtree: Node, ghost p: Path<Node>, ghost sh: Shape<Node>)
      returns (ghost p': Path<Node>, ghost sh': Shape<Node>)
      requires Fits(p, sh, subtree, root_) && sh.At? && p.LeftOf?
      modifies this`root_, All(p, sh)`left, All(p, sh)`right, All(p, sh)`parent
      ensures p' == RightOf(sh.left, subtree, p.up) && sh' == At(sh.right, p.node, p.right)
      ensures Fits(p', sh', p.node, root_) && All(p', sh') == All(p, sh)
      ensures ValuePath(p') == old(InRight(Value(sh.left), subtree.key, subtree.color, ValuePath(p.up)))
      ensures Value(sh') == old(Branch(Value(sh.right), p.node.key, p.node.color, Value(p.right)))
    {
      var parent := subtree.parent;
      FitsUp(p, sh, subtree, root_);
      ghost var a, b, c := sh.left, sh.right, p.right;
      assert allocated(Nodes(a)) && allocated(Nodes(b)) && allocated(Nodes(c)) && allocated(Above(p.up));
      SmallRightRotation(parent, p.up, a, b, c);
      FitsDownRight(p.up, a, subtree, At(b, parent, c), root_);
      p', sh' := RightOf(a, subtree, p.up), At(b, parent, c);
    }

    /** Mirror of case 3.2.2. */
    method TurnLeft(
      subtree: Node, ghost p: Path<Node>, ghost sh: Shape<Node>)
      returns (ghost p': Path<Node>, ghost sh': Shape<Node>)
      requires Fits(p, sh, subtree, root_) && sh.At? && p.RightOf?
      modifies this`root_, All(p, sh)`left, All(p, sh)`right, All(p, sh)`parent
      ensures p' == LeftOf(subtree, sh.right, p.up) && sh' == At(p.left, p.node, sh.left)
      ensures Fits(p', sh', p.node, root_) && All(p', sh') == All(p, sh)
      ensures ValuePath(p') == old(InLeft(subtree.key, subtree.color, Value(sh.right), ValuePath(p.up)))
      ensures Value(sh') == old(Branch(Value(p.left), p.node.key, p.node.color, Value(sh.left)))
    {
      var parent := subtree.parent;
      FitsUp(p, sh, subtree, root_);
      ghost var a, b, c := p.left, sh.left, sh.right;
      assert allocated(Nodes(a)) && allocated(Nodes(b)) && allocated(Nodes(c)) && allocated(Above(p.up));
      SmallLeftRotation(parent, p.up, a, b, c);
      FitsDownLeft(p.up, At(a, parent, b), subtree, c, root_);
      p', sh' := LeftOf(subtree, c, p.up), At(a, parent, b);
    }

    /** Case 3.1 and its mirror, with the focus moving to the grandparent. */
    static method PushUp(
      uncle: Node, subtree: Node, ghost p: Path<Node>, ghost sh: Shape<Node>, ghost goal: Tree, ghost root: Node?)
      returns (focus: Node, ghost p': Path<Node>, ghost sh': Shape<Node>)
      requires Fits(p, sh, subtree, root) && sh.At? && p != Outermost && p.up != Outermost
      requires Sibling(p.up).At? && Sibling(p.up).node == uncle && uncle.color == Red
      requires Pending(ValuePath(p), Value(sh), goal) && p.node.color == Red
      modifies All(p, sh)`color
      ensures p' == p.up.up && sh' == Under(p.up, Under(p, sh)) && focus == p.up.node
      ensures if p' == Outermost then Value(sh') == goal else Pending(ValuePath(p'), Value(sh'), goal)
    {
      UncleValue(p);
      Relatives(p, sh, subtree, root);
      p', sh' := p.up.up, Under(p.up, Under(p, sh));
      focus := subtree.parent.parent;
      PendingPush(ValuePath(p), Value(sh), goal);
      Push(uncle, subtree.parent, focus, p, sh, Sibling(p.up));
    }

    method PushFocus(uncle: Node, subtree: Node, ghost p: Path<Node>, ghost sh: Shape<Node>, ghost goal: Tree)
      returns (focus: Node, ghost p': Path<Node>, ghost sh': Shape<Node>)
      requires Fits(p, sh, subtree, root_) && sh.At? && p != Outermost && p.up != Outermost
      requires Sibling(p.up).At? && Sibling(p.up).node == uncle && uncle.color == Red
      requires Pending(ValuePath(p), Value(sh), goal) && p.node.color == Red
      modifies All(p, sh)`color
      ensures Next(p, sh, goal, root_, focus, p', sh')
    {
      FitsUp(p, sh, subtree, root_);
      FitsUp(p.up, Under(p, sh), p.node, root_);
      ghost var up, whole := p.up.up, Under(p.up, Under(p, sh));
      assert allocated(Nodes(whole)) && allocated(Above(up));
      focus, p', sh' := PushUp(uncle, subtree, p, sh, goal, root_);
      assert Fits(up, whole, focus, root_);
    }

    /** Cases 3.2 under a right parent. */
    method TurnAndRotateLeft(subtree: Node, ghost p: Path<Node>, ghost sh: Shape<Node>, ghost goal: Tree)
      returns (focus: Node, ghost p': Path<Node>, ghost sh': Shape<Node>)
      requires Fits(p, sh, subtree, root_) && sh.At? && p != Outermost && p.up.RightOf?
      requires Pending(ValuePath(p), Value(sh), goal) && p.node.color == Red && !IsRed(Value(p.up.left))
      modifies this`root_, All(p, sh)`left, All(p, sh)`right, All(p, sh)`parent, All(p, sh)`color
      ensures Next(p, sh, goal, root_, focus, p', sh')
    {
      UncleValue(p);
      Relatives(p, sh, subtree, root_);
      focus, p', sh' := subtree, p, sh;
      ghost var z, t := ValuePath(p), Value(sh);
      if subtree == subtree.parent.left {
        // case 3.2.2
        focus := subtree.parent;
        p', sh' := TurnRight(subtree, p, sh);
      }
      // case 3.2.1
      PendingRotate(z, t, goal, ValuePath(p'), Value(sh'));
      p' := RotateLeftOut(focus, p', sh');
    }

    /** The mirror cases 3.2 under a left parent. */
    method TurnAndRotateRight(subtree: Node, ghost p: Path<Node>, ghost sh: Shape<Node>, ghost goal: Tree)
      returns (focus: Node, ghost p': Path<Node>, ghost sh': Shape<Node>)
      requires Fits(p, sh, subtree, root_) && sh.At? && p != Outermost && p.up.LeftOf?
      requires Pending(ValuePath(p), Value(sh), goal) && p.node.color == Red && !IsRed(Value(p.up.right))
      modifies this`root_, All(p, sh)`left, All(p, sh)`right, All(p, sh)`parent, All(p, sh)`color
      ensures Next(p, sh, goal, root_, focus, p', sh')
    {
      UncleValue(p);
      Relatives(p, sh, subtree, root_);
      WhichChild(p, sh, subtree, root_);
      focus, p', sh' := subtree, p, sh;
      ghost var z, t := ValuePath(p), Value(sh);
      if subtree == subtree.parent.right {
        // mirror case 3.2.2
        focus := subtree.parent;
        p', sh' := TurnLeft(subtree, p, sh);
      }
      // mirror case 3.2.1
      PendingRotate(z, t, goal, ValuePath(p'), Value(sh'));
      p' := RotateRightOut(focus, p', sh');
    }

    /** One turn of the loop. */
    method Rebalance(subtree: Node, ghost p: Path<Node>, ghost sh: Shape<Node>, ghost goal: Tree)
      returns (focus: Node, ghost p': Path<Node>, ghost sh': Shape<Node>)
      requires Fits(p, sh, subtree, root_) && sh.At? && p != Outermost
      requires Pending(ValuePath(p), Value(sh), goal) && p.node.color == Red
      modifies this`root_, All(p, sh)`left, All(p, sh)`right, All(p, sh)`parent, All(p, sh)`color
      ensures Next(p, sh, goal, root_, focus, p', sh')
    {
      UncleValue(p);
      Relatives(p, sh, subtree, root_);
      var parent, grandparent := subtree.parent, subtree.parent.parent;
      if parent == grandparent.right {
        var uncle := grandparent.left;
        if uncle != null && uncle.color == Red {
          focus, p', sh' := PushFocus(uncle, subtree, p, sh, goal);
        } else {
          focus, p', sh' := TurnAndRotateLeft(subtree, p, sh, goal);
        }
      } else {
        var uncle := grandparent.right;
        if uncle != null && uncle.color == Red {
          focus, p', sh' := PushFocus(uncle, subtree, p, sh, goal);
        } else {
          focus, p', sh' := TurnAndRotateRight(subtree, p, sh, goal);
        }
      }
    }

    /** The statement after the loop. */
    method BlackenRoot(subtree: Node, ghost p: Path<Node>, ghost sh: Shape<Node>) returns (ghost whole: Shape<Node>)
      requires Fits(p, sh, subtree, root_) && sh.At?
      modifies All(p, sh)`color
      ensures Fits(Outermost, whole, root_, root_) && Nodes(whole) == All(p, sh)
      ensures Value(whole) == Blackened(old(Plug(ValuePath(p), Value(sh))))
    {
      PlugShapeFits(p, sh, subtree, root_);
      whole := PlugShape(p, sh);
      LinkedRoot(whole, root_, null);
      assert subtree in Nodes(whole) && Tidy(whole);
      root_.color := Black;
    }

    method BalancingSubtree(node: Node, ghost p0: Path<Node>, ghost sh0: Shape<Node>, ghost goal: Tree)
      returns (ghost whole: Shape<Node>)
      requires Fits(p0, sh0, node, root_) && sh0.At? && p0 != Outermost && Pending(ValuePath(p0), Value(sh0), goal)
      modifies this`root_, All(p0, sh0)`left, All(p0, sh0)`right, All(p0, sh0)`parent, All(p0, sh0)`color
      ensures Fits(Outermost, whole, root_, root_) && Nodes(whole) == All(p0, sh0)
      ensures Value(whole) == Blackened(goal)
    {
      var subtree := node;
      ghost var p, sh := p0, sh0;
      WhichChild(p, sh, subtree, root_);
      while subtree.parent.color == Red
        invariant Fits(p, sh, subtree, root_) && sh.At? && All(p, sh) == All(p0, sh0)
        invariant p != Outermost && subtree.parent == p.node && Pending(ValuePath(p), Value(sh), goal)
        decreases Depth(p)
      {
        subtree, p, sh := Rebalance(subtree, p, sh, goal);
        AtRoot(p, sh, subtree, root_);
        if subtree == root_ {
          break;
        }
        WhichChild(p, sh, subtree, root_);
      }
      whole := BlackenRoot(subtree, p, sh);
    }

    static method VisitImpl(root: Node?, ghost sh: Shape<Node>, ghost parent: Node?) returns (visited: seq<int>)
      requires Linked(sh, root, parent)
      ensures visited == InOrder(Value(sh))
      decreases sh
    {
      visited := [];
      LinkedRoot(sh, root, parent);
      if root != null {
        assert allocated(Nodes(sh.left)) && allocated(Nodes(sh.right));
        var l := VisitImpl(root.left, sh.left, root);
        var r := VisitImpl(root.right, sh.right, root);
        visited := l + [root.key] + r;
      }
    }

    /** The keys in the order in which `Visit` hands them to its visitor. */
    method Visit() returns (visited: seq<int>)
      requires Valid()
      ensures visited == InOrder(Contents())
    {
      visited := VisitImpl(root_, shape, null);
    }

    static method NodeContains(node: Node, key: int, ghost sh: Shape<Node>, ghost parent: Node?) returns (found: bool)
      requires Linked(sh, node, parent) && sh.At?
      ensures found <==> key in InOrder(Value(sh))
      decreases sh
    {
      if node.key == key {
        return true;
      }
      assert allocated(Nodes(sh.left)) && allocated(Nodes(sh.right));
      LinkedRoot(sh.left, node.left, node);
      LinkedRoot(sh.right, node.right, node);
      found := false;
      if node.left != null {
        found := NodeContains(node.left, key, sh.left, node);
      }
      if !found && node.right != null {
        found := NodeContains(node.right, key, sh.right, node);
      }
    }

    method Contains(key: int) returns (found: bool)
      requires Valid()
      ensures found <==> key in InOrder(Contents())
    {
      LinkedRoot(shape, root_, null);
      found := false;
      if root_ != null {
        found := NodeContains(root_, key, shape, null);
      }
    }

    static method DepthsOf(
      node: Node, ghost sh: Shape<Node>, ghost parent: Node?)
      returns (maxDepth: int, minDepth: int)
      requires Linked(sh, node, parent) && sh.At?
      ensures maxDepth == NodeMaxDepth(Value(sh)) && minDepth == NodeMinDepth(Value(sh))
      decreases sh
    {
      assert allocated(Nodes(sh.left)) && allocated(Nodes(sh.right));
      LinkedRoot(sh.left, node.left, node);
      LinkedRoot(sh.right, node.right, node);
      var maxLeft, minLeft, maxRight, minRight := 0, 0, 0, 0;
      if node.left != null {
        maxLeft, minLeft := DepthsOf(node.left, sh.left, node);
      }
      if node.right != null {
        maxRight, minRight := DepthsOf(node.right, sh.right, node);
      }
      maxDepth := 1 + if maxLeft < maxRight then maxRight else maxLeft;
      minDepth := 1 + if minRight < minLeft then minRight else minLeft;
    }

    /** `MaxDepth()` and `MinDepth()`. */
    method Depths() returns (maxDepth: int, minDepth: int)
      requires Valid()
      ensures maxDepth == MaxDepth(Contents()) && minDepth == MinDepth(Contents())
    {
      LinkedRoot(shape, root_, null);
      maxDepth, minDepth := -1, -1;
      if root_ != null {
        maxDepth, minDepth := DepthsOf(root_, shape, null);
        maxDepth, minDepth := maxDepth - 1, minDepth - 1;
      }
    }

    /** The search loop of an insertion: the place for `key` and the node above it. */
    method Search(key: int) returns (parent: Node?, ghost p: Path<Node>)
      requires Valid()
      ensures Fits(p, Nil, null, root_) && parent == Parent(p) && Above(p) == Nodes(shape)
      ensures ValuePath(p) == Descend(Contents(), key, Top)
      ensures p != Outermost ==> (p.LeftOf? <==> key < p.node.key)
    {
      var child := root_;
      parent := null;
      p := Outermost;
      ghost var sh := shape;
      while child != null
        invariant Fits(p, sh, child, root_) && parent == Parent(p) && All(p, sh) == Nodes(shape)
        invariant Descend(Value(sh), key, ValuePath(p)) == Descend(Contents(), key, Top)
        invariant p != Outermost ==> (p.LeftOf? <==> key < p.node.key)
        decreases sh
      {
        LinkedRoot(sh, child, parent);
        ghost var l, r := sh.left, sh.right;
        parent := child;
        if key < child.key {
          FitsDownLeft(p, l, parent, r, root_);
          p, sh := LeftOf(parent, r, p), l;
          child := child.left;
        } else {
          FitsDownRight(p, l, parent, r, root_);
          p, sh := RightOf(l, parent, p), r;
          child := child.right;
        }
      }
      LinkedRoot(sh, child, parent);
    }

    /** A new node goes into the empty place found by the search. */
    method Attach(newNode: Node, parent: Node, ghost p: Path<Node>)
      requires Fits(p, Nil, null, root_) && p != Outermost && parent == p.node
      requires p.LeftOf? <==> newNode.key < parent.key
      requires newNode !in Above(p) && newNode.left == null && newNode.right == null
      modifies newNode`parent, parent`left, parent`right
      ensures Fits(p, At(Nil, newNode, Nil), newNode, root_)
    {
      assert LinkedPath(p.up, parent, root_) && parent !in Above(p.up);
      newNode.parent := parent;
      if newNode.key < parent.key {
        parent.left := newNode;
      } else {
        parent.right := newNode;
      }
    }

    /** The second half of an insertion below an existing node. */
    method Place(newNode: Node, parent: Node, ghost p: Path<Node>) returns (ghost whole: Shape<Node>)
      requires Fits(p, Nil, null, root_) && p != Outermost && parent == p.node
      requires p.LeftOf? <==> newNode.key < parent.key
      requires newNode !in Above(p) && newNode.left == null && newNode.right == null && newNode.color == Red
      requires RootBlack(ValuePath(p)) && Accepts(ValuePath(p), 0)
      modifies this`root_, newNode, Above(p)
      ensures Fits(Outermost, whole, root_, root_) && Nodes(whole) == Above(p) + {newNode}
      ensures Value(whole) == Attached(old(ValuePath(p)), newNode.key)
    {
      ghost var leaf, z := At(Nil, newNode, Nil), ValuePath(p);
      assert allocated(Above(p));
      assert ValuePath(p).up == ValuePath(p.up);
      assert z.up == Top <==> p.up == Outermost;
      Attach(newNode, parent, p);
      assert ValuePath(p) == z && Value(leaf) == Branch(Leaf, newNode.key, Red, Leaf);
      WhichChild(p, leaf, newNode, root_);
      GrandparentOf(p, leaf, newNode, root_);
      if newNode.parent.parent == null {
        PlugShapeFits(p, leaf, newNode, root_);
        whole := PlugShape(p, leaf);
      } else {
        whole := BalancingSubtree(newNode, p, leaf, Fixup(z, Value(leaf)));
      }
    }

    method Insert(key: int)
      requires Valid()
      modifies this, Nodes(shape)
      ensures Valid() && Contents() == Inserted(old(Contents()), key)
      ensures fresh(Nodes(shape) - old(Nodes(shape)))
    {
      assert allocated(Nodes(shape));
      var newNode := new Node(key);
      var parent;
      ghost var p;
      parent, p := Search(key);
      InsertReady(Contents(), key);
      shape := PlaceAnywhere(newNode, parent, p);
    }

    /** The second half of an insertion. */
    method PlaceAnywhere(newNode: Node, parent: Node?, ghost p: Path<Node>) returns (ghost whole: Shape<Node>)
      requires Fits(p, Nil, null, root_) && parent == Parent(p)
      requires p != Outermost ==> (p.LeftOf? <==> newNode.key < p.node.key)
      requires newNode !in Above(p) && newNode.left == null && newNode.right == null && newNode.parent == null
      requires newNode.color == Red && RootBlack(ValuePath(p)) && Accepts(ValuePath(p), 0)
      modifies this`root_, newNode, Above(p)
      ensures Tidy(whole) && Linked(whole, root_, null) && Nodes(whole) == Above(p) + {newNode}
      ensures Value(whole) == Attached(old(ValuePath(p)), newNode.key)
    {
      if parent == null {
        newNode.color := Black;
        root_ := newNode;
        whole := At(Nil, newNode, Nil);
      } else {
        whole := Place(newNode, parent, p);
      }
    }
  }

  lemma InsertReady(t: Tree, key: int)
    requires IsRedBlack(t)
    ensures var z := Descend(t, key, Top);
            RootBlack(z) && Accepts(z, 0) && IsRedBlack(Inserted(t, key)) && Inserted(t, key) == Attached(z, key)
  {
    DescendRoot(t, key, Top);
    DescendAccepts(t, key, Top);
    InsertedIsRedBlack(t, key);
  }

  lemma GrandparentOf(p: Path<Node>, sh: Shape<Node>, n: Node, root: Node?)
    requires Fits(p, sh, n, root) && p != Outermost
    ensures p.node.parent == null <==> p.up == Outermost
  {
  }

  /** What one turn of the loop leaves. */
  ghost predicate Next(
    p: Path<Node>, sh: Shape<Node>, goal: Tree, root: Node?, focus: Node, p': Path<Node>, sh': Shape<Node>)
    reads All(p', sh')
  {
    && Fits(p', sh', focus, root) && sh'.At? && All(p', sh') == All(p, sh) && Depth(p') < Depth(p)
    && if p' == Outermost then Value(sh') == goal else Pending(ValuePath(p'), Value(sh'), goal)
  }

  lemma UncleValue(p: Path<Node>)
    requires p != Outermost && RootBlack(ValuePath(p)) && p.node.color == Red
    ensures p.up != Outermost && TwoAbove(ValuePath(p)) && Uncle(ValuePath(p)) == Value(Sibling(p.up))
  {
    assert p.up == Outermost <==> ValuePath(p).up == Top;
  }

  lemma AtRoot(p: Path<Node>, sh: Shape<Node>, n: Node, root: Node?)
    requires Fits(p, sh, n, root) && sh.At?
    ensures n == root <==> p == Outermost
  {
    if p != Outermost {
      RootAbove(p, n, root);
    }
  }
}
