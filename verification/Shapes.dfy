/** Where the nodes of a linked tree are. A shape records the nodes of a subtree in their places, a path those
    above a subtree, so that pointer operations can be compared with functions on values. */
module Shapes {

  /** The nodes of a subtree in their places. */
  datatype Shape<N> = Nil | At(left: Shape<N>, node: N, right: Shape<N>)

  /** The nodes above a subtree, from its parent to the root. */
  datatype Path<N> =
    | Outermost
    | LeftOf(node: N, right: Shape<N>, up: Path<N>)
    | RightOf(left: Shape<N>, node: N, up: Path<N>)

  ghost function Nodes<N>(sh: Shape<N>): set<N> {
    match sh
    case Nil => {}
    case At(l, n, r) => Nodes(l) + {n} + Nodes(r)
  }

  ghost function Above<N>(p: Path<N>): set<N> {
    match p
    case Outermost => {}
    case LeftOf(n, r, up) => {n} + Nodes(r) + Above(up)
    case RightOf(l, n, up) => {n} + Nodes(l) + Above(up)
  }

  ghost function All<N>(p: Path<N>, sh: Shape<N>): set<N> {
    Nodes(sh) + Above(p)
  }

  /** No node occurs twice. */
  ghost predicate Tidy<N>(sh: Shape<N>) {
    match sh
    case Nil => true
    case At(l, n, r) =>
      Tidy(l) && Tidy(r) && n !in Nodes(l) && n !in Nodes(r) && Nodes(l) !! Nodes(r)
  }

  ghost predicate TidyPath<N>(p: Path<N>) {
    match p
    case Outermost => true
    case LeftOf(n, r, up) =>
      Tidy(r) && TidyPath(up) && n !in Nodes(r) && n !in Above(up) && Nodes(r) !! Above(up)
    case RightOf(l, n, up) =>
      Tidy(l) && TidyPath(up) && n !in Nodes(l) && n !in Above(up) && Nodes(l) !! Above(up)
  }

  ghost function Depth<N>(p: Path<N>): nat {
    if p.Outermost? then 0 else 1 + Depth(p.up)
  }

  /** The subtree of the parent. */
  ghost function Under<N>(p: Path<N>, sh: Shape<N>): Shape<N>
    requires p != Outermost
  {
    if p.LeftOf? then At(sh, p.node, p.right) else At(p.left, p.node, sh)
  }

  ghost function Sibling<N>(p: Path<N>): Shape<N>
    requires p != Outermost
  {
    if p.LeftOf? then p.right else p.left
  }

  /** The whole tree. */
  ghost function PlugShape<N>(p: Path<N>, sh: Shape<N>): Shape<N> {
    if p == Outermost then sh else PlugShape(p.up, Under(p, sh))
  }

  /** A rotation keeps every node in one place. */
  lemma RotationTidy<N>(x: N, y: N, a: Shape<N>, b: Shape<N>, c: Shape<N>)
    ensures Nodes(At(a, x, At(b, y, c))) == Nodes(At(At(a, x, b), y, c))
    ensures Tidy(At(a, x, At(b, y, c))) <==> Tidy(At(At(a, x, b), y, c))
    ensures Tidy(At(a, x, At(b, y, c))) ==>
              && Tidy(a) && Tidy(b) && Tidy(c)
              && x != y && x !in Nodes(a) && x !in Nodes(b) && x !in Nodes(c)
              && y !in Nodes(a) && y !in Nodes(b) && y !in Nodes(c)
              && Nodes(a) !! Nodes(b) && Nodes(a) !! Nodes(c) && Nodes(b) !! Nodes(c)
  {
    assert Tidy(At(b, y, c)) <==> Tidy(b) && Tidy(c) && y !in Nodes(b) && y !in Nodes(c) && Nodes(b) !! Nodes(c);
    assert Tidy(At(a, x, b)) <==> Tidy(a) && Tidy(b) && x !in Nodes(a) && x !in Nodes(b) && Nodes(a) !! Nodes(b);
  }
}
