/** Red-black insertion on values: what the pointer code computes, and why the result is balanced. */
module RedBlackSpec {
  import opened Options

  datatype Color = Red | Black

  datatype Tree = Leaf | Branch(left: Tree, key: int, color: Color, right: Tree)

  /** The surroundings of a subtree, from its parent up to the root. */
  datatype Zip =
    | Top
    | InLeft(key: int, color: Color, right: Tree, up: Zip)
    | InRight(left: Tree, key: int, color: Color, up: Zip)

  function Flip(c: Color): Color {
    if c == Red then Black else Red
  }

  /** The tree with `t` in its surroundings `z`. */
  function Plug(z: Zip, t: Tree): Tree {
    match z
    case Top => t
    case InLeft(k, c, r, up) => Plug(up, Branch(t, k, c, r))
    case InRight(l, k, c, up) => Plug(up, Branch(l, k, c, t))
  }

  /** The surroundings of the place where `key` is to be attached. */
  function Descend(t: Tree, key: int, z: Zip): Zip {
    match t
    case Leaf => z
    case Branch(l, k, c, r) =>
      if key < k then Descend(l, key, InLeft(k, c, r, z)) else Descend(r, key, InRight(l, k, c, z))
  }

  predicate IsRed(t: Tree) {
    t.Branch? && t.color == Red
  }

  function Recolored(t: Tree): Tree {
    if t.Leaf? then t else t.(color := Flip(t.color))
  }

  /** The outermost node above a hole is black, as the root is. */
  predicate RootBlack(z: Zip) {
    z == Top || (if z.up == Top then z.color == Black else RootBlack(z.up))
  }

  /** A parent and a grandparent. */
  predicate TwoAbove(z: Zip) {
    z != Top && z.up != Top
  }

  function Uncle(z: Zip): Tree
    requires TwoAbove(z)
  {
    if z.up.InLeft? then z.up.right else z.up.left
  }

  /** Cases 3.1: the uncle, the parent and the grandparent change colour. */
  function Pushed(z: Zip, t: Tree): Tree
    requires TwoAbove(z)
  {
    var g := z.up;
    var parent :=
      if z.InLeft? then Branch(t, z.key, Flip(z.color), z.right) else Branch(z.left, z.key, Flip(z.color), t);
    if g.InRight? then Branch(Recolored(g.left), g.key, Flip(g.color), parent)
    else Branch(parent, g.key, Flip(g.color), Recolored(g.right))
  }

  /** Cases 3.2: one rotation when `t` and its parent lean the same way, two when they do not. */
  function Rotated(z: Zip, t: Tree): Tree
    requires TwoAbove(z) && t.Branch?
  {
    var g := z.up;
    if g.InRight? then
      if z.InRight? then
        Branch(Branch(g.left, g.key, Flip(g.color), z.left), z.key, Flip(z.color), t)
      else
        Branch(Branch(g.left, g.key, Flip(g.color), t.left), t.key, Flip(t.color),
               Branch(t.right, z.key, z.color, z.right))
    else
      if z.InLeft? then
        Branch(t, z.key, Flip(z.color), Branch(z.right, g.key, Flip(g.color), g.right))
      else
        Branch(Branch(z.left, z.key, z.color, t.left), t.key, Flip(t.color),
               Branch(t.right, g.key, Flip(g.color), g.right))
  }

  /** The rebalancing loop from the subtree `t`, up to the colour of the root. The parent of `t` exists,
      and so does its grandparent while the parent is red. */
  function Fixup(z: Zip, t: Tree): Tree
    requires z != Top && RootBlack(z) && t.Branch?
    decreases z
  {
    if z.color == Black then Plug(z, t)
    else
      assert TwoAbove(z) && RootBlack(z.up);
      var up := z.up.up;
      if !IsRed(Uncle(z)) then Plug(up, Rotated(z, t))
      else if up == Top then Pushed(z, t)
      else Fixup(up, Pushed(z, t))
  }

  function Blackened(t: Tree): Tree {
    if t.Leaf? then t else t.(color := Black)
  }

  /** Attaching a red node for `key` at the end of the search path and rebalancing. */
  function Attached(z: Zip, key: int): Tree
    requires RootBlack(z)
  {
    if z == Top then Branch(Leaf, key, Black, Leaf)
    else if z.up == Top then Plug(z, Branch(Leaf, key, Red, Leaf))
    else Blackened(Fixup(z, Branch(Leaf, key, Red, Leaf)))
  }

  predicate BlackRoot(t: Tree) {
    t.Branch? ==> t.color == Black
  }

  lemma {:induction false} DescendRoot(t: Tree, key: int, z: Zip)
    requires RootBlack(z) && (z == Top ==> BlackRoot(t))
    ensures RootBlack(Descend(t, key, z))
  {
    match t
    case Leaf =>
    case Branch(l, k, c, r) =>
      if key < k {
        DescendRoot(l, key, InLeft(k, c, r, z));
      } else {
        DescendRoot(r, key, InRight(l, k, c, z));
      }
  }

  function Inserted(t: Tree, key: int): Tree
    requires BlackRoot(t)
  {
    DescendRoot(t, key, Top);
    Attached(Descend(t, key, Top), key)
  }

  // ---------------------------------------------------------------- red-black trees

  predicate NoRedRed(t: Tree) {
    match t
    case Leaf => true
    case Branch(l, _, c, r) => NoRedRed(l) && NoRedRed(r) && (c == Red ==> !IsRed(l) && !IsRed(r))
  }

  /** The number of black nodes on the leftmost path. */
  function BlackHeight(t: Tree): nat {
    match t
    case Leaf => 0
    case Branch(l, _, c, _) => BlackHeight(l) + (if c == Black then 1 else 0)
  }

  predicate EvenlyBlack(t: Tree) {
    match t
    case Leaf => true
    case Branch(l, _, _, r) => EvenlyBlack(l) && EvenlyBlack(r) && BlackHeight(l) == BlackHeight(r)
  }

  predicate IsRedBlack(t: Tree) {
    BlackRoot(t) && NoRedRed(t) && EvenlyBlack(t)
  }

  /** The surroundings violate nothing themselves, and accept a subtree of black height `h`. */
  predicate Accepts(z: Zip, h: nat) {
    z == Top ||
      var sibling := if z.InLeft? then z.right else z.left;
      && NoRedRed(sibling) && EvenlyBlack(sibling) && BlackHeight(sibling) == h
      && (z.color == Red ==> !IsRed(sibling) && (z.up != Top ==> z.up.color == Black))
      && Accepts(z.up, h + (if z.color == Black then 1 else 0))
  }

  lemma {:induction false} PlugIsRedBlack(z: Zip, t: Tree)
    requires Accepts(z, BlackHeight(t)) && RootBlack(z) && NoRedRed(t) && EvenlyBlack(t)
    requires z != Top && IsRed(t) ==> z.color == Black
    requires z == Top ==> BlackRoot(t)
    ensures IsRedBlack(Plug(z, t))
  {
    match z
    case Top =>
    case InLeft(k, c, r, up) => PlugIsRedBlack(up, Branch(t, k, c, r));
    case InRight(l, k, c, up) => PlugIsRedBlack(up, Branch(l, k, c, t));
  }

  lemma PushedIsRedBlack(z: Zip, t: Tree)
    requires TwoAbove(z) && t.Branch? && t.color == Red && z.color == Red && IsRed(Uncle(z))
    requires Accepts(z, BlackHeight(t)) && NoRedRed(t) && EvenlyBlack(t)
    ensures IsRed(Pushed(z, t)) && NoRedRed(Pushed(z, t)) && EvenlyBlack(Pushed(z, t))
    ensures Accepts(z.up.up, BlackHeight(Pushed(z, t)))
  {
  }

  lemma RotatedIsRedBlack(z: Zip, t: Tree)
    requires TwoAbove(z) && t.Branch? && t.color == Red && z.color == Red && !IsRed(Uncle(z))
    requires Accepts(z, BlackHeight(t)) && NoRedRed(t) && EvenlyBlack(t)
    ensures !IsRed(Rotated(z, t)) && NoRedRed(Rotated(z, t)) && EvenlyBlack(Rotated(z, t))
    ensures Accepts(z.up.up, BlackHeight(Rotated(z, t)))
  {
  }

  /** Rebalancing repairs a red node under a red parent, wherever it is. */
  lemma {:induction false} FixupIsRedBlack(z: Zip, t: Tree)
    requires z != Top && RootBlack(z) && t.Branch? && t.color == Red
    requires Accepts(z, BlackHeight(t)) && NoRedRed(t) && EvenlyBlack(t)
    ensures IsRedBlack(Blackened(Fixup(z, t)))
    decreases z
  {
    if z.color == Black {
      PlugIsRedBlack(z, t);
    } else {
      assert RootBlack(z.up);
      var up := z.up.up;
      if !IsRed(Uncle(z)) {
        RotatedIsRedBlack(z, t);
        PlugIsRedBlack(up, Rotated(z, t));
      } else {
        PushedIsRedBlack(z, t);
        if up != Top {
          FixupIsRedBlack(up, Pushed(z, t));
        }
      }
    }
  }

  lemma {:induction false} DescendAccepts(t: Tree, key: int, z: Zip)
    requires Accepts(z, BlackHeight(t)) && NoRedRed(t) && EvenlyBlack(t)
    requires IsRed(t) && z != Top ==> z.color == Black
    ensures Accepts(Descend(t, key, z), 0)
  {
    match t
    case Leaf =>
    case Branch(l, k, c, r) =>
      if key < k {
        DescendAccepts(l, key, InLeft(k, c, r, z));
      } else {
        DescendAccepts(r, key, InRight(l, k, c, z));
      }
  }

  lemma InsertedIsRedBlack(t: Tree, key: int)
    requires IsRedBlack(t)
    ensures IsRedBlack(Inserted(t, key))
  {
    var z := Descend(t, key, Top);
    DescendRoot(t, key, Top);
    DescendAccepts(t, key, Top);
    var added := Branch(Leaf, key, Red, Leaf);
    if z != Top {
      if z.up == Top {
        PlugIsRedBlack(z, added);
      } else {
        FixupIsRedBlack(z, added);
      }
    }
  }

  // ---------------------------------------------------------------- order and contents

  function InOrder(t: Tree): seq<int> {
    match t
    case Leaf => []
    case Branch(l, k, _, r) => InOrder(l) + [k] + InOrder(r)
  }

  /** The in-order sequence of a tree that has `s` in place of the hole of `z`. */
  function Around(z: Zip, s: seq<int>): seq<int> {
    match z
    case Top => s
    case InLeft(k, _, r, up) => Around(up, s + [k] + InOrder(r))
    case InRight(l, k, _, up) => Around(up, InOrder(l) + [k] + s)
  }

  lemma {:induction false} PlugInOrder(z: Zip, t: Tree)
    ensures InOrder(Plug(z, t)) == Around(z, InOrder(t))
  {
    match z
    case Top =>
    case InLeft(k, c, r, up) => PlugInOrder(up, Branch(t, k, c, r));
    case InRight(l, k, c, up) => PlugInOrder(up, Branch(l, k, c, t));
  }

  /** The in-order sequence of the grandparent's subtree. */
  function AroundTwo(z: Zip, s: seq<int>): seq<int>
    requires TwoAbove(z)
  {
    var inner := if z.InLeft? then s + [z.key] + InOrder(z.right) else InOrder(z.left) + [z.key] + s;
    if z.up.InLeft? then inner + [z.up.key] + InOrder(z.up.right) else InOrder(z.up.left) + [z.up.key] + inner
  }

  lemma PushedInOrder(z: Zip, t: Tree)
    requires TwoAbove(z)
    ensures InOrder(Pushed(z, t)) == AroundTwo(z, InOrder(t))
  {
    assert InOrder(Recolored(Uncle(z))) == InOrder(Uncle(z));
  }

  lemma RotatedOnce(a: seq<int>, k: int, b: seq<int>, m: int, c: seq<int>)
    ensures a + [k] + (b + [m] + c) == (a + [k] + b) + [m] + c
  {
  }

  lemma RotatedTwice(a: seq<int>, k: int, b: seq<int>, m: int, c: seq<int>, n: int, d: seq<int>)
    ensures a + [k] + ((b + [m] + c) + [n] + d) == (a + [k] + b) + [m] + (c + [n] + d)
    ensures (a + [k] + (b + [m] + c)) + [n] + d == (a + [k] + b) + [m] + (c + [n] + d)
  {
    RotatedOnce(b, m, c, n, d);
    RotatedOnce(a, k, b, m, c + [n] + d);
    RotatedOnce(a, k, b, m, c);
    RotatedOnce(a + [k] + b, m, c, n, d);
  }

  lemma RotatedInOrder(z: Zip, t: Tree)
    requires TwoAbove(z) && t.Branch?
    ensures InOrder(Rotated(z, t)) == AroundTwo(z, InOrder(t))
  {
    var g := z.up;
    var tl, tr := InOrder(t.left), InOrder(t.right);
    if g.InRight? && z.InRight? {
      RotatedOnce(InOrder(g.left), g.key, InOrder(z.left), z.key, InOrder(t));
    } else if g.InRight? {
      RotatedTwice(InOrder(g.left), g.key, tl, t.key, tr, z.key, InOrder(z.right));
    } else if z.InLeft? {
      RotatedOnce(InOrder(t), z.key, InOrder(z.right), g.key, InOrder(g.right));
    } else {
      RotatedTwice(InOrder(z.left), z.key, tl, t.key, tr, g.key, InOrder(g.right));
    }
  }

  /** Rebalancing never changes the in-order sequence. */
  lemma {:induction false} FixupInOrder(z: Zip, t: Tree)
    requires z != Top && RootBlack(z) && t.Branch?
    ensures InOrder(Fixup(z, t)) == Around(z, InOrder(t))
    decreases z
  {
    if z.color == Black {
      PlugInOrder(z, t);
    } else {
      assert RootBlack(z.up);
      var up := z.up.up;
      assert Around(z, InOrder(t)) == Around(up, AroundTwo(z, InOrder(t)));
      if !IsRed(Uncle(z)) {
        RotatedInOrder(z, t);
        PlugInOrder(up, Rotated(z, t));
      } else {
        PushedInOrder(z, t);
        if up != Top {
          FixupInOrder(up, Pushed(z, t));
        }
      }
    }
  }

  predicate Sorted(s: seq<int>) {
    forall i, j :: 0 <= i < j < |s| ==> s[i] <= s[j]
  }

  ghost predicate Separates(before: seq<int>, key: int, after: seq<int>) {
    (forall x :: x in before ==> x <= key) && (forall x :: x in after ==> key < x)
  }

  lemma SortedAround(a: seq<int>, k: int, b: seq<int>)
    requires Sorted(a + [k] + b)
    ensures forall x :: x in a ==> x <= k
    ensures forall x :: x in b ==> k <= x
  {
    var s := a + [k] + b;
    assert s[|a|] == k;
    forall x | x in b
      ensures k <= x
    {
      var j :| 0 <= j < |b| && b[j] == x;
      assert s[|a| + 1 + j] == x;
    }
    forall x | x in a
      ensures x <= k
    {
      var j :| 0 <= j < |a| && a[j] == x;
      assert s[j] == x;
    }
  }

  /** The search path splits a sorted tree around the key: everything before is at most the key,
      everything after is larger. */
  lemma {:induction false} DescendSplits(t: Tree, key: int, z: Zip, before: seq<int>, after: seq<int>)
    returns (before': seq<int>, after': seq<int>)
    requires Sorted(before + InOrder(t) + after) && Separates(before, key, after)
    requires forall s :: Around(z, s) == before + s + after
    ensures before' + after' == before + InOrder(t) + after
    ensures Separates(before', key, after')
    ensures forall s :: Around(Descend(t, key, z), s) == before' + s + after'
    decreases t
  {
    match t
    case Leaf =>
      before', after' := before, after;
    case Branch(l, k, c, r) =>
      RotatedOnce'(before, InOrder(l), k, InOrder(r), after);
      SortedAround(before + InOrder(l), k, InOrder(r) + after);
      if key < k {
        var after1 := [k] + InOrder(r) + after;
        assert forall x :: x in after1 ==> x == k || x in InOrder(r) + after;
        forall s: seq<int>
          ensures Around(InLeft(k, c, r, z), s) == before + s + after1
        {
          HoleOnLeft(before, s, k, InOrder(r), after);
        }
        before', after' := DescendSplits(l, key, InLeft(k, c, r, z), before, after1);
      } else {
        var before1 := before + InOrder(l) + [k];
        assert forall x :: x in before1 ==> x == k || x in before + InOrder(l);
        forall s: seq<int>
          ensures Around(InRight(l, k, c, z), s) == before1 + s + after
        {
          HoleOnRight(before, InOrder(l), k, s, after);
        }
        before', after' := DescendSplits(r, key, InRight(l, k, c, z), before1, after);
      }
  }

  lemma RotatedOnce'(a: seq<int>, l: seq<int>, k: int, r: seq<int>, b: seq<int>)
    ensures a + (l + [k] + r) + b == (a + l) + [k] + (r + b)
    ensures a + (l + [k] + r) + b == a + l + ([k] + r + b)
    ensures a + (l + [k] + r) + b == (a + l + [k]) + r + b
  {
  }

  lemma HoleOnLeft(a: seq<int>, s: seq<int>, k: int, r: seq<int>, b: seq<int>)
    ensures a + (s + [k] + r) + b == a + s + ([k] + r + b)
  {
  }

  lemma HoleOnRight(a: seq<int>, l: seq<int>, k: int, s: seq<int>, b: seq<int>)
    ensures a + (l + [k] + s) + b == (a + l + [k]) + s + b
  {
  }

  /** Where an insertion puts its key. */
  lemma InsertedBetween(t: Tree, key: int) returns (before: seq<int>, after: seq<int>)
    requires BlackRoot(t) && Sorted(InOrder(t))
    ensures InOrder(t) == before + after && Separates(before, key, after)
    ensures InOrder(Inserted(t, key)) == before + [key] + after
  {
    var z := Descend(t, key, Top);
    DescendRoot(t, key, Top);
    assert [] + InOrder(t) + [] == InOrder(t);
    before, after := DescendSplits(t, key, Top, [], []);
    var added := Branch(Leaf, key, Red, Leaf);
    assert Around(z, [key]) == before + [key] + after;
    assert InOrder(added) == [key];
    if z != Top {
      PlugInOrder(z, added);
      if z.up != Top {
        FixupInOrder(z, added);
      }
    }
  }

  lemma InsertedInOrder(t: Tree, key: int)
    requires BlackRoot(t) && Sorted(InOrder(t))
    ensures Sorted(InOrder(Inserted(t, key)))
    ensures multiset(InOrder(Inserted(t, key))) == multiset(InOrder(t)) + multiset{key}
  {
    var before, after := InsertedBetween(t, key);
    SplicedSorted(before, key, after);
  }

  lemma SplicedSorted(before: seq<int>, key: int, after: seq<int>)
    requires Sorted(before + after) && Separates(before, key, after)
    ensures Sorted(before + [key] + after)
  {
    var s := before + [key] + after;
    var old' := before + after;
    forall i, j | 0 <= i < j < |s|
      ensures s[i] <= s[j]
    {
      if i < |before| { assert s[i] == old'[i] && s[i] in before; }
      if i > |before| { assert s[i] == old'[i - 1]; }
      if j < |before| { assert s[j] == old'[j]; }
      if j > |before| { assert s[j] == old'[j - 1] && s[j] in after; }
    }
  }

  // ---------------------------------------------------------------- depth

  function NodeMaxDepth(t: Tree): nat {
    match t
    case Leaf => 0
    case Branch(l, _, _, r) =>
      1 + (if NodeMaxDepth(l) < NodeMaxDepth(r) then NodeMaxDepth(r) else NodeMaxDepth(l))
  }

  function NodeMinDepth(t: Tree): nat {
    match t
    case Leaf => 0
    case Branch(l, _, _, r) =>
      1 + (if NodeMinDepth(r) < NodeMinDepth(l) then NodeMinDepth(r) else NodeMinDepth(l))
  }

  function MaxDepth(t: Tree): int {
    if t.Leaf? then -1 else NodeMaxDepth(t) - 1
  }

  function MinDepth(t: Tree): int {
    if t.Leaf? then -1 else NodeMinDepth(t) - 1
  }

  /** The subtree that a path of turns leads to, if it does not leave the tree. */
  function Subtree(t: Tree, turns: seq<Turn>): Option<Tree> {
    if turns == [] then Some(t)
    else if t.Leaf? then None
    else Subtree(if turns[0] == ToLeft then t.left else t.right, turns[1..])
  }

  datatype Turn = ToLeft | ToRight

  ghost predicate LeadsToNode(t: Tree, turns: seq<Turn>) {
    Subtree(t, turns).Some? && Subtree(t, turns).value.Branch?
  }

  ghost predicate LeadsToGap(t: Tree, turns: seq<Turn>) {
    Subtree(t, turns) == Some(Leaf)
  }

  /** `MaxDepth()` is the number of edges to the deepest node; without nodes it is -1. */
  lemma {:induction false} MaxDepthIsDeepest(t: Tree) returns (deepest: seq<Turn>)
    ensures forall turns :: LeadsToNode(t, turns) ==> |turns| <= MaxDepth(t)
    ensures t.Branch? ==> LeadsToNode(t, deepest) && |deepest| == MaxDepth(t)
    ensures t.Leaf? ==> MaxDepth(t) == -1
  {
    deepest := [];
    if t.Branch? {
      var l := MaxDepthIsDeepest(t.left);
      var r := MaxDepthIsDeepest(t.right);
      if t.left.Branch? && (t.right.Leaf? || |r| <= |l|) {
        deepest := Onward(t, ToLeft, l);
      } else if t.right.Branch? {
        deepest := Onward(t, ToRight, r);
      }
      forall turns | LeadsToNode(t, turns)
        ensures |turns| <= MaxDepth(t)
      {
        if turns != [] {
          assert LeadsToNode(if turns[0] == ToLeft then t.left else t.right, turns[1..]);
        }
      }
    }
  }

  lemma Onward(t: Tree, turn: Turn, turns: seq<Turn>) returns (longer: seq<Turn>)
    requires t.Branch?
    ensures |longer| == |turns| + 1
    ensures Subtree(t, longer) == Subtree(if turn == ToLeft then t.left else t.right, turns)
  {
    longer := [turn] + turns;
    assert longer[1..] == turns;
  }

  /** `MinDepth()` is one less than the number of edges to the nearest missing child. */
  lemma {:induction false} MinDepthIsNearest(t: Tree) returns (nearest: seq<Turn>)
    ensures forall turns :: LeadsToGap(t, turns) ==> MinDepth(t) + 1 <= |turns|
    ensures LeadsToGap(t, nearest) && |nearest| == MinDepth(t) + 1
  {
    nearest := [];
    if t.Branch? {
      var l := MinDepthIsNearest(t.left);
      var r := MinDepthIsNearest(t.right);
      if |l| <= |r| {
        nearest := Onward(t, ToLeft, l);
      } else {
        nearest := Onward(t, ToRight, r);
      }
      forall turns | LeadsToGap(t, turns)
        ensures MinDepth(t) + 1 <= |turns|
      {
        if turns != [] {
          assert LeadsToGap(if turns[0] == ToLeft then t.left else t.right, turns[1..]);
        }
      }
    }
  }

  lemma {:induction false} DepthsByBlackHeight(t: Tree)
    requires NoRedRed(t) && EvenlyBlack(t)
    ensures BlackHeight(t) <= NodeMinDepth(t)
    ensures NodeMaxDepth(t) <= 2 * BlackHeight(t) + (if IsRed(t) then 1 else 0)
  {
    match t
    case Leaf =>
    case Branch(l, _, c, r) =>
      DepthsByBlackHeight(l);
      DepthsByBlackHeight(r);
  }

  /** C++ integer division by two truncates toward zero. */
  function Half(n: int): int {
    if n < 0 then -((-n) / 2) else n / 2
  }

  /** `MaxDepth() / 2 <= MinDepth()` holds of every red-black tree except the empty one. */
  lemma DepthsAreClose(t: Tree)
    requires IsRedBlack(t)
    ensures Half(MaxDepth(t)) <= MinDepth(t) <==> t != Leaf
  {
    DepthsByBlackHeight(t);
  }

  // ---------------------------------------------------------------- any run of insertions

  function InsertedAll(keys: seq<int>): (t: Tree)
    ensures IsRedBlack(t)
  {
    if keys == [] then Leaf
    else
      var t := InsertedAll(keys[..|keys| - 1]);
      InsertedIsRedBlack(t, keys[|keys| - 1]);
      Inserted(t, keys[|keys| - 1])
  }

  lemma {:induction false} AnyInsertionsInOrder(keys: seq<int>)
    ensures Sorted(InOrder(InsertedAll(keys)))
    ensures multiset(InOrder(InsertedAll(keys))) == multiset(keys)
  {
    if keys != [] {
      var init, last := keys[..|keys| - 1], keys[|keys| - 1];
      AnyInsertionsInOrder(init);
      InsertedInOrder(InsertedAll(init), last);
      assert keys == init + [last];
    }
  }

  /** After any sequence of insertions, duplicates included: sorted, the same keys, balanced. */
  lemma AnyInsertions(keys: seq<int>)
    ensures IsRedBlack(InsertedAll(keys))
    ensures Sorted(InOrder(InsertedAll(keys)))
    ensures multiset(InOrder(InsertedAll(keys))) == multiset(keys)
    ensures keys != [] ==> Half(MaxDepth(InsertedAll(keys))) <= MinDepth(InsertedAll(keys))
  {
    AnyInsertionsInOrder(keys);
    DepthsAreClose(InsertedAll(keys));
    assert |multiset(keys)| == |keys|;
  }
}
