/** Disjoint sets as a forest of parent links in an array, with path compression. */
module DisjointSets {
  import opened Options

  type Relation = (nat, nat) -> bool

  ghost predicate IsEquivalence(r: Relation) {
    && (forall a: nat :: r(a, a))
    && (forall a: nat, b: nat :: r(a, b) ==> r(b, a))
    && (forall a: nat, b: nat, c: nat :: r(a, b) && r(b, c) ==> r(a, c))
  }

  ghost predicate Contains(r: Relation, pairs: set<(nat, nat)>) {
    forall a: nat, b: nat :: (a, b) in pairs ==> r(a, b)
  }

  /** The equivalence closure of `pairs`: what every equivalence that contains them relates. */
  ghost predicate Related(pairs: set<(nat, nat)>, a: nat, b: nat) {
    forall r: Relation :: IsEquivalence(r) && Contains(r, pairs) ==> r(a, b)
  }

  /** The closure is itself an equivalence that contains the pairs, hence the least one. */
  lemma RelatedIsEquivalence(pairs: set<(nat, nat)>)
    ensures IsEquivalence((a: nat, b: nat) => Related(pairs, a, b))
    ensures Contains((a: nat, b: nat) => Related(pairs, a, b), pairs)
  {
    forall a: nat, b: nat, c: nat | Related(pairs, a, b) && Related(pairs, b, c)
      ensures Related(pairs, a, c)
    {
      forall r: Relation | IsEquivalence(r) && Contains(r, pairs)
        ensures r(a, c)
      {
        assert r(a, b) && r(b, c);
      }
    }
  }

  /** Parent links without cycles: `rank` falls along every link. */
  ghost predicate Forest(p: seq<nat>, rank: seq<nat>) {
    && |rank| == |p|
    && (forall v :: 0 <= v < |p| ==> p[v] < |p|)
    && (forall v :: 0 <= v < |p| && p[v] != v ==> rank[p[v]] < rank[v])
  }

  ghost function Root(p: seq<nat>, rank: seq<nat>, v: nat): (r: nat)
    requires Forest(p, rank)
    ensures v < |p| ==> r < |p| && p[r] == r && (p[v] != v ==> rank[r] < rank[v])
    decreases if v < |p| then rank[v] else 0
  {
    if v < |p| && p[v] != v then Root(p, rank, p[v]) else v
  }

  /** `u` lies on the way from `v` to its root. */
  ghost predicate OnPath(p: seq<nat>, rank: seq<nat>, v: nat, u: nat)
    requires Forest(p, rank)
    decreases if v < |p| then rank[v] else 0
  {
    u == v || (v < |p| && p[v] != v && OnPath(p, rank, p[v], u))
  }

  lemma {:induction false} PathFalls(p: seq<nat>, rank: seq<nat>, v: nat, u: nat)
    requires Forest(p, rank) && OnPath(p, rank, v, u) && v < |p|
    ensures u < |p| && Root(p, rank, u) == Root(p, rank, v) && (u != v ==> rank[u] < rank[v])
    decreases rank[v]
  {
    if u != v {
      PathFalls(p, rank, p[v], u);
    }
  }

  /** Links replaced by links to the root leave a forest with the same roots. */
  lemma {:induction false} ShortcutsKeepRoots(p: seq<nat>, q: seq<nat>, rank: seq<nat>)
    requires Forest(p, rank) && |q| == |p|
    requires forall v :: 0 <= v < |p| ==> q[v] == p[v] || q[v] == Root(p, rank, v)
    ensures Forest(q, rank)
    ensures forall v: nat :: Root(q, rank, v) == Root(p, rank, v)
  {
    forall v: nat
      ensures Root(q, rank, v) == Root(p, rank, v)
    {
      ShortcutsKeepRoot(p, q, rank, v);
    }
  }

  lemma {:induction false} ShortcutsKeepRoot(p: seq<nat>, q: seq<nat>, rank: seq<nat>, v: nat)
    requires Forest(p, rank) && Forest(q, rank) && |q| == |p|
    requires forall u :: 0 <= u < |p| ==> q[u] == p[u] || q[u] == Root(p, rank, u)
    ensures Root(q, rank, v) == Root(p, rank, v)
    decreases if v < |p| then rank[v] else 0
  {
    if v < |p| && q[v] != v {
      ShortcutsKeepRoot(p, q, rank, q[v]);
    }
  }

  /** The ranks after the tree of root `b` has been hung below root `a`. */
  ghost function Raised(p: seq<nat>, rank: seq<nat>, a: nat, b: nat): (raised: seq<nat>)
    requires Forest(p, rank) && a < |p|
    ensures |raised| == |p|
  {
    seq(|p|, v requires 0 <= v < |p| => if Root(p, rank, v) == b then rank[v] + rank[a] + 1 else rank[v])
  }

  /** Hanging root `b` below root `a` gives the tree of `b` the root `a`, and no other tree a new root. */
  lemma {:induction false} LinkMergesTrees(p: seq<nat>, rank: seq<nat>, a: nat, b: nat)
    requires Forest(p, rank) && a < |p| && b < |p| && a != b && p[a] == a && p[b] == b
    ensures Forest(p[b := a], Raised(p, rank, a, b))
    ensures forall v: nat :: Root(p[b := a], Raised(p, rank, a, b), v) ==
              if Root(p, rank, v) == b then a else Root(p, rank, v)
  {
    forall v: nat
      ensures Root(p[b := a], Raised(p, rank, a, b), v) == if Root(p, rank, v) == b then a else Root(p, rank, v)
    {
      LinkMovesRoot(p, rank, a, b, v);
    }
  }

  lemma {:induction false} LinkMovesRoot(p: seq<nat>, rank: seq<nat>, a: nat, b: nat, v: nat)
    requires Forest(p, rank) && a < |p| && b < |p| && a != b && p[a] == a && p[b] == b
    requires Forest(p[b := a], Raised(p, rank, a, b))
    ensures Root(p[b := a], Raised(p, rank, a, b), v) == if Root(p, rank, v) == b then a else Root(p, rank, v)
    decreases if v < |p| then rank[v] else 0
  {
    if v < |p| && v != b && p[v] != v {
      LinkMovesRoot(p, rank, a, b, p[v]);
    }
  }

  /** Every link has been caused by the pairs, and every pair has led to a common root. */
  ghost predicate Represents(p: seq<nat>, rank: seq<nat>, pairs: set<(nat, nat)>)
    requires Forest(p, rank)
  {
    && (forall v :: 0 <= v < |p| ==> Related(pairs, v, p[v]))
    && (forall a: nat, b: nat :: (a, b) in pairs ==> Root(p, rank, a) == Root(p, rank, b))
  }

  lemma {:induction false} RelatedToRoot(p: seq<nat>, rank: seq<nat>, pairs: set<(nat, nat)>, v: nat, r: Relation)
    requires Forest(p, rank) && Represents(p, rank, pairs) && IsEquivalence(r) && Contains(r, pairs)
    ensures r(v, Root(p, rank, v))
    decreases if v < |p| then rank[v] else 0
  {
    if v < |p| && p[v] != v {
      RelatedToRoot(p, rank, pairs, p[v], r);
      assert Related(pairs, v, p[v]);
    }
  }

  /** Two vertices have a common root exactly when the equivalence closure of the pairs relates them. */
  lemma {:induction false} CommonRootIffRelated(p: seq<nat>, rank: seq<nat>, pairs: set<(nat, nat)>, a: nat, b: nat)
    requires Forest(p, rank) && Represents(p, rank, pairs)
    ensures Root(p, rank, a) == Root(p, rank, b) <==> Related(pairs, a, b)
  {
    var sameRoot: Relation := (x: nat, y: nat) => Root(p, rank, x) == Root(p, rank, y);
    assert IsEquivalence(sameRoot) && Contains(sameRoot, pairs);
    forall r: Relation | IsEquivalence(r) && Contains(r, pairs)
      ensures r(a, Root(p, rank, a)) && r(Root(p, rank, b), b)
    {
      RelatedToRoot(p, rank, pairs, a, r);
      RelatedToRoot(p, rank, pairs, b, r);
    }
  }

  lemma ShortcutsRepresent(p: seq<nat>, q: seq<nat>, rank: seq<nat>, pairs: set<(nat, nat)>)
    requires Forest(p, rank) && Represents(p, rank, pairs) && |q| == |p|
    requires forall v :: 0 <= v < |p| ==> q[v] == p[v] || q[v] == Root(p, rank, v)
    ensures Forest(q, rank) && Represents(q, rank, pairs)
    ensures forall v: nat :: Root(q, rank, v) == Root(p, rank, v)
  {
    ShortcutsKeepRoots(p, q, rank);
    forall v | 0 <= v < |p|
      ensures Related(pairs, v, q[v])
    {
      assert Related(pairs, v, p[v]);
      forall r: Relation | IsEquivalence(r) && Contains(r, pairs)
        ensures r(v, q[v])
      {
        RelatedToRoot(p, rank, pairs, v, r);
      }
    }
  }

  lemma LinkRepresents(p: seq<nat>, rank: seq<nat>, pairs: set<(nat, nat)>, v1: nat, v2: nat)
    requires Forest(p, rank) && Represents(p, rank, pairs) && v1 < |p| && v2 < |p|
    requires Root(p, rank, v1) != Root(p, rank, v2)
    ensures var a, b := Root(p, rank, v1), Root(p, rank, v2);
            Forest(p[b := a], Raised(p, rank, a, b)) &&
            Represents(p[b := a], Raised(p, rank, a, b), pairs + {(v1, v2)})
  {
    var a, b := Root(p, rank, v1), Root(p, rank, v2);
    LinkMergesTrees(p, rank, a, b);
    var q := p[b := a];
    forall v | 0 <= v < |p|
      ensures Related(pairs + {(v1, v2)}, v, q[v])
    {
      assert Related(pairs, v, p[v]);
      forall r: Relation | IsEquivalence(r) && Contains(r, pairs + {(v1, v2)})
        ensures r(v, q[v])
      {
        assert (v1, v2) in pairs + {(v1, v2)} && Contains(r, pairs);
        RelatedToRoot(p, rank, pairs, v1, r);
        RelatedToRoot(p, rank, pairs, v2, r);
        assert r(b, v2) && r(v2, v1) && r(v1, a);
      }
    }
  }

  /** A pair within one tree adds nothing. */
  lemma JoinedRepresents(p: seq<nat>, rank: seq<nat>, pairs: set<(nat, nat)>, v1: nat, v2: nat)
    requires Forest(p, rank) && Represents(p, rank, pairs) && Root(p, rank, v1) == Root(p, rank, v2)
    ensures Represents(p, rank, pairs + {(v1, v2)})
  {
    forall v | 0 <= v < |p|
      ensures Related(pairs + {(v1, v2)}, v, p[v])
    {
      assert Related(pairs, v, p[v]);
      assert forall r: Relation :: Contains(r, pairs + {(v1, v2)}) ==> Contains(r, pairs);
    }
  }

  /** Some way from one of `starts` passes `u`. */
  ghost predicate Passed(p: seq<nat>, rank: seq<nat>, starts: set<nat>, u: nat)
    requires Forest(p, rank)
  {
    exists v: nat :: v in starts && OnPath(p, rank, v, u)
  }

  /** The links `q` that are left of `p` by searches from `starts`: the vertices passed link to their roots. */
  ghost predicate Compressed(p: seq<nat>, rank: seq<nat>, starts: set<nat>, q: seq<nat>)
    requires Forest(p, rank)
  {
    && |q| == |p|
    && forall u :: 0 <= u < |p| ==> q[u] == if Passed(p, rank, starts, u) then Root(p, rank, u) else p[u]
  }

  lemma {:induction false} OnPathTransitive(p: seq<nat>, rank: seq<nat>, a: nat, b: nat, c: nat)
    requires Forest(p, rank) && OnPath(p, rank, a, b) && OnPath(p, rank, b, c)
    ensures OnPath(p, rank, a, c)
    decreases if a < |p| then rank[a] else 0
  {
    if a != b {
      OnPathTransitive(p, rank, p[a], b, c);
    }
  }

  lemma {:induction false} RootOnPath(p: seq<nat>, rank: seq<nat>, v: nat)
    requires Forest(p, rank)
    ensures OnPath(p, rank, v, Root(p, rank, v))
    decreases if v < |p| then rank[v] else 0
  {
    if v < |p| && p[v] != v {
      RootOnPath(p, rank, p[v]);
    }
  }

  /** A way in the compressed forest leaves out passed vertices only. */
  lemma {:induction false} CompressedPath(
    p: seq<nat>, rank: seq<nat>, starts: set<nat>, q: seq<nat>, v: nat, u: nat)
    requires Forest(p, rank) && Forest(q, rank) && Compressed(p, rank, starts, q)
    ensures OnPath(q, rank, v, u) ==> OnPath(p, rank, v, u)
    ensures OnPath(p, rank, v, u) ==> OnPath(q, rank, v, u) || Passed(p, rank, starts, u)
    decreases if v < |p| then rank[v] else 0
  {
    if v < |p| && p[v] != v && v != u {
      CompressedPath(p, rank, starts, q, q[v], u);
      if Passed(p, rank, starts, v) {
        RootOnPath(p, rank, v);
        var w: nat :| w in starts && OnPath(p, rank, w, v);
        if OnPath(p, rank, v, u) {
          OnPathTransitive(p, rank, w, v, u);
        }
      }
    }
  }

  /** One search after others compresses what they all pass. */
  lemma {:induction false} CompressedAgain(
    p: seq<nat>, rank: seq<nat>, starts: set<nat>, q: seq<nat>, v: nat, r: seq<nat>)
    requires Forest(p, rank) && Forest(q, rank)
    requires Compressed(p, rank, starts, q) && Compressed(q, rank, {v}, r)
    ensures Compressed(p, rank, starts + {v}, r)
  {
    ShortcutsKeepRoots(p, q, rank);
    forall u | 0 <= u < |p|
      ensures r[u] == if Passed(p, rank, starts + {v}, u) then Root(p, rank, u) else p[u]
    {
      CompressedPath(p, rank, starts, q, v, u);
      assert Passed(q, rank, {v}, u) <==> OnPath(q, rank, v, u);
      assert Passed(p, rank, starts + {v}, u) <==> Passed(p, rank, starts, u) || OnPath(p, rank, v, u);
    }
  }

  /** Searching again compresses nothing more. */
  lemma SameSearches(
    p: seq<nat>, rank: seq<nat>, q: seq<nat>, v1: nat, twice: seq<nat>, v2: nat, r: seq<nat>)
    requires Forest(p, rank) && Forest(q, rank) && Forest(twice, rank)
    requires Compressed(p, rank, {v1, v2}, q) && Compressed(q, rank, {v1}, twice)
    requires Compressed(twice, rank, {v2}, r)
    ensures Compressed(p, rank, {v1, v2}, r)
  {
    CompressedAgain(p, rank, {v1, v2}, q, v1, twice);
    CompressedAgain(p, rank, {v1, v2} + {v1}, twice, v2, r);
    assert {v1, v2} + {v1} + {v2} == {v1, v2};
  }

  /** The link between the roots, made after searches that have left the links `before` of `p`. */
  lemma LinkJoins(p: seq<nat>, before: seq<nat>, rank: seq<nat>, pairs: set<(nat, nat)>, v1: nat, v2: nat)
    requires Forest(p, rank) && v1 < |p| && v2 < |p| && Root(p, rank, v1) != Root(p, rank, v2)
    requires Compressed(p, rank, {v1, v2}, before) && Forest(before, rank) && Represents(before, rank, pairs)
    ensures var a, b := Root(p, rank, v1), Root(p, rank, v2);
            var q, raised := before[b := a], Raised(before, rank, a, b);
            && Forest(q, raised) && Represents(q, raised, pairs + {(v1, v2)})
            && (forall v: nat :: Root(q, raised, v) == if Root(p, rank, v) == b then a else Root(p, rank, v))
            && Compressed(p, rank, {v1, v2}, q[b := b])
  {
    ShortcutsKeepRoots(p, before, rank);
    var a, b := Root(p, rank, v1), Root(p, rank, v2);
    LinkMergesTrees(before, rank, a, b);
    LinkRepresents(before, rank, pairs, v1, v2);
    assert before[b := a][b := b] == before;
  }

  class DisjointSet {
    const parentVertex: array<nat>
    ghost var rank: seq<nat>
    /** The pairs united so far. */
    ghost var pairs: set<(nat, nat)>

    ghost predicate Valid()
      reads this, parentVertex
    {
      Forest(parentVertex[..], rank) && Represents(parentVertex[..], rank, pairs)
    }

    ghost function RootOf(v: nat): nat
      reads this, parentVertex
      requires Valid()
    {
      Root(parentVertex[..], rank, v)
    }

    constructor (sizeSet: nat)
      ensures Valid() && fresh(parentVertex) && parentVertex.Length == sizeSet && pairs == {}
      ensures forall v: nat :: RootOf(v) == v
    {
      parentVertex := new nat[sizeSet](v => v);
      rank := seq(sizeSet, v => 0);
      pairs := {};
    }

    method Find(start: nat) returns (root: Option<nat>)
      requires Valid()
      modifies parentVertex
      ensures Valid() && (forall v: nat :: RootOf(v) == old(RootOf(v)))
      ensures root == if start < parentVertex.Length then Some(old(RootOf(start))) else None
      ensures Compressed(old(parentVertex[..]), rank, {start}, parentVertex[..])
    {
      if start >= parentVertex.Length {
        return None;
      }
      ghost var before := parentVertex[..];
      var vertex := start;
      var parent := parentVertex[vertex];
      while parent != vertex
        invariant vertex < parentVertex.Length && parent == parentVertex[vertex]
        invariant Root(before, rank, vertex) == Root(before, rank, start)
        decreases rank[vertex]
      {
        vertex := parent;
        parent := parentVertex[vertex];
      }
      vertex := start;
      var oldParent := parentVertex[vertex];
      while oldParent != parent
        invariant vertex < parentVertex.Length && OnPath(before, rank, start, vertex)
        invariant oldParent == before[vertex]
        invariant forall u :: 0 <= u < parentVertex.Length ==>
          parentVertex[u] ==
          if OnPath(before, rank, start, u) && !OnPath(before, rank, vertex, u) then parent else before[u]
        decreases rank[vertex]
      {
        PathFalls(before, rank, start, vertex);
        PathStep(before, rank, start, vertex);
        parentVertex[vertex] := parent;
        vertex := oldParent;
        oldParent := parentVertex[vertex];
      }
      PathEnd(before, rank, start, vertex, parent);
      forall u | 0 <= u < |before| && OnPath(before, rank, start, u)
        ensures Root(before, rank, u) == parent
      {
        PathFalls(before, rank, start, u);
      }
      assert forall u: nat :: Passed(before, rank, {start}, u) <==> OnPath(before, rank, start, u);
      ShortcutsRepresent(before, parentVertex[..], rank, pairs);
      return Some(parent);
    }

    method IsConnected(vertex1: nat, vertex2: nat) returns (connected: Option<bool>)
      requires Valid()
      modifies parentVertex
      ensures Valid() && (forall v: nat :: RootOf(v) == old(RootOf(v)))
      ensures connected == None <==> vertex1 >= parentVertex.Length || vertex2 >= parentVertex.Length
      ensures connected.Some? ==> (connected.value <==> Related(pairs, vertex1, vertex2))
      ensures Compressed(old(parentVertex[..]), rank,
                         if vertex1 < parentVertex.Length then {vertex1, vertex2} else {}, parentVertex[..])
    {
      ghost var before := parentVertex[..];
      var root1 := Find(vertex1);
      if root1 == None {
        return None;
      }
      ghost var between := parentVertex[..];
      var root2 := Find(vertex2);
      CompressedAgain(before, rank, {vertex1}, between, vertex2, parentVertex[..]);
      assert {vertex1} + {vertex2} == {vertex1, vertex2};
      if root2 == None {
        return None;
      }
      CommonRootIffRelated(parentVertex[..], rank, pairs, vertex1, vertex2);
      return Some(root1 == root2);
    }

    method Union(vertex1: nat, vertex2: nat) returns (done: bool)
      requires Valid()
      modifies this, parentVertex
      ensures Valid()
      ensures done <==> vertex1 < parentVertex.Length && vertex2 < parentVertex.Length
      ensures pairs == if done then old(pairs) + {(vertex1, vertex2)} else old(pairs)
      ensures !done ==> forall v: nat :: RootOf(v) == old(RootOf(v))
      ensures done ==> forall v: nat ::
                RootOf(v) == if old(RootOf(v) == RootOf(vertex2)) then old(RootOf(vertex1)) else old(RootOf(v))
      ensures done ==> var root1, root2 := old(RootOf(vertex1)), old(RootOf(vertex2));
                       && parentVertex[root2] == root1
                       && Compressed(old(parentVertex[..]), old(rank), {vertex1, vertex2},
                                     parentVertex[..][root2 := root2])
      ensures !done ==> Compressed(old(parentVertex[..]), old(rank),
                                   if vertex1 < parentVertex.Length then {vertex1, vertex2} else {},
                                   parentVertex[..])
    {
      ghost var start := parentVertex[..];
      var connected := IsConnected(vertex1, vertex2);
      if connected == None {
        return false;
      }
      if !connected.value {
        ghost var once := parentVertex[..];
        var parent1 := Find(vertex1);
        ghost var twice := parentVertex[..];
        var parent2 := Find(vertex2);
        SameSearches(start, rank, once, vertex1, twice, vertex2, parentVertex[..]);
        CommonRootIffRelated(start, rank, pairs, vertex1, vertex2);
        ghost var before := parentVertex[..];
        LinkJoins(start, before, rank, pairs, vertex1, vertex2);
        parentVertex[parent2.value] := parent1.value;
        rank := Raised(before, rank, parent1.value, parent2.value);
        assert parentVertex[..] == before[parent2.value := parent1.value];
      } else {
        CommonRootIffRelated(parentVertex[..], rank, pairs, vertex1, vertex2);
        JoinedRepresents(parentVertex[..], rank, pairs, vertex1, vertex2);
      }
      pairs := pairs + {(vertex1, vertex2)};
      return true;
    }
  }

  /** One step along the path leaves one vertex behind. */
  lemma {:induction false} PathStep(p: seq<nat>, rank: seq<nat>, start: nat, v: nat)
    requires Forest(p, rank) && start < |p| && OnPath(p, rank, start, v) && v < |p| && p[v] != v
    ensures OnPath(p, rank, start, p[v])
    ensures forall u: nat :: OnPath(p, rank, p[v], u) <==> OnPath(p, rank, v, u) && u != v
    decreases rank[start]
  {
    if OnPath(p, rank, p[v], v) {
      PathFalls(p, rank, p[v], v);
    }
    if start != v {
      PathStep(p, rank, p[start], v);
    }
  }

  /** From a vertex that links to the root there is nothing left to compress. */
  lemma PathEnd(p: seq<nat>, rank: seq<nat>, start: nat, v: nat, root: nat)
    requires Forest(p, rank) && v < |p| && p[v] == root && Root(p, rank, v) == root
    ensures forall u: nat :: OnPath(p, rank, v, u) ==> u < |p| && p[u] == root
  {
    assert p[root] == root;
    assert forall u: nat :: OnPath(p, rank, root, u) <==> u == root;
  }
}
