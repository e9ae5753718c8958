/** The Held-Karp dynamic program: cost and tour of a cheapest Hamiltonian cycle. Costs are mathematical
    integers apart from the sentinel `INT_MAX`, which the cheapest costs may not exceed. */
module HeldKarp {
  import opened Bits
  import opened Combinations
  import opened Options
  import opened Counting

  type Matrix = seq<seq<int>>

  ghost predicate Square(c: Matrix) {
    forall i :: 0 <= i < |c| ==> |c[i]| == |c|
  }

  /** The sum of the edges along `p`. */
  ghost function Cost(c: Matrix, p: seq<nat>): int
    requires Square(c) && forall i :: 0 <= i < |p| ==> p[i] < |c|
  {
    if |p| <= 1 then 0 else Cost(c, p[..|p| - 1]) + c[p[|p| - 2]][p[|p| - 1]]
  }

  ghost predicate Nodes(c: Matrix, p: seq<nat>) {
    forall i :: 0 <= i < |p| ==> p[i] < |c|
  }

  ghost predicate Distinct(p: seq<nat>) {
    forall i, j :: 0 <= i < j < |p| ==> p[i] != p[j]
  }

  /** `p` visits exactly the nodes of the mask `s`. */
  ghost predicate Covers(p: seq<nat>, s: nat) {
    forall i: nat :: i in p <==> Bit(s, i)
  }

  /** A path from `start` to `v` that visits every node of `s` once and no other. */
  ghost predicate IsPath(c: Matrix, start: nat, v: nat, s: nat, p: seq<nat>) {
    p != [] && p[0] == start && p[|p| - 1] == v && Nodes(c, p) && Distinct(p) && Covers(p, s)
  }

  /** `d` is the cost of a cheapest such path. */
  ghost predicate Best(c: Matrix, start: nat, v: nat, s: nat, d: int)
    requires Square(c)
  {
    && (exists p :: IsPath(c, start, v, s, p) && Cost(c, p) == d)
    && (forall p :: IsPath(c, start, v, s, p) ==> d <= Cost(c, p))
  }

  /** A Hamiltonian cycle through `start`. */
  ghost predicate IsTour(c: Matrix, start: nat, t: seq<nat>) {
    && |t| == |c| + 1 && t[0] == start && t[|c|] == start && Nodes(c, t)
    && Distinct(t[..|c|]) && Covers(t[..|c|], Full(|c|))
  }

  /** The sentinel, with which every minimum begins, does not undercut the cheapest costs: those of the paths
      that the table holds and that of the tour. */
  ghost predicate Fits(c: Matrix, start: nat)
    requires Square(c)
  {
    && (forall v: nat, s: nat :: Entry(c, start, v, s) && 3 <= Count(s) ==>
          exists p :: IsPath(c, start, v, s, p) && Cost(c, p) <= INT_MAX)
    && (2 <= |c| ==> exists t :: IsTour(c, start, t) && Cost(c, t) <= INT_MAX)
  }

  // ---------------------------------------------------------------- paths

  lemma {:induction false} PathLength(c: Matrix, p: seq<nat>, s: nat)
    requires Nodes(c, p) && Distinct(p) && Covers(p, s)
    ensures |p| == Count(s)
  {
    if p == [] {
      NoBits(s);
    } else {
      var v := p[|p| - 1];
      var q := p[..|p| - 1];
      assert p == q + [v];
      assert v in p;
      XorPow2(s, v);
      CoversInit(q, v, s);
      PathLength(c, q, Xor(s, Pow2(v)));
    }
  }

  /** A longer path ends with an edge from a shorter one. */
  lemma PathInit(c: Matrix, start: nat, v: nat, s: nat, p: seq<nat>) returns (e: nat)
    requires Square(c) && IsPath(c, start, v, s, p) && 3 <= Count(s)
    ensures e != start && e != v && e < |c| && Bit(s, e) && Bit(s, v) && v < |c|
    ensures IsPath(c, start, e, Xor(s, Pow2(v)), p[..|p| - 1])
    ensures Cost(c, p) == Cost(c, p[..|p| - 1]) + c[e][v]
  {
    PathLength(c, p, s);
    var q := p[..|p| - 1];
    e := q[|q| - 1];
    assert p == q + [v];
    assert e in p && v in p;
    CoversInit(q, v, s);
  }

  lemma CoversInit(q: seq<nat>, v: nat, s: nat)
    requires Covers(q + [v], s) && v !in q
    ensures Covers(q, Xor(s, Pow2(v)))
  {
    assert v in q + [v];
    XorPow2(s, v);
    forall i: nat
      ensures i in q <==> Bit(Xor(s, Pow2(v)), i)
    {
      assert i in q + [v] <==> i in q || i == v;
    }
  }

  lemma PathExtend(c: Matrix, start: nat, e: nat, v: nat, s: nat, q: seq<nat>)
    requires Square(c) && Bit(s, v) && v < |c| && e < |c| && IsPath(c, start, e, Xor(s, Pow2(v)), q)
    ensures IsPath(c, start, v, s, q + [v])
    ensures Cost(c, q + [v]) == Cost(c, q) + c[e][v]
  {
    var p := q + [v];
    XorPow2(s, v);
    assert p[..|p| - 1] == q;
    forall i: nat
      ensures i in p <==> Bit(s, i)
    {
      assert i in p <==> i in q || i == v;
    }
    assert v !in q;
  }

  /** The recurrence of the dynamic program. */
  lemma BestStep(c: Matrix, start: nat, v: nat, s: nat, d: int, e: nat, best: nat -> int)
    requires Square(c) && 3 <= Count(s) && Bit(s, v) && v < |c| && v != start
    requires forall k: nat :: Between(c, start, v, s, k) ==> Best(c, start, k, Xor(s, Pow2(v)), best(k))
    requires Between(c, start, v, s, e) && d == best(e) + c[e][v]
    requires forall k: nat :: Between(c, start, v, s, k) ==> d <= best(k) + c[k][v]
    ensures Best(c, start, v, s, d)
  {
    var q :| IsPath(c, start, e, Xor(s, Pow2(v)), q) && Cost(c, q) == best(e);
    PathExtend(c, start, e, v, s, q);
    forall p | IsPath(c, start, v, s, p)
      ensures d <= Cost(c, p)
    {
      var k := PathInit(c, start, v, s, p);
      assert Between(c, start, v, s, k);
    }
  }

  /** The nodes that may come just before `v` on a path through `s`. */
  predicate Between(c: Matrix, start: nat, v: nat, s: nat, e: nat) {
    e < |c| && e != start && e != v && Bit(s, e)
  }

  lemma PairPath(c: Matrix, start: nat, v: nat, s: nat, q: seq<nat>)
    requires start < |c| && v < |c| && v != start
    requires forall k: nat :: Bit(s, k) <==> k == start || k == v
    requires Count(s) == 2
    ensures IsPath(c, start, v, s, q) <==> q == [start, v]
  {
    if IsPath(c, start, v, s, q) {
      PathLength(c, q, s);
    }
  }

  lemma BestPair(c: Matrix, start: nat, v: nat)
    requires Square(c) && start < |c| && v < |c| && v != start
    ensures Best(c, start, v, Or(Pow2(start), Pow2(v)), c[start][v])
  {
    var s := Or(Pow2(start), Pow2(v));
    OrPow2(start, v, |c|);
    forall q
      ensures IsPath(c, start, v, s, q) <==> q == [start, v]
    {
      PairPath(c, start, v, s, q);
    }
    var p := [start, v];
    assert p[..1] == [start];
    assert Cost(c, p) == c[start][v];
  }

  // ---------------------------------------------------------------- filling the table

  predicate NotIn(node: nat, subset: nat) {
    And(Pow2(node), subset) == 0
  }

  /** The subsets the program fills in for the end node `v`. */
  predicate Entry(c: Matrix, start: nat, v: nat, s: nat) {
    s < Pow2(|c|) && Bit(s, start) && v < |c| && v != start && Bit(s, v)
  }

  ghost predicate Sized(c: Matrix, memo: array2<int>) {
    memo.Length0 == |c| && memo.Length1 == Pow2(|c|)
  }

  /** The contents of `memo`, by end node and subset. */
  type Table = map<(nat, nat), int>

  ghost predicate Domain(c: Matrix, t: Table) {
    forall v: nat, s: nat :: (v, s) in t <==> v < |c| && s < Pow2(|c|)
  }

  ghost function Contents(c: Matrix, memo: array2<int>): (t: Table)
    requires Sized(c, memo)
    reads memo
    ensures Domain(c, t)
    ensures forall v: nat, s: nat :: v < |c| && s < Pow2(|c|) ==> t[(v, s)] == memo[v, s]
  {
    map v: nat, s: nat | v < |c| && s < Pow2(|c|) :: (v, s) := memo[v, s]
  }

  ghost predicate EntryOk(c: Matrix, start: nat, t: Table, v: nat, s: nat)
    requires Square(c)
  {
    (v, s) in t && Best(c, start, v, s, t[(v, s)])
  }

  /** Entries for subsets of fewer than `r` nodes hold the cheapest cost. */
  ghost predicate FilledBelow(c: Matrix, start: nat, t: Table, r: nat)
    requires Square(c)
  {
    forall v: nat, s: nat :: Entry(c, start, v, s) && 2 <= Count(s) < r ==> EntryOk(c, start, t, v, s)
  }

  /** Entries for `s` with an end node below `next`. */
  ghost predicate FilledRow(c: Matrix, start: nat, t: Table, s: nat, next: nat)
    requires Square(c)
  {
    forall v: nat :: v < next && Entry(c, start, v, s) ==> EntryOk(c, start, t, v, s)
  }

  /** `t'` differs from `t` only in the entries of `subset`. */
  ghost predicate OnlyRow(t: Table, t': Table, subset: nat) {
    forall v: nat, s: nat :: (v, s) in t && s != subset ==> (v, s) in t' && t'[(v, s)] == t[(v, s)]
  }

  /** The pairs of `start` with a node below `node` hold the cost of their edge. */
  ghost predicate PairsSet(c: Matrix, start: nat, t: Table, node: nat)
    requires Square(c) && start < |c|
  {
    forall v: nat :: v < node && v < |c| && v != start ==>
      (v, Or(Pow2(start), Pow2(v))) in t && t[(v, Or(Pow2(start), Pow2(v)))] == c[start][v]
  }

  lemma PairsFill(c: Matrix, start: nat, t: Table)
    requires Square(c) && start < |c| && PairsSet(c, start, t, |c|)
    ensures FilledBelow(c, start, t, 3)
  {
    forall v: nat, s: nat | Entry(c, start, v, s) && 2 <= Count(s) < 3
      ensures EntryOk(c, start, t, v, s)
    {
      PairMask(start, v, s, |c|);
      BestPair(c, start, v);
    }
  }

  lemma PairsStep(c: Matrix, start: nat, t: Table, node: nat)
    requires Square(c) && start < |c| && node < |c| && PairsSet(c, start, t, node)
    ensures node == start ==> PairsSet(c, start, t, node + 1)
    ensures node != start ==>
              PairsSet(c, start, t[(node, Or(Pow2(start), Pow2(node))) := c[start][node]], node + 1)
  {
  }

  method Setup(c: Matrix, memo: array2<int>, start: nat)
    requires Square(c) && Sized(c, memo) && start < |c|
    modifies memo
    ensures FilledBelow(c, start, Contents(c, memo), 3)
  {
    for node := 0 to |c|
      invariant PairsSet(c, start, Contents(c, memo), node)
    {
      PairsStep(c, start, Contents(c, memo), node);
      if node != start {
        OrPow2(start, node, |c|);
        SetEntry(c, memo, node, Or(Pow2(start), Pow2(node)), c[start][node]);
      }
    }
    PairsFill(c, start, Contents(c, memo));
  }

  lemma PairMask(i: nat, j: nat, s: nat, n: nat)
    requires i != j && i < n && j < n && Bit(s, i) && Bit(s, j) && Count(s) == 2
    ensures s == Or(Pow2(i), Pow2(j))
  {
    XorPow2(s, i);
    var u := Xor(s, Pow2(i));
    XorPow2(u, j);
    CountZero(Xor(u, Pow2(j)));
    OrPow2(i, j, n);
  }

  lemma {:induction false} CountZero(s: nat)
    requires Count(s) == 0
    ensures s == 0
  {
    if s != 0 {
      CountZero(s / 2);
    }
  }

  /** `d` is the least cost, capped by the sentinel, of entering `v` from a node below `e` of `s`, with the
      cost so far read from the entries of `from`; `k` attains it, or is `start` while nothing does. */
  ghost predicate Least(
    c: Matrix, t: Table, start: nat, v: nat, s: nat, from: nat, e: nat, d: int, k: nat)
    requires Square(c) && v < |c|
  {
    && (forall i: nat :: i < e && Between(c, start, v, s, i) && (i, from) in t ==> d <= t[(i, from)] + c[i][v])
    && (k == start ==> d == INT_MAX)
    && (k != start ==> Between(c, start, v, s, k) && (k, from) in t && d == t[(k, from)] + c[k][v])
  }

  /** One turn of the two minimum loops. */
  lemma LeastStep(
    c: Matrix, t: Table, start: nat, v: nat, s: nat, from: nat, e: nat, d: int, k: nat, cost: int)
    requires Square(c) && v < |c| && e < |c| && Least(c, t, start, v, s, from, e, d, k)
    requires (e, from) in t && cost == t[(e, from)] + c[e][v]
    ensures Between(c, start, v, s, e) && cost < d ==> Least(c, t, start, v, s, from, e + 1, cost, e)
    ensures !Between(c, start, v, s, e) || d <= cost ==> Least(c, t, start, v, s, from, e + 1, d, k)
  {
  }

  /** The innermost loop: the cheapest way to enter `next` last. */
  method MinDistance(c: Matrix, memo: array2<int>, start: nat, subset: nat, next: nat) returns (minDist: int)
    requires Square(c) && Fits(c, start) && Sized(c, memo) && start < |c|
    requires 3 <= Count(subset) && Entry(c, start, next, subset)
    requires FilledBelow(c, start, Contents(c, memo), Count(subset))
    ensures Best(c, start, next, subset, minDist)
  {
    ghost var t := Contents(c, memo);
    ghost var k: nat;
    minDist, k := DistanceLoop(c, memo, start, subset, next);
    XorPow2(subset, next);
    MinDistanceBest(c, t, start, subset, next, minDist, k);
  }

  method DistanceLoop(c: Matrix, memo: array2<int>, start: nat, subset: nat, next: nat)
    returns (minDist: int, ghost k: nat)
    requires Square(c) && Sized(c, memo) && Entry(c, start, next, subset)
    ensures Least(c, Contents(c, memo), start, next, subset, Xor(subset, Pow2(next)), |c|, minDist, k)
  {
    var subsetWithoutNext := Xor(subset, Pow2(next));
    XorPow2(subset, next);
    ghost var t := Contents(c, memo);
    minDist, k := INT_MAX, start;
    for e := 0 to |c|
      invariant Least(c, t, start, next, subset, subsetWithoutNext, e, minDist, k)
    {
      LeastStep(c, t, start, next, subset, subsetWithoutNext, e, minDist, k, t[(e, subsetWithoutNext)] + c[e][next]);
      AndPow2(e, subset);
      if e == start || e == next || NotIn(e, subset) {
        continue;
      }
      var newDist := memo[e, subsetWithoutNext] + c[e][next];
      if newDist < minDist {
        k := e;
      }
      minDist := if newDist < minDist then newDist else minDist;
    }
  }

  /** The loop's minimum is attained, also when it equals the sentinel. */
  lemma MinDistanceBest(c: Matrix, t: Table, start: nat, subset: nat, next: nat, minDist: int, from: nat)
    requires Square(c) && start < |c|
    requires exists p :: IsPath(c, start, next, subset, p) && Cost(c, p) <= INT_MAX
    requires 3 <= Count(subset) && Entry(c, start, next, subset) && Xor(subset, Pow2(next)) < Pow2(|c|)
    requires FilledBelow(c, start, t, Count(subset))
    requires Domain(c, t)
    requires forall k: nat :: Between(c, start, next, subset, k) ==>
               minDist <= t[(k, Xor(subset, Pow2(next)))] + c[k][next]
    requires from != start ==> Between(c, start, next, subset, from) &&
                               minDist == t[(from, Xor(subset, Pow2(next)))] + c[from][next]
    requires from == start ==> minDist == INT_MAX
    ensures Best(c, start, next, subset, minDist)
  {
    var without := Xor(subset, Pow2(next));
    XorPow2(subset, next);
    var best := map k: nat | k < |c| :: t[(k, without)];
    var e := from;
    if from == start {
      var p :| IsPath(c, start, next, subset, p) && Cost(c, p) <= INT_MAX;
      e := PathInit(c, start, next, subset, p);
      assert EntryOk(c, start, t, e, without);
    }
    forall k: nat | Between(c, start, next, subset, k)
      ensures Best(c, start, k, without, best[k])
    {
      assert EntryOk(c, start, t, k, without);
    }
    BestStep(c, start, next, subset, minDist, e, k => if k in best then best[k] else 0);
  }

  /** Writing entries of a subset of `r` nodes leaves the smaller subsets alone. */
  lemma SmallerKept(c: Matrix, start: nat, t: Table, t': Table, r: nat, subset: nat)
    requires Square(c) && Count(subset) == r && FilledBelow(c, start, t, r) && OnlyRow(t, t', subset)
    ensures FilledBelow(c, start, t', r)
  {
    forall v: nat, s: nat | Entry(c, start, v, s) && 2 <= Count(s) < r
      ensures EntryOk(c, start, t', v, s)
    {
      assert EntryOk(c, start, t, v, s);
    }
  }

  /** Other subsets stay filled. */
  lemma RowKept(c: Matrix, start: nat, t: Table, t': Table, s: nat, subset: nat)
    requires Square(c) && s != subset && FilledRow(c, start, t, s, |c|) && OnlyRow(t, t', subset)
    ensures FilledRow(c, start, t', s, |c|)
  {
    forall v: nat | v < |c| && Entry(c, start, v, s)
      ensures EntryOk(c, start, t', v, s)
    {
      assert EntryOk(c, start, t, v, s);
    }
  }

  /** The row of `subset` is filled below `next`, and nothing else has changed since `first`. */
  ghost predicate RowState(c: Matrix, start: nat, first: Table, t: Table, subset: nat, next: nat)
    requires Square(c)
  {
    FilledBelow(c, start, first, Count(subset)) && FilledRow(c, start, t, subset, next) && OnlyRow(first, t, subset)
  }

  lemma RowSkips(c: Matrix, start: nat, first: Table, t: Table, subset: nat, next: nat)
    requires Square(c) && RowState(c, start, first, t, subset, next) && !Entry(c, start, next, subset)
    ensures RowState(c, start, first, t, subset, next + 1)
  {
  }

  lemma RowGrows(c: Matrix, start: nat, first: Table, t: Table, subset: nat, next: nat, d: int)
    requires Square(c) && RowState(c, start, first, t, subset, next) && Best(c, start, next, subset, d)
    ensures RowState(c, start, first, t[(next, subset) := d], subset, next + 1)
  {
    var t' := t[(next, subset) := d];
    forall v: nat | v < next + 1 && Entry(c, start, v, subset)
      ensures EntryOk(c, start, t', v, subset)
    {
      assert v < next ==> EntryOk(c, start, t, v, subset);
    }
  }

  /** The entries of one subset. */
  method SolveSubset(c: Matrix, memo: array2<int>, start: nat, subset: nat)
    requires Square(c) && Fits(c, start) && Sized(c, memo) && start < |c|
    requires 3 <= Count(subset) && subset < Pow2(|c|) && Bit(subset, start)
    requires FilledBelow(c, start, Contents(c, memo), Count(subset))
    modifies memo
    ensures FilledRow(c, start, Contents(c, memo), subset, |c|)
    ensures OnlyRow(old(Contents(c, memo)), Contents(c, memo), subset)
  {
    ghost var first := Contents(c, memo);
    for next := 0 to |c|
      invariant RowState(c, start, first, Contents(c, memo), subset, next)
    {
      AndPow2(next, subset);
      if next == start || NotIn(next, subset) {
        RowSkips(c, start, first, Contents(c, memo), subset, next);
        continue;
      }
      SmallerKept(c, start, first, Contents(c, memo), Count(subset), subset);
      var minDist := MinDistance(c, memo, start, subset, next);
      RowGrows(c, start, first, Contents(c, memo), subset, next, minDist);
      SetEntry(c, memo, next, subset, minDist);
    }
  }

  method SetEntry(c: Matrix, memo: array2<int>, v: nat, s: nat, d: int)
    requires Sized(c, memo) && v < |c| && s < Pow2(|c|)
    modifies memo
    ensures Contents(c, memo) == old(Contents(c, memo))[(v, s) := d]
  {
    memo[v, s] := d;
  }

  /** The rows filled before are kept while the next one is filled. */
  lemma RowsKept(c: Matrix, start: nat, t: Table, t': Table, subsets: seq<nat>, i: nat)
    requires Square(c) && i < |subsets| && OnlyRow(t, t', subsets[i])
    requires forall k, l :: 0 <= k < l < |subsets| ==> subsets[k] < subsets[l]
    requires forall k :: 0 <= k < i && Bit(subsets[k], start) ==> FilledRow(c, start, t, subsets[k], |c|)
    ensures forall k :: 0 <= k < i && Bit(subsets[k], start) ==> FilledRow(c, start, t', subsets[k], |c|)
  {
    forall k | 0 <= k < i && Bit(subsets[k], start)
      ensures FilledRow(c, start, t', subsets[k], |c|)
    {
      RowKept(c, start, t, t', subsets[k], subsets[i]);
    }
  }

  /** All subsets of `r` nodes; false stands for the exception of `std::stoi`. */
  method SolveLayer(c: Matrix, memo: array2<int>, start: nat, r: nat) returns (done: bool)
    requires Square(c) && Fits(c, start) && Sized(c, memo) && start < |c| && 3 <= r <= |c|
    requires FilledBelow(c, start, Contents(c, memo), r)
    modifies memo
    ensures done <==> |c| <= 10
    ensures done ==> FilledBelow(c, start, Contents(c, memo), r + 1)
  {
    var combinations := CombinationsOf(r, |c|);
    if combinations == None {
      return false;
    }
    var subsets := combinations.value;
    for i := 0 to |subsets|
      invariant FilledBelow(c, start, Contents(c, memo), r)
      invariant forall k :: 0 <= k < i && Bit(subsets[k], start) ==>
                  FilledRow(c, start, Contents(c, memo), subsets[k], |c|)
    {
      var subset := subsets[i];
      assert subset in subsets;
      AndPow2(start, subset);
      if NotIn(start, subset) {
        continue;
      }
      ghost var before := Contents(c, memo);
      SolveSubset(c, memo, start, subset);
      SmallerKept(c, start, before, Contents(c, memo), r, subset);
      RowsKept(c, start, before, Contents(c, memo), subsets, i);
    }
    LayerFilled(c, start, Contents(c, memo), r, subsets);
    return true;
  }

  lemma LayerFilled(c: Matrix, start: nat, t: Table, r: nat, subsets: seq<nat>)
    requires Square(c) && FilledBelow(c, start, t, r)
    requires forall x: nat :: x in subsets <==> Chosen(x, r, |c|)
    requires forall k :: 0 <= k < |subsets| && Bit(subsets[k], start) ==> FilledRow(c, start, t, subsets[k], |c|)
    ensures FilledBelow(c, start, t, r + 1)
  {
    forall v: nat, s: nat | Entry(c, start, v, s) && 2 <= Count(s) < r + 1
      ensures EntryOk(c, start, t, v, s)
    {
      if Count(s) == r {
        assert s in subsets;
        var k :| 0 <= k < |subsets| && subsets[k] == s;
        assert FilledRow(c, start, t, subsets[k], |c|);
      }
    }
  }

  /** False stands for the exception of `std::stoi`. */
  method FillTable(c: Matrix, memo: array2<int>, start: nat) returns (done: bool)
    requires Square(c) && Fits(c, start) && Sized(c, memo) && start < |c|
    modifies memo
    ensures done <==> |c| <= 10
    ensures done ==> FilledBelow(c, start, Contents(c, memo), |c| + 1)
  {
    Setup(c, memo, start);
    if |c| < 3 {
      return true;
    }
    for r := 3 to |c| + 1
      invariant FilledBelow(c, start, Contents(c, memo), r)
      invariant 3 < r ==> |c| <= 10
    {
      var filled := SolveLayer(c, memo, start, r);
      if !filled {
        return false;
      }
    }
    return true;
  }

  // ---------------------------------------------------------------- closing the tour

  /** `d` is the cheapest cost of a path through `s` continued with an edge to `last`. */
  ghost predicate BestClosing(c: Matrix, start: nat, s: nat, last: nat, d: int)
    requires Square(c) && last < |c|
  {
    && (exists v: nat, p :: v != start && v < |c| && IsPath(c, start, v, s, p) && Cost(c, p) + c[v][last] == d)
    && (forall v: nat, p :: v != start && v < |c| && IsPath(c, start, v, s, p) ==> d <= Cost(c, p) + c[v][last])
  }

  /** The least closing cost over the end nodes, each at its best. */
  lemma ClosingOf(c: Matrix, start: nat, t: Table, s: nat, last: nat, e: nat, d: int)
    requires Square(c) && last < |c| && start < |c|
    requires 2 <= Count(s) <= |c| && s < Pow2(|c|) && Bit(s, start)
    requires Domain(c, t)
    requires FilledBelow(c, start, t, |c| + 1)
    requires Entry(c, start, e, s) && d == t[(e, s)] + c[e][last]
    requires forall k: nat :: Entry(c, start, k, s) ==> d <= t[(k, s)] + c[k][last]
    ensures BestClosing(c, start, s, last, d)
  {
    assert EntryOk(c, start, t, e, s);
    var p :| IsPath(c, start, e, s, p) && Cost(c, p) == t[(e, s)];
    forall v: nat, q | v != start && v < |c| && IsPath(c, start, v, s, q)
      ensures d <= Cost(c, q) + c[v][last]
    {
      assert q[|q| - 1] in q;
      assert EntryOk(c, start, t, v, s);
    }
  }

  /** A tour is a path through all nodes and the edge home. */
  lemma {:induction false} TourIsPath(c: Matrix, start: nat, t: seq<nat>) returns (v: nat)
    requires Square(c) && IsTour(c, start, t) && 2 <= |c|
    ensures v != start && v < |c| && IsPath(c, start, v, Full(|c|), t[..|c|])
    ensures Cost(c, t) == Cost(c, t[..|c|]) + c[v][start]
  {
    v := t[|c| - 1];
    var p := t[..|c|];
    assert p[0] == start && p[|c| - 1] == v;
    assert t[..|t| - 1] == p;
  }

  lemma PathIsTour(c: Matrix, start: nat, v: nat, p: seq<nat>)
    requires Square(c) && start < |c| && v < |c| && IsPath(c, start, v, Full(|c|), p)
    ensures IsTour(c, start, p + [start])
    ensures Cost(c, p + [start]) == Cost(c, p) + c[v][start]
  {
    FullMask(|c|);
    PathLength(c, p, Full(|c|));
    var t := p + [start];
    assert t[..|c|] == p && t[..|t| - 1] == p;
  }

  /** The cheapest tour and the cheapest closing of the full set cost the same. */
  lemma ClosingIsTour(c: Matrix, start: nat, d: int)
    requires Square(c) && start < |c| && 2 <= |c| && BestClosing(c, start, Full(|c|), start, d)
    ensures exists t :: IsTour(c, start, t) && Cost(c, t) == d
    ensures forall t :: IsTour(c, start, t) ==> d <= Cost(c, t)
  {
    var v: nat, p :| v != start && v < |c| && IsPath(c, start, v, Full(|c|), p) && Cost(c, p) + c[v][start] == d;
    PathIsTour(c, start, v, p);
    forall t | IsTour(c, start, t)
      ensures d <= Cost(c, t)
    {
      var u := TourIsPath(c, start, t);
    }
  }

  /** A cheapest closing among the candidates, also when it equals the sentinel. */
  lemma MinCostBest(c: Matrix, t: Table, start: nat, d: int, k: nat)
    requires Square(c) && Fits(c, start) && start < |c| && 2 <= |c|
    requires Domain(c, t)
    requires FilledBelow(c, start, t, |c| + 1)
    requires Least(c, t, start, start, Full(|c|), Full(|c|), |c|, d, k)
    ensures BestClosing(c, start, Full(|c|), start, d)
  {
    var s := Full(|c|);
    FullMask(|c|);
    var e := k;
    if k == start {
      var tour :| IsTour(c, start, tour) && Cost(c, tour) <= INT_MAX;
      e := TourIsPath(c, start, tour);
      assert EntryOk(c, start, t, e, s);
      assert Between(c, start, start, s, e);
    }
    ClosingOf(c, start, t, s, start, e, d);
  }

  method CostLoop(c: Matrix, memo: array2<int>, start: nat) returns (minTourCost: int, ghost k: nat)
    requires Square(c) && Sized(c, memo) && start < |c|
    ensures Least(c, Contents(c, memo), start, start, Full(|c|), Full(|c|), |c|, minTourCost, k)
  {
    var endState := Full(|c|);
    FullMask(|c|);
    ghost var t := Contents(c, memo);
    minTourCost, k := INT_MAX, start;
    for e := 0 to |c|
      invariant Least(c, t, start, start, endState, endState, e, minTourCost, k)
    {
      LeastStep(c, t, start, start, endState, endState, e, minTourCost, k, t[(e, endState)] + c[e][start]);
      if e != start {
        var tourCost := memo[e, endState] + c[e][start];
        if tourCost < minTourCost {
          k := e;
        }
        minTourCost := if tourCost < minTourCost then tourCost else minTourCost;
      }
    }
  }

  method FindMinCost(c: Matrix, memo: array2<int>, start: nat) returns (minTourCost: int)
    requires Square(c) && Fits(c, start) && Sized(c, memo) && start < |c|
    requires FilledBelow(c, start, Contents(c, memo), |c| + 1)
    ensures |c| == 1 ==> minTourCost == INT_MAX
    ensures 2 <= |c| ==> BestClosing(c, start, Full(|c|), start, minTourCost)
  {
    ghost var k: nat;
    minTourCost, k := CostLoop(c, memo, start);
    if 2 <= |c| {
      MinCostBest(c, Contents(c, memo), start, minTourCost, k);
    }
  }

  // ---------------------------------------------------------------- reconstructing the tour

  /** `index` is the first of the cheapest end nodes below `j`, or -1 while there is none. */
  ghost predicate Cheapest(c: Matrix, t: Table, start: nat, state: nat, last: nat, j: nat, index: int)
    requires Square(c) && last < |c|
  {
    && (index == -1 ==> forall k: nat :: k < j ==> !Entry(c, start, k, state))
    && (index != -1 ==> 0 <= index && Entry(c, start, index, state) && (index as nat, state) in t)
    && (index != -1 ==> forall k: nat :: k < j && Entry(c, start, k, state) && (k, state) in t ==>
          t[(index as nat, state)] + c[index][last] <= t[(k, state)] + c[k][last])
    && (index != -1 ==> forall k: nat :: k < index && Entry(c, start, k, state) && (k, state) in t ==>
          t[(index as nat, state)] + c[index][last] < t[(k, state)] + c[k][last])
  }

  lemma CheapestStep(c: Matrix, t: Table, start: nat, state: nat, last: nat, j: nat, index: int)
    requires Square(c) && last < |c| && j < |c| && Cheapest(c, t, start, state, last, j, index) && (j, state) in t
    ensures !Entry(c, start, j, state) ==> Cheapest(c, t, start, state, last, j + 1, index)
    ensures Entry(c, start, j, state) && index == -1 ==> Cheapest(c, t, start, state, last, j + 1, j)
    ensures Entry(c, start, j, state) && index != -1 ==>
              Cheapest(c, t, start, state, last, j + 1,
                       if t[(j, state)] + c[j][last] < t[(index as nat, state)] + c[index][last] then j else index)
  {
  }

  /** The node before `last` on a cheapest path through `state`: the first of the cheapest. */
  method ChooseIndex(c: Matrix, memo: array2<int>, start: nat, state: nat, last: nat) returns (index: int)
    requires Square(c) && Sized(c, memo) && start < |c| && last < |c|
    requires state < Pow2(|c|) && Bit(state, start) && 2 <= Count(state)
    ensures index != -1 && Cheapest(c, Contents(c, memo), start, state, last, |c|, index)
  {
    ghost var t := Contents(c, memo);
    index := -1;
    for j := 0 to |c|
      invariant Cheapest(c, t, start, state, last, j, index)
    {
      CheapestStep(c, t, start, state, last, j, index);
      AndPow2(j, state);
      if j == start || NotIn(j, state) {
        continue;
      }
      if index == -1 {
        index := j;
      }
      var prevDist := memo[index, state] + c[index][last];
      var newDist := memo[j, state] + c[j][last];
      if newDist < prevDist {
        index := j;
      }
    }
    SomeEntry(c, start, state);
  }

  lemma SomeEntry(c: Matrix, start: nat, state: nat)
    requires state < Pow2(|c|) && Bit(state, start) && 2 <= Count(state)
    ensures exists k: nat :: Entry(c, start, k, state)
  {
    XorPow2(state, start);
    var u := Xor(state, Pow2(start));
    if forall i: nat :: !Bit(u, i) {
      NoBits(u);
    }
    var k: nat :| Bit(u, k);
    BitsBelow(state, |c|, k);
    assert Entry(c, start, k, state);
  }

  lemma {:induction false} CostCons(c: Matrix, v: nat, q: seq<nat>)
    requires Square(c) && Nodes(c, q) && v < |c| && q != []
    ensures Nodes(c, [v] + q) && Cost(c, [v] + q) == c[v][q[0]] + Cost(c, q)
  {
    var p := [v] + q;
    if |q| == 1 {
      assert p[..1] == [v];
    } else {
      CostCons(c, v, q[..|q| - 1]);
      assert p[..|p| - 1] == [v] + q[..|q| - 1];
    }
  }

  /** The cheapest way to close `s` at `last` when `v` comes just before it. */
  lemma ClosingShrinks(c: Matrix, start: nat, v: nat, s: nat, d: int)
    requires Square(c) && 3 <= Count(s) && s < Pow2(|c|) && Bit(s, v) && v < |c| && v != start
    requires Best(c, start, v, s, d)
    ensures BestClosing(c, start, Xor(s, Pow2(v)), v, d)
  {
    var p :| IsPath(c, start, v, s, p) && Cost(c, p) == d;
    var e := PathInit(c, start, v, s, p);
    var u := Xor(s, Pow2(v));
    forall k: nat, q | k != start && k < |c| && IsPath(c, start, k, u, q)
      ensures d <= Cost(c, q) + c[k][v]
    {
      PathExtend(c, start, k, v, s, q);
    }
  }

  lemma BestOfPair(c: Matrix, start: nat, v: nat, s: nat, d: int)
    requires Square(c) && Entry(c, start, v, s) && start < |c| && Count(s) == 2 && Best(c, start, v, s, d)
    ensures d == c[start][v]
  {
    PairMask(start, v, s, |c|);
    OrPow2(start, v, |c|);
    var p :| IsPath(c, start, v, s, p) && Cost(c, p) == d;
    PairPath(c, start, v, s, p);
    assert p[..|p| - 1] == [start];
    assert Cost(c, p) == Cost(c, [start]) + c[start][v];
  }

  /** `q` is the end of the tour: from `last` over the nodes outside `state` back to `start`. */
  ghost predicate Suffix(c: Matrix, start: nat, state: nat, last: nat, q: seq<nat>) {
    && state < Pow2(|c|) && Bit(state, start) && start < |c| && last < |c|
    && Nodes(c, q) && q != [] && q[0] == last && q[|q| - 1] == start
    && Count(state) + |q| == |c| + 1
    && Distinct(q[..|q| - 1])
    && (forall i: nat :: i in q[..|q| - 1] <==> i < |c| && !Bit(state, i))
  }

  /** Completing `q` as cheaply as possible costs `total`. */
  ghost predicate Completes(c: Matrix, start: nat, state: nat, last: nat, q: seq<nat>, total: int)
    requires Square(c) && Suffix(c, start, state, last, q)
  {
    if Count(state) < 2 then c[start][last] + Cost(c, q) == total
    else exists d :: BestClosing(c, start, state, last, d) && d + Cost(c, q) == total
  }

  lemma SuffixGrows(c: Matrix, start: nat, state: nat, last: nat, q: seq<nat>, v: nat)
    requires Suffix(c, start, state, last, q) && Entry(c, start, v, state)
    ensures Suffix(c, start, Xor(state, Pow2(v)), v, [v] + q)
  {
    XorPow2(state, v);
    var p := [v] + q;
    assert p[..|p| - 1] == [v] + q[..|q| - 1];
    assert v !in q[..|q| - 1];
  }

  lemma CompletesGrows(c: Matrix, start: nat, t: Table, state: nat, last: nat, q: seq<nat>, total: int, v: nat)
    requires Square(c) && Suffix(c, start, state, last, q) && Completes(c, start, state, last, q, total)
    requires Domain(c, t)
    requires FilledBelow(c, start, t, |c| + 1) && 2 <= Count(state)
    requires Cheapest(c, t, start, state, last, |c|, v)
    ensures Suffix(c, start, Xor(state, Pow2(v)), v, [v] + q)
    ensures Completes(c, start, Xor(state, Pow2(v)), v, [v] + q, total)
  {
    SuffixGrows(c, start, state, last, q, v);
    var d := t[(v, state)];
    ClosingOf(c, start, t, state, last, v, d + c[v][last]);
    CostCons(c, v, q);
    assert EntryOk(c, start, t, v, state);
    XorPow2(state, v);
    if Count(state) == 2 {
      BestOfPair(c, start, v, state, d);
    } else {
      ClosingShrinks(c, start, v, state, d);
    }
  }

  /** A completed suffix is a tour of the given cost. */
  lemma SuffixIsTour(c: Matrix, start: nat, state: nat, last: nat, q: seq<nat>, total: int)
    requires Square(c) && Suffix(c, start, state, last, q) && Completes(c, start, state, last, q, total)
    requires Count(state) == 1
    ensures IsTour(c, start, [start] + q) && Cost(c, [start] + q) == total
  {
    CostCons(c, start, q);
    var t := [start] + q;
    assert t[..|c|] == [start] + q[..|q| - 1];
    SuffixCovers(c, start, state, last, q);
  }

  lemma SuffixCovers(c: Matrix, start: nat, state: nat, last: nat, q: seq<nat>)
    requires Suffix(c, start, state, last, q) && Count(state) == 1
    ensures start !in q[..|q| - 1] && Covers([start] + q[..|q| - 1], Full(|c|))
  {
    FullMask(|c|);
    XorPow2(state, start);
    CountZero(Xor(state, Pow2(start)));
    var p := [start] + q[..|q| - 1];
    forall i: nat
      ensures i in p <==> i < |c|
    {
      ZeroBit(i);
    }
  }

  method FindOptimalTour(c: Matrix, memo: array2<int>, start: nat, ghost total: int) returns (tour: array<nat>)
    requires Square(c) && Sized(c, memo) && start < |c| && 2 <= |c|
    requires FilledBelow(c, start, Contents(c, memo), |c| + 1)
    requires BestClosing(c, start, Full(|c|), start, total)
    ensures IsTour(c, start, tour[..]) && Cost(c, tour[..]) == total
  {
    var lastIndex: nat := start;
    var state := Full(|c|);
    FullMask(|c|);
    tour := new nat[|c| + 1];
    ghost var q := [start];
    assert q[..0] == [];
    var i := |c| - 1;
    while i >= 1
      invariant 0 <= i < |c| && |q| == |c| - i
      invariant Suffix(c, start, state, lastIndex, q) && Completes(c, start, state, lastIndex, q, total)
      invariant Stored(tour[..], i, q)
    {
      var index := PlaceIndex(c, memo, start, state, lastIndex, tour, i, q, total);
      state := Xor(state, Pow2(index));
      lastIndex := index;
      q := [index as nat] + q;
      i := i - 1;
    }
    TourComplete(c, start, state, lastIndex, q, total, tour[..]);
    tour[0] := start;
    tour[|c|] := start;
  }

  /** The next node, from the back, is chosen and written to the tour. */
  method PlaceIndex(
    c: Matrix, memo: array2<int>, start: nat, state: nat, lastIndex: nat, tour: array<nat>, i: nat, ghost q: seq<nat>,
    ghost total: int)
    returns (index: nat)
    requires Square(c) && Sized(c, memo) && start < |c| && 2 <= |c|
    requires FilledBelow(c, start, Contents(c, memo), |c| + 1)
    requires 1 <= i < |c| && |q| == |c| - i && tour.Length == |c| + 1
    requires Suffix(c, start, state, lastIndex, q) && Completes(c, start, state, lastIndex, q, total)
    requires Stored(tour[..], i, q)
    modifies tour
    ensures Suffix(c, start, Xor(state, Pow2(index)), index, [index] + q)
    ensures Completes(c, start, Xor(state, Pow2(index)), index, [index] + q, total)
    ensures Stored(tour[..], i - 1, [index] + q)
  {
    index := ChooseIndex(c, memo, start, state, lastIndex);
    CompletesGrows(c, start, Contents(c, memo), state, lastIndex, q, total, index);
    StoredGrows(tour[..], i, q, index);
    tour[i] := index;
  }

  lemma TourComplete(
    c: Matrix, start: nat, state: nat, last: nat, q: seq<nat>, total: int, tour: seq<nat>)
    requires Square(c) && Suffix(c, start, state, last, q) && Completes(c, start, state, last, q, total)
    requires |q| == |c| && |tour| == |c| + 1 && Stored(tour, 0, q)
    ensures IsTour(c, start, tour[0 := start][|c| := start]) && Cost(c, tour[0 := start][|c| := start]) == total
  {
    SuffixIsTour(c, start, state, last, q, total);
    StoredAll(tour, q, start);
  }

  /** The part of the tour array already written: all of `q` but its last node. */
  ghost predicate Stored(tour: seq<nat>, i: nat, q: seq<nat>) {
    q != [] && i + |q| < |tour| && forall k :: 0 <= k < |q| - 1 ==> tour[i + 1 + k] == q[k]
  }

  lemma StoredGrows(tour: seq<nat>, i: nat, q: seq<nat>, v: nat)
    requires 1 <= i && Stored(tour, i, q)
    ensures Stored(tour[i := v], i - 1, [v] + q)
  {
  }

  lemma StoredAll(tour: seq<nat>, q: seq<nat>, start: nat)
    requires Stored(tour, 0, q) && |tour| == |q| + 1 && q[|q| - 1] == start
    ensures tour[0 := start][|q| := start] == [start] + q
  {
  }

  // ---------------------------------------------------------------- a bound on the edges suffices

  /** No edge between two nodes costs more than `k`. */
  ghost predicate EdgesAtMost(c: Matrix, k: nat)
    requires Square(c)
  {
    forall i, j :: 0 <= i < |c| && 0 <= j < |c| && i != j ==> c[i][j] <= k
  }

  lemma {:induction false} PathExists(c: Matrix, start: nat, v: nat, s: nat) returns (p: seq<nat>)
    requires Square(c) && Entry(c, start, v, s)
    ensures IsPath(c, start, v, s, p)
    decreases Count(s)
  {
    var rest := Xor(s, Pow2(v));
    XorPow2(s, v);
    BitsBelow(s, |c|, start);
    if e: nat :| Bit(rest, e) && e != start {
      BitsBelow(s, |c|, e);
      var q := PathExists(c, start, e, rest);
      PathExtend(c, start, e, v, s, q);
      p := q + [v];
    } else {
      p := [start, v];
      assert forall i: nat :: Bit(s, i) <==> i == v || Bit(rest, i);
    }
  }

  lemma {:induction false} CostAtMost(c: Matrix, k: nat, p: seq<nat>)
    requires Square(c) && EdgesAtMost(c, k) && Nodes(c, p) && Distinct(p) && p != []
    ensures Cost(c, p) + k <= |p| * k
  {
    if |p| > 1 {
      CostAtMost(c, k, p[..|p| - 1]);
      assert c[p[|p| - 2]][p[|p| - 1]] <= k;
      TimesOneMore(|p| - 1, k);
    }
  }

  lemma PathAtMost(c: Matrix, start: nat, v: nat, s: nat, k: nat) returns (p: seq<nat>)
    requires Square(c) && Entry(c, start, v, s) && EdgesAtMost(c, k)
    ensures IsPath(c, start, v, s, p) && Cost(c, p) <= |c| * k - k
  {
    p := PathExists(c, start, v, s);
    PathLength(c, p, s);
    CountBelow(s, |c|);
    CostAtMost(c, k, p);
    TimesKeepsOrder(|p|, |c|, k);
  }

  lemma TourAtMost(c: Matrix, start: nat, v: nat, k: nat) returns (t: seq<nat>)
    requires Square(c) && start < |c| && v < |c| && v != start && EdgesAtMost(c, k)
    ensures IsTour(c, start, t) && Cost(c, t) <= |c| * k
  {
    FullMask(|c|);
    var p := PathAtMost(c, start, v, Full(|c|), k);
    PathIsTour(c, start, v, p);
    t := p + [start];
  }

  /** With `n` nodes it is enough that `n` times the largest cost does not exceed the sentinel. */
  lemma SmallCostsFit(c: Matrix, start: nat, k: nat)
    requires Square(c) && start < |c| && EdgesAtMost(c, k) && |c| * k <= INT_MAX
    ensures Fits(c, start)
  {
    forall v: nat, s: nat | Entry(c, start, v, s) && 3 <= Count(s)
      ensures exists p :: IsPath(c, start, v, s, p) && Cost(c, p) <= INT_MAX
    {
      var p := PathAtMost(c, start, v, s, k);
    }
    if 2 <= |c| {
      var v := if start == 0 then 1 else 0;
      var t := TourAtMost(c, start, v, k);
    }
  }

  // ---------------------------------------------------------------- the range of `int`

  /** No edge between two nodes costs less than `-k`. */
  ghost predicate EdgesAtLeast(c: Matrix, k: nat)
    requires Square(c)
  {
    forall i, j :: 0 <= i < |c| && 0 <= j < |c| && i != j ==> 0 <= c[i][j] + k
  }

  lemma {:induction false} CostAtLeast(c: Matrix, k: nat, p: seq<nat>)
    requires Square(c) && EdgesAtLeast(c, k) && Nodes(c, p) && Distinct(p) && p != []
    ensures Cost(c, p) - k >= -(|p| * k)
  {
    if |p| > 1 {
      CostAtLeast(c, k, p[..|p| - 1]);
      assert 0 <= c[p[|p| - 2]][p[|p| - 1]] + k;
      TimesOneMore(|p| - 1, k);
    }
  }

  /** No sum that the program forms, an entry of the table and one more edge, leaves the range of `int` when
      the number of nodes times the largest cost is within it: there is no wrap-around. */
  lemma SumsAreInts(c: Matrix, start: nat, k: nat, v: nat, s: nat, d: int, last: nat)
    requires Square(c) && EdgesAtMost(c, k) && EdgesAtLeast(c, k) && |c| * k <= INT_MAX
    requires Entry(c, start, v, s) && Best(c, start, v, s, d) && last < |c| && last != v
    ensures -INT_MAX <= d + c[v][last] <= INT_MAX
  {
    var p :| IsPath(c, start, v, s, p) && Cost(c, p) == d;
    PathLength(c, p, s);
    CountBelow(s, |c|);
    CostAtMost(c, k, p);
    CostAtLeast(c, k, p);
    TimesKeepsOrder(|p|, |c|, k);
  }

  // ---------------------------------------------------------------- the solver

  datatype TravellingSalesmanResult = TravellingSalesmanResult(tour: array<nat>, minCost: int)

  /** The reported cost is that of a cheapest Hamiltonian cycle through `start`, and the reported tour is
      such a cycle. With a single node the cost stays at the sentinel. From eleven nodes on there is no result
      but the exception of `std::stoi`. */
  method Solve(c: Matrix, start: nat) returns (result: Option<TravellingSalesmanResult>)
    requires Square(c) && start < |c| && Fits(c, start)
    ensures result == None <==> |c| > 10
    ensures result.Some? && 2 <= |c| ==>
              IsTour(c, start, result.value.tour[..]) && Cost(c, result.value.tour[..]) == result.value.minCost
    ensures result.Some? && 2 <= |c| ==> forall t :: IsTour(c, start, t) ==> result.value.minCost <= Cost(c, t)
    ensures |c| == 1 ==>
              result.Some? && result.value.tour[..] == [start, start] && result.value.minCost == INT_MAX
  {
    var memo := new int[|c|, Pow2(|c|)]((_, _) => 0);
    var done := FillTable(c, memo, start);
    if !done {
      return None;
    }
    var minCost := FindMinCost(c, memo, start);
    var tour: array<nat>;
    if |c| == 1 {
      tour := new nat[2](_ => start);
    } else {
      ClosingIsTour(c, start, minCost);
      tour := FindOptimalTour(c, memo, start, minCost);
    }
    return Some(TravellingSalesmanResult(tour, minCost));
  }
}
