/** Counting the elements of a sequence that satisfy a predicate, and adding up what its elements are worth. */
module Counting {

  function CountIf<P>(xs: seq<P>, f: P -> bool): nat {
    if xs == [] then 0 else CountIf(xs[..|xs| - 1], f) + (if f(xs[|xs| - 1]) then 1 else 0)
  }

  lemma {:induction false} CountUpdate<P>(xs: seq<P>, f: P -> bool, i: nat, x: P)
    requires i < |xs|
    ensures CountIf(xs[i := x], f) == CountIf(xs, f) - (if f(xs[i]) then 1 else 0) + (if f(x) then 1 else 0)
  {
    var last := |xs| - 1;
    if i < last {
      CountUpdate(xs[..last], f, i, x);
      assert xs[i := x][..last] == xs[..last][i := x];
    } else {
      assert xs[i := x][..last] == xs[..last];
    }
  }

  lemma {:induction false} CountNone<P>(xs: seq<P>, f: P -> bool)
    ensures CountIf(xs, f) == 0 <==> forall i :: 0 <= i < |xs| ==> !f(xs[i])
  {
    if xs != [] {
      CountNone(xs[..|xs| - 1], f);
      assert forall i :: 0 <= i < |xs| - 1 ==> xs[..|xs| - 1][i] == xs[i];
    }
  }

  lemma {:induction false} CountAll<P>(xs: seq<P>, f: P -> bool)
    requires forall i :: 0 <= i < |xs| ==> f(xs[i])
    ensures CountIf(xs, f) == |xs|
  {
    if xs != [] {
      CountAll(xs[..|xs| - 1], f);
    }
  }

  /** A stronger predicate counts less, and equally only when the two agree. */
  lemma {:induction false} CountWithin<P>(xs: seq<P>, f: P -> bool, g: P -> bool)
    requires forall i :: 0 <= i < |xs| && f(xs[i]) ==> g(xs[i])
    ensures CountIf(xs, f) <= CountIf(xs, g) <= |xs|
    ensures CountIf(xs, f) == CountIf(xs, g) ==> forall i :: 0 <= i < |xs| && g(xs[i]) ==> f(xs[i])
  {
    if xs != [] {
      var init := xs[..|xs| - 1];
      assert forall i :: 0 <= i < |init| ==> init[i] == xs[i];
      CountWithin(init, f, g);
    }
  }

  function Sum<P>(xs: seq<P>, f: P -> nat): nat {
    if xs == [] then 0 else Sum(xs[..|xs| - 1], f) + f(xs[|xs| - 1])
  }

  lemma {:induction false} SumUpdate<P>(xs: seq<P>, f: P -> nat, i: nat, x: P)
    requires i < |xs|
    ensures Sum(xs[i := x], f) == Sum(xs, f) - f(xs[i]) + f(x)
  {
    var last := |xs| - 1;
    if i < last {
      SumUpdate(xs[..last], f, i, x);
      assert xs[i := x][..last] == xs[..last][i := x];
    } else {
      assert xs[i := x][..last] == xs[..last];
    }
  }

  lemma {:induction false} SumAtMost<P>(xs: seq<P>, f: P -> nat, most: nat)
    requires forall i :: 0 <= i < |xs| ==> f(xs[i]) <= most
    ensures Sum(xs, f) <= |xs| * most
  {
    if xs != [] {
      var init := xs[..|xs| - 1];
      assert forall i :: 0 <= i < |init| ==> init[i] == xs[i];
      SumAtMost(init, f, most);
    }
  }

  lemma {:induction false} SumWithin<P>(xs: seq<P>, f: P -> nat, g: P -> nat)
    requires forall i :: 0 <= i < |xs| ==> f(xs[i]) <= g(xs[i])
    ensures Sum(xs, f) <= Sum(xs, g)
  {
    if xs != [] {
      var init := xs[..|xs| - 1];
      assert forall i :: 0 <= i < |init| ==> init[i] == xs[i];
      SumWithin(init, f, g);
    }
  }

  lemma {:induction false} SumBelow<P>(xs: seq<P>, f: P -> nat, ys: seq<P>, g: P -> nat, t: nat)
    requires |xs| == |ys| && t < |xs| && f(xs[t]) < g(ys[t])
    requires forall i :: 0 <= i < |xs| ==> f(xs[i]) <= g(ys[i])
    ensures Sum(xs, f) < Sum(ys, g)
  {
    var last := |xs| - 1;
    if t < last {
      SumBelow(xs[..last], f, ys[..last], g, t);
    } else {
      SumNotAbove(xs[..last], f, ys[..last], g);
    }
  }

  lemma {:induction false} SumNotAbove<P>(xs: seq<P>, f: P -> nat, ys: seq<P>, g: P -> nat)
    requires |xs| == |ys| && forall i :: 0 <= i < |xs| ==> f(xs[i]) <= g(ys[i])
    ensures Sum(xs, f) <= Sum(ys, g)
  {
    if xs != [] {
      SumNotAbove(xs[..|xs| - 1], f, ys[..|ys| - 1], g);
    }
  }

  lemma TimesKeepsOrder(a: nat, b: nat, m: nat)
    requires a <= b
    ensures a * m <= b * m
  {
  }

  lemma TimesOneMore(a: nat, m: nat)
    ensures (a + 1) * m == a * m + m
  {
  }

  /** Lexicographic order in one number. */
  lemma LessWithMinor(m: nat, major: nat, minor: nat, major': nat, minor': nat)
    requires minor' < m && (major' < major || (major' == major && minor' < minor))
    ensures major' * m + minor' < major * m + minor
  {
    if major' < major {
      TimesKeepsOrder(major' + 1, major, m);
    }
  }
}
