/** The least-recently-used cache on values: the items in recency order, the latest first. */
module LruSpec {
  import opened Options

  datatype Item = Item(key: int, value: int)

  datatype Operation = Put(key: int, value: int) | Get(key: int)

  function Keys(s: seq<Item>): (keys: seq<int>)
    ensures |keys| == |s| && forall i :: 0 <= i < |s| ==> keys[i] == s[i].key
  {
    seq(|s|, i requires 0 <= i < |s| => s[i].key)
  }

  function Find(s: seq<Item>, key: int): (r: Option<Item>)
    ensures r == None <==> key !in Keys(s)
    ensures r.Some? ==> r.value in s && r.value.key == key
  {
    if s == [] then None
    else if s[0].key == key then assert Keys(s)[0] == key; Some(s[0])
    else
      assert Keys(s) == [s[0].key] + Keys(s[1..]);
      Find(s[1..], key)
  }

  function Without(s: seq<Item>, key: int): seq<Item> {
    if s == [] then [] else if s[0].key == key then Without(s[1..], key) else [s[0]] + Without(s[1..], key)
  }

  function Promoted(s: seq<Item>, hit: Item): seq<Item> {
    [hit] + Without(s, hit.key)
  }

  /** The items after an operation. A `Put` of a key that is present keeps the old value. */
  function After(s: seq<Item>, capacity: nat, op: Operation): seq<Item>
    requires 1 <= capacity
  {
    match Find(s, op.key)
    case Some(hit) => Promoted(s, hit)
    case None =>
      if op.Get? then s
      else [Item(op.key, op.value)] + if |s| == capacity then s[..|s| - 1] else s
  }

  function Run(capacity: nat, ops: seq<Operation>): seq<Item>
    requires 1 <= capacity
  {
    if ops == [] then [] else After(Run(capacity, ops[..|ops| - 1]), capacity, ops[|ops| - 1])
  }

  predicate Distinct(s: seq<int>) {
    forall i, j :: 0 <= i < j < |s| ==> s[i] != s[j]
  }

  // ---------------------------------------------------------------- on keys alone

  function Remove(s: seq<int>, key: int): (r: seq<int>)
    ensures forall x :: x in r <==> x in s && x != key
    ensures |r| <= |s| && (key in s ==> |r| < |s|) && (key !in s ==> r == s)
  {
    if s == [] then [] else if s[0] == key then Remove(s[1..], key) else [s[0]] + Remove(s[1..], key)
  }

  lemma DistinctTail(s: seq<int>)
    requires Distinct(s) && s != []
    ensures Distinct(s[1..]) && s[0] !in s[1..]
  {
  }

  lemma DistinctCons(x: int, s: seq<int>)
    requires Distinct(s) && x !in s
    ensures Distinct([x] + s)
  {
  }

  lemma {:induction false} RemoveOne(s: seq<int>, key: int)
    requires Distinct(s)
    ensures Distinct(Remove(s, key)) && (key in s ==> |Remove(s, key)| == |s| - 1)
  {
    if s != [] {
      DistinctTail(s);
      RemoveOne(s[1..], key);
      if s[0] != key {
        DistinctCons(s[0], Remove(s[1..], key));
      }
    }
  }

  function KeysAfter(s: seq<int>, capacity: nat, op: Operation): seq<int>
    requires 1 <= capacity
  {
    if op.key in s then [op.key] + Remove(s, op.key)
    else if op.Get? then s
    else [op.key] + if |s| == capacity then s[..|s| - 1] else s
  }

  lemma {:induction false} KeysWithout(s: seq<Item>, key: int)
    ensures Keys(Without(s, key)) == Remove(Keys(s), key)
  {
    if s != [] {
      assert Keys(s)[1..] == Keys(s[1..]);
      KeysWithout(s[1..], key);
    }
  }

  lemma AfterOnKeys(s: seq<Item>, capacity: nat, op: Operation)
    requires 1 <= capacity
    ensures Keys(After(s, capacity, op)) == KeysAfter(Keys(s), capacity, op)
  {
    if op.key in Keys(s) {
      KeysPromoted(s, Find(s, op.key).value);
    } else if op.Put? {
      KeysCons(Item(op.key, op.value), if |s| == capacity then s[..|s| - 1] else s);
    }
  }

  lemma KeysPromoted(s: seq<Item>, hit: Item)
    ensures Keys(Promoted(s, hit)) == [hit.key] + Remove(Keys(s), hit.key)
  {
    KeysWithout(s, hit.key);
    KeysCons(hit, Without(s, hit.key));
  }

  lemma KeysCons(x: Item, s: seq<Item>)
    ensures Keys([x] + s) == [x.key] + Keys(s)
  {
  }

  /** No operation exceeds the capacity or duplicates a key. */
  lemma {:induction false} RunIsBounded(capacity: nat, ops: seq<Operation>)
    requires 1 <= capacity
    ensures |Run(capacity, ops)| <= capacity && Distinct(Keys(Run(capacity, ops)))
  {
    if ops != [] {
      var init, op := ops[..|ops| - 1], ops[|ops| - 1];
      RunIsBounded(capacity, init);
      AfterOnKeys(Run(capacity, init), capacity, op);
      RemoveOne(Keys(Run(capacity, init)), op.key);
    }
  }

  // ---------------------------------------------------------------- the most recently used keys

  /** The keys used by a run: those put, and those got with a hit. */
  function Uses(capacity: nat, ops: seq<Operation>): seq<int>
    requires 1 <= capacity
  {
    if ops == [] then []
    else
      var init, op := ops[..|ops| - 1], ops[|ops| - 1];
      Uses(capacity, init) + if op.Put? || op.key in Keys(Run(capacity, init)) then [op.key] else []
  }

  /** The distinct keys of `uses`, the one whose last use is the latest first. */
  function ByLastUse(uses: seq<int>): seq<int> {
    if uses == [] then []
    else [uses[|uses| - 1]] + Remove(ByLastUse(uses[..|uses| - 1]), uses[|uses| - 1])
  }

  function Prefix(s: seq<int>, n: nat): seq<int> {
    if |s| <= n then s else s[..n]
  }

  lemma {:induction false} ByLastUseDistinct(uses: seq<int>)
    ensures Distinct(ByLastUse(uses))
  {
    if uses != [] {
      ByLastUseDistinct(uses[..|uses| - 1]);
      RemoveOne(ByLastUse(uses[..|uses| - 1]), uses[|uses| - 1]);
    }
  }

  lemma PrefixCons(x: int, s: seq<int>, n: nat)
    requires n > 0
    ensures Prefix([x] + s, n) == [x] + Prefix(s, n - 1)
  {
  }

  lemma {:induction false} RemoveFromPrefix(s: seq<int>, n: nat, key: int)
    requires Distinct(s)
    ensures key in Prefix(s, n) && n > 0 ==> Remove(Prefix(s, n), key) == Prefix(Remove(s, key), n - 1)
    ensures key !in Prefix(s, n) ==> Prefix(Remove(s, key), n) == Prefix(s, n)
  {
    if s != [] && n > 0 {
      var tail := s[1..];
      DistinctTail(s);
      PrefixCons(s[0], tail, n);
      assert s == [s[0]] + tail;
      if s[0] == key {
        assert Remove(s, key) == tail && key !in Prefix(tail, n - 1);
      } else {
        RemoveFromPrefix(tail, n - 1, key);
        assert Remove(s, key) == [s[0]] + Remove(tail, key);
        PrefixCons(s[0], Remove(tail, key), n);
        if n > 1 {
          PrefixCons(s[0], Remove(tail, key), n - 1);
        }
      }
    }
  }

  /** The key of a hit moves to the front, and a new key pushes out the last one. */
  lemma StepOnPrefix(all: seq<int>, capacity: nat, op: Operation)
    requires 1 <= capacity && Distinct(all)
    requires op.Put? || op.key in Prefix(all, capacity)
    ensures KeysAfter(Prefix(all, capacity), capacity, op) == Prefix([op.key] + Remove(all, op.key), capacity)
  {
    var s := Prefix(all, capacity);
    RemoveFromPrefix(all, capacity, op.key);
    PrefixCons(op.key, Remove(all, op.key), capacity);
    if op.key !in s {
      assert Prefix(s, capacity - 1) == if |s| == capacity then s[..|s| - 1] else s;
    }
  }

  lemma ByLastUseGrows(uses: seq<int>, key: int)
    ensures ByLastUse(uses + [key]) == [key] + Remove(ByLastUse(uses), key)
  {
    assert (uses + [key])[..|uses|] == uses;
  }

  /** The cache holds the `capacity` most recently used keys, in the order of their last use. */
  lemma {:induction false} HoldsMostRecentlyUsed(capacity: nat, ops: seq<Operation>)
    requires 1 <= capacity
    ensures Keys(Run(capacity, ops)) == Prefix(ByLastUse(Uses(capacity, ops)), capacity)
  {
    if ops != [] {
      var init, op := ops[..|ops| - 1], ops[|ops| - 1];
      HoldsMostRecentlyUsed(capacity, init);
      var uses := Uses(capacity, init);
      AfterOnKeys(Run(capacity, init), capacity, op);
      if op.Put? || op.key in Keys(Run(capacity, init)) {
        ByLastUseDistinct(uses);
        StepOnPrefix(ByLastUse(uses), capacity, op);
        ByLastUseGrows(uses, op.key);
        assert Uses(capacity, ops) == uses + [op.key];
      } else {
        assert Uses(capacity, ops) == uses;
      }
    }
  }

  // ---------------------------------------------------------------- caches of two sizes

  predicate IsSubsequence(a: seq<int>, b: seq<int>) {
    a == [] || (b != [] && ((a[0] == b[0] && IsSubsequence(a[1..], b[1..])) || IsSubsequence(a, b[1..])))
  }

  lemma {:induction false} SubsequenceMembers(a: seq<int>, b: seq<int>)
    requires IsSubsequence(a, b)
    ensures forall x :: x in a ==> x in b
    ensures |a| <= |b|
  {
    if a != [] {
      assert a == [a[0]] + a[1..] && b == [b[0]] + b[1..];
      if a[0] == b[0] && IsSubsequence(a[1..], b[1..]) {
        SubsequenceMembers(a[1..], b[1..]);
      } else {
        SubsequenceMembers(a, b[1..]);
      }
    }
  }

  lemma {:induction false} SubsequenceSelf(a: seq<int>)
    ensures IsSubsequence(a, a)
  {
    if a != [] {
      SubsequenceSelf(a[1..]);
    }
  }

  lemma {:induction false} SubsequenceRemove(a: seq<int>, b: seq<int>, key: int)
    requires IsSubsequence(a, b)
    ensures IsSubsequence(Remove(a, key), Remove(b, key))
  {
    if a != [] {
      if a[0] == b[0] && IsSubsequence(a[1..], b[1..]) {
        SubsequenceRemove(a[1..], b[1..], key);
      } else {
        SubsequenceRemove(a, b[1..], key);
      }
    }
  }

  /** Dropping the last element on the left, or on both sides. */
  lemma {:induction false} SubsequenceDropLast(a: seq<int>, b: seq<int>)
    requires IsSubsequence(a, b) && a != []
    ensures IsSubsequence(a[..|a| - 1], b) && IsSubsequence(a[..|a| - 1], b[..|b| - 1])
  {
    SubsequenceMembers(a, b);
    if a[0] == b[0] && IsSubsequence(a[1..], b[1..]) {
      if |a| > 1 {
        SubsequenceDropLast(a[1..], b[1..]);
        assert a[1..][..|a| - 2] == a[..|a| - 1][1..] && b[1..][..|b| - 2] == b[..|b| - 1][1..];
      }
    } else {
      SubsequenceMembers(a, b[1..]);
      SubsequenceDropLast(a, b[1..]);
      assert b[1..][..|b| - 2] == b[..|b| - 1][1..];
    }
  }

  lemma HitKeepsSubsequence(small: seq<int>, large: seq<int>, c: nat, d: nat, op: Operation)
    requires 1 <= c <= d && IsSubsequence(small, large) && op.key in small
    ensures IsSubsequence(KeysAfter(small, c, op), KeysAfter(large, d, op))
  {
    SubsequenceMembers(small, large);
    SubsequenceRemove(small, large, op.key);
    SubsequenceHead(op.key, Remove(small, op.key), Remove(large, op.key));
  }

  lemma GetMissKeepsSubsequence(small: seq<int>, large: seq<int>, c: nat, d: nat, op: Operation)
    requires 1 <= c <= d && IsSubsequence(small, large) && op.key !in small && op.Get?
    ensures IsSubsequence(KeysAfter(small, c, op), KeysAfter(large, d, op))
  {
    SubsequenceRemove(small, large, op.key);
    SubsequenceCons(small, op.key, Remove(large, op.key));
  }

  lemma PutMissKeepsSubsequence(small: seq<int>, large: seq<int>, c: nat, d: nat, op: Operation)
    requires 1 <= c <= d && |small| == c && IsSubsequence(small, large) && op.key !in small && op.Put?
    ensures IsSubsequence(KeysAfter(small, c, op), KeysAfter(large, d, op))
  {
    SubsequenceDropLast(small, large);
    var kept := small[..c - 1];
    assert op.key !in kept;
    SubsequenceRemove(kept, large, op.key);
    SubsequenceHead(op.key, kept, Remove(large, op.key));
    SubsequenceHead(op.key, kept, large);
    SubsequenceHead(op.key, kept, large[..|large| - 1]);
  }

  lemma StepKeepsSubsequence(small: seq<int>, large: seq<int>, c: nat, d: nat, op: Operation)
    requires 1 <= c <= d && |small| <= c && |large| <= d && Distinct(small)
    requires IsSubsequence(small, large) && (|small| < c ==> small == large)
    ensures IsSubsequence(KeysAfter(small, c, op), KeysAfter(large, d, op))
    ensures |KeysAfter(small, c, op)| < c ==> KeysAfter(small, c, op) == KeysAfter(large, d, op)
  {
    if |small| < c {
      SubsequenceSelf(KeysAfter(small, c, op));
    } else if op.key in small {
      RemoveOne(small, op.key);
      HitKeepsSubsequence(small, large, c, d, op);
    } else if op.Get? {
      GetMissKeepsSubsequence(small, large, c, d, op);
    } else {
      PutMissKeepsSubsequence(small, large, c, d, op);
    }
  }

  lemma SubsequenceHead(x: int, a: seq<int>, b: seq<int>)
    ensures IsSubsequence(a, b) ==> IsSubsequence([x] + a, [x] + b)
  {
  }

  lemma SubsequenceCons(a: seq<int>, x: int, b: seq<int>)
    ensures IsSubsequence(a, b) ==> IsSubsequence(a, [x] + b)
  {
  }

  /** For one trace the keys of a smaller cache are always a subsequence of those of a larger one. */
  lemma {:induction false} LargerCacheKeepsMore(c: nat, d: nat, ops: seq<Operation>)
    requires 1 <= c <= d
    ensures IsSubsequence(Keys(Run(c, ops)), Keys(Run(d, ops)))
    ensures |Run(c, ops)| < c ==> Keys(Run(c, ops)) == Keys(Run(d, ops))
  {
    if ops != [] {
      var init, op := ops[..|ops| - 1], ops[|ops| - 1];
      LargerCacheKeepsMore(c, d, init);
      RunIsBounded(c, init);
      RunIsBounded(d, init);
      AfterOnKeys(Run(c, init), c, op);
      AfterOnKeys(Run(d, init), d, op);
      StepKeepsSubsequence(Keys(Run(c, init)), Keys(Run(d, init)), c, d, op);
    }
  }

  /** Enlarging a cache never loses a hit. */
  lemma LargerCacheHits(c: nat, d: nat, ops: seq<Operation>, key: int)
    requires 1 <= c <= d && Find(Run(c, ops), key).Some?
    ensures Find(Run(d, ops), key).Some?
  {
    LargerCacheKeepsMore(c, d, ops);
    SubsequenceMembers(Keys(Run(c, ops)), Keys(Run(d, ops)));
  }
}
