/** Whether a larger cache answers a hit of a smaller one with the same value. A `Put` of a key that is present
    does not update it, so the answer depends on what may be put. */
module LruStale {
  import opened Options
  import opened LruSpec

  /** All items put by the trace are from `w`. */
  ghost predicate DrawnFrom(ops: seq<Operation>, w: iset<Item>) {
    forall i :: 0 <= i < |ops| && ops[i].Put? ==> Item(ops[i].key, ops[i].value) in w
  }

  /** Every hit in the cache of size `c` gives the same item in the cache of size `d`. */
  ghost predicate SameHits(c: nat, d: nat, w: iset<Item>)
    requires 1 <= c && 1 <= d
  {
    forall ops, key :: DrawnFrom(ops, w) && Find(Run(c, ops), key).Some? ==>
      Find(Run(d, ops), key) == Find(Run(c, ops), key)
  }

  /** Two values may be put under `key`. */
  ghost predicate Contested(w: iset<Item>, key: int) {
    exists v1, v2 :: v1 != v2 && Item(key, v1) in w && Item(key, v2) in w
  }

  ghost predicate Others(w: iset<Item>, key: int, items: seq<Item>) {
    && Distinct(Keys(items)) && key !in Keys(items)
    && (forall i :: 0 <= i < |items| ==> items[i] in w)
  }

  /** There are `n` other keys to put. */
  ghost predicate HasOthers(w: iset<Item>, key: int, n: nat) {
    exists items :: |items| == n && Others(w, key, items)
  }

  // ---------------------------------------------------------------- few keys: nothing is evicted

  lemma {:induction false} WithoutMembers(s: seq<Item>, key: int)
    ensures forall x :: x in Without(s, key) ==> x in s
  {
    if s != [] {
      WithoutMembers(s[1..], key);
    }
  }

  lemma {:induction false} ContentsDrawn(capacity: nat, w: iset<Item>, ops: seq<Operation>)
    requires 1 <= capacity && DrawnFrom(ops, w)
    ensures forall x :: x in Run(capacity, ops) ==> x in w
  {
    if ops != [] {
      var init, op := ops[..|ops| - 1], ops[|ops| - 1];
      ContentsDrawn(capacity, w, init);
      WithoutMembers(Run(capacity, init), op.key);
    }
  }

  /** More than `n` distinct keys include `n` other ones. */
  lemma EnoughOthers(w: iset<Item>, key: int, items: seq<Item>)
    requires Distinct(Keys(items)) && items != [] && forall i :: 0 <= i < |items| ==> items[i] in w
    ensures HasOthers(w, key, |items| - 1)
  {
    var i: nat := 0;
    if key in Keys(items) {
      i :| 0 <= i < |items| && Keys(items)[i] == key;
    }
    var rest := items[..i] + items[i + 1..];
    forall j | 0 <= j < |rest|
      ensures rest[j] in w && rest[j].key == Keys(items)[if j < i then j else j + 1]
    {
    }
    if key !in Keys(items) {
      assert forall j :: 0 <= j < |items| ==> Keys(items)[j] != key;
    }
    assert Others(w, key, rest);
  }

  /** Too few keys for an eviction from the smaller cache: both hold the same. */
  lemma {:induction false} FewKeysSame(c: nat, d: nat, w: iset<Item>, key: int, ops: seq<Operation>)
    requires 1 <= c <= d && DrawnFrom(ops, w) && !HasOthers(w, key, c)
    ensures Run(c, ops) == Run(d, ops)
  {
    if ops != [] {
      var init, op := ops[..|ops| - 1], ops[|ops| - 1];
      FewKeysSame(c, d, w, key, init);
      RunIsBounded(c, init);
      ContentsDrawn(c, w, init);
      if op.Put? && op.key !in Keys(Run(c, init)) {
        RoomLeft(c, w, key, Run(c, init), Item(op.key, op.value));
      }
      SameStep(Run(c, init), c, d, op);
    }
  }

  lemma RoomLeft(c: nat, w: iset<Item>, key: int, s: seq<Item>, added: Item)
    requires !HasOthers(w, key, c) && added in w && forall x :: x in s ==> x in w
    requires Distinct(Keys(s)) && added.key !in Keys(s)
    ensures |s| != c
  {
    var items := [added] + s;
    assert Keys(items) == [added.key] + Keys(s);
    DistinctCons(added.key, Keys(s));
    EnoughOthers(w, key, items);
  }

  lemma SameStep(s: seq<Item>, c: nat, d: nat, op: Operation)
    requires 1 <= c <= d && |s| <= c && (op.Put? && op.key !in Keys(s) ==> |s| != c)
    ensures After(s, c, op) == After(s, d, op)
  {
  }

  lemma AgreeingHits(c: nat, d: nat, w: iset<Item>, ops: seq<Operation>, key: int)
    requires 1 <= c <= d && DrawnFrom(ops, w) && Find(Run(c, ops), key).Some?
    requires Contested(w, key) ==> !HasOthers(w, key, c)
    ensures Find(Run(d, ops), key) == Find(Run(c, ops), key)
  {
    LargerCacheHits(c, d, ops, key);
    ContentsDrawn(c, w, ops);
    ContentsDrawn(d, w, ops);
    if Contested(w, key) {
      FewKeysSame(c, d, w, key, ops);
    }
  }

  // ---------------------------------------------------------------- enough keys: a stale value

  /** An item is put, then others. */
  function Puts(first: Item, others: seq<Item>): seq<Operation> {
    if others == [] then [Put(first.key, first.value)]
    else
      var last := others[|others| - 1];
      Puts(first, others[..|others| - 1]) + [Put(last.key, last.value)]
  }

  function Filled(first: Item, others: seq<Item>): seq<Item> {
    if others == [] then [first] else [others[|others| - 1]] + Filled(first, others[..|others| - 1])
  }

  lemma {:induction false} PutsDrawn(first: Item, others: seq<Item>, w: iset<Item>)
    requires first in w && forall i :: 0 <= i < |others| ==> others[i] in w
    ensures DrawnFrom(Puts(first, others), w)
  {
    if others != [] {
      PutsDrawn(first, others[..|others| - 1], w);
    }
  }

  lemma {:induction false} FilledKeys(first: Item, others: seq<Item>)
    ensures var s := Filled(first, others); |s| == |others| + 1 && s[|others|] == first
    ensures forall k :: k in Keys(Filled(first, others)) ==> k == first.key || k in Keys(others)
  {
    if others != [] {
      var init, last := others[..|others| - 1], others[|others| - 1];
      FilledKeys(first, init);
      assert Keys(Filled(first, others)) == [last.key] + Keys(Filled(first, init));
      assert Keys(others) == Keys(init) + [last.key];
    }
  }

  /** A cache with room for all of them keeps all of them. */
  lemma {:induction false} PutsFill(capacity: nat, first: Item, others: seq<Item>)
    requires |others| < capacity && Distinct(Keys(others)) && first.key !in Keys(others)
    ensures Run(capacity, Puts(first, others)) == Filled(first, others)
  {
    if others == [] {
      var ops := Puts(first, []);
      assert ops[..0] == [] && Run(capacity, []) == [];
      assert Run(capacity, ops) == After([], capacity, ops[0]);
    } else {
      var init, last := others[..|others| - 1], others[|others| - 1];
      DistinctInit(others);
      PutsFill(capacity, first, init);
      FilledKeys(first, init);
      RunPut(capacity, Puts(first, init), last);
      NewPut(Filled(first, init), capacity, last);
    }
  }

  lemma DistinctInit(items: seq<Item>)
    requires items != [] && Distinct(Keys(items))
    ensures var init, last := items[..|items| - 1], items[|items| - 1];
            && Distinct(Keys(init)) && last.key !in Keys(init)
            && forall k :: k in Keys(items) <==> k in Keys(init) || k == last.key
  {
    var init, last := items[..|items| - 1], items[|items| - 1];
    assert Keys(items) == Keys(init) + [last.key];
  }

  lemma RunPut(capacity: nat, ops: seq<Operation>, item: Item)
    requires 1 <= capacity
    ensures Run(capacity, ops + [Put(item.key, item.value)]) ==
            After(Run(capacity, ops), capacity, Put(item.key, item.value))
  {
    assert (ops + [Put(item.key, item.value)])[..|ops|] == ops;
  }

  lemma NewPut(s: seq<Item>, capacity: nat, item: Item)
    requires 1 <= capacity && item.key !in Keys(s)
    ensures After(s, capacity, Put(item.key, item.value)) == [item] + if |s| == capacity then s[..|s| - 1] else s
  {
  }

  /** The smaller cache has lost the first item and takes the new value; the larger one keeps the old value. */
  lemma StaleHit(c: nat, d: nat, key: int, v1: int, v2: int, others: seq<Item>) returns (ops: seq<Operation>)
    requires 1 <= c < d && |others| == c && Distinct(Keys(others)) && key !in Keys(others)
    ensures ops == Puts(Item(key, v1), others) + [Put(key, v2)]
    ensures Find(Run(c, ops), key) == Some(Item(key, v2)) && Find(Run(d, ops), key) == Some(Item(key, v1))
  {
    var first, before := Item(key, v1), Puts(Item(key, v1), others);
    ops := before + [Put(key, v2)];
    RunPut(c, before, Item(key, v2));
    RunPut(d, before, Item(key, v2));
    SmallForgets(c, first, others);
    NewPut(Run(c, before), c, Item(key, v2));
    PutsFill(d, first, others);
    LargeRemembers(first, others);
  }

  /** The smallest case. */
  lemma LargerCacheMayBeStale()
    ensures var ops := [Put(1, 10), Put(2, 20), Put(1, 11)];
            Find(Run(1, ops), 1) == Some(Item(1, 11)) && Find(Run(2, ops), 1) == Some(Item(1, 10))
  {
    var ops := StaleHit(1, 2, 1, 10, 11, [Item(2, 20)]);
    assert Puts(Item(1, 10), []) == [Put(1, 10)];
    assert Puts(Item(1, 10), [Item(2, 20)]) == [Put(1, 10)] + [Put(2, 20)];
    assert ops == [Put(1, 10), Put(2, 20), Put(1, 11)];
  }

  lemma SmallForgets(c: nat, first: Item, others: seq<Item>)
    requires 1 <= c && |others| == c && Distinct(Keys(others)) && first.key !in Keys(others)
    ensures first.key !in Keys(Run(c, Puts(first, others)))
  {
    var init, last := others[..c - 1], others[c - 1];
    DistinctInit(others);
    FirstIsLast(first, init);
    var s := Filled(first, init);
    LastPut(c, first, others);
    assert Keys([last] + s[..|s| - 1]) == [last.key] + Keys(s[..|s| - 1]);
  }

  /** The last of the others does not fit any more: the first item makes way. */
  lemma LastPut(c: nat, first: Item, others: seq<Item>)
    requires 1 <= c && |others| == c && Distinct(Keys(others)) && first.key !in Keys(others)
    ensures var s := Filled(first, others[..c - 1]);
            |s| == c && Run(c, Puts(first, others)) == [others[c - 1]] + s[..|s| - 1]
  {
    var init, last := others[..c - 1], others[c - 1];
    DistinctInit(others);
    PutsFill(c, first, init);
    FilledKeys(first, init);
    RunPut(c, Puts(first, init), last);
    NewPut(Filled(first, init), c, last);
  }

  /** The first item stands at the back, and only there. */
  lemma {:induction false} FirstIsLast(first: Item, others: seq<Item>)
    requires first.key !in Keys(others)
    ensures |Filled(first, others)| == |others| + 1
    ensures first.key !in Keys(Filled(first, others)[..|others|])
    ensures Filled(first, others)[|others|] == first
  {
    if others != [] {
      var init, last := others[..|others| - 1], others[|others| - 1];
      assert Keys(others) == Keys(init) + [last.key];
      FirstIsLast(first, init);
      assert Filled(first, others)[..|others|] == [last] + Filled(first, init)[..|init|];
    }
  }

  lemma {:induction false} LargeRemembers(first: Item, others: seq<Item>)
    requires first.key !in Keys(others)
    ensures Find(Filled(first, others), first.key) == Some(first)
  {
    if others != [] {
      var init, last := others[..|others| - 1], others[|others| - 1];
      assert Keys(others) == Keys(init) + [last.key];
      LargeRemembers(first, init);
    }
  }

  // ---------------------------------------------------------------- the exact condition

  /** No key that may be put with two values has `c` other keys beside it. */
  ghost predicate Agreeable(w: iset<Item>, c: nat) {
    forall key :: Contested(w, key) ==> !HasOthers(w, key, c)
  }

  /** A larger cache gives the same values exactly if what may be put is such; a single value for each key is
      enough, and so are too few keys for an eviction. */
  lemma SameHitsIff(c: nat, d: nat, w: iset<Item>)
    requires 1 <= c < d
    ensures SameHits(c, d, w) <==> Agreeable(w, c)
  {
    if Agreeable(w, c) {
      forall ops, key | DrawnFrom(ops, w) && Find(Run(c, ops), key).Some?
        ensures Find(Run(d, ops), key) == Find(Run(c, ops), key)
      {
        AgreeingHits(c, d, w, ops, key);
      }
    } else {
      var key :| Contested(w, key) && HasOthers(w, key, c);
      NotSame(c, d, w, key);
    }
  }

  lemma NotSame(c: nat, d: nat, w: iset<Item>, key: int)
    requires 1 <= c < d && Contested(w, key) && HasOthers(w, key, c)
    ensures !SameHits(c, d, w)
  {
    var v1, v2 :| v1 != v2 && Item(key, v1) in w && Item(key, v2) in w;
    var others :| |others| == c && Others(w, key, others);
    PutsDrawn(Item(key, v1), others, w);
    var ops := StaleHit(c, d, key, v1, v2, others);
    assert DrawnFrom(ops, w);
  }
}
