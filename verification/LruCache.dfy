/** The cache itself: an index by key over the nodes of an intrusive list kept in recency order. */
module LruCache {
  import opened Options
  import opened LruSpec
  import IntrusiveList

  type Node = IntrusiveList.ListNode<Item>

  ghost predicate Filled(nodes: seq<Node>) {
    forall i :: 0 <= i < |nodes| ==> nodes[i].data.Some?
  }

  ghost function Items(nodes: seq<Node>): (items: seq<Item>)
    requires Filled(nodes)
  {
    seq(|nodes|, i requires 0 <= i < |nodes| => nodes[i].data.value)
  }

  /** The index and the list hold the same nodes, each under its own key. */
  ghost predicate Indexed(index: map<int, Node>, nodes: seq<Node>) {
    && Filled(nodes) && |index| == |nodes|
    && (forall i :: 0 <= i < |nodes| ==> nodes[i].data.value.key in index && index[nodes[i].data.value.key] == nodes[i])
    && (forall k :: k in index ==> index[k] in nodes && index[k].data.Some? && index[k].data.value.key == k)
  }

  lemma KeysOfIndex(index: map<int, Node>, nodes: seq<Node>, key: int)
    requires Indexed(index, nodes)
    ensures key in index <==> key in Keys(Items(nodes))
  {
    if key in index {
      var i :| 0 <= i < |nodes| && nodes[i] == index[key];
      assert Keys(Items(nodes))[i] == key;
    }
  }

  /** A lookup in the index is a lookup in the recency order. */
  lemma FoundInIndex(index: map<int, Node>, nodes: seq<Node>, key: int)
    requires Indexed(index, nodes)
    ensures Find(Items(nodes), key) == if key in index then Some(index[key].data.value) else None
  {
    KeysOfIndex(index, nodes, key);
    var found := Find(Items(nodes), key);
    if key in index {
      assert found.Some?;
      var i :| 0 <= i < |nodes| && Items(nodes)[i] == found.value;
    }
  }

  ghost predicate Lacks(s: seq<Item>, key: int) {
    forall i :: 0 <= i < |s| ==> s[i].key != key
  }

  lemma {:induction false} WithoutAbsent(s: seq<Item>, key: int)
    requires Lacks(s, key)
    ensures Without(s, key) == s
  {
    if s != [] {
      WithoutAbsent(s[1..], key);
    }
  }

  lemma {:induction false} WithoutMiddle(a: seq<Item>, x: Item, b: seq<Item>)
    requires Lacks(a, x.key) && Lacks(b, x.key)
    ensures Without(a + ([x] + b), x.key) == a + b
  {
    var s := a + ([x] + b);
    if a == [] {
      assert s == [x] + b;
      assert s[1..] == b && a + b == b;
      WithoutAbsent(b, x.key);
    } else {
      assert s[1..] == a[1..] + ([x] + b);
      WithoutMiddle(a[1..], x, b);
    }
  }

  lemma OtherKeysDiffer(index: map<int, Node>, nodes: seq<Node>, i: nat, j: nat)
    requires Indexed(index, nodes) && IntrusiveList.Distinct(nodes) && i < |nodes| && j < |nodes| && i != j
    ensures nodes[i].data.value.key != nodes[j].data.value.key
  {
  }

  /** Taking a node out of the list takes its item out of the recency order. */
  lemma CutItem(index: map<int, Node>, nodes: seq<Node>, i: nat)
    requires Indexed(index, nodes) && IntrusiveList.Distinct(nodes) && i < |nodes|
    ensures var rest := nodes[..i] + nodes[i + 1..];
            Filled(rest) && Items(rest) == Without(Items(nodes), nodes[i].data.value.key)
  {
    var items := Items(nodes);
    var x, a, b := items[i], items[..i], items[i + 1..];
    forall j | 0 <= j < |nodes| && j != i
      ensures items[j].key != x.key
    {
      OtherKeysDiffer(index, nodes, i, j);
    }
    WithoutMiddle(a, x, b);
    assert items == a + ([x] + b);
    assert Items(nodes[..i] + nodes[i + 1..]) == a + b;
  }

  lemma SameNodes(nodes: seq<Node>, i: nat)
    requires i < |nodes|
    ensures forall x :: x in [nodes[i]] + (nodes[..i] + nodes[i + 1..]) <==> x in nodes
  {
    assert nodes == nodes[..i] + [nodes[i]] + nodes[i + 1..];
  }

  /** The order of the nodes does not matter to the index. */
  lemma Reordered(index: map<int, Node>, nodes: seq<Node>, nodes': seq<Node>)
    requires Indexed(index, nodes) && |nodes'| == |nodes| && forall x :: x in nodes' <==> x in nodes
    ensures Indexed(index, nodes')
  {
    forall i | 0 <= i < |nodes'|
      ensures nodes'[i].data.Some? && nodes'[i].data.value.key in index
      ensures index[nodes'[i].data.value.key] == nodes'[i]
    {
      assert nodes'[i] in nodes;
    }
  }

  lemma MovedToFront(index: map<int, Node>, nodes: seq<Node>, i: nat)
    requires Indexed(index, nodes) && IntrusiveList.Distinct(nodes) && i < |nodes|
    ensures var n, rest := nodes[i], nodes[..i] + nodes[i + 1..];
            && n !in rest && (forall x :: x in [n] + rest <==> x in nodes)
            && Indexed(index, [n] + rest) && Items([n] + rest) == Promoted(Items(nodes), n.data.value)
  {
    var n, rest := nodes[i], nodes[..i] + nodes[i + 1..];
    IntrusiveList.DistinctCut(nodes, i);
    SameNodes(nodes, i);
    Reordered(index, nodes, [n] + rest);
    CutItem(index, nodes, i);
    assert Items([n] + rest) == [n.data.value] + Items(rest);
  }

  /** A new item in front. */
  lemma AddedToFront(index: map<int, Node>, nodes: seq<Node>, n: Node)
    requires Indexed(index, nodes) && n.data.Some? && n.data.value.key !in index
    ensures n !in nodes
    ensures Indexed(index[n.data.value.key := n], [n] + nodes)
    ensures Items([n] + nodes) == [n.data.value] + Items(nodes)
  {
  }

  /** The last node leaves both the list and the index. */
  lemma LastErased(index: map<int, Node>, nodes: seq<Node>)
    requires Indexed(index, nodes) && IntrusiveList.Distinct(nodes) && nodes != []
    ensures var last := |nodes| - 1;
            && Indexed(index - {nodes[last].data.value.key}, nodes[..last])
            && Items(nodes[..last]) == Items(nodes)[..last]
  {
  }

  class Lru {
    const capacity_: nat
    const cache_: IntrusiveList.List<Item>
    var index_: map<int, Node>

    ghost predicate Valid()
      reads this, cache_, cache_.storage, cache_.nodes
    {
      cache_.Valid() && |index_| <= capacity_ && 1 <= capacity_ && Indexed(index_, cache_.nodes)
    }

    ghost function Recency(): seq<Item>
      reads this, cache_
      requires Filled(cache_.nodes)
    {
      Items(cache_.nodes)
    }

    constructor (capacity: nat)
      requires 1 <= capacity
      ensures Valid() && capacity_ == capacity && Recency() == []
      ensures fresh(cache_) && fresh(cache_.storage)
    {
      capacity_ := capacity;
      cache_ := new IntrusiveList.List();
      index_ := map[];
    }

    method Size() returns (size: nat)
      requires Valid()
      ensures size == |Recency()| <= capacity_
    {
      size := |index_|;
    }

    /** The item under `key`, already in the index, moves to the front. */
    method Promote(key: int)
      requires Valid() && key in index_
      modifies cache_`nodes, cache_.storage`prev, cache_.storage`next, cache_.nodes`prev, cache_.nodes`next
      ensures Valid() && Recency() == Promoted(old(Recency()), old(index_[key].data.value))
      ensures forall n :: n in cache_.nodes <==> n in old(cache_.nodes)
    {
      var tmpItem := index_[key];
      ghost var nodes := cache_.nodes;
      ghost var i :| 0 <= i < |nodes| && nodes[i] == tmpItem;
      MovedToFront(index_, nodes, i);
      cache_.DetachAt(tmpItem, i);
      cache_.PushFront(tmpItem);
    }

    /** The least recently used item makes way. */
    method Evict()
      requires Valid() && index_ != map[]
      modifies this`index_
      modifies cache_`nodes, cache_.storage`prev, cache_.storage`next, cache_.nodes`prev, cache_.nodes`next
      ensures Valid() && |index_| == old(|index_|) - 1
      ensures cache_.nodes == old(cache_.nodes)[..|old(cache_.nodes)| - 1] && index_.Keys <= old(index_.Keys)
      ensures Recency() == old(Recency())[..old(|Recency()|) - 1]
    {
      LastErased(index_, cache_.nodes);
      var backItem := cache_.PopBack();
      index_ := index_ - {backItem.data.value.key};
    }

    method InsertNew(key: int, value: int)
      requires Valid() && key !in index_ && |index_| < capacity_
      modifies this`index_
      modifies cache_`nodes, cache_.storage`prev, cache_.storage`next, cache_.nodes`prev, cache_.nodes`next
      ensures Valid() && Recency() == [Item(key, value)] + old(Recency())
      ensures forall n :: n in cache_.nodes && n !in old(cache_.nodes) ==> fresh(n)
    {
      var added := new IntrusiveList.ListNode(Some(Item(key, value)));
      AddedToFront(index_, cache_.nodes, added);
      index_ := index_[key := added];
      cache_.PushFront(added);
    }

    method Put(key: int, value: int)
      requires Valid()
      modifies this`index_
      modifies cache_`nodes, cache_.storage`prev, cache_.storage`next, cache_.nodes`prev, cache_.nodes`next
      ensures Valid() && Recency() == After(old(Recency()), capacity_, LruSpec.Put(key, value))
      ensures forall n :: n in cache_.nodes && n !in old(cache_.nodes) ==> fresh(n)
    {
      FoundInIndex(index_, cache_.nodes, key);
      if key !in index_ {
        if |index_| == capacity_ {
          Evict();
        }
        InsertNew(key, value);
        return;
      }
      Promote(key);
    }

    /** A hit also becomes the most recently used item. */
    method Get(key: int) returns (value: Option<int>)
      requires Valid()
      modifies cache_`nodes, cache_.storage`prev, cache_.storage`next, cache_.nodes`prev, cache_.nodes`next
      ensures Valid() && Recency() == After(old(Recency()), capacity_, LruSpec.Get(key))
      ensures value == match Find(old(Recency()), key) case None => None case Some(hit) => Some(hit.value)
      ensures forall n :: n in cache_.nodes <==> n in old(cache_.nodes)
    {
      FoundInIndex(index_, cache_.nodes, key);
      if key !in index_ {
        return None;
      }
      Promote(key);
      value := Some(index_[key].data.value.value);
    }
  }
}
