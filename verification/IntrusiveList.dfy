/** The intrusive circular list: nodes carry their own links, and a sentinel closes the ring. */
module IntrusiveList {
  import opened Options

  /** A list node; `data` is the object the node is part of, which the sentinel lacks. */
  class ListNode<T> {
    const data: Option<T>
    var prev: ListNode?<T>
    var next: ListNode?<T>

    constructor (data: Option<T>)
      ensures this.data == data && prev == null && next == null
    {
      this.data := data;
      prev, next := null, null;
    }

    /** Links a detached node in front of `next`. */
    method Attach(next: ListNode<T>)
      requires next.prev != null && this != next && this != next.prev
      modifies this`prev, this`next, next`prev, next.prev`next
      ensures prev == old(next.prev) && prev.next == this
      ensures this.next == next && next.prev == this
    {
      prev := next.prev;
      next.prev := this;
      prev.next := this;
      this.next := next;
    }

    method Detach()
      requires next != this && prev != this
      modifies this`prev, this`next
      modifies (if next == null then {} else {next})`prev, (if prev == null then {} else {prev})`next
      ensures prev == null && next == null
      ensures old(next) != null ==> old(next).prev == old(prev)
      ensures old(prev) != null ==> old(prev).next == old(next)
    {
      if next != null {
        next.prev := prev;
      }
      if prev != null {
        prev.next := next;
      }
      next, prev := null, null;
    }
  }

  ghost predicate Distinct<T>(s: seq<ListNode<T>>) {
    forall i, j :: 0 <= i < j < |s| ==> s[i] != s[j]
  }

  lemma DistinctInsert<T>(s: seq<ListNode<T>>, i: nat, n: ListNode<T>)
    requires Distinct(s) && n !in s && i <= |s|
    ensures Distinct(s[..i] + [n] + s[i..])
    ensures forall x :: x in s[..i] + [n] + s[i..] <==> x in s || x == n
  {
    assert s == s[..i] + s[i..];
  }

  lemma DistinctCut<T>(s: seq<ListNode<T>>, i: nat)
    requires Distinct(s) && i < |s|
    ensures Distinct(s[..i] + s[i + 1..])
    ensures forall x :: x in s[..i] + s[i + 1..] <==> x in s && x != s[i]
  {
    assert s == s[..i] + [s[i]] + s[i + 1..];
  }

  /** Once around the ring, from the sentinel back to it. */
  ghost function Closed<T>(storage: ListNode<T>, nodes: seq<ListNode<T>>): seq<ListNode<T>> {
    [storage] + nodes + [storage]
  }

  /** Each element links to the one after it, and back. */
  ghost predicate Chained<T(!new)>(s: seq<ListNode<T>>)
    reads s
  {
    forall i :: 0 <= i < |s| - 1 ==> s[i].next == s[i + 1] && s[i + 1].prev == s[i]
  }

  /** The sentinel may be both the first of `a` and the last of `b`; no other node occurs twice. */
  ghost predicate Ends<T>(a: seq<ListNode<T>>, b: seq<ListNode<T>>) {
    && a != [] && b != []
    && (forall j :: 0 <= j < |a| - 1 ==> a[j] != a[|a| - 1])
    && (forall j :: 0 <= j < |b| - 1 ==> b[j] != a[|a| - 1])
    && (forall j :: 1 <= j < |a| ==> a[j] != b[0])
    && (forall j :: 1 <= j < |b| ==> b[j] != b[0])
  }

  lemma ClosedEnds<T>(storage: ListNode<T>, nodes: seq<ListNode<T>>, i: nat)
    requires Distinct(nodes) && storage !in nodes && i <= |nodes|
    ensures Ends([storage] + nodes[..i], nodes[i..] + [storage])
  {
  }

  /** `n.Attach(next)` between two parts of the ring. */
  method AttachBetween<T(!new)>(
    n: ListNode<T>, ghost prev: ListNode<T>, next: ListNode<T>, ghost a: seq<ListNode<T>>, ghost b: seq<ListNode<T>>)
    requires Ends(a, b) && n !in a && n !in b && a[|a| - 1] == prev && b[0] == next
    requires Chained(a) && Chained(b) && next.prev == prev
    modifies n`prev, n`next, next`prev, prev`next
    ensures Chained(a + [n] + b)
  {
    n.Attach(next);
    assert Chained(a) && Chained(b);
    Joined(a, n, b);
  }

  lemma Joined<T(!new)>(a: seq<ListNode<T>>, n: ListNode<T>, b: seq<ListNode<T>>)
    requires a != [] && b != [] && Chained(a) && Chained(b)
    requires a[|a| - 1].next == n && n.prev == a[|a| - 1] && n.next == b[0] && b[0].prev == n
    ensures Chained(a + [n] + b)
  {
  }

  lemma Separate<T(!new)>(a: seq<ListNode<T>>, b: seq<ListNode<T>>)
    requires a != [] && b != []
    ensures Chained(a + b) <==> Chained(a) && Chained(b) && a[|a| - 1].next == b[0] && b[0].prev == a[|a| - 1]
  {
    var s := a + b;
    assert forall j :: 0 <= j < |a| ==> s[j] == a[j];
    assert forall j :: 0 <= j < |b| ==> s[|a| + j] == b[j];
    if Chained(s) {
      assert s[|a| - 1].next == s[|a| - 1 + 1];
      forall j | 0 <= j < |b| - 1
        ensures b[j].next == b[j + 1] && b[j + 1].prev == b[j]
      {
        assert s[|a| + j].next == s[|a| + j + 1];
      }
    }
  }

  /** `n.Detach()` between two parts of the ring. */
  method DetachBetween<T(!new)>(
    n: ListNode<T>, ghost prev: ListNode<T>, ghost next: ListNode<T>,
    ghost a: seq<ListNode<T>>, ghost b: seq<ListNode<T>>)
    requires Ends(a, b) && n !in a && n !in b && a[|a| - 1] == prev && b[0] == next
    requires Chained(a) && Chained(b) && n.prev == prev && n.next == next
    modifies n`prev, n`next, next`prev, prev`next
    ensures Chained(a + b) && n.prev == null && n.next == null
  {
    n.Detach();
    assert Chained(a) && Chained(b);
    Separate(a, b);
  }

  class List<T(!new)> {
    const storage: ListNode<T>
    /** The nodes from the front to the back. */
    ghost var nodes: seq<ListNode<T>>

    ghost function Ring(): seq<ListNode<T>>
      reads this
    {
      Closed(storage, nodes)
    }

    ghost predicate Valid()
      reads this, storage, nodes
    {
      storage !in nodes && Distinct(nodes) && Chained(Ring())
    }

    constructor ()
      ensures Valid() && nodes == [] && fresh(storage)
    {
      storage := new ListNode(None);
      nodes := [];
      new;
      storage.next := storage;
      storage.prev := storage;
    }

    method Empty() returns (empty: bool)
      requires Valid()
      ensures empty <==> nodes == []
    {
      empty := storage.next == storage;
      assert Ring()[0].next == Ring()[1];
      assert nodes != [] ==> Ring()[1] == nodes[0];
    }

    /** `n.Attach(next)` seen from the list; `next` has `i` nodes before it. */
    method AttachAt(n: ListNode<T>, next: ListNode<T>, ghost i: nat)
      requires Valid() && n != storage && n !in nodes && i <= |nodes| && next == Ring()[i + 1]
      modifies this`nodes, n`prev, n`next, storage`prev, storage`next, nodes`prev, nodes`next
      ensures Valid() && nodes == old(nodes)[..i] + [n] + old(nodes)[i..]
    {
      ghost var a, b := [storage] + nodes[..i], nodes[i..] + [storage];
      assert Ring() == a + b;
      Separate(a, b);
      ClosedEnds(storage, nodes, i);
      DistinctInsert(nodes, i, n);
      AttachBetween(n, a[i], next, a, b);
      nodes := nodes[..i] + [n] + nodes[i..];
      assert Ring() == a + [n] + b;
    }

    /** `n.Detach()` seen from the list. */
    method DetachAt(n: ListNode<T>, ghost i: nat)
      requires Valid() && i < |nodes| && nodes[i] == n
      modifies this`nodes, storage`prev, storage`next, nodes`prev, nodes`next
      ensures Valid() && nodes == old(nodes)[..i] + old(nodes)[i + 1..]
      ensures n.prev == null && n.next == null
    {
      ghost var a, b := [storage] + nodes[..i], nodes[i + 1..] + [storage];
      ghost var rest := nodes[..i] + nodes[i + 1..];
      assert Ring() == a + ([n] + b);
      Separate(a, [n] + b);
      Separate([n], b);
      DistinctCut(nodes, i);
      ClosedEnds(storage, rest, i);
      assert rest[..i] == nodes[..i] && rest[i..] == nodes[i + 1..];
      DetachBetween(n, a[i], b[0], a, b);
      nodes := rest;
      assert Ring() == a + b;
    }

    method PushFront(n: ListNode<T>)
      requires Valid() && n != storage && n !in nodes
      modifies this`nodes, n`prev, n`next, storage`prev, storage`next, nodes`prev, nodes`next
      ensures Valid() && nodes == [n] + old(nodes)
    {
      assert Ring()[0].next == Ring()[1];
      AttachAt(n, storage.next, 0);
    }

    method PushBack(n: ListNode<T>)
      requires Valid() && n != storage && n !in nodes
      modifies this`nodes, n`prev, n`next, storage`prev, storage`next, nodes`prev, nodes`next
      ensures Valid() && nodes == old(nodes) + [n]
    {
      AttachAt(n, storage, |nodes|);
    }

    method PopFront() returns (front: ListNode?<T>)
      requires Valid()
      modifies this`nodes, storage`prev, storage`next, nodes`prev, nodes`next
      ensures Valid()
      ensures front == null <==> old(nodes) == []
      ensures front != null ==> old(nodes) == [front] + nodes && front.prev == null && front.next == null
      ensures front == null ==> nodes == []
    {
      var empty := Empty();
      if empty {
        return null;
      }
      assert Ring()[0].next == Ring()[1] == nodes[0];
      front := storage.next;
      DetachAt(front, 0);
    }

    method PopBack() returns (back: ListNode?<T>)
      requires Valid()
      modifies this`nodes, storage`prev, storage`next, nodes`prev, nodes`next
      ensures Valid()
      ensures back == null <==> old(nodes) == []
      ensures back != null ==> old(nodes) == nodes + [back] && back.prev == null && back.next == null
      ensures back == null ==> nodes == []
    {
      var empty := Empty();
      if empty {
        return null;
      }
      ghost var last := |nodes|;
      assert Ring()[last + 1].prev == Ring()[last] == nodes[last - 1];
      back := storage.prev;
      DetachAt(back, last - 1);
    }
  }
}
