/** Strictly increasing sequences, as in-order traversals of search trees give them. */
module SortedSequences {

  predicate Increasing(s: seq<int>) {
    forall i, j :: 0 <= i < j < |s| ==> s[i] < s[j]
  }

  lemma IncreasingAround(a: seq<int>, k: int, b: seq<int>)
    requires Increasing(a) && Increasing(b)
    requires (forall x :: x in a ==> x < k) && (forall x :: x in b ==> k < x)
    ensures Increasing(a + [k] + b)
  {
    var s := a + [k] + b;
    forall i, j | 0 <= i < j < |s|
      ensures s[i] < s[j]
    {
      assert i < |a| ==> s[i] == a[i] && a[i] in a;
      assert i > |a| ==> s[i] == b[i - |a| - 1];
      assert j < |a| ==> s[j] == a[j];
      assert j > |a| ==> s[j] == b[j - |a| - 1] && b[j - |a| - 1] in b;
    }
  }
}
