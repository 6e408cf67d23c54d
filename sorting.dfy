/**
  Sorting by a comparison, standing for Rust's `slice::sort` and `slice::sort_by`:
  the result is ordered by the comparison and is a permutation of the input.
*/
module Sorting {

  /** `le` is a total preorder: the shape of an `Ordering`-returning comparator. */
  ghost predicate TotalPreorder<T(!new)>(le: (T, T) -> bool) {
    && (forall a, b :: le(a, b) || le(b, a))
    && (forall a, b, c :: le(a, b) && le(b, c) ==> le(a, c))
  }

  ghost predicate SortedBy<T>(s: seq<T>, le: (T, T) -> bool) {
    forall i, j :: 0 <= i < j < |s| ==> le(s[i], s[j])
  }

  /** Insertion sort: each element goes after every element not greater than it. */
  method SortBy<T(!new)>(s: seq<T>, le: (T, T) -> bool) returns (r: seq<T>)
    requires TotalPreorder(le)
    ensures SortedBy(r, le)
    ensures multiset(r) == multiset(s)
  {
    r := [];
    for i := 0 to |s|
      invariant SortedBy(r, le)
      invariant multiset(r) == multiset(s[..i])
    {
      var x := s[i];
      var k := 0;
      while k < |r| && le(r[k], x)
        invariant 0 <= k <= |r|
        invariant forall j :: 0 <= j < k ==> le(r[j], x)
      {
        k := k + 1;
      }
      InsertKeepsSorted(r, k, x, le);
      r := r[..k] + [x] + r[k..];
      assert s[..i + 1] == s[..i] + [x];
    }
    assert s[..|s|] == s;
  }

  /** Putting `x` after every element not greater than it keeps the sequence sorted. */
  lemma InsertKeepsSorted<T(!new)>(r: seq<T>, k: nat, x: T, le: (T, T) -> bool)
    requires TotalPreorder(le) && SortedBy(r, le)
    requires k <= |r|
    requires forall j :: 0 <= j < k ==> le(r[j], x)
    requires k < |r| ==> !le(r[k], x)
    ensures SortedBy(r[..k] + [x] + r[k..], le)
    ensures multiset(r[..k] + [x] + r[k..]) == multiset(r) + multiset{x}
  {
    var t := r[..k] + [x] + r[k..];
    assert forall i :: 0 <= i < k ==> t[i] == r[i];
    assert forall i :: k < i < |t| ==> t[i] == r[i - 1];
    forall i, j | 0 <= i < j < |t|
      ensures le(t[i], t[j])
    {
      if j > k {
        assert le(x, r[k]);
        if i < k {
          assert le(r[i], r[j - 1]);
        } else if i == k {
          assert le(r[k], r[j - 1]) || k == j - 1;
        }
      }
    }
    InsertPermutes(r, k, x);
  }

  lemma InsertPermutes<T>(r: seq<T>, k: nat, x: T)
    requires k <= |r|
    ensures multiset(r[..k] + [x] + r[k..]) == multiset(r) + multiset{x}
  {
    assert r == r[..k] + r[k..];
  }
}
