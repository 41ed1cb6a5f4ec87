/**
 * Rust's slice `sort` and `sort_by`, which the source treats as black boxes:
 * the slice ends up ordered by the comparison and is a permutation of what it
 * held. Both are modelled by one in-place insertion sort that orders the
 * elements by an integer key (`sort` is the identity key; `sort_by` with a
 * comparator that compares positions is the position key).
 */
module Sorting {

  /** `s` is ascending by `key`. */
  ghost predicate SortedBy(s: seq<int>, key: int -> int) {
    forall i, j :: 0 <= i < j < |s| ==> key(s[i]) <= key(s[j])
  }

  method Swap(a: array<int>, i: nat, j: nat)
    requires i < a.Length && j < a.Length
    modifies a
    ensures a[..] == old(a[..])[i := old(a[j])][j := old(a[i])]
    ensures multiset(a[..]) == multiset(old(a[..]))
  {
    a[i], a[j] := a[j], a[i];
  }

  /** Sorts `a` in place, ascending by `key`, and keeps its elements. */
  method SortBy(a: array<int>, key: int -> int)
    modifies a
    ensures SortedBy(a[..], key)
    ensures multiset(a[..]) == multiset(old(a[..]))
  {
    var i := 0;
    while i < a.Length
      invariant 0 <= i <= a.Length
      invariant SortedBy(a[..i], key)
      invariant multiset(a[..]) == multiset(old(a[..]))
    {
      InsertLast(a, i, key);
      i := i + 1;
    }
    assert a[..a.Length] == a[..];
  }

  /** Moves `a[i]` left into the sorted prefix `a[..i]`. */
  method InsertLast(a: array<int>, i: nat, key: int -> int)
    requires i < a.Length
    requires SortedBy(a[..i], key)
    modifies a
    ensures SortedBy(a[..i + 1], key)
    ensures multiset(a[..]) == multiset(old(a[..]))
  {
    var j := i;
    while j > 0 && key(a[j - 1]) > key(a[j])
      invariant 0 <= j <= i
      invariant multiset(a[..]) == multiset(old(a[..]))
      invariant forall p, q :: 0 <= p < q <= i && q != j ==> key(a[p]) <= key(a[q])
      invariant 0 < j < i ==> key(a[j - 1]) <= key(a[j + 1])
    {
      Swap(a, j - 1, j);
      j := j - 1;
    }
  }
}
