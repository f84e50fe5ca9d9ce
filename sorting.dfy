/** `Array.prototype.sort` with a comparator, on an array the caller owns:
    an insertion sort by adjacent swaps. Both the table rows and the genre
    vocabulary are sorted with it. */
module Sorting {

  /** Adjacent elements with indices in [lo, hi) are in comparator order
      (`cmp` is zero or negative). */
  ghost predicate OrderedBetween<T>(s: seq<T>, cmp: (T, T) -> real, lo: int, hi: int)
  {
    forall k :: 0 <= lo <= k && k + 1 < hi <= |s| ==> cmp(s[k], s[k + 1]) <= 0.0
  }

  /** `cmp(x, y)` is the negation of `cmp(y, x)`, as for every comparator
      of the dashboards. */
  ghost predicate Antisymmetric<T(!new)>(cmp: (T, T) -> real)
  {
    forall x, y :: cmp(x, y) == -cmp(y, x)
  }

  /** `a.sort(cmp)`: afterwards `a` holds the same elements and each one is
      ordered before or level with the next. */
  method SortInPlace<T(!new)>(a: array<T>, cmp: (T, T) -> real)
    requires Antisymmetric(cmp)
    modifies a
    ensures multiset(a[..]) == multiset(old(a[..]))
    ensures OrderedBetween(a[..], cmp, 0, a.Length)
  {
    var i := 1;
    while i < a.Length
      invariant a.Length == 0 || 1 <= i <= a.Length
      invariant OrderedBetween(a[..], cmp, 0, i)
      invariant multiset(a[..]) == multiset(old(a[..]))
    {
      InsertAt(a, i, cmp);
      i := i + 1;
    }
  }

  /** One outer step: moves `a[i]` left past every element that must
      follow it. */
  method InsertAt<T(!new)>(a: array<T>, i: int, cmp: (T, T) -> real)
    requires Antisymmetric(cmp)
    requires 1 <= i < a.Length
    requires OrderedBetween(a[..], cmp, 0, i)
    modifies a
    ensures OrderedBetween(a[..], cmp, 0, i + 1)
    ensures multiset(a[..]) == multiset(old(a[..]))
  {
    var j := i;
    while j > 0 && cmp(a[j - 1], a[j]) > 0.0
      invariant 0 <= j <= i
      invariant OrderedBetween(a[..], cmp, 0, j)
      invariant OrderedBetween(a[..], cmp, j, i + 1)
      invariant 0 < j < i ==> cmp(a[j - 1], a[j + 1]) <= 0.0
      invariant multiset(a[..]) == multiset(old(a[..]))
      decreases j
    {
      ghost var before := a[..];
      a[j - 1], a[j] := a[j], a[j - 1];
      assert a[..] == before[j - 1 := before[j]][j := before[j - 1]];
      SwapKeepsOrder(before, a[..], j, i, cmp);
      SwapKeepsElements(before, j);
      j := j - 1;
    }
  }

  /** The swap inside the inner loop keeps both runs ordered. */
  lemma SwapKeepsOrder<T(!new)>(s: seq<T>, t: seq<T>, j: int, i: int, cmp: (T, T) -> real)
    requires Antisymmetric(cmp)
    requires 0 < j <= i < |s|
    requires t == s[j - 1 := s[j]][j := s[j - 1]]
    requires OrderedBetween(s, cmp, 0, j)
    requires OrderedBetween(s, cmp, j, i + 1)
    requires j < i ==> cmp(s[j - 1], s[j + 1]) <= 0.0
    requires cmp(s[j - 1], s[j]) > 0.0
    ensures OrderedBetween(t, cmp, 0, j - 1)
    ensures OrderedBetween(t, cmp, j - 1, i + 1)
    ensures 0 < j - 1 ==> cmp(t[j - 2], t[j]) <= 0.0
  {
    assert cmp(s[j], s[j - 1]) == -cmp(s[j - 1], s[j]);
    forall k | j - 1 <= k && k + 1 < i + 1
      ensures cmp(t[k], t[k + 1]) <= 0.0
    {
      if k >= j + 1 {
        assert t[k] == s[k] && t[k + 1] == s[k + 1];
      }
    }
  }

  lemma SwapKeepsElements<T>(s: seq<T>, j: int)
    requires 0 < j < |s|
    ensures multiset(s[j - 1 := s[j]][j := s[j - 1]]) == multiset(s)
  {
  }
}
