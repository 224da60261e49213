/** Sorting by a "less" test, as Go's `sort.SliceStable` does on short slices, by inserting one element after the
    other, in place; and what any sorted permutation has in common: that it is ordered, that it keeps the
    elements, and, where the test is a strict total order, that there is only one. The rankings and the
    notifications both build on it. */
module Sorting {

  /** No later element is less than an earlier one. */
  ghost predicate Sorted<T>(s: seq<T>, less: (T, T) -> bool) {
    forall i, j :: 0 <= i < j < |s| ==> !less(s[j], s[i])
  }

  /** A strict order in which any two different elements compare. */
  ghost predicate StrictTotal<T(!new)>(less: (T, T) -> bool) {
    && (forall x :: !less(x, x))
    && (forall x, y, z :: less(x, y) && less(y, z) ==> less(x, z))
    && (forall x, y :: x == y || less(x, y) || less(y, x))
  }

  function Insert<T>(s: seq<T>, x: T, less: (T, T) -> bool): (r: seq<T>)
    ensures |r| == |s| + 1
  {
    if s == [] || !less(x, s[|s| - 1]) then s + [x]
    else Insert(s[..|s| - 1], x, less) + [s[|s| - 1]]
  }

  function InsertionSorted<T>(s: seq<T>, less: (T, T) -> bool): (r: seq<T>)
    ensures |r| == |s|
  {
    if s == [] then [] else Insert(InsertionSorted(s[..|s| - 1], less), s[|s| - 1], less)
  }

  lemma {:induction false} InsertPermutes<T>(s: seq<T>, x: T, less: (T, T) -> bool)
    ensures multiset(Insert(s, x, less)) == multiset(s) + multiset{x}
  {
    if s != [] {
      InsertPermutes(s[..|s| - 1], x, less);
      assert s == s[..|s| - 1] + [s[|s| - 1]];
    }
  }

  lemma {:induction false} SortingPermutes<T>(s: seq<T>, less: (T, T) -> bool)
    ensures multiset(InsertionSorted(s, less)) == multiset(s)
  {
    if s != [] {
      SortingPermutes(s[..|s| - 1], less);
      InsertPermutes(InsertionSorted(s[..|s| - 1], less), s[|s| - 1], less);
      assert s == s[..|s| - 1] + [s[|s| - 1]];
    }
  }

  lemma {:induction false} InsertKeepsSorted<T(!new)>(s: seq<T>, x: T, less: (T, T) -> bool)
    requires StrictTotal(less) && Sorted(s, less)
    ensures Sorted(Insert(s, x, less), less)
  {
    if s == [] || !less(x, s[|s| - 1]) {
      forall i | 0 <= i < |s| ensures !less(x, s[i]) {
        assert i < |s| - 1 ==> !less(s[|s| - 1], s[i]);
        assert s[|s| - 1] == s[i] || less(s[i], s[|s| - 1]) || i == |s| - 1;
      }
    } else {
      var init, last := s[..|s| - 1], s[|s| - 1];
      var r := Insert(init, x, less);
      InsertKeepsSorted(init, x, less);
      InsertPermutes(init, x, less);
      forall i | 0 <= i < |r| ensures !less(last, r[i]) {
        assert r[i] in multiset(r);
        assert r[i] in multiset(init) || r[i] == x;
      }
    }
  }

  lemma {:induction false} SortedResult<T(!new)>(s: seq<T>, less: (T, T) -> bool)
    requires StrictTotal(less)
    ensures Sorted(InsertionSorted(s, less), less)
  {
    if s != [] {
      SortedResult(s[..|s| - 1], less);
      InsertKeepsSorted(InsertionSorted(s[..|s| - 1], less), s[|s| - 1], less);
    }
  }

  lemma SortedHead<T(!new)>(s: seq<T>, x: T, less: (T, T) -> bool)
    requires s != [] && Sorted(s, less) && x in multiset(s)
    ensures !less(x, s[0]) || x == s[0]
  {
    var i :| 0 <= i < |s| && s[i] == x;
  }

  lemma HeadsAgree<T(!new)>(s: seq<T>, t: seq<T>, less: (T, T) -> bool)
    requires StrictTotal(less) && Sorted(s, less) && Sorted(t, less) && multiset(s) == multiset(t) && s != [] && t != []
    ensures s[0] == t[0]
  {
    assert s[0] in multiset(s) && t[0] in multiset(t);
    SortedHead(s, t[0], less);
    SortedHead(t, s[0], less);
  }

  lemma TailSorted<T(!new)>(s: seq<T>, less: (T, T) -> bool)
    requires s != [] && Sorted(s, less)
    ensures Sorted(s[1..], less)
  {}

  lemma TailMultiset<T>(s: seq<T>)
    requires s != []
    ensures multiset(s[1..]) == multiset(s) - multiset{s[0]}
  {
    assert s == [s[0]] + s[1..];
  }

  /** Two sorted arrangements of the same elements are the same sequence. */
  lemma {:induction false} SortedUnique<T(!new)>(s: seq<T>, t: seq<T>, less: (T, T) -> bool)
    requires StrictTotal(less) && Sorted(s, less) && Sorted(t, less) && multiset(s) == multiset(t)
    ensures s == t
    decreases |s|
  {
    hide *;
    assert |s| == |multiset(s)| == |multiset(t)| == |t|;
    if s != [] {
      HeadsAgree(s, t, less);
      TailSorted(s, less);
      TailSorted(t, less);
      TailMultiset(s);
      TailMultiset(t);
      SortedUnique(s[1..], t[1..], less);
      assert s == [s[0]] + s[1..] && t == [t[0]] + t[1..];
    }
  }

  /** Insertion stops behind the last element that is not greater. */
  lemma {:induction false} InsertAt<T>(s: seq<T>, x: T, j: nat, less: (T, T) -> bool)
    requires j <= |s| && (j == 0 || !less(x, s[j - 1])) && forall k :: j <= k < |s| ==> less(x, s[k])
    ensures Insert(s, x, less) == s[..j] + [x] + s[j..]
    decreases |s|
  {
    if j < |s| {
      var init, last := s[..|s| - 1], s[|s| - 1];
      InsertAt(init, x, j, less);
      assert Insert(s, x, less) == Insert(init, x, less) + [last];
      assert init[..j] == s[..j] && init[j..] + [last] == s[j..];
    } else {
      assert s[..j] == s && s[j..] == [];
    }
  }

  /** Insertion of one element in place, by swaps with its left neighbour. */
  method InsertInPlace<T>(a: array<T>, n: nat, less: (T, T) -> bool)
    requires n < a.Length
    modifies a
    ensures a[..n + 1] == Insert(old(a[..n]), old(a[n]), less) && a[n + 1..] == old(a[n + 1..])
  {
    ghost var s, x := a[..n], a[n];
    var j := n;
    while j > 0 && less(a[j], a[j - 1])
      invariant 0 <= j <= n && a[j] == x
      invariant forall k :: 0 <= k < j ==> a[k] == s[k]
      invariant forall k :: j <= k < n ==> a[k + 1] == s[k] && less(x, s[k])
      invariant forall k :: n < k < a.Length ==> a[k] == old(a[k])
    {
      a[j], a[j - 1] := a[j - 1], a[j];
      j := j - 1;
    }
    InsertAt(s, x, j, less);
    assert a[..n + 1] == s[..j] + [x] + s[j..];
  }

  lemma SortedPrefixGrows<T>(s: seq<T>, n: nat, less: (T, T) -> bool)
    requires n < |s|
    ensures InsertionSorted(s[..n + 1], less) == Insert(InsertionSorted(s[..n], less), s[n], less)
  {
    assert s[..n + 1][..n] == s[..n];
  }

  /** The in-place sort. */
  method SliceStable<T>(a: array<T>, less: (T, T) -> bool)
    modifies a
    ensures a[..] == InsertionSorted(old(a[..]), less)
  {
    ghost var s := a[..];
    for n := 0 to a.Length
      invariant a[..n] == InsertionSorted(s[..n], less)
      invariant forall k :: n <= k < a.Length ==> a[k] == s[k]
    {
      label before:
      SortedPrefixGrows(s, n, less);
      InsertInPlace(a, n, less);
      forall k | n + 1 <= k < a.Length ensures a[k] == s[k] {
        assert a[k] == a[n + 1..][k - n - 1] == old@before(a[n + 1..])[k - n - 1];
      }
    }
    assert s[..a.Length] == s && a[..a.Length] == a[..];
  }
}
