// The in-place standard algorithms the snippets call on vectors: std::sort
// with a comparator of the form `key(a) < key(b)` or `key(a) > key(b)`, and
// std::transform writing into a range that may be its own input.
module Algorithms {

  /** `x` may stand before `y`: the comparator does not order `y` strictly
      before `x`. */
  predicate InOrder(x: int, y: int, descending: bool) {
    if descending then x >= y else x <= y
  }

  /** What std::sort promises for the comparator
      `descending ? key(a) > key(b) : key(a) < key(b)`: no later element
      compares strictly before an earlier one. */
  predicate SortedBy<T>(s: seq<T>, key: T -> int, descending: bool) {
    forall i, j :: 0 <= i < j < |s| ==> InOrder(key(s[i]), key(s[j]), descending)
  }

  method Swap<T>(a: array<T>, i: int, j: int)
    requires 0 <= i < j < a.Length
    modifies a
    ensures a[i] == old(a[j]) && a[j] == old(a[i])
    ensures forall k :: 0 <= k < a.Length && k != i && k != j ==> a[k] == old(a[k])
    ensures multiset(a[..]) == old(multiset(a[..]))
  {
    a[i], a[j] := a[j], a[i];
  }

  /** std::sort(a.begin(), a.end(), comparator): the array ends up a
      permutation of what it held, ordered by key. Elements with equal keys
      may end up in any order (std::sort is not stable); the model happens
      to be insertion sort. */
  method SortBy<T>(a: array<T>, key: T -> int, descending: bool)
    modifies a
    ensures SortedBy(a[..], key, descending)
    ensures multiset(a[..]) == old(multiset(a[..]))
  {
    var i := 0;
    while i < a.Length
      invariant 0 <= i <= a.Length
      invariant forall p, q :: 0 <= p < q < i ==> InOrder(key(a[p]), key(a[q]), descending)
      invariant multiset(a[..]) == old(multiset(a[..]))
    {
      var j := i;
      while 0 < j && !InOrder(key(a[j - 1]), key(a[j]), descending)
        invariant 0 <= j <= i
        invariant forall p, q :: 0 <= p < q <= i && p != j && q != j ==> InOrder(key(a[p]), key(a[q]), descending)
        invariant forall q :: j < q <= i ==> InOrder(key(a[j]), key(a[q]), descending)
        invariant multiset(a[..]) == old(multiset(a[..]))
      {
        Swap(a, j - 1, j);
        j := j - 1;
      }
      i := i + 1;
    }
  }

  /** std::transform(src.begin(), src.end(), dst.begin(), f): each of the first
      |src| elements of dst becomes f of the corresponding element of src.
      `dst` may be `src` itself (the in-place form); otherwise src is left
      unchanged. */
  method Transform(src: array<int>, dst: array<int>, f: int -> int)
    requires src.Length <= dst.Length
    modifies dst
    ensures forall i :: 0 <= i < src.Length ==> dst[i] == f(old(src[i]))
    ensures forall i :: src.Length <= i < dst.Length ==> dst[i] == old(dst[i])
    ensures src != dst ==> src[..] == old(src[..])
  {
    var i := 0;
    while i < src.Length
      invariant 0 <= i <= src.Length
      invariant forall k :: 0 <= k < i ==> dst[k] == f(old(src[k]))
      invariant forall k :: i <= k < src.Length ==> src[k] == old(src[k])
      invariant forall k :: src.Length <= k < dst.Length ==> dst[k] == old(dst[k])
      invariant src != dst ==> src[..] == old(src[..])
    {
      dst[i] := f(src[i]);
      i := i + 1;
    }
  }

  /** The key of a plain `a < b` or `a > b` comparator on ints. */
  function Id(x: int): int {
    x
  }

  /** Sorting determines its result: two sequences ordered the same way with
      the same elements are equal. So a sort by `<` or `>` on ints has one
      possible outcome, whatever algorithm std::sort uses. */
  lemma {:induction false} SortedUnique(s: seq<int>, t: seq<int>, descending: bool)
    requires SortedBy(s, Id, descending) && SortedBy(t, Id, descending)
    requires multiset(s) == multiset(t)
    ensures s == t
    decreases |s|
  {
    assert |s| == |multiset(s)| == |multiset(t)| == |t|;
    if s != [] {
      assert t[0] in multiset(t) && s[0] in multiset(s);
      SortedHead(s, t[0], descending);
      SortedHead(t, s[0], descending);
      TailElements(s, t);
      SortedUnique(s[1..], t[1..], descending);
    }
  }

  /** Two sequences with the same elements and the same head have tails with
      the same elements. */
  lemma TailElements(s: seq<int>, t: seq<int>)
    requires s != [] && t != [] && s[0] == t[0]
    requires multiset(s) == multiset(t)
    ensures multiset(s[1..]) == multiset(t[1..])
  {
    assert s == [s[0]] + s[1..] && t == [t[0]] + t[1..];
    assert multiset(s) == multiset{s[0]} + multiset(s[1..]);
    assert multiset(t) == multiset{t[0]} + multiset(t[1..]);
    assert multiset(s[1..]) == multiset(s) - multiset{s[0]};
    assert multiset(t[1..]) == multiset(t) - multiset{t[0]};
  }

  /** The first element of a sorted sequence comes no later than any element. */
  lemma SortedHead(s: seq<int>, x: int, descending: bool)
    requires SortedBy(s, Id, descending)
    requires x in s
    ensures InOrder(s[0], x, descending)
  {
    var j :| 0 <= j < |s| && s[j] == x;
    if j > 0 {
      assert InOrder(Id(s[0]), Id(s[j]), descending);
    }
  }

  /** No element occurs twice. */
  predicate Distinct<T(==)>(s: seq<T>) {
    forall i, j :: 0 <= i < j < |s| ==> s[i] != s[j]
  }

  /** In a sequence without repeats every value occurs at most once. */
  lemma {:induction false} DistinctMultiplicity<T>(s: seq<T>, x: T)
    requires Distinct(s)
    ensures multiset(s)[x] <= 1
    decreases |s|
  {
    if s != [] {
      assert s == [s[0]] + s[1..];
      DistinctMultiplicity(s[1..], x);
      if s[0] == x {
        assert x !in s[1..];
      }
    }
  }

  /** A value occurring at most once is not at two positions. */
  lemma TwoPositions<T>(s: seq<T>, i: int, j: int)
    requires 0 <= i < j < |s| && multiset(s)[s[i]] <= 1
    ensures s[i] != s[j]
  {
    assert s == s[..j] + s[j..];
    assert s[..j][i] == s[i] && s[j..][0] == s[j];
  }

  /** Reordering keeps a sequence free of repeats, so sorting does. */
  lemma PermutationDistinct<T>(s: seq<T>, t: seq<T>)
    requires Distinct(t) && multiset(s) == multiset(t)
    ensures Distinct(s)
  {
    forall i, j | 0 <= i < j < |s|
      ensures s[i] != s[j]
    {
      DistinctMultiplicity(t, s[i]);
      TwoPositions(s, i, j);
    }
  }
}
