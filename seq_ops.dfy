// Sequence folds standing for the standard-library algorithms the snippets
// call (std::accumulate, std::count_if, std::max_element, std::min_element,
// views::filter, views::transform) and for the element lambdas they pass.
// Every recursive definition peels off the LAST element, so that a loop that
// walks a sequence from the front keeps `x == F(s[..i])` as its invariant.
module SeqOps {

  /** The lambda `x % 2 == 0` (codes/ch3.cpp, codes/ch8.cpp, ch9-1.cpp). */
  predicate Even(x: int) {
    x % 2 == 0
  }

  /** `square` of codes/ch14.cpp and the `x * x` lambdas of ch6.cpp,
      codes/ch8.cpp and ch15.cpp. */
  function Square(x: int): (r: int)
    ensures r >= 0
    ensures r == 0 <==> x == 0
  {
    x * x
  }

  /** std::accumulate with initial value 0. */
  function Sum(s: seq<int>): int {
    if s == [] then 0 else Sum(s[..|s| - 1]) + s[|s| - 1]
  }

  /** std::count_if. */
  function CountIf<T>(s: seq<T>, p: T -> bool): (n: nat)
    ensures n <= |s|
  {
    if s == [] then 0
    else CountIf(s[..|s| - 1], p) + (if p(s[|s| - 1]) then 1 else 0)
  }

  /** views::filter (and std::remove_if, with the predicate negated): as
      many elements as pass, each from the input and passing. FilterKeeps
      states that every passing element is kept. */
  function Filter<T>(s: seq<T>, p: T -> bool): (r: seq<T>)
    ensures |r| == CountIf(s, p)
    ensures forall i :: 0 <= i < |r| ==> r[i] in s && p(r[i])
  {
    if s == [] then []
    else
      var rest := Filter(s[..|s| - 1], p);
      assert forall i :: 0 <= i < |s| - 1 ==> s[i] == s[..|s| - 1][i];
      if p(s[|s| - 1]) then rest + [s[|s| - 1]] else rest
  }

  /** views::transform and std::transform: `f` applied to every element. */
  function Map<T, U>(s: seq<T>, f: T -> U): (r: seq<U>)
    ensures |r| == |s|
    ensures forall i :: 0 <= i < |s| ==> r[i] == f(s[i])
  {
    if s == [] then [] else Map(s[..|s| - 1], f) + [f(s[|s| - 1])]
  }

  /** The value `*std::max_element(first, last)` denotes, for a non-empty range. */
  function SeqMax(s: seq<int>): (m: int)
    requires |s| > 0
    ensures m in s
    ensures forall x :: x in s ==> x <= m
  {
    if |s| == 1 then s[0]
    else
      var m := SeqMax(s[..|s| - 1]);
      assert forall x :: x in s ==> x in s[..|s| - 1] || x == s[|s| - 1];
      if s[|s| - 1] > m then s[|s| - 1] else m
  }

  /** The value `*std::min_element(first, last)` denotes, for a non-empty range. */
  function SeqMin(s: seq<int>): (m: int)
    requires |s| > 0
    ensures m in s
    ensures forall x :: x in s ==> m <= x
  {
    if |s| == 1 then s[0]
    else
      var m := SeqMin(s[..|s| - 1]);
      assert forall x :: x in s ==> x in s[..|s| - 1] || x == s[|s| - 1];
      if s[|s| - 1] < m then s[|s| - 1] else m
  }

  /** The concatenation of a sequence of sequences. */
  function Flatten<T>(ss: seq<seq<T>>): seq<T> {
    if ss == [] then [] else Flatten(ss[..|ss| - 1]) + ss[|ss| - 1]
  }

  /** Chunk boundaries: `bounds[i]` is where chunk i starts and `bounds[i+1]`
      where it ends; they never decrease and stay within the sequence. */
  predicate Monotone(n: nat, bounds: seq<nat>) {
    && (forall i, j :: 0 <= i <= j < |bounds| ==> bounds[i] <= bounds[j])
    && (forall i :: 0 <= i < |bounds| ==> bounds[i] <= n)
  }

  /** Monotone boundaries that start at 0 and end at n. */
  predicate ValidBounds(n: nat, bounds: seq<nat>) {
    && |bounds| >= 1
    && bounds[0] == 0
    && bounds[|bounds| - 1] == n
    && Monotone(n, bounds)
  }

  /** The chunks `s[bounds[i] .. bounds[i+1])`, one per adjacent pair of bounds. */
  function Slices<T>(s: seq<T>, bounds: seq<nat>): (r: seq<seq<T>>)
    requires |bounds| >= 1 && Monotone(|s|, bounds)
    ensures |r| == |bounds| - 1
    ensures forall i :: 0 <= i < |r| ==> r[i] == s[bounds[i]..bounds[i + 1]]
  {
    seq(|bounds| - 1, i requires 0 <= i < |bounds| - 1 => s[bounds[i]..bounds[i + 1]])
  }

  /** 1, 2, ..., n: what `std::iota(v.begin(), v.end(), 1)` writes into a
      vector of n elements, and the literal vectors {1, 2, ..., n}. */
  function OneTo(n: nat): (s: seq<int>)
    ensures |s| == n
  {
    if n == 0 then [] else OneTo(n - 1) + [n]
  }

  // ---------------------------------------------------------------------------
  // Lemmas

  lemma {:induction false} SumAppend(a: seq<int>, b: seq<int>)
    ensures Sum(a + b) == Sum(a) + Sum(b)
    decreases |b|
  {
    if b == [] {
      assert a + b == a;
    } else {
      assert (a + b)[..|a + b| - 1] == a + b[..|b| - 1];
      SumAppend(a, b[..|b| - 1]);
    }
  }

  lemma {:induction false} CountIfAppend<T>(a: seq<T>, b: seq<T>, p: T -> bool)
    ensures CountIf(a + b, p) == CountIf(a, p) + CountIf(b, p)
    decreases |b|
  {
    if b == [] {
      assert a + b == a;
    } else {
      assert (a + b)[..|a + b| - 1] == a + b[..|b| - 1];
      CountIfAppend(a, b[..|b| - 1], p);
    }
  }

  /** Filtering commutes with concatenation: the kept elements stay in their
      original relative order. With FilterSingleton this pins Filter down. */
  lemma {:induction false} FilterAppend<T>(a: seq<T>, b: seq<T>, p: T -> bool)
    ensures Filter(a + b, p) == Filter(a, p) + Filter(b, p)
    decreases |b|
  {
    if b == [] {
      assert a + b == a;
    } else {
      assert (a + b)[..|a + b| - 1] == a + b[..|b| - 1];
      FilterAppend(a, b[..|b| - 1], p);
    }
  }

  /** Every element that passes is kept. */
  lemma {:induction false} FilterKeeps<T>(s: seq<T>, p: T -> bool)
    ensures forall i :: 0 <= i < |s| && p(s[i]) ==> s[i] in Filter(s, p)
    decreases |s|
  {
    if s != [] {
      var front := s[..|s| - 1];
      FilterKeeps(front, p);
      forall i | 0 <= i < |s| && p(s[i]) ensures s[i] in Filter(s, p) {
        if i < |s| - 1 {
          assert s[i] == front[i];
        }
      }
    }
  }

  lemma FilterSingleton<T>(x: T, p: T -> bool)
    ensures Filter([x], p) == if p(x) then [x] else []
  {
    assert [x][..0] == [];
  }

  /** Filtering a sequence whose elements all pass leaves it unchanged. */
  lemma {:induction false} FilterAllKept<T>(s: seq<T>, p: T -> bool)
    requires forall i :: 0 <= i < |s| ==> p(s[i])
    ensures Filter(s, p) == s
    decreases |s|
  {
    if s != [] {
      FilterAllKept(s[..|s| - 1], p);
      assert s[..|s| - 1] + [s[|s| - 1]] == s;
    }
  }

  /** Filtering a sequence none of whose elements pass gives nothing. */
  lemma FilterAllRejected<T>(s: seq<T>, p: T -> bool)
    requires forall i :: 0 <= i < |s| ==> !p(s[i])
    ensures Filter(s, p) == []
  {
  }

  lemma {:induction false} MapAppend<T, U>(a: seq<T>, b: seq<T>, f: T -> U)
    ensures Map(a + b, f) == Map(a, f) + Map(b, f)
  {
  }

  lemma {:induction false} FlattenMember<T>(ss: seq<seq<T>>, x: T)
    ensures x in Flatten(ss) <==> exists i :: 0 <= i < |ss| && x in ss[i]
    decreases |ss|
  {
    if ss != [] {
      var front := ss[..|ss| - 1];
      FlattenMember(front, x);
      if x in Flatten(ss) && x !in ss[|ss| - 1] {
        var i :| 0 <= i < |front| && x in front[i];
        assert x in ss[i];
      }
      if exists i :: 0 <= i < |ss| && x in ss[i] {
        var i :| 0 <= i < |ss| && x in ss[i];
        if i < |ss| - 1 {
          assert x in front[i];
        }
      }
    }
  }

  /** The sum of the per-chunk sums is the sum of the whole. */
  lemma {:induction false} SumFlatten(ss: seq<seq<int>>, rs: seq<int>)
    requires |rs| == |ss|
    requires forall i :: 0 <= i < |ss| ==> rs[i] == Sum(ss[i])
    ensures Sum(Flatten(ss)) == Sum(rs)
    decreases |ss|
  {
    if ss != [] {
      SumFlatten(ss[..|ss| - 1], rs[..|rs| - 1]);
      SumAppend(Flatten(ss[..|ss| - 1]), ss[|ss| - 1]);
    }
  }

  /** The sum of the per-chunk counts is the count over the whole. */
  lemma {:induction false} CountIfFlatten<T>(ss: seq<seq<T>>, rs: seq<int>, p: T -> bool)
    requires |rs| == |ss|
    requires forall i :: 0 <= i < |ss| ==> rs[i] == CountIf(ss[i], p)
    ensures CountIf(Flatten(ss), p) == Sum(rs)
    decreases |ss|
  {
    if ss != [] {
      CountIfFlatten(ss[..|ss| - 1], rs[..|rs| - 1], p);
      CountIfAppend(Flatten(ss[..|ss| - 1]), ss[|ss| - 1], p);
    }
  }

  /** Chunks cut at valid boundaries tile the sequence: they are disjoint and
      their concatenation, in order, is exactly the sequence. */
  lemma SlicesTile<T>(s: seq<T>, bounds: seq<nat>)
    requires ValidBounds(|s|, bounds)
    ensures Flatten(Slices(s, bounds)) == s
  {
    var chunks := Slices(s, bounds);
    SlicesPrefix(s, bounds, |chunks|);
    assert chunks[..|chunks|] == chunks;
    assert s[..bounds[|bounds| - 1]] == s;
  }

  lemma {:induction false} SlicesPrefix<T>(s: seq<T>, bounds: seq<nat>, j: nat)
    requires |bounds| >= 1 && bounds[0] == 0 && Monotone(|s|, bounds)
    requires j < |bounds|
    ensures Flatten(Slices(s, bounds)[..j]) == s[..bounds[j]]
    decreases j
  {
    var chunks := Slices(s, bounds);
    if j == 0 {
      assert chunks[..0] == [];
    } else {
      SlicesPrefix(s, bounds, j - 1);
      assert chunks[..j][..j - 1] == chunks[..j - 1];
      assert chunks[j - 1] == s[bounds[j - 1]..bounds[j]];
      assert bounds[j - 1] <= bounds[j] <= |s|;
      assert s[..bounds[j - 1]] + s[bounds[j - 1]..bounds[j]] == s[..bounds[j]];
    }
  }

  /** The even numbers among 1..n are 2, 4, ..., in increasing order. */
  lemma {:induction false} EvensOfOneTo(n: nat)
    ensures Filter(OneTo(n), Even) == Evens(n / 2)
  {
    if n > 0 {
      EvensOfOneTo(n - 1);
      FilterOneToLast(n);
      EvensStep(n, Filter(OneTo(n - 1), Even), Filter(OneTo(n), Even));
    }
  }

  /** The evens up to n from the evens up to n - 1. */
  lemma EvensStep(n: nat, before: seq<int>, after: seq<int>)
    requires n > 0
    requires before == Evens((n - 1) / 2)
    requires after == before + (if Even(n) then [n] else [])
    ensures after == Evens(n / 2)
  {
    var m := (n - 1) / 2;
    if n % 2 == 0 {
      assert n / 2 == m + 1 && n == 2 * (m + 1);
    } else {
      assert n / 2 == m;
    }
  }

  /** 2, 4, ..., 2m. */
  function Evens(m: nat): (s: seq<int>)
    ensures |s| == m
  {
    if m == 0 then [] else Evens(m - 1) + [2 * m]
  }

  lemma FilterOneToLast(n: nat)
    requires n > 0
    ensures Filter(OneTo(n), Even) == Filter(OneTo(n - 1), Even) + (if Even(n) then [n] else [])
  {
    FilterAppend(OneTo(n - 1), [n], Even);
    FilterSingleton(n, Even);
  }

  /** Position i of 1..n holds i + 1. */
  lemma {:induction false} OneToAt(n: nat)
    ensures forall i :: 0 <= i < n ==> OneTo(n)[i] == i + 1
  {
    if n > 0 {
      OneToAt(n - 1);
    }
  }

  /** Position k of 2, 4, ..., 2m holds 2k + 2. */
  lemma {:induction false} EvensAt(m: nat)
    ensures forall k :: 0 <= k < m ==> Evens(m)[k] == 2 * k + 2
  {
    if m > 0 {
      EvensAt(m - 1);
    }
  }

  /** 1 + 2 + ... + n == n(n+1)/2. */
  lemma {:induction false} SumOneTo(n: nat)
    ensures Sum(OneTo(n)) == n * (n + 1) / 2
  {
    if n > 0 {
      SumOneTo(n - 1);
      assert OneTo(n)[..n - 1] == OneTo(n - 1);
    }
  }
}
