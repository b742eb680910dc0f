// ch9-1.cpp: class `statistics` splits a vector into nThread chunks
// [i*n/nThread, (i+1)*n/nThread), applies a per-chunk function to each (on
// its own std::async task; modelled as sequential calls) and combines the
// per-chunk results with max_element, min_element or accumulate.
module Statistics {
  import opened SeqOps
  import opened CppInt

  /** The default argument of the constructor `statistics(int nThread = 8)`. */
  const DefaultThreads: int := 8

  // ---------------------------------------------------------------------------
  // The partition

  /** `v.begin() + i * v.size() / nThread`: where chunk i starts (and chunk
      i-1 ends). */
  function Boundary(n: nat, k: int, i: nat): nat
    requires k >= 1
  {
    i * n / k
  }

  /** The k+1 chunk boundaries: from 0 to n, never decreasing. */
  function Boundaries(n: nat, k: int): (bounds: seq<nat>)
    requires k >= 1
    ensures |bounds| == k + 1
    ensures forall i :: 0 <= i <= k ==> bounds[i] == Boundary(n, k, i)
    ensures ValidBounds(n, bounds)
  {
    BoundaryOrder(n, k);
    seq(k + 1, i requires 0 <= i <= k => Boundary(n, k, i))
  }

  /** Boundary 0 is 0, boundary k is n, and the boundaries never decrease. */
  lemma BoundaryOrder(n: nat, k: int)
    requires k >= 1
    ensures Boundary(n, k, 0) == 0 && Boundary(n, k, k) == n
    ensures forall i: nat, j: nat :: i <= j <= k ==> Boundary(n, k, i) <= Boundary(n, k, j) <= n
  {
    DivUnique(k * n, k, n, 0);
    forall i: nat, j: nat | i <= j <= k
      ensures Boundary(n, k, i) <= Boundary(n, k, j) <= n
    {
      MulMonotone(i, j, n);
      MulMonotone(j, k, n);
      DivMonotone(i * n, j * n, k);
      DivMonotone(j * n, k * n, k);
    }
  }

  /** The k chunks of v. */
  function Chunks(v: seq<int>, k: int): (chunks: seq<seq<int>>)
    requires k >= 1
    ensures |chunks| == k
    ensures forall i :: 0 <= i < k ==>
              var bounds := Boundaries(|v|, k); chunks[i] == v[bounds[i]..bounds[i + 1]]
  {
    Slices(v, Boundaries(|v|, k))
  }

  /** Chunk i is the slice the source passes to its task. */
  lemma ChunkAt(v: seq<int>, k: int, i: nat)
    requires 1 <= k && i < k
    ensures 0 <= i * |v| / k <= (i + 1) * |v| / k <= |v|
    ensures Chunks(v, k)[i] == v[i * |v| / k..(i + 1) * |v| / k]
  {
    var bounds := Boundaries(|v|, k);
    assert bounds[i] <= bounds[i + 1] <= |v|;
  }

  /** The chunks tile v: disjoint, in order, nothing left out. */
  lemma ChunksTile(v: seq<int>, k: int)
    requires k >= 1
    ensures Flatten(Chunks(v, k)) == v
  {
    SlicesTile(v, Boundaries(|v|, k));
  }

  /** Every chunk has floor(n/k) or ceil(n/k) elements. */
  lemma ChunkSize(n: nat, k: int, i: nat)
    requires k >= 1 && i < k
    ensures var size := Boundary(n, k, i + 1) - Boundary(n, k, i);
            size == n / k || (n % k != 0 && size == n / k + 1)
  {
    var a := i * n;
    var qa, ra := a / k, a % k;
    var q, r := n / k, n % k;
    assert (i + 1) * n == a + n;
    if ra + r < k {
      DivUnique(a + n, k, qa + q, ra + r);
    } else {
      DivUnique(a + n, k, qa + q + 1, ra + r - k);
    }
  }

  /** With at least as many elements as chunks, no chunk is empty. */
  lemma ChunksNonEmpty(v: seq<int>, k: int)
    requires 1 <= k <= |v|
    ensures forall i :: 0 <= i < k ==> |Chunks(v, k)[i]| > 0
  {
    DivMonotone(k, |v|, k);
    DivUnique(k, k, 1, 0);
    forall i | 0 <= i < k ensures |Chunks(v, k)[i]| > 0 {
      ChunkSize(|v|, k, i);
    }
  }

  /** The lambda of nEven: `count_if(sub_v, [](int x) { return x % 2 == 0; })`. */
  function CountEven(s: seq<int>): nat {
    CountIf(s, Even)
  }

  datatype Statistics = Statistics(nThread: int) {

    /** calc: one call of `func` per chunk, in chunk order. The futures are
        modelled as the values their tasks compute. With nThread == 0 there
        are no chunks and no results; a negative nThread makes
        `futures.reserve(nThread)` throw, which the model excludes. */
    method Calc<T>(v: seq<int>, func: seq<int> --> T) returns (results: seq<T>)
      requires 0 <= nThread
      requires forall i :: 0 <= i < nThread ==> func.requires(Chunks(v, nThread)[i])
      ensures |results| == nThread
      ensures forall i :: 0 <= i < nThread ==> results[i] == func(Chunks(v, nThread)[i])
    {
      var futures: seq<T> := [];
      var i := 0;
      while i < nThread
        invariant 0 <= i <= nThread
        invariant |futures| == i
        invariant forall j :: 0 <= j < i ==> futures[j] == func(Chunks(v, nThread)[j])
      {
        ChunkAt(v, nThread, i);
        var subV := v[i * |v| / nThread..(i + 1) * |v| / nThread];
        futures := futures + [func(subV)];
        i := i + 1;
      }
      results := [];
      i := 0;
      while i < |futures|
        invariant 0 <= i <= |futures|
        invariant results == futures[..i]
      {
        results := results + [futures[i]];
        i := i + 1;
      }
      assert futures[..i] == futures;
    }

    /** max: the largest element of v. Every chunk must be non-empty, since
        max_element of an empty chunk is dereferenced; that is what
        |v| >= nThread guarantees. */
    method Max(v: seq<int>) returns (m: int)
      requires 1 <= nThread <= |v|
      ensures m in v
      ensures forall x :: x in v ==> x <= m
    {
      ChunksNonEmpty(v, nThread);
      var results := Calc(v, SeqMax);
      m := SeqMax(results);
      var chunks := Chunks(v, nThread);
      ChunksTile(v, nThread);
      var i :| 0 <= i < |results| && results[i] == m;
      FlattenMember(chunks, m);
      forall x | x in v ensures x <= m {
        FlattenMember(chunks, x);
        var j :| 0 <= j < |chunks| && x in chunks[j];
        assert results[j] in results;
      }
    }

    /** min: the smallest element of v, under the same non-empty-chunk
        precondition as max. */
    method Min(v: seq<int>) returns (m: int)
      requires 1 <= nThread <= |v|
      ensures m in v
      ensures forall x :: x in v ==> m <= x
    {
      ChunksNonEmpty(v, nThread);
      var results := Calc(v, SeqMin);
      m := SeqMin(results);
      var chunks := Chunks(v, nThread);
      ChunksTile(v, nThread);
      var i :| 0 <= i < |results| && results[i] == m;
      FlattenMember(chunks, m);
      forall x | x in v ensures m <= x {
        FlattenMember(chunks, x);
        var j :| 0 <= j < |chunks| && x in chunks[j];
        assert results[j] in results;
      }
    }

    /** nEven: the number of even elements of v, for any nThread >= 1, empty
        chunks included (count_if of an empty range is 0). With nThread == 0
        nothing is counted and the result is 0. */
    method NEven(v: seq<int>) returns (count: int)
      requires 0 <= nThread
      ensures nThread >= 1 ==> count == CountIf(v, Even)
      ensures nThread == 0 ==> count == 0
    {
      var results := Calc(v, CountEven);
      count := Sum(results);
      if nThread >= 1 {
        ChunksTile(v, nThread);
        CountIfFlatten(Chunks(v, nThread), results, Even);
      }
    }
  
    /** max with empty chunks skipped: the largest element of any non-empty
        v, however many threads. This is what `max` evidently intends; as
        written it dereferences max_element of an empty chunk whenever
        v.size() < nThread. */
    method MaxSkippingEmpty(v: seq<int>) returns (m: int)
      requires 1 <= nThread && |v| >= 1
      ensures m in v
      ensures forall x :: x in v ==> x <= m
    {
      var chunks := Chunks(v, nThread);
      ChunksTile(v, nThread);
      var results: seq<int> := [];
      var i := 0;
      while i < nThread
        invariant 0 <= i <= nThread
        invariant forall r :: r in results ==> r in v
        invariant forall j :: 0 <= j < i && |chunks[j]| > 0 ==> SeqMax(chunks[j]) in results
      {
        if |chunks[i]| > 0 {
          var r := SeqMax(chunks[i]);
          FlattenMember(chunks, r);
          results := results + [r];
        }
        i := i + 1;
      }
      FlattenMember(chunks, v[0]);
      m := SeqMax(results);
      forall x | x in v ensures x <= m {
        FlattenMember(chunks, x);
        var j :| 0 <= j < |chunks| && x in chunks[j];
        assert SeqMax(chunks[j]) in results;
      }
    }

    /** min with empty chunks skipped, as for max. */
    method MinSkippingEmpty(v: seq<int>) returns (m: int)
      requires 1 <= nThread && |v| >= 1
      ensures m in v
      ensures forall x :: x in v ==> m <= x
    {
      var chunks := Chunks(v, nThread);
      ChunksTile(v, nThread);
      var results: seq<int> := [];
      var i := 0;
      while i < nThread
        invariant 0 <= i <= nThread
        invariant forall r :: r in results ==> r in v
        invariant forall j :: 0 <= j < i && |chunks[j]| > 0 ==> SeqMin(chunks[j]) in results
      {
        if |chunks[i]| > 0 {
          var r := SeqMin(chunks[i]);
          FlattenMember(chunks, r);
          results := results + [r];
        }
        i := i + 1;
      }
      FlattenMember(chunks, v[0]);
      m := SeqMin(results);
      forall x | x in v ensures m <= x {
        FlattenMember(chunks, x);
        var j :| 0 <= j < |chunks| && x in chunks[j];
        assert SeqMin(chunks[j]) in results;
      }
    }
  }

  /** As written, max and min need every chunk non-empty: with one element
      and the default 8 threads, chunk 0 is empty (0 * 1 / 8 == 1 * 1 / 8 == 0),
      so `*max_element(sub_v.begin(), sub_v.end())` dereferences the end
      iterator. */
  lemma ShortVectorHasEmptyChunk()
    ensures Chunks([5], DefaultThreads)[0] == []
    ensures exists i :: 0 <= i < DefaultThreads && Chunks([5], DefaultThreads)[i] == [5]
  {
    var chunks := Chunks([5], DefaultThreads);
    assert chunks[7] == [5][Boundary(1, 8, 7)..Boundary(1, 8, 8)];
  }
}
