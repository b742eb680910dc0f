// ch7-6.cpp: the sum of a vector computed once with std::accumulate and once
// as the sum of per-chunk sums, with chunk_size = size / num_threads and the
// last chunk absorbing the remainder. The std::async tasks are modelled as
// sequential calls.
module ChunkedSum {
  import opened SeqOps
  import opened CppInt

  /** `int num_threads = 8;` */
  const NumThreads: int := 8

  /** `large_vector.size() / num_threads`, rounded down. */
  function ChunkSize(size: nat, numThreads: int): nat
    requires numThreads >= 1
  {
    size / numThreads
  }

  /** `start_index = i * chunk_size` */
  function StartIndex(size: nat, numThreads: int, i: nat): nat
    requires numThreads >= 1
  {
    i * ChunkSize(size, numThreads)
  }

  /** `end_index = (i == num_threads - 1) ? size : start_index + chunk_size` */
  function EndIndex(size: nat, numThreads: int, i: nat): nat
    requires numThreads >= 1
  {
    if i == numThreads - 1 then size else StartIndex(size, numThreads, i) + ChunkSize(size, numThreads)
  }

  /** The chunk boundaries: chunk i is [StartIndex(i), EndIndex(i)), each chunk
      starts where the previous one ends, and together they run from 0 to
      size. */
  function Bounds(size: nat, numThreads: int): (bounds: seq<nat>)
    requires numThreads >= 1
    ensures |bounds| == numThreads + 1
    ensures ValidBounds(size, bounds)
    ensures forall i :: 0 <= i < numThreads ==>
              bounds[i] == StartIndex(size, numThreads, i) && bounds[i + 1] == EndIndex(size, numThreads, i)
  {
    StartOrder(size, numThreads);
    seq(numThreads + 1, i requires 0 <= i <= numThreads =>
        if i == numThreads then size else StartIndex(size, numThreads, i))
  }

  /** The start indices never decrease, stay within size, and each
      non-last chunk ends where the next one starts. */
  lemma StartOrder(size: nat, numThreads: int)
    requires numThreads >= 1
    ensures StartIndex(size, numThreads, 0) == 0
    ensures forall i: nat, j: nat :: i <= j < numThreads ==>
              StartIndex(size, numThreads, i) <= StartIndex(size, numThreads, j) <= size
    ensures forall i: nat :: i < numThreads - 1 ==>
              EndIndex(size, numThreads, i) == StartIndex(size, numThreads, i + 1)
  {
    var cs := ChunkSize(size, numThreads);
    assert size == numThreads * cs + size % numThreads;
    MulMonotone(numThreads - 1, numThreads, cs);
    forall i: nat, j: nat | i <= j < numThreads
      ensures StartIndex(size, numThreads, i) <= StartIndex(size, numThreads, j) <= size
    {
      MulMonotone(i, j, cs);
      MulMonotone(j, numThreads - 1, cs);
    }
    forall i: nat | i < numThreads - 1
      ensures EndIndex(size, numThreads, i) == StartIndex(size, numThreads, i + 1)
    {
      assert (i + 1) * cs == i * cs + cs;
    }
  }

  /** Every chunk but the last has exactly chunk_size elements; the last has
      chunk_size plus the size % num_threads left over. */
  lemma ChunkLengths(size: nat, numThreads: int, i: nat)
    requires numThreads >= 1 && i < numThreads
    ensures i < numThreads - 1 ==>
              EndIndex(size, numThreads, i) - StartIndex(size, numThreads, i) == ChunkSize(size, numThreads)
    ensures i == numThreads - 1 ==>
              EndIndex(size, numThreads, i) - StartIndex(size, numThreads, i)
                == ChunkSize(size, numThreads) + size % numThreads
  {
    var cs := ChunkSize(size, numThreads);
    assert size == numThreads * cs + size % numThreads;
    assert (numThreads - 1) * cs + cs == numThreads * cs;
  }

  /** The two loops of lines 25-35: one accumulate per chunk (a future each),
      then `total_sum += fut.get()` over the futures in order. */
  method ParallelSum(largeVector: seq<int>, numThreads: int) returns (totalSum: int)
    requires numThreads >= 1
    ensures totalSum == Sum(largeVector)
  {
    var size := |largeVector|;
    var chunkSize := size / numThreads;
    ghost var bounds := Bounds(size, numThreads);
    ghost var chunks := Slices(largeVector, bounds);
    var futures: seq<int> := [];
    var i := 0;
    while i < numThreads
      invariant 0 <= i <= numThreads
      invariant |futures| == i
      invariant forall j :: 0 <= j < i ==> futures[j] == Sum(chunks[j])
    {
      var startIndex := i * chunkSize;
      var endIndex := if i == numThreads - 1 then size else startIndex + chunkSize;
      assert startIndex == bounds[i] && endIndex == bounds[i + 1];
      futures := futures + [Sum(largeVector[startIndex..endIndex])];
      i := i + 1;
    }
    totalSum := 0;
    i := 0;
    while i < |futures|
      invariant 0 <= i <= |futures|
      invariant totalSum == Sum(futures[..i])
    {
      assert futures[..i + 1][..i] == futures[..i];
      totalSum := totalSum + futures[i];
      i := i + 1;
    }
    assert futures[..i] == futures;
    SlicesTile(largeVector, bounds);
    SumFlatten(chunks, futures);
  }

  /** The sum of n ones is n. */
  lemma {:induction false} SumOfOnes(n: nat)
    ensures Sum(seq(n, _ => 1)) == n
  {
    if n > 0 {
      assert seq(n, _ => 1)[..n - 1] == seq(n - 1, _ => 1);
      SumOfOnes(n - 1);
    }
  }

  /** main: 100'000'000 ones summed in one pass and in 8 chunks; both sums
      are 100'000'000, which fits in 32-bit `int`. */
  method OnesDemo() returns (singlePass: int, chunked: int)
    ensures singlePass == chunked == 100_000_000
    ensures InInt32(chunked)
  {
    var largeVector := seq(100_000_000, _ => 1);
    singlePass := Sum(largeVector);
    chunked := ParallelSum(largeVector, NumThreads);
    SumOfOnes(100_000_000);
  }
}
