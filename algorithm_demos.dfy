// codes/ch3.cpp: std::iota, std::for_each with printing and accumulating
// lambdas, std::sort with a length comparator and with a toggled direction,
// and an in-place std::transform. What a lambda prints is modelled as the
// sequence of values it would print.
module AlgorithmDemos {
  import opened CppInt
  import opened SeqOps
  import opened Algorithms

  /** std::iota(v.begin(), v.end(), value) */
  method Iota(v: array<int>, value: int)
    modifies v
    ensures forall i :: 0 <= i < v.Length ==> v[i] == value + i
  {
    var i := 0;
    while i < v.Length
      invariant 0 <= i <= v.Length
      invariant forall k :: 0 <= k < i ==> v[k] == value + k
    {
      v[i] := value + i;
      i := i + 1;
    }
  }

  /** Problem 1: for_each with `if (x % 2 == 0) cout << x`: the even elements,
      in order. */
  method PrintEvens(v: seq<int>) returns (printed: seq<int>)
    ensures printed == Filter(v, Even)
  {
    printed := [];
    var i := 0;
    while i < |v|
      invariant 0 <= i <= |v|
      invariant printed == Filter(v[..i], Even)
    {
      assert v[..i + 1][..i] == v[..i];
      CppRemParity(v[i]);
      if CppRem(v[i], 2) == 0 {
        printed := printed + [v[i]];
      }
      i := i + 1;
    }
    assert v[..i] == v;
  }

  /** Lines 19-25: v holds 1..30 and 2 4 ... 30 is printed. */
  method EvensDemo() returns (printed: seq<int>)
    ensures printed == seq(15, k => 2 * k + 2)
  {
    var v := new int[30];
    Iota(v, 1);
    OneToAt(30);
    assert v[..] == OneTo(30);
    printed := PrintEvens(v[..]);
    EvensOfOneTo(30);
    EvensAt(15);
  }

  function Length(s: string): int {
    |s|
  }

  /** Problem 2: sort with `a.size() > b.size()`, which orders by length
      DESCENDING (the comment beside it says ascending). */
  method SortByLength(names: array<string>)
    modifies names
    ensures SortedBy(names[..], Length, true)
    ensures multiset(names[..]) == old(multiset(names[..]))
  {
    SortBy(names, Length, true);
  }

  /** Lines 30-33: "Charlie" comes first, "Bob" last, and "Alice" and
      "David", of equal length, in between in an unspecified order. */
  method NamesDemo() returns (sorted: seq<string>)
    ensures |sorted| == 4
    ensures sorted[0] == "Charlie" && sorted[3] == "Bob"
    ensures multiset(sorted[1..3]) == multiset{"Alice", "David"}
  {
    var names := new string[4];
    names[0], names[1], names[2], names[3] := "Alice", "Bob", "Charlie", "David";
    assert names[..] == ["Alice", "Bob", "Charlie", "David"];
    SortByLength(names);
    sorted := names[..];
    assert multiset(sorted) == multiset{"Alice", "Bob", "Charlie", "David"};
    assert |sorted| == 4 by {
      assert |multiset(sorted)| == 4;
    }
    NamesEnds(sorted);
  }

  lemma NamesEnds(sorted: seq<string>)
    requires |sorted| == 4
    requires SortedBy(sorted, Length, true)
    requires multiset(sorted) == multiset{"Alice", "Bob", "Charlie", "David"}
    ensures sorted[0] == "Charlie" && sorted[3] == "Bob"
    ensures multiset(sorted[1..3]) == multiset{"Alice", "David"}
  {
    assert "Charlie" in multiset(sorted) && "Bob" in multiset(sorted);
    assert sorted[0] in multiset(sorted) && sorted[3] in multiset(sorted);
    LongestFirst(sorted, "Charlie");
    ShortestLast(sorted, "Bob");
    MiddleElements(sorted);
  }

  /** The elements of four strings: the two ends and the middle two. */
  lemma MiddleElements(s: seq<string>)
    requires |s| == 4
    ensures multiset(s[1..3]) == multiset(s) - multiset{s[0], s[3]}
  {
    assert s == [s[0]] + s[1..3] + [s[3]];
    assert multiset(s) == multiset{s[0]} + multiset(s[1..3]) + multiset{s[3]};
  }

  /** In a sequence sorted by length descending, the first element is at
      least as long as any element, and the last at most as long. */
  lemma LongestFirst(sorted: seq<string>, x: string)
    requires SortedBy(sorted, Length, true) && x in sorted
    ensures |sorted[0]| >= |x|
  {
    var c :| 0 <= c < |sorted| && sorted[c] == x;
    if c > 0 {
      assert InOrder(Length(sorted[0]), Length(sorted[c]), true);
    }
  }

  lemma ShortestLast(sorted: seq<string>, x: string)
    requires SortedBy(sorted, Length, true) && x in sorted
    ensures |sorted[|sorted| - 1]| <= |x|
  {
    var c :| 0 <= c < |sorted| && sorted[c] == x;
    if c < |sorted| - 1 {
      assert InOrder(Length(sorted[c]), Length(sorted[|sorted| - 1]), true);
    }
  }

  function Double(x: int): int {
    x * 2
  }

  /** Problem 3: std::transform(cbegin, cend, begin, x * 2), in place. */
  method DoubleInPlace(a: array<int>)
    modifies a
    ensures a[..] == Map(old(a[..]), Double)
  {
    Transform(a, a, Double);
  }

  /** Lines 38-43. */
  method DoublingDemo() returns (after: seq<int>)
    ensures after == [10, 6, 16, 2, 4, 14, 8, 12, 18, 20]
  {
    var a := new int[10];
    a[0], a[1], a[2], a[3], a[4] := 5, 3, 8, 1, 2;
    a[5], a[6], a[7], a[8], a[9] := 7, 4, 6, 9, 10;
    assert a[..] == [5, 3, 8, 1, 2, 7, 4, 6, 9, 10];
    DoubledValues();
    DoubleInPlace(a);
    after := a[..];
  }

  lemma DoubledValues()
    ensures Map([5, 3, 8, 1, 2, 7, 4, 6, 9, 10], Double) == [10, 6, 16, 2, 4, 14, 8, 12, 18, 20]
  {
  }

  /** Problem 4: for_each with `[&sum](int x) { sum += x; }`, sum starting at
      the offset. */
  method OffsetSum(offset: int, numbers: seq<int>) returns (sum: int)
    ensures sum == offset + Sum(numbers)
  {
    sum := offset;
    var i := 0;
    while i < |numbers|
      invariant 0 <= i <= |numbers|
      invariant sum == offset + Sum(numbers[..i])
    {
      assert numbers[..i + 1][..i] == numbers[..i];
      sum := sum + numbers[i];
      i := i + 1;
    }
    assert numbers[..i] == numbers;
  }

  /** Lines 49-54: 33 + (1 + ... + 10) is 88. */
  method OffsetSumDemo() returns (sum: int)
    ensures sum == 88
  {
    assert [1, 2, 3, 4, 5, 6, 7, 8, 9, 10] == OneTo(10);
    sum := OffsetSum(33, [1, 2, 3, 4, 5, 6, 7, 8, 9, 10]);
    SumOneTo(10);
  }

  /** `word.size() > count`: count is converted to size_t before the
      comparison. */
  function LongerThan(count: int): string -> bool {
    (word: string) => |word| > ToSizeT(count)
  }

  /** Problem 5: for_each printing the words for which `word.size() > count`. */
  method PrintLongWords(words: seq<string>, count: int) returns (printed: seq<string>)
    ensures printed == Filter(words, LongerThan(count))
  {
    printed := [];
    var i := 0;
    while i < |words|
      invariant 0 <= i <= |words|
      invariant printed == Filter(words[..i], LongerThan(count))
    {
      assert words[..i + 1][..i] == words[..i];
      if |words[i]| > ToSizeT(count) {
        printed := printed + [words[i]];
      }
      i := i + 1;
    }
    assert words[..i] == words;
  }

  /** For count >= 0 the test is the plain length comparison; for a negative
      32-bit count it is false for every word shorter than 2^63, so nothing
      is printed. */
  lemma LongerThanSigned(words: seq<string>, count: int)
    requires InInt32(count)
    requires forall i :: 0 <= i < |words| ==> |words[i]| < SizeModulus / 2
    ensures count >= 0 ==> forall w :: LongerThan(count)(w) <==> |w| > count
    ensures count < 0 ==> Filter(words, LongerThan(count)) == []
  {
    if count < 0 {
      FilterAllRejected(words, LongerThan(count));
    }
  }

  /** Lines 58-64: only "elderberry" has more than 6 characters. */
  method LongWordsDemo() returns (printed: seq<string>)
    ensures printed == ["elderberry"]
  {
    var words := ["apple", "banana", "cherry", "date", "elderberry"];
    printed := PrintLongWords(words, 6);
    FilterAllRejected(words[..4], LongerThan(6));
    assert words == words[..4] + ["elderberry"];
    FilterAppend(words[..4], ["elderberry"], LongerThan(6));
    FilterSingleton("elderberry", LongerThan(6));
  }

  /** Problem 6: sort with `ascending ? a < b : a > b`. */
  method ToggleSort(nums: array<int>, ascending: bool)
    modifies nums
    ensures SortedBy(nums[..], Id, !ascending)
    ensures multiset(nums[..]) == old(multiset(nums[..]))
  {
    SortBy(nums, Id, !ascending);
  }

  /** Lines 69-81: ascending gives 1 2 3 5 8; after the toggle, 8 5 3 2 1. */
  method ToggleDemo() returns (first: seq<int>, second: seq<int>)
    ensures first == [1, 2, 3, 5, 8]
    ensures second == [8, 5, 3, 2, 1]
  {
    var nums := new int[5];
    nums[0], nums[1], nums[2], nums[3], nums[4] := 5, 3, 8, 1, 2;
    assert nums[..] == [5, 3, 8, 1, 2];
    var ascending := true;
    ToggleSort(nums, ascending);
    first := nums[..];
    AscendingOutcome(first);
    ascending := !ascending;
    ToggleSort(nums, ascending);
    second := nums[..];
    DescendingOutcome(second);
  }

  /** The one ascending and the one descending order of {5, 3, 8, 1, 2}. */
  lemma AscendingOutcome(s: seq<int>)
    requires SortedBy(s, Id, false)
    requires multiset(s) == multiset([5, 3, 8, 1, 2])
    ensures s == [1, 2, 3, 5, 8]
  {
    AscendingElements();
    AscendingSorted();
    SortedUnique(s, [1, 2, 3, 5, 8], false);
  }

  lemma DescendingOutcome(s: seq<int>)
    requires SortedBy(s, Id, true)
    requires multiset(s) == multiset([5, 3, 8, 1, 2])
    ensures s == [8, 5, 3, 2, 1]
  {
    DescendingElements();
    DescendingSorted();
    SortedUnique(s, [8, 5, 3, 2, 1], true);
  }

  lemma AscendingElements()
    ensures multiset([1, 2, 3, 5, 8]) == multiset([5, 3, 8, 1, 2])
  {
  }

  lemma DescendingElements()
    ensures multiset([8, 5, 3, 2, 1]) == multiset([5, 3, 8, 1, 2])
  {
  }

  lemma AscendingSorted()
    ensures SortedBy([1, 2, 3, 5, 8], Id, false)
  {
  }

  lemma DescendingSorted()
    ensures SortedBy([8, 5, 3, 2, 1], Id, true)
  {
  }
}
