// ch6.cpp: lambdas passed to std::sort (descending), std::count_if (word
// length) and std::transform (squares into a second, resized vector).
module Lambdas {
  import opened SeqOps
  import opened Algorithms

  /** Problem 6-2: sort with `[](a, b) { return a > b; }`. The source sorts
      doubles; the model sorts ints, whose `>` is the same strict total
      order. */
  method SortDescending(numbers: array<int>)
    modifies numbers
    ensures SortedBy(numbers[..], Id, true)
    ensures multiset(numbers[..]) == old(multiset(numbers[..]))
  {
    SortBy(numbers, Id, true);
  }

  /** A descending sort has exactly one outcome: the sequence that is
      sorted descending and holds the same elements. */
  lemma SortDescendingOutcome(sorted: seq<int>, input: seq<int>, expected: seq<int>)
    requires SortedBy(sorted, Id, true) && multiset(sorted) == multiset(input)
    requires SortedBy(expected, Id, true) && multiset(expected) == multiset(input)
    ensures sorted == expected
  {
    SortedUnique(sorted, expected, true);
  }

  /** The lambda `word.length() > 5`. */
  predicate LongerThanFive(word: string) {
    |word| > 5
  }

  /** Problem 6-3: std::count_if with that lambda. */
  function CountLongWords(words: seq<string>): (cnt: nat)
    ensures cnt <= |words|
    ensures cnt == |Filter(words, LongerThanFive)|
  {
    CountIf(words, LongerThanFive)
  }

  /** Lines 33-37: "banana", "cherry" and "elderberry" have more than five
      characters. */
  lemma CountLongWordsDemo()
    ensures CountLongWords(["apple", "banana", "cherry", "date", "elderberry", "fig", "grape"]) == 3
  {
    var words := ["apple", "banana", "cherry", "date", "elderberry", "fig", "grape"];
    // The count after each prefix, one element at a time.
    assert CountIf(words[..1], LongerThanFive) == 0;
    assert words[..2][..1] == words[..1];
    assert CountIf(words[..2], LongerThanFive) == 1;
    assert words[..3][..2] == words[..2];
    assert CountIf(words[..3], LongerThanFive) == 2;
    assert words[..4][..3] == words[..3];
    assert CountIf(words[..4], LongerThanFive) == 2;
    assert words[..5][..4] == words[..4];
    assert CountIf(words[..5], LongerThanFive) == 3;
    assert words[..6][..5] == words[..5];
    assert CountIf(words[..6], LongerThanFive) == 3;
    assert words[..|words| - 1] == words[..6];
    assert CountIf(words, LongerThanFive) == 3;
  }

  /** Problem 6-4: `squares.resize(numbers2.size())` then std::transform of
      numbers2 into squares with `n * n`. numbers2 is only read. */
  method Squares(numbers2: array<int>) returns (squares: array<int>)
    ensures fresh(squares)
    ensures squares.Length == numbers2.Length
    ensures squares[..] == Map(numbers2[..], Square)
  {
    squares := new int[numbers2.Length];
    Transform(numbers2, squares, Square);
  }

  /** Lines 40-46: 1 4 9 16 25, with numbers2 left as it was. */
  method SquaresDemo() returns (before: seq<int>, squares: seq<int>, after: seq<int>)
    ensures before == after == [1, 2, 3, 4, 5]
    ensures squares == [1, 4, 9, 16, 25]
  {
    var numbers2 := new int[5];
    numbers2[0], numbers2[1], numbers2[2], numbers2[3], numbers2[4] := 1, 2, 3, 4, 5;
    before := numbers2[..];
    var result := Squares(numbers2);
    squares := result[..];
    after := numbers2[..];
  }
}
