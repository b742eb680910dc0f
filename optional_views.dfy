// codes/ch8.cpp: `parseId`, which returns std::optional<int>, and the view
// pipeline `nums | views::filter(even) | views::transform(square)`.
module OptionalViews {
  import opened SeqOps

  datatype Option<T> = None | Some(value: T)

  /** parseId: empty for a negative value, otherwise the value itself. */
  function ParseId(value: int): (id: Option<int>)
    ensures id.None? <==> value < 0
    ensures id.Some? ==> id.value == value
  {
    if value < 0 then None else Some(value)
  }

  /** Lines 47-53: 42 is accepted as itself, -1 is rejected. */
  lemma ParseIdDemo()
    ensures ParseId(42) == Some(42)
    ensures ParseId(-1) == None
  {
  }

  /** The view `nums | views::filter(n % 2 == 0) | views::transform(n * n)`,
      as the sequence its range-for loop visits. */
  function EvenSquares(nums: seq<int>): seq<int> {
    Map(Filter(nums, Even), Square)
  }

  /** The pipeline keeps the even elements in their original order: it
      distributes over concatenation, and on one element it yields that
      element's square exactly when it is even. These two facts determine the
      pipeline on every sequence. */
  lemma EvenSquaresAppend(a: seq<int>, b: seq<int>)
    ensures EvenSquares(a + b) == EvenSquares(a) + EvenSquares(b)
  {
    FilterAppend(a, b, Even);
    MapAppend(Filter(a, Even), Filter(b, Even), Square);
  }

  lemma EvenSquaresSingleton(x: int)
    ensures EvenSquares([x]) == if Even(x) then [x * x] else []
  {
    FilterSingleton(x, Even);
  }

  /** One output value per even input element, and each output value is the
      square of an even input element. */
  lemma EvenSquaresContents(nums: seq<int>)
    ensures |EvenSquares(nums)| == CountIf(nums, Even)
    ensures forall y :: y in EvenSquares(nums) <==> exists x :: x in nums && Even(x) && y == Square(x)
  {
    var kept := Filter(nums, Even);
    FilterKeeps(nums, Even);
    forall y | y in EvenSquares(nums)
      ensures exists x :: x in nums && Even(x) && y == Square(x)
    {
      var i :| 0 <= i < |kept| && EvenSquares(nums)[i] == y;
      assert kept[i] in nums && Even(kept[i]);
    }
    forall y | exists x :: x in nums && Even(x) && y == Square(x)
      ensures y in EvenSquares(nums)
    {
      var x :| x in nums && Even(x) && y == Square(x);
      var j :| 0 <= j < |nums| && nums[j] == x;
      assert x in kept;
      var i :| 0 <= i < |kept| && kept[i] == x;
      assert EvenSquares(nums)[i] == y;
    }
  }

  /** Lines 71-78: {1, ..., 6} gives 4 16 36. */
  lemma EvenSquaresDemo()
    ensures EvenSquares([1, 2, 3, 4, 5, 6]) == [4, 16, 36]
  {
    assert [1, 2, 3, 4, 5, 6] == OneTo(6);
    EvensOfOneTo(6);
    assert Filter(OneTo(6), Even) == [2, 4, 6];
  }
}
