// ch5.cpp: the function templates maxOfThree, retFirst, retSecond and the
// integral-only isEven. A template parameter becomes a type parameter; the
// `>` it relies on becomes an explicit argument.
module Templates {
  import opened CppInt

  /** maxOfThree: `(a > b) ? ((a > c) ? a : c) : ((b > c) ? b : c)`. It always
      returns one of its arguments, whatever `>` is. */
  function MaxOfThree<T>(a: T, b: T, c: T, greater: (T, T) -> bool): (r: T)
    ensures r == a || r == b || r == c
  {
    if greater(a, b) then (if greater(a, c) then a else c)
    else (if greater(b, c) then b else c)
  }

  /** `>` is a strict total order: irreflexive, transitive, and any two
      distinct values are comparable. */
  ghost predicate StrictTotalOrder<T(!new)>(greater: (T, T) -> bool) {
    && (forall x :: !greater(x, x))
    && (forall x, y, z :: greater(x, y) && greater(y, z) ==> greater(x, z))
    && (forall x, y :: x != y ==> greater(x, y) || greater(y, x))
  }

  /** Under a strict total order no argument is greater than the result. */
  lemma MaxOfThreeIsMax<T(!new)>(a: T, b: T, c: T, greater: (T, T) -> bool)
    requires StrictTotalOrder(greater)
    ensures var r := MaxOfThree(a, b, c, greater);
            !greater(a, r) && !greater(b, r) && !greater(c, r)
  {
  }

  function IntGreater(x: int, y: int): bool {
    x > y
  }

  /** `std::string` comparison: lexicographic by character. */
  predicate StringLess(a: string, b: string) {
    if a == [] then b != []
    else b != [] && (a[0] < b[0] || (a[0] == b[0] && StringLess(a[1..], b[1..])))
  }

  function StringGreater(a: string, b: string): bool {
    StringLess(b, a)
  }

  lemma {:induction false} StringLessIrreflexive(a: string)
    ensures !StringLess(a, a)
  {
    if a != [] {
      StringLessIrreflexive(a[1..]);
    }
  }

  lemma {:induction false} StringLessTransitive(a: string, b: string, c: string)
    requires StringLess(a, b) && StringLess(b, c)
    ensures StringLess(a, c)
  {
    if a != [] && a[0] == b[0] && b[0] == c[0] {
      StringLessTransitive(a[1..], b[1..], c[1..]);
    }
  }

  lemma {:induction false} StringLessTotal(a: string, b: string)
    requires a != b
    ensures StringLess(a, b) || StringLess(b, a)
  {
    if a != [] && b != [] && a[0] == b[0] {
      assert a == [a[0]] + a[1..] && b == [b[0]] + b[1..];
      StringLessTotal(a[1..], b[1..]);
    }
  }

  lemma IntGreaterIsStrictTotalOrder()
    ensures StrictTotalOrder(IntGreater)
  {
  }

  lemma StringGreaterIsStrictTotalOrder()
    ensures StrictTotalOrder(StringGreater)
  {
    forall x: string ensures !StringGreater(x, x) {
      StringLessIrreflexive(x);
    }
    forall x: string, y: string, z: string | StringGreater(x, y) && StringGreater(y, z)
      ensures StringGreater(x, z)
    {
      StringLessTransitive(z, y, x);
    }
    forall x: string, y: string | x != y
      ensures StringGreater(x, y) || StringGreater(y, x)
    {
      StringLessTotal(x, y);
    }
  }

  /** Lines 27 and 29: the largest of 3, 7, 5 is 7, and of "apple", "banana",
      "cherry" it is "cherry". */
  lemma MaxOfThreeDemo()
    ensures MaxOfThree(3, 7, 5, IntGreater) == 7
    ensures MaxOfThree("apple", "banana", "cherry", StringGreater) == "cherry"
  {
  }

  function RetFirst<T1, T2>(p: (T1, T2)): T1 {
    p.0
  }

  function RetSecond<T1, T2>(p: (T1, T2)): T2 {
    p.1
  }

  /** The two accessors take a pair apart and nothing is lost: rebuilding
      the pair from them gives it back, and building a pair and taking it
      apart gives back the parts. */
  lemma PairAccessors<T1, T2>(p: (T1, T2), x: T1, y: T2)
    ensures (RetFirst(p), RetSecond(p)) == p
    ensures RetFirst((x, y)) == x && RetSecond((x, y)) == y
  {
  }

  /** isEven<T> for an integral T (the enable_if restricts T to integral
      types; here T is `int`): the bool `n % 2 == 0`, with C++'s truncating
      `%`, converted back to T as 1 or 0. */
  function IsEven(n: int): (r: int)
    ensures r == 0 || r == 1
    ensures r == 1 <==> n % 2 == 0
  {
    CppRemParity(n);
    if CppRem(n, 2) == 0 then 1 else 0
  }

  /** Lines 43-44: 4 is even, 5 is not; and so is every negative odd number,
      for which the C++ remainder is -1 rather than 1. */
  lemma IsEvenDemo()
    ensures IsEven(4) == 1 && IsEven(5) == 0
    ensures IsEven(-3) == 0 && CppRem(-3, 2) == -1
  {
  }
}
