// ch10.cpp: a lazy Generator<T> over a coroutine, and three coroutine bodies
// (even numbers, five names, Fibonacci numbers) drained by `while (next())`.
//
// A coroutine body that yields y0, y1, ..., y(n-1) and then returns is
// modelled by the sequence of its yields; the generator is a cursor over
// it that counts how often the coroutine has been resumed.
module Coroutines {
  import opened CppInt

  /** Generator<T> holding the coroutine handle. The coroutine starts
      suspended (initial_suspend is suspend_always), so creating it runs
      nothing; resume number r (1-based) runs the body up to yield r, which
      stores the value in the promise, or, when r == |items| + 1, to the end
      of the body, after which the handle is done. */
  class Generator<T(0)> {
    /** The values the coroutine body yields, in order. */
    const items: seq<T>
    /** How often the handle has been resumed. */
    var resumes: nat
    /** promise_type::value, written by yield_value. */
    var current: T

    ghost predicate Valid()
      reads this
    {
      && resumes <= |items| + 1
      && (0 < Yielded() ==> current == items[Yielded() - 1])
    }

    /** How many values the body has yielded so far. */
    function Yielded(): nat
      reads this
    {
      if resumes <= |items| then resumes else |items|
    }

    /** handle.done(): the body has run to its end (final_suspend). */
    predicate Done()
      reads this
    {
      resumes == |items| + 1
    }

    /** The coroutine is created suspended: nothing is produced yet. */
    constructor (items: seq<T>)
      ensures this.items == items && resumes == 0 && Yielded() == 0
      ensures Valid() && !Done()
    {
      this.items := items;
      resumes := 0;
    }

    /** has_value(): `!handle.done()`. It is true before the first next() as
        well, although nothing has been produced then. */
    function HasValue(): (b: bool)
      requires Valid()
      reads this
      ensures b <==> resumes <= |items|
    {
      !Done()
    }

    /** value(): the element most recently stored by yield_value. Before any
        yield the promise's value is uninitialised, so the model requires
        that one has happened. */
    function Value(): (v: T)
      requires Valid() && Yielded() > 0
      reads this
      ensures v == items[Yielded() - 1]
    {
      current
    }

    /** next(): resume, then report `!handle.done()`. Resuming a done handle
        is undefined behaviour, so callers stop at the first false. */
    method Next() returns (more: bool)
      requires Valid() && !Done()
      modifies this
      ensures Valid()
      ensures resumes == old(resumes) + 1
      ensures more <==> HasValue()
      ensures more ==> Yielded() == old(Yielded()) + 1 && Value() == items[resumes - 1]
      ensures !more ==> Yielded() == old(Yielded()) && current == old(current)
    {
      resumes := resumes + 1;
      if resumes <= |items| {
        current := items[resumes - 1];
      }
      more := resumes <= |items|;
    }
  }

  /** The drain loop `while (gen.next()) out << gen.value();` of a fresh
      generator: every yielded element exactly once, in order, and the
      generator ends done. */
  method Drain<T(0)>(gen: Generator<T>) returns (out: seq<T>)
    requires gen.Valid() && gen.resumes == 0
    modifies gen
    ensures gen.Valid() && gen.Done()
    ensures out == gen.items
  {
    out := [];
    var more := gen.Next();
    while more
      invariant gen.Valid() && 1 <= gen.resumes
      invariant more <==> !gen.Done()
      invariant out == gen.items[..gen.resumes - 1]
      decreases |gen.items| + 1 - gen.resumes
    {
      out := out + [gen.Value()];
      more := gen.Next();
    }
    assert gen.items[..|gen.items|] == gen.items;
  }

  // ---------------------------------------------------------------------------
  // even_numbers(n)

  /** The body of even_numbers: `for (int i = 0; i <= n; i += 2) co_yield i;`.
      With 32-bit `int`, `i += 2` past the last even number must not
      overflow, which holds exactly when n <= INT_MAX - 2. */
  method EvenNumbersBody(n: int) returns (ys: seq<int>)
    requires n <= IntMax - 2
    ensures |ys| == if n < 0 then 0 else n / 2 + 1
    ensures forall k :: 0 <= k < |ys| ==> ys[k] == 2 * k && ys[k] <= n
  {
    ys := [];
    var i := 0;
    while i <= n
      invariant i % 2 == 0 && 0 <= i
      invariant n >= 0 ==> i <= n / 2 * 2 + 2
      invariant n < 0 ==> i == 0
      invariant |ys| == i / 2
      invariant forall k :: 0 <= k < |ys| ==> ys[k] == 2 * k && ys[k] <= n
    {
      ys := ys + [i];
      assert InInt32(i + 2);
      i := i + 2;
    }
  }

  method EvenNumbers(n: int) returns (gen: Generator<int>)
    requires n <= IntMax - 2
    ensures fresh(gen) && gen.Valid() && gen.resumes == 0
    ensures |gen.items| == if n < 0 then 0 else n / 2 + 1
    ensures forall k :: 0 <= k < |gen.items| ==> gen.items[k] == 2 * k
  {
    var ys := EvenNumbersBody(n);
    gen := new Generator(ys);
  }

  // ---------------------------------------------------------------------------
  // generate_words()

  /** The five `co_yield` statements of generate_words, in order. */
  const Words: seq<string> := ["Alice", "Bob", "Charlie", "David", "Eve"]

  method GenerateWords() returns (gen: Generator<string>)
    ensures fresh(gen) && gen.Valid() && gen.resumes == 0 && gen.items == Words
  {
    gen := new Generator(Words);
  }

  // ---------------------------------------------------------------------------
  // generate_Fibonacci(n)

  function Fib(k: nat): nat {
    if k < 2 then k else Fib(k - 1) + Fib(k - 2)
  }

  lemma {:induction false} FibMonotone(i: nat, j: nat)
    requires i <= j
    ensures Fib(i) <= Fib(j)
    decreases j - i
  {
    if i < j {
      FibMonotone(i, j - 1);
      assert Fib(j - 1) <= Fib(j);
    }
  }

  /** The loop at i computes `a + b` = F(i+2) one term ahead of what it
      yields, so n values need F(n+1) to fit in `int`: F(46) does, F(47)
      does not. */
  lemma FibonacciInt32Bound()
    ensures Fib(46) == 1836311903 <= IntMax
    ensures Fib(47) == 2971215073 > IntMax
  {
    // Each value from the two before it.
    assert Fib(2) == 1; assert Fib(3) == 2; assert Fib(4) == 3; assert Fib(5) == 5;
    assert Fib(6) == 8; assert Fib(7) == 13; assert Fib(8) == 21; assert Fib(9) == 34;
    assert Fib(10) == 55; assert Fib(11) == 89; assert Fib(12) == 144; assert Fib(13) == 233;
    assert Fib(14) == 377; assert Fib(15) == 610; assert Fib(16) == 987; assert Fib(17) == 1597;
    assert Fib(18) == 2584; assert Fib(19) == 4181; assert Fib(20) == 6765; assert Fib(21) == 10946;
    assert Fib(22) == 17711; assert Fib(23) == 28657; assert Fib(24) == 46368; assert Fib(25) == 75025;
    assert Fib(26) == 121393; assert Fib(27) == 196418; assert Fib(28) == 317811; assert Fib(29) == 514229;
    assert Fib(30) == 832040; assert Fib(31) == 1346269; assert Fib(32) == 2178309; assert Fib(33) == 3524578;
    assert Fib(34) == 5702887; assert Fib(35) == 9227465; assert Fib(36) == 14930352; assert Fib(37) == 24157817;
    assert Fib(38) == 39088169; assert Fib(39) == 63245986; assert Fib(40) == 102334155; assert Fib(41) == 165580141;
    assert Fib(42) == 267914296; assert Fib(43) == 433494437; assert Fib(44) == 701408733; assert Fib(45) == 1134903170;
    assert Fib(46) == 1836311903; assert Fib(47) == 2971215073;
  }

  /** The body of generate_Fibonacci: yields F(0), ..., F(n-1). The bound
      n <= 45 is what keeps the look-ahead sum within 32-bit `int`. */
  method FibonacciBody(n: int) returns (ys: seq<int>)
    requires n <= 45
    ensures |ys| == if n < 0 then 0 else n
    ensures forall k :: 0 <= k < |ys| ==> ys[k] == Fib(k)
  {
    ys := [];
    var a, b := 0, 1;
    var i := 0;
    while i < n
      invariant 0 <= i && (n >= 0 ==> i <= n) && (n < 0 ==> i == 0)
      invariant a == Fib(i) && b == Fib(i + 1)
      invariant |ys| == i
      invariant forall k :: 0 <= k < i ==> ys[k] == Fib(k)
    {
      ys := ys + [a];
      FibMonotone(i + 2, 46);
      FibonacciInt32Bound();
      var next := a + b;
      assert InInt32(next);
      a := b;
      b := next;
      i := i + 1;
    }
  }

  method GenerateFibonacci(n: int) returns (gen: Generator<int>)
    requires n <= 45
    ensures fresh(gen) && gen.Valid() && gen.resumes == 0
    ensures |gen.items| == if n < 0 then 0 else n
    ensures forall k :: 0 <= k < |gen.items| ==> gen.items[k] == Fib(k)
  {
    var ys := FibonacciBody(n);
    gen := new Generator(ys);
  }

  // ---------------------------------------------------------------------------
  // main

  /** Problem 1: the even numbers 0, 2, ..., 30. */
  method EvenNumbersDemo() returns (out: seq<int>)
    ensures out == seq(16, k => 2 * k)
  {
    var gen := EvenNumbers(30);
    out := Drain(gen);
  }

  /** Problem 2: the five names, then the generator is done. */
  method WordsDemo() returns (out: seq<string>)
    ensures out == ["Alice", "Bob", "Charlie", "David", "Eve"]
  {
    var gen := GenerateWords();
    out := Drain(gen);
  }

  /** Problem 3: the first ten Fibonacci numbers. */
  method FibonacciDemo() returns (out: seq<int>)
    ensures out == [0, 1, 1, 2, 3, 5, 8, 13, 21, 34]
  {
    var gen := GenerateFibonacci(10);
    out := Drain(gen);
    assert Fib(9) == 34;
  }
}
