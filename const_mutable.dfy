// ch15.cpp: a Timer whose const `call()` bumps a mutable counter, and the
// element-wise squaring of a large vector with std::transform, once
// sequentially and once with the par_unseq policy.
module ConstMutable {
  import opened SeqOps
  import opened Algorithms

  class Timer {
    /** `mutable int cnt = 0;`: the one field a const method may change. */
    var cnt: int
    /** `string name = "Timer";` */
    const name: string

    constructor ()
      ensures cnt == 0 && name == "Timer"
    {
      cnt := 0;
      name := "Timer";
    }

    /** call() const: one more call counted; nothing else changes. */
    method Call()
      modifies this`cnt
      ensures cnt == old(cnt) + 1
    {
      cnt := cnt + 1;
    }

    /** getCount() const */
    method GetCount() returns (count: int)
      ensures count == cnt
    {
      count := cnt;
    }
  }

  /** Problem 1: ten calls on a new Timer are counted as ten. */
  method TimerDemo() returns (count: int, name: string)
    ensures count == 10 && name == "Timer"
  {
    var timer := new Timer();
    var i := 0;
    while i < 10
      invariant 0 <= i <= 10
      invariant timer.cnt == i
    {
      timer.Call();
      i := i + 1;
    }
    count := timer.GetCount();
    name := timer.name;
  }

  /** `std::transform(v.cbegin(), v.cend(), v.begin(), [](int x) { return x * x; })`,
      in place. The par_unseq run computes the same function of each element
      independently, so it is the same call in the model. */
  method SquareInPlace(largeVec: array<int>)
    modifies largeVec
    ensures largeVec[..] == Map(old(largeVec[..]), Square)
  {
    Transform(largeVec, largeVec, Square);
  }

  /** Problem 3: a vector of n copies of 42 becomes n copies of 1764 in both
      runs, with its length unchanged. */
  method SquareDemo(n: nat) returns (sequential: seq<int>, parallel: seq<int>)
    ensures sequential == parallel == seq(n, _ => 1764)
  {
    var largeVec := new int[n](_ => 42);
    SquaresOfFortyTwo(largeVec[..]);
    SquareInPlace(largeVec);
    sequential := largeVec[..];
    largeVec := new int[n](_ => 42);
    SquaresOfFortyTwo(largeVec[..]);
    SquareInPlace(largeVec);
    parallel := largeVec[..];
  }

  /** Squaring a run of 42s gives a run of 1764s of the same length. */
  lemma SquaresOfFortyTwo(s: seq<int>)
    requires forall i :: 0 <= i < |s| ==> s[i] == 42
    ensures Map(s, Square) == seq(|s|, _ => 1764)
  {
    var r := Map(s, Square);
    forall i | 0 <= i < |s|
      ensures r[i] == 1764
    {
      assert r[i] == Square(42);
    }
  }

}
