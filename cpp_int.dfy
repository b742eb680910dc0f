// The 32-bit `int` of the C++ snippets, where its range matters, the
// truncating remainder that C++ `%` computes, and the division facts the
// chunk arithmetic needs.
module CppInt {

  const IntMin: int := -0x8000_0000
  const IntMax: int := 0x7fff_ffff

  predicate InInt32(x: int) {
    IntMin <= x <= IntMax
  }

  /** The number of values of the 64-bit `size_t`. */
  const SizeModulus: int := 0x1_0000_0000_0000_0000

  /** The usual arithmetic conversion of an `int` to `size_t`, as in a
      comparison `s.size() > n`: a negative n wraps to a huge value. */
  function ToSizeT(x: int): (r: nat)
    ensures r < SizeModulus
    ensures 0 <= x < SizeModulus ==> r == x
    ensures x < 0 && -SizeModulus <= x ==> r == x + SizeModulus
  {
    x % SizeModulus
  }

  /** C++ `a % b` for b > 0: the remainder takes the sign of the dividend
      (division truncates toward zero), unlike Dafny's Euclidean `%`. */
  function CppRem(a: int, b: int): (r: int)
    requires b > 0
    ensures -b < r < b
    ensures a >= 0 ==> r >= 0
    ensures a < 0 ==> r <= 0
    ensures (a - r) % b == 0
  {
    RemainderMultiple(a, b);
    if a >= 0 then a % b else -((-a) % b)
  }

  /** Taking off the remainder, either convention's, leaves a multiple of b. */
  lemma RemainderMultiple(a: int, b: int)
    requires b > 0
    ensures a >= 0 ==> (a - a % b) % b == 0
    ensures a < 0 ==> (a + (-a) % b) % b == 0
  {
    if a >= 0 {
      DivUnique(a - a % b, b, a / b, 0);
    } else {
      var q := (-a) / b;
      assert a + (-a) % b == (-q) * b;
      DivUnique((-q) * b, b, -q, 0);
    }
  }

  /** The parity test `x % 2 == 0` of the snippets reads the same under both
      conventions, so it is modelled with Dafny's `%`. */
  lemma CppRemParity(a: int)
    ensures CppRem(a, 2) == 0 <==> a % 2 == 0
    ensures CppRem(a, 2) != 0 <==> a % 2 == 1
  {
    if a < 0 {
      var q := (-a) / 2;
      assert -a == 2 * q + (-a) % 2;
      if (-a) % 2 == 0 {
        assert a == 2 * (-q);
      } else {
        assert a == 2 * (-q - 1) + 1;
      }
    }
  }

  // ---------------------------------------------------------------------------
  // Facts about non-negative division, for the chunk arithmetic

  lemma MulMonotone(x: int, y: int, k: nat)
    requires x <= y
    ensures x * k <= y * k
  {
  }

  /** `x / k` is the unique q with x == q*k + r and 0 <= r < k. */
  lemma DivUnique(x: int, k: int, q: int, r: int)
    requires k > 0 && 0 <= r < k && x == q * k + r
    ensures x / k == q && x % k == r
  {
    var d := x / k - q;
    assert d * k == r - x % k;
    if d >= 1 {
      MulMonotone(1, d, k);
    } else if d <= -1 {
      MulMonotone(d, -1, k);
    }
  }

  lemma DivMonotone(a: int, b: int, k: int)
    requires 0 <= a <= b && k > 0
    ensures a / k <= b / k
  {
    var qa, qb := a / k, b / k;
    assert a == qa * k + a % k && b == qb * k + b % k;
    if qa > qb {
      MulMonotone(qb + 1, qa, k);
      assert false;
    }
  }
}
