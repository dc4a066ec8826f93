/** Facts about integer multiplication, division and remainder that the
    solver does not find on its own. Dafny's `/` and `%` are Euclidean. */
module Arith {

  function Abs(x: int): nat { if x < 0 then -x else x }

  /** Products of naturals are natural. The solver knows this once asked;
      the calls in `MulAtLeast` and in `Readback` exist to put the product
      term in front of it for the nonlinear steps that follow. */
  lemma MulNonneg(x: nat, y: nat)
    ensures x * y >= 0
  {
    if y > 0 {
      MulNonneg(x, y - 1);
      assert x * y == x * (y - 1) + x;
    }
  }

  /** A nonzero multiple of `b` is at least as large as `b` in magnitude. */
  lemma MulAtLeast(b: int, d: int)
    requires d != 0
    ensures Abs(b * d) >= Abs(b)
  {
    MulNonneg(Abs(b), Abs(d) - 1);
    assert Abs(b) * Abs(d) == Abs(b) * (Abs(d) - 1) + Abs(b);
    assert Abs(b * d) == Abs(b) * Abs(d);
  }

  /** Quotient and remainder are determined by any decomposition `a == b*q + r`
      with the remainder in range. */
  lemma DivModUnique(a: int, b: int, q: int, r: int)
    requires b != 0
    requires a == b * q + r
    requires 0 <= r < Abs(b)
    ensures a / b == q && a % b == r
  {
    var q', r' := a / b, a % b;
    assert b * (q - q') == r' - r;
    if q != q' {
      MulAtLeast(b, q - q');
    }
  }

  /** `m` is divisible by `b` exactly when it is `b` times some integer. */
  lemma MultipleOf(m: int, b: int, k: int)
    requires b != 0
    requires m == b * k
    ensures m % b == 0 && m / b == k
  {
    DivModUnique(m, b, k, 0);
  }

  /** Adding or removing one copy of `b` keeps divisibility by `b`. */
  lemma MultipleShift(m: int, b: int)
    requires b != 0
    requires m % b == 0
    ensures (m + b) % b == 0 && (m - b) % b == 0
  {
    var k := m / b;
    assert m == b * k;
    MultipleOf(m + b, b, k + 1);
    MultipleOf(m - b, b, k - 1);
  }

  /** The only multiple of `b` strictly between `-|b|` and `|b|` is zero. */
  lemma SmallMultiple(m: int, b: int)
    requires b != 0
    requires m % b == 0
    requires Abs(m) < Abs(b)
    ensures m == 0
  {
    var k := m / b;
    assert m == b * k;
    if k != 0 {
      MulAtLeast(b, k);
    }
  }

  /** Differences and sums of multiples of `b` are multiples of `b`. */
  lemma MultipleSub(m: int, n: int, b: int)
    requires b != 0
    requires m % b == 0 && n % b == 0
    ensures (m - n) % b == 0 && (m + n) % b == 0
  {
    var j, k := m / b, n / b;
    assert m == b * j && n == b * k;
    MultipleOf(m - n, b, j - k);
    MultipleOf(m + n, b, j + k);
  }
}
