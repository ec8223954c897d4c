/** Integer helpers with the semantics of the C++ operators the executor uses.
    Dafny's `%` is Euclidean; C++'s `%` truncates toward zero, so the remainder
    takes the sign of the dividend. `RoundUp` is the snippets utility `rnd_up`
    (round up to a multiple), defined as `div_up(x, m) * m`. */
module CppArith {

  /** C++ `a % b` for a positive divisor: truncating, so a negative dividend
      gives a non-positive remainder. */
  function CRem(a: int, b: int): (r: int)
    requires b > 0
    ensures a >= 0 ==> 0 <= r < b && r == a % b
    ensures a < 0 ==> -b < r <= 0
    ensures MultipleOf(a - r, b)
  {
    if a >= 0 then
      MultipleOfQuotient(a, b);
      a % b
    else
      MultipleOfQuotient(-a, b);
      MultipleOfNeg(-a - (-a) % b, b);
      -((-a) % b)
  }

  /** `x` is a whole multiple of the positive `m`. */
  predicate MultipleOf(x: int, m: int)
    requires m > 0
  {
    x % m == 0
  }

  /** C++ `div_up(x, m)` for non-negative `x`: the quotient rounded up. */
  function DivUp(x: int, m: int): (q: int)
    requires x >= 0 && m > 0
    ensures q >= 0
  {
    (x + m - 1) / m
  }

  /** `rnd_up(x, m)`: the least multiple of `m` that is at least `x`. */
  function RoundUp(x: int, m: int): (r: int)
    requires x >= 0 && m > 0
    ensures x <= r < x + m
    ensures MultipleOf(r, m)
  {
    RoundUpBounds(x, m);
    DivUp(x, m) * m
  }

  /** The bounds of `div_up(x, m) * m`: at least `x`, less than `x + m`,
      and a multiple of `m`. */
  lemma RoundUpBounds(x: int, m: int)
    requires x >= 0 && m > 0
    ensures x <= DivUp(x, m) * m < x + m
    ensures MultipleOf(DivUp(x, m) * m, m)
  {
    var q, rest := (x + m - 1) / m, (x + m - 1) % m;
    assert x + m - 1 == q * m + rest;
    ProductIsMultiple(q, m);
  }

  /** Subtracting the remainder leaves a multiple of the divisor. */
  lemma MultipleOfQuotient(a: int, b: int)
    requires b > 0
    ensures a - a % b == (a / b) * b
    ensures MultipleOf(a - a % b, b)
  {
    ProductIsMultiple(a / b, b);
  }

  /** `q * m` is a multiple of `m`. */
  lemma ProductIsMultiple(q: int, m: int)
    requires m > 0
    ensures MultipleOf(q * m, m)
  {
    DivModUnique(q * m, m, q, 0);
  }

  /** The negation of a multiple is a multiple. */
  lemma MultipleOfNeg(x: int, m: int)
    requires m > 0 && MultipleOf(x, m)
    ensures MultipleOf(-x, m)
  {
    var q := x / m;
    assert -x == (-q) * m;
    ProductIsMultiple(-q, m);
  }

  /** A positive multiple of `m` is at least `m`. */
  lemma PositiveMultipleAtLeast(x: int, m: int)
    requires m > 0 && x > 0 && MultipleOf(x, m)
    ensures x >= m
  {
    var q := x / m;
    assert x == q * m;
    if q < 1 {
      if q < 0 {
        MulAtLeast(-q, m);
      }
    } else {
      MulAtLeast(q, m);
    }
  }

  /** Division by a positive `m` is unique: any `d * m + r` with
      `0 <= r < m` has quotient `d` and remainder `r`. */
  lemma DivModUnique(x: int, m: int, d: int, r: int)
    requires m > 0 && x == d * m + r && 0 <= r < m
    ensures x / m == d && x % m == r
  {
    var dd, rr := x / m, x % m;
    assert (d - dd) * m == rr - r;
    if d - dd >= 1 {
      MulAtLeast(d - dd, m);
    } else if dd - d >= 1 {
      MulAtLeast(dd - d, m);
    }
  }

  /** `k * m >= m` for `k >= 1` and positive `m`. */
  lemma {:induction false} MulAtLeast(k: int, m: int)
    requires k >= 1 && m > 0
    ensures k * m >= m
    decreases k
  {
    if k > 1 {
      MulAtLeast(k - 1, m);
      assert k * m == (k - 1) * m + m;
    }
  }
}
