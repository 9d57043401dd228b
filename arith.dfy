/** Facts about integer multiplication and division, and about the exact
    real quotients the resampler computes, kept apart so that each proof
    above them only takes the step it needs. */
module Arith {

  lemma MulMono(b: int, x: int, y: int)
    requires b >= 0 && x <= y
    ensures b * x <= b * y
  {
    assert b * y - b * x == b * (y - x);
  }

  lemma MulStep(b: int, x: int, y: int)
    requires b >= 0 && x < y
    ensures b * x + b <= b * y
  {
    MulMono(b, x + 1, y);
    assert b * (x + 1) == b * x + b;
  }

  /** Quotient and remainder are determined by the division equation. */
  lemma DivUnique(a: int, b: int, q: int, r: int)
    requires b > 0 && a == b * q + r && 0 <= r < b
    ensures a / b == q && a % b == r
  {
    var q0, r0 := a / b, a % b;
    assert b * q0 + r0 == b * q + r;
    if q0 < q {
      MulStep(b, q0, q);
    } else if q < q0 {
      MulStep(b, q, q0);
    }
  }

  lemma DivMonotone(a: int, c: int, b: int)
    requires b > 0 && a <= c
    ensures a / b <= c / b
  {
    if a / b > c / b {
      MulStep(b, c / b, a / b);
    }
  }

  lemma DivLowerBound(m: int, a: int, b: int)
    requires b > 0 && b * m <= a
    ensures m <= a / b
  {
    if a / b < m {
      MulStep(b, a / b, m);
    }
  }

  lemma DivUpperBound(m: int, a: int, b: int)
    requires b > 0 && a < b * m
    ensures a / b < m
  {
    if a / b >= m {
      MulMono(b, m, a / b);
    }
  }

  /** Adding at least one divisor to the dividend raises the quotient. */
  lemma DivStep(a: int, c: int, b: int)
    requires b > 0 && c >= b
    ensures a / b + 1 <= (a + c) / b
  {
    DivLowerBound(a / b + 1, a + c, b);
  }

  /** Rounding a/b to the nearest integer, (2a + b) / 2b, stays at most m
      when a/b is below m. */
  lemma RoundedQuotientBelow(a: int, b: int, m: int)
    requires b > 0 && a < b * m
    ensures (2 * a + b) / (2 * b) <= m
  {
    assert (2 * b) * (m + 1) == 2 * (b * m) + 2 * b;
    DivUpperBound(m + 1, 2 * a + b, 2 * b);
  }

  /** The rounded quotient (2 k i + o) / 2o stays at most len for every k
      below n, when (n - 1) i < len o. */
  lemma RoundedGridBelow(k: int, n: int, i: int, o: int, len: int)
    requires o > 0 && i > 0 && 0 <= k < n && (n - 1) * i < len * o
    ensures (2 * k * i + o) / (2 * o) <= len
  {
    var a := k * i;
    MulMono(i, k, n - 1);
    assert a < o * len;
    assert 2 * k * i + o == 2 * a + o;
    RoundedQuotientBelow(a, o, len);
  }

  /** The rounded quotient (2 n i + o) / 2o reaches len when len o <= n i. */
  lemma RoundedGridReaches(n: int, i: int, o: int, len: int)
    requires o > 0 && len * o <= n * i
    ensures len <= (2 * n * i + o) / (2 * o)
  {
    var a := n * i;
    assert (2 * o) * len == 2 * (len * o);
    assert 2 * n * i + o == 2 * a + o;
    DivLowerBound(len, 2 * n * i + o, 2 * o);
  }

  /** With i = r o, every k below n has k r < len when (n - 1) i < len o. */
  lemma ScaledGridBelow(k: int, n: int, r: int, o: int, len: int)
    requires o > 0 && r > 0 && 0 <= k < n && (n - 1) * (r * o) < len * o
    ensures k * r < len
  {
    MulMono(r * o, k, n - 1);
    assert (r * o) * k == (k * r) * o;
    assert (r * o) * (n - 1) == (n - 1) * (r * o);
    if k * r >= len {
      MulMono(o, len, k * r);
    }
  }

  lemma RealQuotient(x: real, n: real, d: real)
    requires d != 0.0 && x * d == n
    ensures x == n / d
  {
  }

  /** The real quotient of two integers floors to integer division. */
  lemma FloorOfQuotient(a: int, b: int)
    requires b > 0
    ensures (a as real / b as real).Floor == a / b
  {
    var q, r := a / b, a % b;
    var x := a as real / b as real;
    assert x * b as real == a as real;
    assert (b * q) as real == b as real * q as real;
    assert a as real == b as real * q as real + r as real;
    assert x == q as real + r as real / b as real;
    assert 0.0 <= r as real / b as real < 1.0;
  }

  /** k * (i / o) + 1/2 as one fraction. */
  lemma ScaledHalf(k: int, i: int, o: int)
    requires o > 0
    ensures k as real * (i as real / o as real) + 0.5 == (2 * k * i + o) as real / (2 * o) as real
  {
    var x := i as real / o as real;
    assert x * o as real == i as real;
    var lhs := k as real * x + 0.5;
    assert (k as real * x) * (2 * o) as real == 2.0 * k as real * (x * o as real);
    assert (2 * k * i) as real == 2.0 * k as real * i as real;
    assert lhs * (2 * o) as real == (2 * k * i + o) as real;
    RealQuotient(lhs, (2 * k * i + o) as real, (2 * o) as real);
  }

  /** len / (i / o) as one fraction. */
  lemma OverRatio(len: int, i: int, o: int)
    requires o > 0 && i > 0
    ensures len as real / (i as real / o as real) == (len * o) as real / i as real
  {
    var x := i as real / o as real;
    assert x * o as real == i as real;
    var y := len as real / x;
    assert y * x == len as real;
    assert y * i as real == y * x * o as real;
    assert (len * o) as real == len as real * o as real;
    RealQuotient(y, (len * o) as real, i as real);
  }
}
