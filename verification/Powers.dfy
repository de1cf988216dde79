/** Products, quotients and powers of integers. */
module Powers {

  // ----- Products -----

  lemma MulAssoc(a: int, b: int, c: int)
    ensures a * (b * c) == (a * b) * c
  {
  }

  lemma MulLe(a: int, b: int, c: nat)
    requires a <= b
    ensures a * c <= b * c
  {
  }

  lemma MulLess(a: int, b: int, c: nat)
    requires a < b && c > 0
    ensures a * c < b * c
  {
  }

  lemma LessByMul(a: int, b: int, c: nat)
    requires a * c < b * c
    ensures a < b
  {
    assert (b - a) * c > 0;
  }

  lemma MulSwap(a: int, x: int, b: int, y: int)
    ensures (a * b) * (x * y) == (a * x) * (b * y)
  {
    MulAssoc(a * b, x, y);
    MulAssoc(a, b, x);
    MulAssoc(a, x, b);
    MulAssoc(a * x, b, y);
  }

  // ----- Quotients -----

  lemma Division(a: int, d: nat)
    requires d > 0
    ensures a == (a / d) * d + a % d && (a / d) * d <= a < (a / d + 1) * d
  {
    assert (a / d + 1) * d == (a / d) * d + d;
  }

  lemma QuotientBelow(a: int, d: nat, x: int)
    requires d > 0 && a < x * d
    ensures a / d < x
  {
    Division(a, d);
    LessByMul(a / d, x, d);
  }

  lemma QuotientAbove(a: int, d: nat, k: int)
    requires d > 0 && k * d <= a
    ensures k <= a / d
  {
    Division(a, d);
    LessByMul(k, a / d + 1, d);
  }

  /** Quotient and remainder are determined by the division. */
  lemma QuotientIs(v: int, d: nat, q: int, rem: int)
    requires 0 <= rem < d && v == q * d + rem
    ensures q == v / d && rem == v % d
  {
    Division(v, d);
    LessByMul(q, v / d + 1, d);
    assert (q + 1) * d == q * d + d;
    LessByMul(v / d, q + 1, d);
  }

  lemma QuotientOfQuotient(a: nat, b: nat, c: nat)
    requires b > 0 && c > 0
    ensures b * c > 0 && (a / b) / c == a / (b * c)
  {
    var (q, r) := (a / b, a % b);
    var (t, s) := (q / c, q % c);
    Division(a, b);
    Division(q, c);
    MulLess(0, b, c);
    MulLe(0, s, b);
    MulLe(s, c - 1, b);
    assert (c - 1) * b == b * c - b;
    assert (t * c + s) * b == (t * c) * b + s * b;
    MulAssoc(t, c, b);
    QuotientIs(a, b * c, t, s * b + r);
  }

  /** Numerator and denominator may be multiplied by the same factor. */
  lemma CommonFactor(n: nat, d: nat, x: nat)
    requires d > 0 && x > 0
    ensures d * x > 0 && (n * x) / (d * x) == n / d
  {
    var (q, r) := (n / d, n % d);
    Division(n, d);
    MulLess(0, d, x);
    MulLess(r, d, x);
    MulLe(0, r, x);
    assert (q * d + r) * x == (q * d) * x + r * x;
    MulAssoc(q, d, x);
    QuotientIs(n * x, d * x, q, r * x);
  }

  /** Equal fractions have equal quotients. */
  lemma EqualFractions(n: nat, d: nat, m: nat, e: nat, x: nat, y: nat)
    requires d > 0 && e > 0 && x > 0 && y > 0 && n * y == m * x && d * y == e * x
    ensures n / d == m / e
  {
    CommonFactor(n, d, y);
    CommonFactor(m, e, x);
  }

  // ----- Powers -----

  function Pow(b: nat, e: nat): nat {
    if e == 0 then 1 else b * Pow(b, e - 1)
  }

  lemma {:induction false} PowPositive(b: nat, e: nat)
    requires b > 0
    ensures Pow(b, e) > 0
  {
    if e > 0 { PowPositive(b, e - 1); }
  }

  lemma {:induction false} PowAdd(b: nat, m: nat, n: nat)
    ensures Pow(b, m + n) == Pow(b, m) * Pow(b, n)
  {
    if m > 0 {
      PowAdd(b, m - 1, n);
      MulAssoc(b, Pow(b, m - 1), Pow(b, n));
    }
  }

  lemma {:induction false} PowMul(a: nat, b: nat, n: nat)
    ensures Pow(a * b, n) == Pow(a, n) * Pow(b, n)
  {
    if n > 0 {
      PowMul(a, b, n - 1);
      MulSwap(a, Pow(a, n - 1), b, Pow(b, n - 1));
    }
  }

  lemma {:induction false} PowPow(b: nat, m: nat, n: nat)
    ensures m * n >= 0 && Pow(Pow(b, m), n) == Pow(b, m * n)
  {
    if n > 0 {
      PowPow(b, m, n - 1);
      assert m * n == m + m * (n - 1);
      PowAdd(b, m, m * (n - 1));
    }
  }

  lemma {:induction false} PowMono(a: nat, b: nat, n: nat)
    requires a <= b
    ensures Pow(a, n) <= Pow(b, n)
  {
    if n > 0 {
      PowMono(a, b, n - 1);
      MulBoth(a, b, Pow(a, n - 1), Pow(b, n - 1));
    }
  }

  lemma MulBoth(a: nat, b: nat, x: nat, y: nat)
    requires a <= b && x <= y
    ensures a * x <= b * y
  {
    MulLe(a, b, x);
    MulLe(x, y, b);
  }

  lemma {:induction false} PowStrict(a: nat, b: nat, n: nat)
    requires a < b && n >= 1
    ensures Pow(a, n) < Pow(b, n)
  {
    PowMono(a, b, n - 1);
    PowPositive(b, n - 1);
    MulBoth(a, a, Pow(a, n - 1), Pow(b, n - 1));
    MulLess(a, b, Pow(b, n - 1));
  }

  lemma {:induction false} PowMonoExp(b: nat, m: nat, n: nat)
    requires m <= n && b > 0
    ensures Pow(b, m) <= Pow(b, n)
  {
    PowAdd(b, n - m, m);
    PowPositive(b, n - m);
    MulLe(1, Pow(b, n - m), Pow(b, m));
  }
}
