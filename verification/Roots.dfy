/** Integer n-th roots: bisection for a first approximation, then Newton's method (stdlib.calx). */
module Roots {
  import opened Powers

  /** The tangent of the n-th power at x lies below the curve: the inequality of the arithmetic and geometric means. */
  lemma {:induction false} TangentBelow(r: nat, x: nat, n: nat)
    requires n >= 1
    ensures Pow(r, n) >= n * r * Pow(x, n - 1) - (n - 1) * Pow(x, n)
  {
    if n == 1 {
      assert Pow(r, 1) == r * Pow(r, 0) && Pow(x, 0) == 1;
    } else {
      TangentBelow(r, x, n - 1);
      TangentStep(r, x, n - 1, Pow(x, n - 2), Pow(r, n - 1));
    }
  }

  lemma TangentStep(r: nat, x: nat, m: nat, y: nat, p: nat)
    requires p >= m * r * y - (m - 1) * (x * y)
    ensures r * p >= (m + 1) * r * (x * y) - m * (x * (x * y))
  {
    var t := m * r * y - (m - 1) * (x * y);
    MulLe(t, p, r);
    TangentIdentity(r, x, m, y);
    assert (m * y) * ((r - x) * (r - x)) >= 0 by {
      assert m * y >= 0 && (r - x) * (r - x) >= 0;
    }
  }

  lemma TangentIdentity(r: int, x: int, m: int, y: int)
    ensures (m * r * y - (m - 1) * (x * y)) * r - ((m + 1) * r * (x * y) - m * (x * (x * y))) ==
      (m * y) * ((r - x) * (r - x))
  {
    var (z, w) := (m * y, x * y);
    LeftSide(m, r, y, w);
    MiddleTerm(m, r, w);
    ProductsAgree(m, x, y, r);
    SquareTimes(z, r, x);
  }

  lemma LeftSide(m: int, r: int, y: int, w: int)
    ensures (m * r * y - (m - 1) * w) * r == (m * y) * (r * r) - (m * w) * r + w * r
  {
    assert (m * r * y) * r == (m * y) * (r * r);
    assert (m - 1) * w == m * w - w;
  }

  lemma MiddleTerm(m: int, r: int, w: int)
    ensures (m + 1) * r * w == (m * w) * r + w * r
  {
    assert (m + 1) * r == m * r + r;
  }

  lemma ProductsAgree(m: int, x: int, y: int, r: int)
    ensures m * (x * (x * y)) == (m * y) * (x * x) && (m * (x * y)) * r == (m * y) * (x * r)
  {
  }

  lemma SquareTimes(z: int, r: int, x: int)
    ensures z * ((r - x) * (r - x)) == z * (r * r) - 2 * (z * (x * r)) + z * (x * x)
  {
    assert (r - x) * (r - x) == r * r - 2 * (x * r) + x * x;
    assert z * (r * r - 2 * (x * r) + x * x) == z * (r * r) - z * (2 * (x * r)) + z * (x * x);
  }

  /** No integer whose n-th power is at most a exceeds x. */
  ghost predicate AboveRoots(x: nat, a: nat, n: nat) {
    forall r: nat :: Pow(r, n) <= a ==> r <= x
  }

  function Newton(x: nat, a: nat, n: nat): int
    requires n >= 1 && Pow(x, n - 1) > 0
  {
    (a / Pow(x, n - 1) + (n - 1) * x) / n
  }

  /** A step of Newton's method from above stays above every root and comes nearer. */
  lemma {:induction false} NewtonStep(x: nat, a: nat, n: nat)
    requires n >= 1 && Pow(x, n) > a && Pow(x, n - 1) > 0
    ensures 0 <= Newton(x, a, n) < x && AboveRoots(Newton(x, a, n), a, n)
  {
    var (p, y) := (Pow(x, n - 1), Newton(x, a, n));
    var s := a / p + (n - 1) * x;
    QuotientBelow(a, p, x);
    assert s < x * n by { assert x * n == x + (n - 1) * x; }
    QuotientBelow(s, n, x);
    assert s >= 0 by { MulLe(0, n - 1, x); }
    QuotientAbove(s, n, 0);
    forall r: nat | Pow(r, n) <= a ensures r <= y {
      TangentBelow(r, x, n);
      TangentQuotient(n, r, p, x);
      QuotientAbove(a, p, n * r - (n - 1) * x);
      assert r * n <= s by { assert r * n == n * r; }
      QuotientAbove(s, n, r);
    }
  }

  lemma TangentQuotient(n: int, r: int, p: int, x: int)
    ensures (n * r - (n - 1) * x) * p == n * r * p - (n - 1) * (x * p)
  {
    MulAssoc(n - 1, x, p);
    assert (n * r - (n - 1) * x) * p == (n * r) * p - ((n - 1) * x) * p;
  }

  // ----- The first approximation -----

  /** NumDigits(a, "i") */
  function NumDigits(a: nat): (k: nat)
    ensures a < Pow(10, k)
    ensures a > 0 ==> k >= 1 && Pow(10, k - 1) <= a
  {
    if a == 0 then 0 else if a < 10 then (assert Pow(10, 1) == 10 * Pow(10, 0); 1) else 1 + NumDigits(a / 10)
  }

  function CeilDiv(a: nat, d: nat): (c: nat)
    requires d > 0
    ensures a <= c * d < a + d
  {
    Division(a, d);
    assert (a / d + 1) * d == (a / d) * d + d;
    a / d + (if a % d == 0 then 0 else 1)
  }

  /** nth_root_NAT_APPROX(); `drop` is floor(nsteps / 3.32) + 1, whose exact value does not matter. */
  method RootApprox(a: nat, n: nat, nsteps: nat, drop: nat) returns (x: nat)
    requires n >= 2 && drop >= 1
    ensures x >= 1 && a <= Pow(x, n)
  {
    if a == 0 { return 1; }
    var k := NumDigits(a);
    var p := (k - 1) / n;
    var q := if p < drop then 0 else p - drop;
    assert q * n >= 0 by { MulLe(0, q, n); }
    PowPositive(10, q * n);
    var b := CeilDiv(a, Pow(10, q * n));
    var lb: nat, rb: nat := Pow(10, p - q), Pow(10, p - q + 1);
    FirstBracket(a, n, k, p, q);
    PowPositive(10, p - q);
    var steps := nsteps;
    while steps > 0
      invariant b <= Pow(rb, n) && 1 <= lb <= rb
    {
      var mid := (lb + rb) / 2;
      if mid == lb { break; }
      if Pow(mid, n) <= b { lb := mid; } else { rb := mid; }
      steps := steps - 1;
    }
    PowPositive(10, q);
    MulBoth(1, rb, 1, Pow(10, q));
    x := rb * Pow(10, q);
    ScaleBack(a, n, q, b, rb);
  }

  lemma {:induction false} FirstBracket(a: nat, n: nat, k: nat, p: nat, q: nat)
    requires a > 0 && n >= 1 && k == NumDigits(a) && p == (k - 1) / n && q <= p
    ensures q * n >= 0 && Pow(10, q * n) > 0 && CeilDiv(a, Pow(10, q * n)) <= Pow(Pow(10, p - q + 1), n)
  {
    var e := p - q + 1;
    MulLe(0, q, n);
    MulLe(0, e, n);
    PowPositive(10, q * n);
    PowPow(10, e, n);
    PowAdd(10, e * n, q * n);
    EnoughDigits(k, n, p, q, e);
    PowMonoExp(10, k, e * n + q * n);
    CeilBelow(a, Pow(10, q * n), Pow(10, e * n));
  }

  lemma EnoughDigits(k: nat, n: nat, p: nat, q: nat, e: nat)
    requires k >= 1 && n >= 1 && p == (k - 1) / n && e + q == p + 1
    ensures k <= e * n + q * n
  {
    Division(k - 1, n);
    assert (e + q) * n == e * n + q * n;
  }

  lemma CeilBelow(a: nat, d: nat, c: nat)
    requires d > 0 && a <= c * d
    ensures CeilDiv(a, d) <= c
  {
    assert c * d + d == (c + 1) * d;
    LessByMul(CeilDiv(a, d), c + 1, d);
  }

  lemma {:induction false} ScaleBack(a: nat, n: nat, q: nat, b: nat, rb: nat)
    requires q * n >= 0 && Pow(10, q * n) > 0 && b == CeilDiv(a, Pow(10, q * n)) && b <= Pow(rb, n)
    ensures a <= Pow(rb * Pow(10, q), n)
  {
    PowMul(rb, Pow(10, q), n);
    PowPow(10, q, n);
    MulLe(b, Pow(rb, n), Pow(10, q * n));
  }

  /** nth_root_NAT(): the largest integer whose n-th power is at most a. */
  method NthRootNat(a: nat, n: nat, drop: nat) returns (x: nat)
    requires n >= 2 && drop >= 1
    ensures Pow(x, n) <= a < Pow(x + 1, n)
  {
    var nsteps := 0;
    var tmp := n;
    while tmp > 0 { tmp, nsteps := tmp / 2, nsteps + 1; }
    tmp := NumDigits(a);
    while tmp > 0 { tmp, nsteps := tmp / 2, nsteps + 4; }
    x := RootApprox(a, n, nsteps, drop);
    StartsAbove(x, a, n);
    while Pow(x, n) > a
      invariant AboveRoots(x, a, n)
      decreases x
    {
      assert Pow(x, n) == x * Pow(x, n - 1);
      NewtonStep(x, a, n);
      x := (a / Pow(x, n - 1) + (n - 1) * x) / n;
    }
    assert Pow(x + 1, n) > a;
  }

  lemma {:induction false} StartsAbove(x: nat, a: nat, n: nat)
    requires n >= 1 && a <= Pow(x, n)
    ensures AboveRoots(x, a, n)
  {
    forall r: nat | Pow(r, n) <= a ensures r <= x {
      if r > x { PowStrict(x, r, n); }
    }
  }

  /** There is only one such root. */
  lemma {:induction false} RootUnique(a: nat, n: nat, x: nat, y: nat)
    requires n >= 1 && Pow(x, n) <= a < Pow(x + 1, n) && Pow(y, n) <= a < Pow(y + 1, n)
    ensures x == y
  {
    if x < y { PowMono(x + 1, y, n); }
    if y < x { PowMono(y + 1, x, n); }
  }

  datatype Root = Root(units: int) | NoRoot

  /** nth_root() of num / den, in units of the last of `scale` decimal digits; an even root of a negative number is
      an error. */
  method NthRoot(num: int, den: nat, n: nat, scale: nat, drop: nat) returns (r: Root)
    requires den > 0 && n >= 2 && drop >= 1
    ensures r.NoRoot? <==> num < 0 && n % 2 == 0
    ensures r.Root? ==> IsRoot(if num < 0 then -num else num, den, n, scale, if num < 0 then -r.units else r.units)
  {
    var a, neg := num, false;
    if a < 0 {
      if n % 2 == 0 { return NoRoot; }
      a, neg := -a, true;
    }
    hide IsRoot;
    hide Scaled;
    MulLe(0, scale, n);
    var scaled := Scaled(a, den, Power10(scale * n));
    var x := NthRootNat(scaled, n, drop);
    RootScaled(a, den, n, scale, x);
    var units: int := x;
    r := Root(if neg then -units else units);
  }

  /** UpScale(a, s * n) // 1 */
  function Scaled(a: nat, den: nat, unit: nat): nat
    requires den > 0
  {
    MulLe(0, a, unit);
    QuotientAbove(a * unit, den, 0);
    a * unit / den
  }

  function Power10(e: int): (u: nat)
    ensures e >= 0 ==> u == Pow(10, e)
  {
    if e >= 0 then Pow(10, e) else 0
  }

  /** x units are the root of num / den, cut off behind `scale` digits: (x / 10^scale)^n <= num / den < ((x + 1) /
      10^scale)^n. */
  ghost predicate IsRoot(num: nat, den: nat, n: nat, scale: nat, x: int) {
    x >= 0 && Pow(x, n) * den <= num * Power10(scale * n) < Pow(x + 1, n) * den
  }

  lemma RootScaled(a: nat, den: nat, n: nat, scale: nat, x: nat)
    requires den > 0 && Pow(x, n) <= Scaled(a, den, Power10(scale * n)) < Pow(x + 1, n)
    ensures IsRoot(a, den, n, scale, x)
  {
    MulLe(0, scale, n);
    var unit := Power10(scale * n);
    var q := Scaled(a, den, unit);
    Division(a * unit, den);
    MulLe(Pow(x, n), q, den);
    MulLe(q + 1, Pow(x + 1, n), den);
  }
}
