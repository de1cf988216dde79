/** The real numbers that numbers stand for. */
module Values {
  import opened Powers
  import opened Words
  import opened Numbers
  import opened Addition
  import opened NumberDivision

  ghost function Real(d: Dec): real {
    PowPositive(BASE, d.scale);
    (Sign(d.neg) * Val(d.words)) as real / Pow(BASE, d.scale) as real
  }

  ghost function Magnitude(d: Dec): real {
    PowPositive(BASE, d.scale);
    Val(d.words) as real / Pow(BASE, d.scale) as real
  }

  lemma Widened(x: int, p: int, q: int)
    requires p > 0 && q > 0
    ensures p * q > 0 && x as real / p as real == (x * q) as real / (p * q) as real
  {
    var (rx, rp, rq) := (x as real, p as real, q as real);
    assert (x * q) as real == rx * rq && (p * q) as real == rp * rq;
    var y := rx / rp;
    assert rx * rq == y * (rp * rq) by { assert rx == y * rp; }
    MulLess(0, p, q);
  }

  /** The integer at a larger scale stands for the same number. */
  lemma RealAt(d: Dec, s: nat)
    requires d.scale <= s
    ensures Pow(BASE, s) > 0 && Real(d) == At(d, s) as real / Pow(BASE, s) as real
  {
    PowPositive(BASE, d.scale);
    PowPositive(BASE, s - d.scale);
    PowPositive(BASE, s);
    PowAdd(BASE, d.scale, s - d.scale);
    MulAssoc(Sign(d.neg), Val(d.words), Pow(BASE, s - d.scale));
    Widened(Sign(d.neg) * Val(d.words), Pow(BASE, d.scale), Pow(BASE, s - d.scale));
  }

  /** do_add_or_sub() is exact. */
  lemma SumIsExact(r: Dec, a: Dec, b: Dec, add: bool)
    requires IsSum(r, a, b, add)
    ensures Real(r) == if add then Real(a) + Real(b) else Real(a) - Real(b)
  {
    hide Real, At, Pow;
    var s := r.scale;
    RealAt(r, s);
    RealAt(a, s);
    RealAt(b, s);
    QuotientsAdd(At(a, s) as real, At(b, s) as real, Pow(BASE, s) as real);
  }

  lemma QuotientsAdd(x: real, y: real, p: real)
    requires p > 0.0
    ensures (x + y) / p == x / p + y / p && (x - y) / p == x / p - y / p
  {
    var (u, v) := (x / p, y / p);
    SameFactor((x + y) / p, u + v, p, x + y);
    SameFactor((x - y) / p, u - v, p, x - y);
  }

  lemma SameFactor(x: real, y: real, f: real, z: real)
    requires f > 0.0 && z == x * f && z == y * f
    ensures x == y
  {
    assert (x - y) * f == 0.0;
  }

  lemma FloorIsQuotient(n: int, d: nat)
    requires d > 0
    ensures (n as real / d as real).Floor == n / d
  {
    Division(n, d);
    var (x, q) := (n as real / d as real, n / d);
    Between(x, d as real, n as real, q as real, (q + 1) as real, (q * d) as real, ((q + 1) * d) as real);
  }

  lemma Between(x: real, d: real, n: real, q: real, r: real, qd: real, rd: real)
    requires d > 0.0 && x == n / d && qd == q * d && rd == r * d && qd <= n < rd
    ensures q <= x < r
  {
    assert x * d == n;
    if x < q { SmallerProduct(x, q, d); }
    if x > r { SmallerProduct(r, x, d); }
  }

  lemma SmallerProduct(x: real, y: real, d: real)
    requires x < y && d > 0.0
    ensures x * d < y * d
  {
    assert (y - x) * d > 0.0;
  }

  /** x without what is behind the p-th decimal digit. */
  ghost function CutOff(x: real, p: nat): real {
    PowPositive(10, p);
    CutAt(x, Pow(10, p))
  }

  ghost function CutAt(x: real, unit: nat): real
    requires unit > 0
  {
    (x * unit as real).Floor as real / unit as real
  }

  /** number_div() gives the exact quotient, cut off behind p digits. */
  lemma QuotientIsExact(r: Dec, a: Dec, b: Dec, p: nat)
    requires AreWords(b.words) && Val(b.words) != 0 && IsQuotient(r, a, b, p)
    ensures Magnitude(b) != 0.0
    ensures var q := CutOff(Magnitude(a) / Magnitude(b), p);
      Real(r) == if a.neg != b.neg then -q else q
  {
    hide Pow, Val, Real, Magnitude, DecimalQuotient, CutOff;
    FloorOfMagnitudes(a, b, p);
    CutOffIs(Magnitude(a) / Magnitude(b), DecimalQuotient(a, b, p), p);
    RealOfDigits(r, DecimalQuotient(a, b, p), p);
  }

  lemma CutOffIs(x: real, q: int, p: nat)
    requires (x * Pow(10, p) as real).Floor == q
    ensures Pow(10, p) > 0 && CutOff(x, p) == q as real / Pow(10, p) as real
  {
    hide Pow;
    PowPositive(10, p);
    CutAtIs(x, q, Pow(10, p));
  }

  lemma CutAtIs(x: real, q: int, unit: nat)
    requires unit > 0 && (x * unit as real).Floor == q
    ensures CutAt(x, unit) == q as real / unit as real
  {
  }

  lemma FloorOfMagnitudes(a: Dec, b: Dec, p: nat)
    requires AreWords(b.words) && Val(b.words) != 0
    ensures Magnitude(b) != 0.0
    ensures (Magnitude(a) / Magnitude(b) * Pow(10, p) as real).Floor == DecimalQuotient(a, b, p)
  {
    hide Pow, Val;
    var (va, vb, pa, pb, t) := (Val(a.words), Val(b.words), Pow(BASE, a.scale), Pow(BASE, b.scale), Pow(10, p));
    PowPositive(BASE, a.scale);
    PowPositive(BASE, b.scale);
    ValBound(b.words);
    QuotientOfReals(va, vb, pa, pb, t);
    FloorIsQuotient(va * pb * t, vb * pa);
  }

  lemma QuotientOfReals(va: int, vb: int, pa: int, pb: int, t: int)
    requires vb > 0 && pa > 0 && pb > 0
    ensures vb * pa > 0 && vb as real / pb as real > 0.0
    ensures (va as real / pa as real) / (vb as real / pb as real) * t as real ==
      (va * pb * t) as real / (vb * pa) as real
  {
    MulLess(0, vb, pa);
    var (x, y, p, q, u) := (va as real, vb as real, pa as real, pb as real, t as real);
    assert (va * pb * t) as real == x * q * u && (vb * pa) as real == y * p;
    var (e, f) := (x / p, y / q);
    assert x == e * p && y == f * q;
    var g := e / f;
    assert e == g * f;
    assert x * q == g * (y * p) by { assert x * q == (g * f) * p * q == g * (f * q) * p; }
    assert x * q * u == (g * u) * (y * p);
  }

  /** A number whose words are q followed by zero digits, with p digits behind the point. */
  lemma RealOfDigits(r: Dec, q: int, p: nat)
    requires p <= LOG * r.scale && Val(r.words) == q * Pow(10, LOG * r.scale - p)
    ensures Pow(10, p) > 0 && Real(r) == if r.neg then -(q as real / Pow(10, p) as real)
      else q as real / Pow(10, p) as real
  {
    var k := LOG * r.scale - p;
    PowPositive(10, p);
    PowPositive(10, k);
    PowAdd(10, p, k);
    PowPow(10, LOG, r.scale);
    PowPositive(BASE, r.scale);
    hide Pow, Val;
    Widened(Sign(r.neg) * q, Pow(10, p), Pow(10, k));
    MulAssoc(Sign(r.neg), q, Pow(10, k));
    Negated(q, Pow(10, p));
  }

  lemma Negated(q: int, t: int)
    requires t > 0
    ensures (-1 * q) as real / t as real == -(q as real / t as real)
  {
    var x := q as real / t as real;
    assert -x * t as real == -(q as real);
  }
}
