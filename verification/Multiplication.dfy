/** Products and powers of numbers (number.c). */
module Multiplication {
  import opened Powers
  import opened Words
  import opened Numbers
  import opened Addition
  import opened Values
  import opened Shifts

  // ----- The schoolbook product -----

  /** out holds x times the first j words of y. */
  ghost predicate Rows(out: seq<int>, x: seq<int>, y: seq<int>, j: nat)
    requires j <= |y|
  {
    AreWords(out) && Val(out) == Val(x) * Val(y[..j])
  }

  lemma NextRow(out: seq<int>, now: seq<int>, x: seq<int>, y: seq<int>, j: nat, low: seq<int>, hi: int, carry: bool)
    requires j < |y| && |now| == |out| == |x| + |y| && |low| == |x| && 0 <= hi < BASE
    requires AreWords(x) && AreWords(y) && AreWords(now) && AreWords(low) && Rows(out, x, y, j)
      && Multiplied(low, x, y[j], hi)
    requires now[..j] == out[..j]
    requires Val(now[j..]) + (if carry then Pow(BASE, |out| - j) else 0) == Val(out[j..]) + Val(low + [hi])
    ensures Rows(now, x, y, j + 1)
  {
    hide Val, Pow;
    var row := low + [hi];
    assert y[..j + 1] == y[..j] + [y[j]];
    ValSnoc(low, hi);
    ValSnoc(y[..j], y[j]);
    Raised(out, now, j, Val(row), if carry then 1 else 0);
    ValBound(now);
    ProductFits(x, y[..j + 1], |out|);
    RowArithmetic(Val(out), Val(now), Val(x), Val(y[..j]), Pow(BASE, j), y[j], Val(low), hi, Pow(BASE, |low|),
      if carry then 1 else 0, Pow(BASE, |out|));
  }

  lemma RowArithmetic(was: int, now: int, vx: int, vy: int, p: int, w: int, low: int, hi: int, q: int, c: int, all: int)
    requires now + c * all == was + p * (low + q * hi) && low + hi * q == w * vx && was == vx * vy
    requires 0 <= now && vx * (vy + p * w) < all && 0 <= c <= 1
    ensures now == vx * (vy + p * w)
  {
    RowSum(vx, vy, p, w);
    assert low + q * hi == w * vx;
  }

  lemma RowSum(vx: int, vy: int, p: int, w: int)
    ensures vx * (vy + p * w) == vx * vy + p * (w * vx)
  {
    assert vx * (p * w) == p * (w * vx) by { MulAssoc(vx, p, w); MulAssoc(p, w, vx); }
  }

  lemma ProductFits(x: seq<int>, y: seq<int>, n: nat)
    requires AreWords(x) && AreWords(y) && |x| + |y| <= n
    ensures 0 <= Val(x) * Val(y) < Pow(BASE, n)
  {
    hide Val, Pow;
    ValBound(x);
    ValBound(y);
    MulLe(0, Val(x), Val(y));
    MulLe(Val(x), Pow(BASE, |x|), Val(y));
    PowPositive(BASE, |x|);
    MulLess(Val(y), Pow(BASE, |y|), Pow(BASE, |x|));
    PowAdd(BASE, |x|, |y|);
    PowMonoExp(BASE, |x| + |y|, n);
  }

  lemma NoRows(n: nat, x: seq<int>, y: seq<int>)
    ensures Rows(Zeros(n), x, y, 0)
  {
    ValZeros(n);
    assert y[..0] == [];
  }

  /** fancy_mul(), as one row per word of y */
  method Mul(x: array<int>, y: array<int>) returns (out: array<int>)
    requires AreWords(x[..]) && AreWords(y[..])
    ensures fresh(out) && out.Length == x.Length + y.Length && Rows(out[..], x[..], y[..], y.Length)
  {
    hide Val, Pow, Rows, Multiplied, AreWords;
    out := new int[x.Length + y.Length](_ => 0);
    assert out[..] == Zeros(x.Length + y.Length);
    NoRows(x.Length + y.Length, x[..], y[..]);
    var j := 0;
    while j < y.Length
      invariant 0 <= j <= y.Length && Rows(out[..], x[..], y[..], j)
    {
      ghost var was := out[..];
      var row := new int[x.Length](i requires 0 <= i < x.Length reads x => x[i]);
      assert row[..] == x[..];
      WordAt(y[..], j);
      var hi := MulUword(row, x.Length, y[j]);
      ghost var low := row[..];
      assert low == row[..x.Length] && x[..] == x[..][..x.Length];
      WithWord(low, hi);
      RowsWords(was, x[..], y[..], j);
      var carry := Add(out, j, row[..] + [hi]);
      assert out[..][..j] == was[..j] && out[..][j..] == out[j..] && was[j..] == was[j..];
      NextRow(was, out[..], x[..], y[..], j, low, hi, carry);
      j := j + 1;
    }
  }

  lemma WordAt(ws: seq<int>, i: nat)
    requires AreWords(ws) && i < |ws|
    ensures 0 <= ws[i] < BASE
  {
  }

  lemma WithWord(ws: seq<int>, w: int)
    requires AreWords(ws) && 0 <= w < BASE
    ensures AreWords(ws + [w])
  {
  }

  lemma RowsWords(out: seq<int>, x: seq<int>, y: seq<int>, j: nat)
    requires j <= |y| && Rows(out, x, y, j)
    ensures AreWords(out)
  {
  }

  // ----- Products -----

  /** r is the product of a and b, without superfluous zero words. */
  ghost predicate IsProductOf(r: Dec, a: Dec, b: Dec) {
    && Full(r) && r.neg == (a.neg != b.neg) && r.scale <= a.scale + b.scale
    && Val(a.words) * Val(b.words) == Val(r.words) * Pow(BASE, a.scale + b.scale - r.scale)
  }

  /** number_mul() */
  method NumberMul(a: Number, b: Number) returns (r: Number)
    requires Operands(a, b)
    modifies a`refs, b`refs
    ensures fresh(r) && fresh(r.words) && r.refs == 1 && IsProductOf(r.Contents(), old(a.Contents()), old(b.Contents()))
    ensures if a == b then a.refs == old(a.refs) - 2 else a.refs == old(a.refs) - 1 && b.refs == old(b.refs) - 1
  {
    hide Val, Pow, Full, Trimmed;
    ghost var (da, db) := (a.Contents(), b.Contents());
    var words := Mul(a.words, b.words);
    r := new Number(a.sign != b.sign, 0, a.scale + b.scale);
    r.words := words;
    ghost var p := r.Contents();
    ProductDigits(p.words, da, db);
    UnsafeNormalizeFull(r);
    ProductTrimmed(r.Contents(), p, da, db);
    a.Unref();
    b.Unref();
  }

  lemma ProductDigits(ws: seq<int>, a: Dec, b: Dec)
    requires Rows(ws, a.words, b.words, |b.words|)
    ensures AreWords(ws) && Val(ws) == Val(a.words) * Val(b.words)
  {
    assert b.words[..|b.words|] == b.words;
  }

  lemma ProductTrimmed(r: Dec, p: Dec, a: Dec, b: Dec)
    requires Full(r) && Trimmed(p, r) && p.neg == (a.neg != b.neg) && p.scale == a.scale + b.scale
    requires Val(p.words) == Val(a.words) * Val(b.words)
    ensures IsProductOf(r, a, b)
  {
    hide Val, Pow, Full;
  }

  /** number_mul() is exact. */
  lemma ProductIsExact(r: Dec, a: Dec, b: Dec)
    requires IsProductOf(r, a, b)
    ensures Real(r) == Real(a) * Real(b)
  {
    hide Val, Pow;
    PowPositive(BASE, a.scale);
    PowPositive(BASE, b.scale);
    PowPositive(BASE, r.scale);
    PowPositive(BASE, a.scale + b.scale - r.scale);
    PowAdd(BASE, a.scale, b.scale);
    PowAdd(BASE, r.scale, a.scale + b.scale - r.scale);
    var (x, y, z) := (Sign(a.neg) * Val(a.words), Sign(b.neg) * Val(b.words), Sign(r.neg) * Val(r.words));
    var cut := Pow(BASE, a.scale + b.scale - r.scale);
    SignProduct(a.neg, b.neg, Val(a.words), Val(b.words), Val(r.words), cut);
    ProductOfReals(x, y, z, Pow(BASE, a.scale), Pow(BASE, b.scale), Pow(BASE, r.scale), cut);
  }

  lemma SignProduct(s: bool, t: bool, a: int, b: int, r: int, cut: int)
    requires a * b == r * cut
    ensures (Sign(s) * a) * (Sign(t) * b) == (Sign(s != t) * r) * cut
  {
  }

  lemma ProductOfReals(x: int, y: int, z: int, p: int, q: int, u: int, cut: int)
    requires p > 0 && q > 0 && u > 0 && cut > 0 && x * y == z * cut && p * q == u * cut
    ensures z as real / u as real == x as real / p as real * (y as real / q as real)
  {
    Widened(z, u, cut);
    var (a, b) := (x as real / p as real, y as real / q as real);
    assert x as real == a * p as real && y as real == b * q as real;
    assert (x * y) as real == x as real * y as real && (p * q) as real == p as real * q as real;
    MulLess(0, p, q);
    SameFactor((x * y) as real / (p * q) as real, a * b, (p * q) as real, (x * y) as real);
  }

  // ----- Powers -----

  ghost function RealPow(x: real, e: nat): real {
    if e == 0 then 1.0 else x * RealPow(x, e - 1)
  }

  lemma {:induction false} RealPowAdd(x: real, m: nat, n: nat)
    ensures RealPow(x, m + n) == RealPow(x, m) * RealPow(x, n)
  {
    if m > 0 {
      RealPowAdd(x, m - 1, n);
      RealAssoc(x, RealPow(x, m - 1), RealPow(x, n));
    }
  }

  lemma RealAssoc(x: real, y: real, z: real)
    ensures x * (y * z) == x * y * z
  {
  }

  lemma TrimmedReal(was: Dec, now: Dec)
    requires Trimmed(was, now)
    ensures Real(was) == Real(now)
  {
    hide Val, Pow;
    var k := was.scale - now.scale;
    PowPositive(BASE, now.scale);
    PowPositive(BASE, k);
    PowAdd(BASE, now.scale, k);
    MulAssoc(Sign(now.neg), Val(now.words), Pow(BASE, k));
    Widened(Sign(now.neg) * Val(now.words), Pow(BASE, now.scale), Pow(BASE, k));
  }

  /** number_new_from_zu(1) */
  method One() returns (r: Number)
    ensures fresh(r) && fresh(r.words) && r.refs == 1 && Full(r.Contents()) && Real(r.Contents()) == 1.0
  {
    r := new Number(false, 1, 0);
    r.words[0] := 1;
    assert r.words[..] == [1];
    OneWord(1);
    assert Pow(BASE, 0) == 1;
  }

  /** The highest power of two in e. */
  method HighestBit(e: nat) returns (h: nat, ghost k: nat)
    requires e > 0
    ensures h == Pow(2, k) > 0 && e / h == 1
  {
    h := 1;
    k := 0;
    var tmp := e / 2;
    while tmp != 0
      invariant h == Pow(2, k) > 0 && tmp == e / (2 * h) >= 0 && e / h >= 1
      decreases tmp
    {
      HalfQuotient(e, 2 * h);
      h := h * 2;
      k := k + 1;
      tmp := tmp / 2;
    }
    HalfQuotient(e, h);
  }

  lemma HalfQuotient(e: nat, h: nat)
    requires h > 0
    ensures e / (2 * h) == (e / h) / 2 && 0 <= (e / h) / 2 <= e / h
  {
    QuotientAbove(e, h, 0);
    QuotientOfQuotient(e, h, 2);
    assert h * 2 == 2 * h;
  }

  /** What one round of number_pow_zu() multiplies together. */
  lemma PowerRound(x: real, e: nat, h: nat, s: real, t: real)
    requires h > 0 && e / (2 * h) >= 0 && e / h >= 0 && s == RealPow(x, e / (2 * h)) && t == s * s
    ensures (e / h) % 2 == 0 ==> t == RealPow(x, e / h)
    ensures (e / h) % 2 == 1 ==> t * x == RealPow(x, e / h)
  {
    var q := e / (2 * h);
    HalfQuotient(e, h);
    RealPowAdd(x, q, q);
    if (e / h) % 2 == 1 {
      RealPowAdd(x, q + q, 1);
      assert RealPow(x, 1) == x * RealPow(x, 0) == x;
      assert e / h == (q + q) + 1;
    } else {
      assert e / h == q + q;
    }
  }

  /** b and s are numbers of their own, or one number with two references. */
  ghost predicate Apart(b: Number, s: Number)
    reads b, s, b.words, s.words
  {
    && Proper(b.Contents()) && Proper(s.Contents())
    && (if s == b then b.refs == 2 else b.refs == 1 && s.refs == 1 && b.words != s.words)
  }

  /** One round of number_pow_zu() */
  method PowRound(b: Number, s: Number, odd: bool) returns (r: Number)
    requires Apart(b, s)
    modifies b`refs, s`refs
    ensures Apart(b, r) && fresh(r) && fresh(r.words) && b.Contents() == old(b.Contents())
    ensures var (x, y) := (old(Real(b.Contents())), old(Real(s.Contents())));
      Real(r.Contents()) == if odd then (y * y) * x else y * y
  {
    hide Real, IsProductOf, Full;
    ghost var (db, ds) := (b.Contents(), s.Contents());
    s.refs := s.refs + 1;
    r := NumberMul(s, s);
    ghost var d := r.Contents();
    ProductIsExact(d, ds, ds);
    ProductFull(d, ds, ds);
    FullIsProper(d);
    if odd {
      b.refs := b.refs + 1;
      r := NumberMul(r, b);
      ProductIsExact(r.Contents(), d, db);
      ProductFull(r.Contents(), d, db);
      FullIsProper(r.Contents());
    }
  }

  lemma ProductFull(r: Dec, a: Dec, b: Dec)
    requires IsProductOf(r, a, b)
    ensures Full(r)
  {
  }

  /** The loop of number_pow_zu(), from the highest bit of e down; it ends with b given up. */
  method PowLoop(b: Number, e: nat, top: nat, ghost k: nat) returns (s: Number)
    requires b.refs == 2 && Proper(b.Contents()) && top == Pow(2, k) > 0 && e / top == 1
    modifies b`refs
    ensures s.refs == 1 && Proper(s.Contents()) && Real(s.Contents()) == RealPow(old(Real(b.Contents())), e)
    ensures s == b || (fresh(s) && fresh(s.words))
  {
    hide Real, Pow;
    ghost var (d, j) := (b.Contents(), k);
    var h := top;
    s := b;
    PowPositive(2, k);
    FirstPower(Real(d));
    while h > 1
      invariant h == Pow(2, j) > 0 && e / h >= 0 && Apart(b, s) && (s == b || (fresh(s) && fresh(s.words)))
      invariant b.Contents() == d && Real(s.Contents()) == RealPow(Real(d), e / h)
      decreases h
    {
      Halved(h, j);
      ghost var y := Real(s.Contents());
      h := h / 2;
      j := j - 1;
      HalfQuotient(e, h);
      QuotientAbove(e, h, 0);
      s := PowRound(b, s, (e / h) % 2 == 1);
      PowerRound(Real(d), e, h, y, y * y);
    }
    QuotientIs(e, 1, e, 0);
    b.Unref();
  }

  lemma FirstPower(x: real)
    ensures RealPow(x, 1) == x
  {
    assert RealPow(x, 1) == x * RealPow(x, 0);
  }

  lemma Halved(h: nat, j: nat)
    requires h == Pow(2, j) && h > 1
    ensures j > 0 && h / 2 == Pow(2, j - 1) > 0 && h == 2 * (h / 2)
  {
  }

  /** number_pow_zu() */
  method NumberPowZu(a: Number, e: nat) returns (r: Number)
    requires a.Valid()
    modifies a, a.words
    ensures Traded(a, r) && Proper(r.Contents()) && Real(r.Contents()) == RealPow(old(Real(a.Contents())), e)
  {
    hide Real, Full, Trimmed;
    if e == 0 {
      a.Unref();
      r := One();
      FullIsProper(r.Contents());
      return;
    }
    var h, k := HighestBit(e);
    var b := Mkuniq(a);
    ghost var d := b.Contents();
    UnsafeNormalizeFull(b);
    TrimmedReal(d, b.Contents());
    FullIsProper(b.Contents());
    b.refs := b.refs + 1;
    r := PowLoop(b, e, h, k);
  }
}
