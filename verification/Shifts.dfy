/** Multiplication and division of numbers by words and by powers of ten (number.c). */
module Shifts {
  import opened Powers
  import opened Words
  import opened Numbers
  import opened Addition
  import opened NumberDivision
  import opened Values

  /** No zero word at the bottom of the fraction either. */
  ghost predicate Full(d: Dec) {
    Proper(d) && (d.scale > 0 ==> d.words[0] != 0)
  }

  /** Zero words at the bottom of the fraction and on top of the integer part were cut off. */
  ghost predicate Trimmed(was: Dec, now: Dec) {
    && now.neg == was.neg && now.scale <= was.scale
    && Val(was.words) == Val(now.words) * Pow(BASE, was.scale - now.scale)
  }

  /** unsafe_normalize_full() */
  method UnsafeNormalizeFull(a: Number)
    requires a.scale <= a.words.Length && AreWords(a.words[..])
    modifies a`scale, a`words, a.words
    ensures Full(a.Contents()) && Trimmed(old(a.Contents()), a.Contents())
    ensures fresh(a.words) || a.words == old(a.words)
  {
    hide Val, Pow, Full, Trimmed, Stripped;
    var sa := a.scale;
    ghost var was := a.Contents();
    var ds := Skip0(a.words, 0, sa);
    var end := Normalize(a.words, sa, a.words.Length);
    WithoutZeros(was, ds, end);
    UnsafeStrip(a, end - ds, sa - ds);
    StrippedIs(was, ds, end);
  }

  lemma StrippedIs(d: Dec, ds: nat, end: nat)
    requires ds <= d.scale <= |d.words| && ds <= end <= |d.words|
    ensures Stripped(d, end - ds, d.scale - ds) == Dec(d.neg, d.words[ds..end], d.scale - ds)
  {
    assert d.words[ds..][..end - ds] == d.words[ds..end];
  }

  lemma WithoutZeros(d: Dec, ds: nat, end: nat)
    requires ds <= d.scale <= end <= |d.words| && AreWords(d.words)
    requires (forall i :: 0 <= i < ds ==> d.words[i] == 0) && (ds < d.scale ==> d.words[ds] != 0)
    requires (forall i :: end <= i < |d.words| ==> d.words[i] == 0) && (end > d.scale ==> d.words[end - 1] != 0)
    ensures var r := Dec(d.neg, d.words[ds..end], d.scale - ds); Full(r) && Trimmed(d, r)
  {
    hide Val, Pow;
    var ws := d.words;
    ValTrimmed(ws, end);
    ValSplit(ws[..end], ds);
    assert ws[..end][ds..] == ws[ds..end] && ws[..end][..ds] == Zeros(ds);
    ValZeros(ds);
  }

  ghost predicate IsProduct(r: seq<int>, a: seq<int>, b: int) {
    Val(r) == b * Val(a)
  }

  /** number_mul_uword() */
  method NumberMulUword(a: Number, b: int) returns (r: Number)
    requires a.Valid() && 0 <= b < BASE
    modifies a, a.words
    ensures Proper(r.Contents()) && IsProduct(r.words[..], old(a.words[..]), b)
    ensures Traded(a, r)
    ensures if b == 0 then r.Contents() == Dec(false, [], 0) else r.scale == old(a.scale) && r.sign == old(a.sign)
  {
    hide Val, Multiplied, IsProduct;
    if b == 0 {
      a.Unref();
      r := new Number(false, 0, 0);
      NothingLeft(r.words[..], a.words[..]);
      return;
    }
    ghost var d := a.Contents();
    r := Mkuniq(a);
    var out := MulUword(r.words, r.words.Length, b);
    ghost var low := r.words[..];
    assert low == r.words[..r.words.Length] && d.words == d.words[..|d.words|];
    ProductProper(d, low, b, out);
    if out != 0 { r.PushWord(out); }
  }

  lemma NothingLeft(ws: seq<int>, a: seq<int>)
    requires ws == []
    ensures IsProduct(ws, a, 0)
  {
  }

  lemma ProductProper(d: Dec, low: seq<int>, b: int, out: int)
    requires Proper(d) && AreWords(low) && |low| == |d.words| && 0 < b < BASE && 0 <= out < BASE
      && Multiplied(low, d.words, b, out)
    ensures var ws := if out == 0 then low else low + [out];
      Proper(Dec(d.neg, ws, d.scale)) && IsProduct(ws, d.words, b)
  {
    hide Val, Pow;
    if out != 0 {
      ValSnoc(low, out);
    } else if |low| > d.scale {
      TopWord(d.words);
      TopWord(low);
      ValBound(d.words);
      MulLe(1, b, Val(d.words));
    }
  }

  /** number_abs_add_uword() */
  method NumberAbsAddUword(a: Number, b: int) returns (r: Number)
    requires a.Valid() && 0 <= b < BASE
    modifies a, a.words
    ensures b == 0 ==> r == a && a.refs == old(a.refs) && r.words == old(a.words)
    ensures b != 0 ==> Traded(a, r)
    ensures Proper(r.Contents()) && r.scale == old(a.scale) && r.sign == old(a.sign)
    ensures Val(r.words[..]) == old(Val(a.words[..])) + b * Pow(BASE, old(a.scale))
  {
    hide Val, Pow;
    if b == 0 { return a; }
    ghost var d := a.Contents();
    r := Mkuniq(a);
    var sa := r.scale;
    if sa == r.words.Length {
      ValSnoc(d.words, b);
      r.PushWord(b);
      return;
    }
    OneWord(b);
    AddWords(r, sa, [b]);
    TopWord(d.words);
    PowPositive(BASE, sa);
    MulLe(0, b, Pow(BASE, sa));
    TopWord(r.words[..]);
  }

  // ----- Powers of ten -----

  /** The n-th power of ten times small is big. */
  ghost predicate IsShift(small: Dec, big: Dec, n: nat) {
    && small.neg == big.neg
    && Val(small.words) * Pow(10, n) * Pow(BASE, big.scale) == Val(big.words) * Pow(BASE, small.scale)
  }

  /** The loops that multiply m by ten k times. */
  method TimesTen(m: int, k: nat) returns (r: int)
    ensures r == m * Pow(10, k)
  {
    r := m;
    var i: nat := k;
    while i != 0
      invariant i <= k && r * Pow(10, i) == m * Pow(10, k)
    {
      MulAssoc(r, 10, Pow(10, i - 1));
      r := r * 10;
      i := i - 1;
    }
  }

  /** Fewer than LOG digits make less than a word. */
  lemma PartOfWord(k: nat)
    requires k < LOG
    ensures 0 < Pow(10, k) < BASE && Pow(10, k) * Pow(10, LOG - k) == BASE
  {
    PowPositive(10, k);
    PowMonoExp(10, 1, LOG - k);
    assert Pow(10, 1) == 10;
    PowAdd(10, k, LOG - k);
    hide Pow;
    MulLe(10, Pow(10, LOG - k), Pow(10, k));
  }

  lemma TenTo(n: nat)
    ensures n / LOG >= 0 && 0 <= n % LOG && Pow(10, n) == Pow(BASE, n / LOG) * Pow(10, n % LOG)
  {
    Division(n, LOG);
    QuotientAbove(n, LOG, 0);
    hide Pow;
    PowPow(10, LOG, n / LOG);
    PowAdd(10, LOG * (n / LOG), n % LOG);
  }

  lemma Cancel(x: int, y: int, k: int)
    requires k > 0 && x * k == y * k
    ensures x == y
  {
    if x < y { MulLess(x, y, k); } else if y < x { MulLess(y, x, k); }
  }

  /** r, whose scale is e larger than that of a, holds a divided by the k-th power of ten. */
  ghost predicate PartDivided(a: seq<int>, r: seq<int>, k: nat, e: nat) {
    AreWords(r) && Val(r) * Pow(10, k) == Val(a) * Pow(BASE, e)
  }

  /** The part of number_scale_down() that divides by less than a word: what f does not divide becomes one more
      word of the fraction. */
  method DivideByPart(a: Number, k: nat) returns (r: Number)
    requires a.refs == 1 && a.scale <= a.words.Length && AreWords(a.words[..]) && 0 < k < LOG
    modifies a, a.words
    ensures Traded(a, r)
    ensures r.sign == old(a.sign) && r.scale <= r.words.Length && r.scale >= old(a.scale)
    ensures PartDivided(old(a.words[..]), r.words[..], k, r.scale - old(a.scale))
  {
    hide Val, Pow, Divided, PartDivided;
    PartOfWord(k);
    var f := TimesTen(1, k);
    ghost var was := a.words[..];
    var m := DivmodUword(a.words, 0, a.words.Length, f);
    ghost var q := a.words[..];
    assert q == a.words[0..a.words.Length] && was == was[0..|was|];
    r := a;
    NoRemainder(q, was, k, f, m);
    if m != 0 {
      r := MkuniqScaleUp(a, a.scale + 1);
      SomeRemainder(q, was, k, f, m);
      m := TimesTen(m, LOG - k);
      assert r.words[..] == Zeros(1) + q;
      r.words[0] := m;
      assert r.words[..] == [m] + q;
    }
  }

  lemma NoRemainder(q: seq<int>, x: seq<int>, k: nat, f: int, rem: int)
    requires Divided(q, x, f, rem) && f == 1 * Pow(10, k)
    requires AreWords(q)
    ensures rem == 0 ==> PartDivided(x, q, k, 0)
  {
    assert Pow(BASE, 0) == 1;
    hide Val, Pow;
  }

  lemma SomeRemainder(q: seq<int>, x: seq<int>, k: nat, f: int, rem: int)
    requires Divided(q, x, f, rem) && f == 1 * Pow(10, k) && k < LOG && AreWords(q)
    ensures PartDivided(x, [rem * Pow(10, LOG - k)] + q, k, 1)
  {
    PartOfWord(k);
    assert Pow(BASE, 1) == BASE * Pow(BASE, 0) == BASE;
    var (p, t, w) := (Pow(10, k), Pow(10, LOG - k), rem * Pow(10, LOG - k));
    assert ([w] + q)[1..] == q && Val([w] + q) == w + BASE * Val(q);
    hide Val, Pow;
    RemainderWord(rem, p, t);
    RemainderSum(Val(q), rem, p, t, BASE);
  }

  lemma RemainderWord(rem: int, p: int, t: int)
    requires 0 <= rem < p && p * t == BASE
    ensures 0 <= rem * t < BASE
  {
    if t <= 0 { MulLe(t, 0, p); }
    MulLe(0, rem, t);
    MulLess(rem, p, t);
  }

  lemma RemainderSum(q: int, rem: int, p: int, t: int, b: int)
    requires p * t == b
    ensures (rem * t + b * q) * p == (q * p + rem) * b
  {
    assert (rem * t) * p == rem * b by { MulAssoc(rem, t, p); }
    assert (b * q) * p == (q * p) * b by { MulAssoc(b, q, p); }
  }

  /** number_scale_down() */
  method NumberScaleDown(a: Number, n: nat) returns (r: Number)
    requires a.Valid()
    modifies a, a.words
    ensures Traded(a, r) && Full(r.Contents()) && IsShift(r.Contents(), old(a.Contents()), n)
  {
    hide Val, Pow, Full, IsShift, Trimmed, PartDivided, IsProduct;
    var q := n / LOG;
    var k := n % LOG;
    TenTo(n);
    ghost var d := a.Contents();
    var s := a.scale + q;
    var size := if a.words.Length > s then a.words.Length else s;
    r := MkuniqExtend(a, size);
    assert r.words[..] == d.words + Zeros(size - |d.words|) && |r.words[..]| == size && r.scale == d.scale;
    r.scale := r.scale + q;
    if k != 0 {
      r := DivideByPart(r, k);
    } else {
      WholeShift(r.words[..]);
    }
    ghost var w := r.Contents();
    PartIsWords(d.words + Zeros(size - |d.words|), w.words, k, w.scale - s);
    UnsafeNormalizeFull(r);
    ShiftedDown(d, size, w, r.Contents(), n);
  }

  lemma WholeShift(ws: seq<int>)
    requires AreWords(ws)
    ensures PartDivided(ws, ws, 0, 0)
  {
  }

  lemma PartIsWords(a: seq<int>, r: seq<int>, k: nat, e: nat)
    requires PartDivided(a, r, k, e)
    ensures AreWords(r)
  {
  }

  lemma ShiftedDown(a: Dec, size: nat, w: Dec, r: Dec, n: nat)
    requires w.neg == a.neg && w.scale >= a.scale + n / LOG >= a.scale && |a.words| <= size
    requires n % LOG >= 0 && PartDivided(a.words + Zeros(size - |a.words|), w.words, n % LOG,
      w.scale - (a.scale + n / LOG))
    requires Trimmed(w, r)
    ensures IsShift(r, a, n)
  {
    ValPadded(a.words, size - |a.words|);
    TenTo(n);
    hide Val, Pow;
    var (q, f, cut) := (n / LOG, Pow(10, n % LOG), Pow(BASE, w.scale - r.scale));
    PowPositive(BASE, w.scale - r.scale);
    PowAdd(BASE, q, a.scale);
    PowAdd(BASE, w.scale - (a.scale + q), a.scale + q);
    PowAdd(BASE, r.scale, w.scale - r.scale);
    DownProducts(Val(r.words), Val(w.words), Val(a.words), cut, f, Pow(BASE, q), Pow(BASE, a.scale),
      Pow(BASE, w.scale - (a.scale + q)), Pow(BASE, w.scale), Pow(BASE, r.scale));
    Cancel(Val(r.words) * Pow(10, n) * Pow(BASE, a.scale), Val(a.words) * Pow(BASE, r.scale), cut);
  }

  lemma DownProducts(vr: int, vw: int, va: int, cut: int, f: int, bq: int, ba: int, be: int, bw: int, br: int)
    requires vw * f == va * be && vw == vr * cut && bw == be * (bq * ba) && bw == br * cut
    ensures (vr * (bq * f) * ba) * cut == (va * br) * cut
  {
    calc {
      (vr * (bq * f) * ba) * cut;
      ((vr * cut) * f) * (bq * ba);
      (va * be) * (bq * ba);
      va * bw;
      (va * br) * cut;
    }
  }

  /** The part of number_scale_up() that multiplies by less than a word. */
  method MultiplyByPart(a: Number, k: nat) returns (r: Number)
    requires a.Valid() && k < LOG
    modifies a, a.words
    ensures Traded(a, r) || (r == a && a.refs == old(a.refs) && a.words == old(a.words))
    ensures Proper(r.Contents()) && r.scale == old(a.scale) && r.sign == old(a.sign)
    ensures IsProduct(r.words[..], old(a.words[..]), Pow(10, k))
  {
    hide Val, Pow, IsProduct;
    if k == 0 {
      TenToNone(a.words[..]);
      return a;
    }
    PartOfWord(k);
    var f := TimesTen(1, k);
    r := NumberMulUword(a, f);
  }

  /** number_scale_up() */
  method NumberScaleUp(a: Number, n: nat) returns (r: Number)
    requires a.Valid()
    modifies a, a.words
    ensures Traded(a, r) && Proper(r.Contents()) && IsShift(old(a.Contents()), r.Contents(), n)
  {
    hide Val, Pow, Full, IsShift, Trimmed, PartDivided, IsProduct;
    var q := n / LOG;
    var k := n % LOG;
    TenTo(n);
    ghost var d := a.Contents();
    var s := if a.scale > q then a.scale else q;
    r := MkuniqScaleUp(a, s);
    assert r.words[..] == Zeros(s - d.scale) + d.words && |r.words[..]| == s - d.scale + |d.words|;
    r.scale := r.scale - q;
    ghost var w := r.Contents();
    UnsafeNormalizeFull(r);
    ghost var m := r.Contents();
    FullIsProper(m);
    r := MultiplyByPart(r, k);
    ShiftedUp(d, w, m, r.Contents(), n);
  }

  lemma FullIsProper(d: Dec)
    requires Full(d)
    ensures Proper(d)
  {
  }

  lemma TenToNone(ws: seq<int>)
    ensures IsProduct(ws, ws, Pow(10, 0))
  {
  }

  lemma ShiftedUp(a: Dec, w: Dec, m: Dec, r: Dec, n: nat)
    requires n / LOG >= 0 && n % LOG >= 0 && r.neg == w.neg == a.neg && a.scale <= w.scale + n / LOG
    requires w.words == Zeros(w.scale + n / LOG - a.scale) + a.words
    requires Trimmed(w, m) && m.scale == r.scale && IsProduct(r.words, m.words, Pow(10, n % LOG))
    ensures IsShift(a, r, n)
  {
    var s := w.scale + n / LOG;
    ValAppend(Zeros(s - a.scale), a.words);
    ValZeros(s - a.scale);
    TenTo(n);
    hide Val, Pow;
    var (q, f) := (n / LOG, Pow(10, n % LOG));
    var cut := Pow(BASE, s - q - m.scale);
    PowPositive(BASE, s - q - m.scale);
    PowAdd(BASE, r.scale, s - q - m.scale);
    PowAdd(BASE, q, s - q);
    PowAdd(BASE, s - a.scale, a.scale);
    UpProducts(Val(a.words), Val(w.words), Val(m.words), Val(r.words), cut, f, Pow(BASE, q), Pow(BASE, a.scale),
      Pow(BASE, s - a.scale), Pow(BASE, s), Pow(BASE, s - q), Pow(BASE, r.scale));
    Cancel(Val(a.words) * Pow(10, n) * Pow(BASE, r.scale), Val(r.words) * Pow(BASE, a.scale), cut);
  }

  lemma UpProducts(va: int, vw: int, vm: int, vr: int, cut: int, f: int, bq: int, ba: int, be: int, bs: int, bt: int,
      br: int)
    requires vw == be * va && vw == vm * cut && vr == f * vm && bt == br * cut && bs == bq * bt && bs == be * ba
    ensures (va * (bq * f) * br) * cut == (vr * ba) * cut
  {
    calc {
      (va * (bq * f) * br) * cut;
      (va * f) * (bq * (br * cut));
      (va * f) * (be * ba);
      f * (vm * cut) * ba;
      (vr * ba) * cut;
    }
  }

  // ----- What shifting means -----

  lemma ShiftIsExact(small: Dec, big: Dec, n: nat)
    requires IsShift(small, big, n)
    ensures Real(big) == Real(small) * Pow(10, n) as real
  {
    PowPositive(BASE, small.scale);
    PowPositive(BASE, big.scale);
    hide Pow, Val;
    var (x, y, t) := (Sign(small.neg) * Val(small.words), Sign(big.neg) * Val(big.words), Pow(10, n));
    var (p, q) := (Pow(BASE, small.scale), Pow(BASE, big.scale));
    assert x * t * q == y * p by {
      MulAssoc(Sign(small.neg), Val(big.words), p); SignOut(Sign(small.neg), Val(small.words), t, q);
    }
    Crossed(x, y, t, p, q);
  }

  lemma SignOut(s: int, v: int, t: int, q: int)
    ensures s * v * t * q == s * (v * t * q)
  {
  }

  lemma Crossed(x: int, y: int, t: int, p: int, q: int)
    requires p > 0 && q > 0 && x * t * q == y * p
    ensures y as real / q as real == x as real / p as real * t as real
  {
    var (a, b) := (x as real / p as real, y as real / q as real);
    assert x as real == a * p as real && y as real == b * q as real;
    assert (x * t * q) as real == a * p as real * t as real * q as real;
    assert (y * p) as real == b * q as real * p as real;
    assert (a * t as real - b) * (p as real * q as real) == 0.0;
  }

  /** number_scale_up() and number_scale_down() undo each other. */
  method UpAndDown(a: Number, n: nat) returns (r: Number)
    requires a.Valid()
    modifies a, a.words
    ensures r.refs == 1 && Full(r.Contents()) && Real(r.Contents()) == old(Real(a.Contents()))
  {
    hide Real, IsShift, Full;
    ghost var d := a.Contents();
    var b := NumberScaleUp(a, n);
    ghost var e := b.Contents();
    r := NumberScaleDown(b, n);
    SameShift(d, r.Contents(), e, n);
  }

  lemma SameShift(x: Dec, y: Dec, big: Dec, n: nat)
    requires IsShift(x, big, n) && IsShift(y, big, n)
    ensures Real(x) == Real(y)
  {
    hide Real, IsShift;
    ShiftIsExact(x, big, n);
    ShiftIsExact(y, big, n);
    PowPositive(10, n);
    SameFactor(Real(x), Real(y), Pow(10, n) as real, Real(big));
  }

  method DownAndUp(a: Number, n: nat) returns (r: Number)
    requires a.Valid()
    modifies a, a.words
    ensures r.refs == 1 && Proper(r.Contents()) && Real(r.Contents()) == old(Real(a.Contents()))
  {
    hide Real, IsShift, Full;
    ghost var d := a.Contents();
    var b := NumberScaleDown(a, n);
    ghost var e := b.Contents();
    FullIsProper(e);
    r := NumberScaleUp(b, n);
    ShiftIsExact(e, d, n);
    ShiftIsExact(e, r.Contents(), n);
  }
}
