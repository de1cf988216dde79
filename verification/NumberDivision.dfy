/** Truncated quotients of numbers (number.c). */
module NumberDivision {
  import opened Powers
  import opened Words
  import opened Numbers
  import opened Addition
  import opened Truncation

  // ----- Cutting off -----

  ghost function Stripped(d: Dec, nwr: nat, sr: nat): Dec
    requires sr <= d.scale && d.scale - sr + nwr <= |d.words|
  {
    Dec(d.neg, d.words[d.scale - sr..][..nwr], sr)
  }

  /** unsafe_strip() */
  method UnsafeStrip(a: Number, nwr: nat, sr: nat)
    requires sr <= a.scale && a.scale - sr + nwr <= a.words.Length
    modifies a`scale, a`words, a.words
    ensures a.Contents() == Stripped(old(a.Contents()), nwr, sr)
    ensures fresh(a.words) || a.words == old(a.words)
  {
    var nwa, sa := a.words.Length, a.scale;
    ghost var was := a.Contents();
    if nwa == nwr && sa == sr {
      assert was.words[0..][..nwr] == was.words;
      return;
    }
    var ds := sa - sr;
    if ds != 0 {
      forall i | 0 <= i < nwr { a.words[i] := a.words[ds + i]; }
      a.scale := sr;
    }
    a.Reallocate(nwr);
    assert a.words[..] == was.words[ds..][..nwr];
  }

  /** v without its lowest k words. */
  ghost function Dropped(v: int, k: nat): int {
    PowPositive(BASE, k);
    v / Pow(BASE, k)
  }

  ghost predicate DividesBase(m: int) {
    m > 0 && BASE % m == 0
  }

  /** The largest multiple of m that is not above v. */
  ghost function RoundedDown(v: int, m: int): int
  {
    if m > 0 then v - v % m else v
  }

  /** Words that are dropped from the bottom are divided away. */
  lemma ValDropped(ws: seq<int>, i: nat)
    requires i <= |ws| && AreWords(ws)
    ensures Val(ws[i..]) == Dropped(Val(ws), i)
  {
    hide Val, Pow, Dropped;
    ValSplit(ws, i);
    ValBound(ws[..i]);
    DroppedIs(Val(ws), i, Val(ws[i..]), Val(ws[..i]));
  }

  lemma DroppedIs(v: int, k: nat, q: int, r: int)
    requires v == r + Pow(BASE, k) * q && 0 <= r < Pow(BASE, k)
    ensures Dropped(v, k) == q
  {
    hide Pow;
    QuotientIs(v, Pow(BASE, k), q, r);
  }

  /** The lowest word is made a multiple of m. */
  lemma ValMasked(ws: seq<int>, m: int)
    requires ws != [] && AreWords(ws) && DividesBase(m)
    ensures Val(ws[0 := RoundedDown(ws[0], m)]) == RoundedDown(Val(ws), m)
  {
    hide RoundedDown, DividesBase;
    var w := RoundedDown(ws[0], m);
    assert ws[0 := w][1..] == ws[1..] && ws[0 := w][0] == w;
    MaskedSum(ws[0], Val(ws[1..]), m);
  }

  lemma MaskedSum(w: int, v: int, m: int)
    requires DividesBase(m)
    ensures RoundedDown(w, m) + BASE * v == RoundedDown(w + BASE * v, m)
  {
    Division(BASE, m);
    SameRemainder(w, v, m, BASE / m);
    MulAssoc(m, BASE / m, v);
  }

  lemma SameRemainder(w: int, v: int, m: nat, t: nat)
    requires m > 0
    ensures (w + m * (t * v)) % m == w % m
  {
    Division(w, m);
    assert (w / m + t * v) * m == (w / m) * m + m * (t * v);
    QuotientIs(w + m * (t * v), m, w / m + t * v, w % m);
  }

  /** The first half of unsafe_normalize_after_div(): the words above the quotient, which are left over, and the
      zero words on top of its integer part do not count. */
  method TrimQuotient(a: Number, nwr: nat) returns (n: nat)
    requires AreWords(a.words[..]) && nwr <= a.words.Length && a.scale <= a.words.Length
    modifies a.words
    ensures n <= a.words.Length && Proper(Dec(a.sign, a.words[..n], a.scale))
    ensures Val(a.words[..n]) == old(Val(a.words[..nwr]))
  {
    hide Val;
    var sa := a.scale;
    ghost var was := a.words[..];
    if nwr > sa {
      n := Normalize(a.words, sa, nwr);
      ValTrimmed(was[..nwr], n);
      assert was[..nwr][..n] == was[..n];
    } else {
      forall i | nwr <= i < sa { a.words[i] := 0; }
      n := sa;
      ValTrimmed(a.words[..sa], nwr);
      assert a.words[..sa][..nwr] == was[..nwr];
    }
  }

  /** What the second half makes of the words ws: the words of the fraction that are not wanted are cut off, and
      the digits in the lowest one. */
  ghost function Cut(ws: seq<int>, drop: nat, ntp: Ntp): seq<int>
    requires drop <= |ws| && ntp.scale <= |ws| - drop
  {
    var kept := ws[drop..];
    if ntp.scale != 0 then kept[0 := RoundedDown(kept[0], ntp.submod)] else kept
  }

  lemma CutFacts(neg: bool, ws: seq<int>, drop: nat, ntp: Ntp)
    requires Proper(Dec(neg, ws, drop + ntp.scale)) && DividesBase(ntp.submod)
    ensures var (r, v) := (Cut(ws, drop, ntp), Dropped(Val(ws), drop));
      && Proper(Dec(neg, r, ntp.scale))
      && Val(r) == if ntp.scale > 0 then RoundedDown(v, ntp.submod) else v
  {
    hide Val, Dropped, DividesBase, RoundedDown;
    var kept := ws[drop..];
    ValDropped(ws, drop);
    if ntp.scale != 0 {
      ValMasked(kept, ntp.submod);
      WordMasked(kept[0], ntp.submod);
    }
  }

  lemma ProperSize(d: Dec)
    requires Proper(d)
    ensures d.scale <= |d.words| && AreWords(d.words)
  {
  }

  lemma WordMasked(w: int, m: int)
    requires 0 <= w < BASE && DividesBase(m)
    ensures 0 <= RoundedDown(w, m) < BASE
  {
    Division(w, m);
    QuotientAbove(w, m, 0);
    MulLe(0, w / m, m);
  }

  /** unsafe_normalize_after_div(): the quotient is in the lowest nwr words. */
  method UnsafeNormalizeAfterDiv(a: Number, nwr: nat, ntp: Ntp)
    requires AreWords(a.words[..]) && nwr <= a.words.Length && a.scale <= a.words.Length
    requires DividesBase(ntp.submod)
    modifies a`scale, a`words, a.words
    ensures Proper(a.Contents()) && a.scale == (if old(a.scale) < ntp.scale then old(a.scale) else ntp.scale)
    ensures fresh(a.words) || a.words == old(a.words)
    ensures var q := old(Val(a.words[..nwr]));
      if old(a.scale) < ntp.scale then Val(a.words[..]) == q else
      var v := Dropped(q, old(a.scale) - ntp.scale);
      Val(a.words[..]) == if ntp.scale > 0 then RoundedDown(v, ntp.submod) else v
  {
    hide Val, Dropped, RoundedDown, DividesBase, Proper, AreWords, Cut;
    var sa := a.scale;
    var n := TrimQuotient(a, nwr);
    ghost var ws := a.words[..n];
    ProperSize(Dec(a.sign, ws, sa));
    if sa >= ntp.scale {
      CutFacts(a.sign, ws, sa - ntp.scale, ntp);
      CutFraction(a, n, ntp);
    } else {
      UnsafeStrip(a, n, sa);
      assert a.words[..] == ws;
    }
  }

  method CutFraction(a: Number, n: nat, ntp: Ntp)
    requires ntp.scale <= a.scale <= n <= a.words.Length && DividesBase(ntp.submod)
    modifies a`scale, a`words, a.words
    ensures a.scale == ntp.scale && a.words[..] == Cut(old(a.words[..n]), old(a.scale) - ntp.scale, ntp)
    ensures fresh(a.words) || a.words == old(a.words)
  {
    hide DividesBase, RoundedDown, Cut, Stripped;
    ghost var (d, drop) := (a.Contents(), a.scale - ntp.scale);
    assert a.words[..n] == d.words[..n];
    CutSteps(d, n, drop, ntp);
    UnsafeStrip(a, n - a.scale + ntp.scale, ntp.scale);
    if ntp.scale != 0 {
      MaskLowest(a.words, ntp.submod);
    }
  }

  /** Stripping and masking do what Cut says. */
  lemma CutSteps(d: Dec, n: nat, drop: nat, ntp: Ntp)
    requires drop + ntp.scale == d.scale <= n <= |d.words| && DividesBase(ntp.submod)
    ensures var r := Stripped(d, n - drop, ntp.scale);
      && r.scale == ntp.scale && |r.words| == n - drop
      && Cut(d.words[..n], drop, ntp) ==
         if ntp.scale != 0 then r.words[0 := RoundedDown(r.words[0], ntp.submod)] else r.words
  {
    hide DividesBase, RoundedDown;
    assert d.words[drop..][..n - drop] == d.words[..n][drop..];
  }

  method MaskLowest(words: array<int>, m: int)
    requires words.Length > 0 && DividesBase(m)
    modifies words
    ensures words[..] == old(words[..])[0 := RoundedDown(old(words[0]), m)]
  {
    words[0] := words[0] - words[0] % m;
  }

  // ----- The quotient -----

  /** The quotient of the magnitudes, times the p-th power of ten, rounded down. */
  ghost function DecimalQuotient(a: Dec, b: Dec, p: nat): int
    requires AreWords(b.words) && Val(b.words) != 0
  {
    QuotientDefined(b, a.scale);
    (Val(a.words) * Pow(BASE, b.scale) * Pow(10, p)) / (Val(b.words) * Pow(BASE, a.scale))
  }

  lemma QuotientDefined(b: Dec, k: nat)
    requires AreWords(b.words) && Val(b.words) != 0
    ensures Val(b.words) * Pow(BASE, k) > 0
  {
    hide Val, Pow;
    ValBound(b.words);
    PowPositive(BASE, k);
    MulLess(0, Val(b.words), Pow(BASE, k));
  }

  /** r is the quotient of a and b, cut off behind p digits. */
  ghost predicate IsQuotient(r: Dec, a: Dec, b: Dec, p: nat)
    requires AreWords(b.words) && Val(b.words) != 0
  {
    && Proper(r) && p <= LOG * r.scale && r.neg == (a.neg != b.neg)
    && Val(r.words) == DecimalQuotient(a, b, p) * Pow(10, LOG * r.scale - p)
  }

  /** Division at the scale sr, dropping of words and masking of digits are one division. */
  lemma QuotientSteps(va: nat, vb: nat, sa: nat, sb: nat, sr: nat, s: nat, p: nat)
    requires vb > 0 && sa <= sr && s <= sr && p <= LOG * s
    ensures vb * Pow(BASE, sa) > 0
    ensures var m := Pow(10, LOG * s - p);
      RoundedDown(Dropped((va * Pow(BASE, sr + sb - sa)) / vb, sr - s), m)
        == ((va * Pow(BASE, sb) * Pow(10, p)) / (vb * Pow(BASE, sa))) * m
  {
    var (m, d, n) := (Pow(10, LOG * s - p), Pow(BASE, sr - s), va * Pow(BASE, sr + sb - sa));
    PowPositive(10, LOG * s - p);
    PowPositive(BASE, sr - s);
    PowPositive(BASE, sa);
    hide Pow;
    MulLess(0, vb, Pow(BASE, sa));
    MulLe(0, va, Pow(BASE, sr + sb - sa));
    MulLe(0, va, Pow(BASE, sb));
    MulLe(0, va * Pow(BASE, sb), Pow(10, p));
    Dividing(n, vb, d, m);
    SameProducts(va, sa, sb, sr, s, p);
    SameDenominators(vb, d, m, Pow(BASE, sa));
    MulLess(0, d, m);
    MulLess(0, vb, d);
    MulLess(0, vb * d, m);
    EqualFractions(n, vb * d * m, va * Pow(BASE, sb) * Pow(10, p), vb * Pow(BASE, sa), d * m, Pow(BASE, sa));
  }

  lemma Dividing(n: nat, vb: nat, d: nat, m: nat)
    requires vb > 0 && d > 0 && m > 0
    ensures vb * d * m > 0 && RoundedDown((n / vb) / d, m) == (n / (vb * d * m)) * m
  {
    QuotientOfQuotient(n, vb, d);
    QuotientOfQuotient(n, vb * d, m);
    Division((n / vb) / d, m);
  }

  lemma SameDenominators(vb: int, d: int, m: int, x: int)
    ensures (vb * d * m) * x == (vb * x) * (d * m)
  {
    assert vb * d * m == vb * (d * m) by { MulAssoc(vb, d, m); }
    MulAssoc(vb, d * m, x);
    MulAssoc(vb, x, d * m);
  }

  lemma SameProducts(va: nat, sa: nat, sb: nat, sr: nat, s: nat, p: nat)
    requires sa <= sr && s <= sr && p <= LOG * s
    ensures (va * Pow(BASE, sr + sb - sa)) * Pow(BASE, sa)
         == (va * Pow(BASE, sb) * Pow(10, p)) * (Pow(BASE, sr - s) * Pow(10, LOG * s - p))
  {
    hide Pow;
    var (t, m, d) := (Pow(10, p), Pow(10, LOG * s - p), Pow(BASE, sr - s));
    PowAdd(BASE, sr + sb - sa, sa);
    MulAssoc(va, Pow(BASE, sr + sb - sa), Pow(BASE, sa));
    PowAdd(BASE, sb, sr);
    PowAdd(BASE, sr - s, s);
    PowPow(10, LOG, s);
    PowAdd(10, p, LOG * s - p);
    assert (va * Pow(BASE, sb) * t) * (d * m) == va * (Pow(BASE, sb) * (d * (t * m))) by {
      Rearranged(va, Pow(BASE, sb), t, d, m);
    }
  }

  lemma Rearranged(a: int, b: int, t: int, d: int, m: int)
    ensures (a * b * t) * (d * m) == a * (b * (d * (t * m)))
  {
    MulAssoc(a, b, t);
    MulAssoc(a, b * t, d * m);
    MulAssoc(b, t, d * m);
    assert t * (d * m) == d * (t * m);
  }

  /** div_prepare() */
  method DivPrepare(a: Number, mulBasePow: nat, minScale: nat) returns (r: Number)
    requires a.Valid()
    modifies a`refs, a`scale
    ensures Traded(a, r)
    ensures var d := old(a.Contents());
      var sr := if minScale > d.scale then minScale else d.scale;
      r.Contents() == ScaledUp(d, sr + mulBasePow).(scale := sr)
  {
    var sa := a.scale;
    var sr := if minScale > sa then minScale else sa;
    r := MkuniqScaleUp(a, sr + mulBasePow);
    r.scale := sr;
  }

  lemma PreparedDividend(a: Dec, sb: nat, min: nat)
    requires Proper(a)
    ensures var sr := if min > a.scale then min else a.scale;
      var d := ScaledUp(a, sr + sb);
      d.neg == a.neg && sr <= |d.words| && AreWords(d.words)
        && Val(d.words) == Val(a.words) * Pow(BASE, sr + sb - a.scale)
  {
    var sr := if min > a.scale then min else a.scale;
    var n := sr + sb - a.scale;
    hide Val, Pow;
    ValAppend(Zeros(n), a.words);
    ValZeros(n);
  }

  lemma KeepsDivides(ntp: Ntp, p: nat)
    requires Keeps(ntp, p)
    ensures DividesBase(ntp.submod)
  {
    var k := LOG * ntp.scale - p;
    PowPositive(10, k);
    PowAdd(10, LOG - k, k);
    QuotientIs(BASE, Pow(10, k), Pow(10, LOG - k), 0);
  }

  lemma QuotientIsThat(r: Dec, a: Dec, b: Dec, ntp: Ntp, p: nat, sr: nat)
    requires Proper(r) && Proper(a) && Proper(b) && Val(b.words) != 0 && Keeps(ntp, p)
    requires a.scale <= sr && ntp.scale <= sr && r.scale == ntp.scale && r.neg == (a.neg != b.neg)
    requires var v := Dropped((Val(a.words) * Pow(BASE, sr + b.scale - a.scale)) / Val(b.words), sr - ntp.scale);
      Val(r.words) == if ntp.scale > 0 then RoundedDown(v, ntp.submod) else v
    ensures IsQuotient(r, a, b, p)
  {
    var v := Dropped((Val(a.words) * Pow(BASE, sr + b.scale - a.scale)) / Val(b.words), sr - ntp.scale);
    if ntp.scale == 0 {
      assert p == 0 && ntp.submod == 1;
      assert RoundedDown(v, 1) == v;
    }
    hide Val, Pow, Dropped, RoundedDown;
    ValBound(a.words);
    ValBound(b.words);
    QuotientSteps(Val(a.words), Val(b.words), a.scale, b.scale, sr, ntp.scale, p);
  }

  /** number_div(), for a divisor that is not zero and truncation behind p digits */
  method NumberDiv(a: Number, b: Number, ntp: Ntp, ghost p: nat) returns (r: Number)
    requires Operands(a, b) && Val(b.words[..]) != 0 && Keeps(ntp, p)
    modifies a, b, a.words, b.words
    ensures r.refs == 1 && r.scale == ntp.scale && Proper(r.Contents())
    ensures (r == a || fresh(r)) && (fresh(r.words) || r.words == old(a.words))
    ensures IsQuotient(r.Contents(), old(a.Contents()), old(b.Contents()), p) && Spent(a, b)
  {
    hide Val, Pow, IsQuotient, DividesBase, Keeps, Dropped, RoundedDown, ScaledUp;
    ghost var (da, db) := (a.Contents(), b.Contents());
    PreparedDividend(da, db.scale, ntp.scale);
    KeepsDivides(ntp, p);
    ValBound(db.words);
    r := DivPrepare(a, b.scale, ntp.scale);
    ghost var (sr, dividend) := (r.scale, r.words[..]);
    assert Val(dividend) == Val(da.words) * Pow(BASE, sr + db.scale - da.scale);
    assert b.Contents() == db;
    r.sign := r.sign != b.sign;
    assert b.words[..] == db.words && r.words[..] == dividend;
    var nwr := Div(r.words, b.words[..]);
    ghost var q := r.words[..nwr];
    assert Val(q) == (Val(da.words) * Pow(BASE, sr + db.scale - da.scale)) / Val(db.words);
    b.Unref();
    assert r.words[..nwr] == q;
    UnsafeNormalizeAfterDiv(r, nwr, ntp);
    QuotientIsThat(r.Contents(), da, db, ntp, p, sr);
  }
}
