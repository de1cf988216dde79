/** Writing numbers in other bases (number.c). */
module Bases {
  import opened Common
  import opened Powers
  import opened Words
  import opened Numbers
  import opened Digits
  import opened Printing

  // ----- The text -----

  /** The integer part of d times the i-th power of b. */
  ghost function Whole(d: Dec, b: Base, i: nat): nat
    requires AreWords(d.words)
  {
    WholeDefined(d, b, i);
    (Val(d.words) * Pow(b, i)) / Pow(BASE, d.scale)
  }

  lemma WholeDefined(d: Dec, b: Base, i: nat)
    requires AreWords(d.words)
    ensures Pow(BASE, d.scale) > 0 && (Val(d.words) * Pow(b, i)) / Pow(BASE, d.scale) >= 0
  {
    hide Val, Pow;
    PowPositive(BASE, d.scale);
    ValBound(d.words);
    MulLe(0, Val(d.words), Pow(b, i));
    QuotientAbove(Val(d.words) * Pow(b, i), Pow(BASE, d.scale), 0);
  }

  /** The i-th digit behind the point. */
  ghost function FracDigit(d: Dec, b: Base, i: nat): int
    requires AreWords(d.words)
  {
    Whole(d, b, i) % b
  }

  /** The first n digits behind the point. */
  ghost function FracString(d: Dec, b: Base, n: nat): (s: string)
    requires AreWords(d.words)
    ensures |s| == n
  {
    if n == 0 then [] else FracString(d, b, n - 1) + [DigitChar(FracDigit(d, b, n))]
  }

  ghost function BaseText(d: Dec, b: Base, n: nat): string
    requires AreWords(d.words)
  {
    var i := Whole(d, b, 0);
    Finished((if d.neg then "-" else "") + (if i == 0 then "0" else Numeral(i, b)), TrimEnd(FracString(d, b, n)))
  }

  // ----- The size of the buffer -----

  /** The loop of number_tostring_base_size() */
  method DigitsPerWord(b: Base) returns (dpw: nat)
    ensures Pow(b, dpw) >= BASE && (dpw > 0 ==> Pow(b, dpw - 1) < BASE)
  {
    dpw := 0;
    var x := 1;
    while x < BASE
      invariant x == Pow(b, dpw) && x >= 1 && (dpw > 0 ==> Pow(b, dpw - 1) < BASE)
      decreases BASE - x
    {
      MulLe(2, b, x);
      dpw := dpw + 1;
      x := x * b;
    }
  }

  ghost predicate IsSize(size: int, nwords: nat, b: Base, nfrac: nat) {
    exists dpw: nat :: Pow(b, dpw) >= BASE && size == 3 + (nfrac + nwords * dpw)
  }

  /** number_tostring_base_size() */
  method NumberToStringBaseSize(a: Number, b: Base, nfrac: nat) returns (size: int)
    ensures IsSize(size, a.words.Length, b, nfrac)
  {
    var dpw := DigitsPerWord(b);
    size := 3 + (nfrac + a.words.Length * dpw);
  }

  lemma {:induction false} NumeralLength(v: nat, n: nat, b: Base)
    requires v < Pow(b, n)
    ensures |Numeral(v, b)| <= n
    decreases n
  {
    if n > 0 && v > 0 {
      DigitBounds(v, Pow(b, n - 1), b);
      NumeralLength(v / b, n - 1, b);
    }
  }

  /** The digits of the integer part fit. */
  lemma IntegerFits(ws: seq<int>, nwords: nat, b: Base, nfrac: nat, size: int)
    requires AreWords(ws) && |ws| <= nwords && IsSize(size, nwords, b, nfrac)
    ensures Val(ws) >= 0 && |Numeral(Val(ws), b)| + nfrac + 3 <= size
  {
    hide Val, Pow, Numeral;
    var dpw: nat :| Pow(b, dpw) >= BASE && size == 3 + (nfrac + nwords * dpw);
    ValBound(ws);
    PowMono(BASE, Pow(b, dpw), |ws|);
    PowPow(b, dpw, |ws|);
    NumeralLength(Val(ws), dpw * |ws|, b);
    MulLe(|ws|, nwords, dpw);
  }

  // ----- number_tostring_base() -----

  lemma IntegerStep(now: seq<int>, was: seq<int>, b: Base, digit: int)
    requires AreWords(was) && AreWords(now) && was != [] && was[|was| - 1] != 0 && Divided(now, was, b, digit)
    ensures 0 <= digit < b && 0 <= Val(now) < Val(was)
    ensures Rev(Numeral(Val(was), b)) == [DigitChar(digit)] + Rev(Numeral(Val(now), b))
  {
    hide Val, Pow, Numeral, Rev, DigitChar;
    TopWord(was);
    PowPositive(BASE, |was| - 1);
    Words.Quotient(now, was, b, digit);
    DivisionSmaller(Val(was), b);
    NumeralStep(Val(was), b);
    RevAppend(Numeral(Val(was) / b, b), [DigitChar(digit)]);
    RevOne(DigitChar(digit));
  }

  lemma DivisionSmaller(v: nat, b: Base)
    requires v > 0
    ensures 0 <= v / b < v
  {
    QuotientAbove(v, b, 0);
    MulLe(2, b, v);
    QuotientBelow(v, b, v);
  }

  /** The digits of the integer part, which is used up, lowest first. */
  method IntegerDigits(wx: array<int>, sa: nat, b: Base, r: array<char>) returns (p: nat)
    requires AreWords(wx[..]) && sa <= wx.Length && (wx.Length > sa ==> wx[wx.Length - 1] != 0)
    requires Val(wx[sa..]) >= 0 && |Numeral(Val(wx[sa..]), b)| <= r.Length
    modifies wx, r
    ensures AreWords(wx[..]) && wx[..sa] == old(wx[..sa])
    ensures old(Val(wx[sa..])) >= 0 && p <= r.Length && r[..p] == Rev(Numeral(old(Val(wx[sa..])), b))
  {
    hide Val, Numeral, Rev, Divided, AreWords;
    var end := wx.Length;
    ghost var all := Rev(Numeral(Val(wx[sa..]), b));
    p := 0;
    assert wx[sa..end] == wx[sa..] && [] + all == all;
    while end != sa
      invariant sa <= end <= wx.Length && AreWords(wx[..]) && wx[..sa] == old(wx[..sa])
        && (end > sa ==> wx[end - 1] != 0)
      invariant Val(wx[sa..end]) >= 0 && p <= r.Length && all == r[..p] + Rev(Numeral(Val(wx[sa..end]), b))
      decreases Val(wx[sa..end])
    {
      ghost var (was, done) := (wx[sa..end], r[..p]);
      SubWordsAre(wx[..], sa, end);
      var digit := DivmodUword(wx, sa, end, b);
      SubWordsAre(wx[..], sa, end);
      ghost var now := wx[sa..end];
      IntegerStep(now, was, b, digit);
      r[p] := DigitChar(digit);
      p := p + 1;
      assert r[..p] == done + [DigitChar(digit)];
      Cat3(done, [DigitChar(digit)], Rev(Numeral(Val(now), b)));
      var n := Normalize(wx, sa, end);
      ValTrimmed(now, n - sa);
      assert now[..n - sa] == wx[sa..n];
      end := n;
    }
    NothingMore(wx[sa..end], b);
    assert r[..p] + [] == r[..p];
  }

  lemma SubWordsAre(ws: seq<int>, lo: nat, hi: nat)
    requires AreWords(ws) && lo <= hi <= |ws|
    ensures AreWords(ws[lo..hi])
  {
  }

  lemma NothingMore(ws: seq<int>, b: Base)
    requires ws == []
    ensures Val(ws) == 0 && Rev(Numeral(Val(ws), b)) == []
  {
  }

  // ----- The fraction -----

  lemma FracStep(d: Dec, b: Base, i: nat, cur: int, out: int, new': int)
    requires AreWords(d.words) && 0 <= new' < Pow(BASE, d.scale) && 0 <= out
    requires Pow(BASE, d.scale) > 0 && cur == (Val(d.words) * Pow(b, i)) % Pow(BASE, d.scale)
    requires new' + out * Pow(BASE, d.scale) == b * cur
    ensures FracDigit(d, b, i + 1) == out && 0 <= out < b
    ensures (Val(d.words) * Pow(b, i + 1)) % Pow(BASE, d.scale) == new'
  {
    WholeDefined(d, b, i + 1);
    assert Pow(b, i + 1) == b * Pow(b, i);
    var (w, p, t) := (Val(d.words), Pow(BASE, d.scale), Pow(b, i));
    hide Val, Pow;
    OneDigit(w * t, p, b, out, new');
    MulAssoc(b, w, t);
    MulAssoc(w, b, t);
  }

  lemma OneDigit(x: int, p: nat, b: Base, out: int, new': int)
    requires p > 0 && 0 <= new' < p && 0 <= out && new' + out * p == b * (x % p)
    ensures (b * x) % p == new' && ((b * x) / p) % b == out && out < b
  {
    Division(x, p);
    MulLess(x % p, p, b);
    assert out * p < b * p;
    LessByMul(out, b, p);
    assert b * x == (b * (x / p) + out) * p + new' by {
      assert b * ((x / p) * p + x % p) == (b * (x / p)) * p + b * (x % p) by { MulAssoc(b, x / p, p); }
      assert (b * (x / p) + out) * p == (b * (x / p)) * p + out * p;
    }
    QuotientIs(b * x, p, b * (x / p) + out, new');
    QuotientIs(b * (x / p) + out, b, x / p, out);
  }

  /** The fraction of d is left after i digits. */
  ghost predicate Remains(ws: seq<int>, d: Dec, b: Base, i: nat) {
    && AreWords(d.words) && AreWords(ws) && |ws| == d.scale
    && Pow(BASE, d.scale) > 0 && Val(ws) == (Val(d.words) * Pow(b, i)) % Pow(BASE, d.scale)
  }

  lemma NextRemains(now: seq<int>, was: seq<int>, d: Dec, b: Base, i: nat, out: int)
    requires Remains(was, d, b, i) && AreWords(now) && |now| == |was| && 0 <= out && Multiplied(now, was, b, out)
    ensures Remains(now, d, b, i + 1) && FracDigit(d, b, i + 1) == out && 0 <= out < b
  {
    hide Val, Pow, FracDigit;
    ValBound(now);
    FracStep(d, b, i, Val(was), out, Val(now));
  }

  /** The digits behind the point: each is what a multiplication by the base pushes out of the fraction. */
  method FractionDigits(wx: array<int>, sa: nat, b: Base, n: nat, r: array<char>, p: nat, ghost d: Dec)
    requires AreWords(wx[..]) && sa <= wx.Length && sa == d.scale && Remains(wx[..sa], d, b, 0)
    requires p + n <= r.Length && b < BASE
    modifies wx, r
    ensures r[..p + n] == old(r[..p]) + FracString(d, b, n)
  {
    hide FracDigit, DigitChar, Remains, AreWords, Multiplied;
    var i := 0;
    assert old(r[..p]) + [] == old(r[..p]);
    RemainsWords(wx[..sa], d, b, 0);
    while i < n
      invariant 0 <= i <= n && AreWords(wx[..]) && AreWords(d.words) && Remains(wx[..sa], d, b, i)
      invariant r[..p + i] == old(r[..p]) + FracString(d, b, i)
    {
      ghost var (was, done) := (wx[..sa], r[..p + i]);
      var digit := MulUword(wx, sa, b);
      SubWordsAre(wx[..], 0, sa);
      assert wx[..sa] == wx[..][0..sa];
      NextRemains(wx[..sa], was, d, b, i, digit);
      r[p + i] := DigitChar(digit);
      assert r[..p + i + 1] == done + [DigitChar(digit)];
      Cat3(old(r[..p]), FracString(d, b, i), [DigitChar(digit)]);
      i := i + 1;
    }
  }

  lemma RemainsWords(ws: seq<int>, d: Dec, b: Base, i: nat)
    requires Remains(ws, d, b, i)
    ensures AreWords(d.words)
  {
  }

  /** The number is its integer part and what remains behind the point. */
  lemma Separated(d: Dec, b: Base)
    requires Proper(d)
    ensures Remains(d.words[..d.scale], d, b, 0) && Val(d.words[d.scale..]) == Whole(d, b, 0)
  {
    assert Pow(b, 0) == 1;
    hide Val, Pow;
    WholeDefined(d, b, 0);
    ValSplit(d.words, d.scale);
    ValBound(d.words[..d.scale]);
    QuotientIs(Val(d.words), Pow(BASE, d.scale), Val(d.words[d.scale..]), Val(d.words[..d.scale]));
  }

  lemma {:induction false} NoPoints(d: Dec, b: Base, n: nat)
    requires AreWords(d.words)
    ensures '.' !in FracString(d, b, n)
  {
    hide FracDigit;
    if n > 0 {
      NoPoints(d, b, n - 1);
      DigitInRange(d, b, n);
      DecodeDigit(FracDigit(d, b, n));
    }
  }

  lemma DigitInRange(d: Dec, b: Base, i: nat)
    requires AreWords(d.words)
    ensures 0 <= FracDigit(d, b, i) < b
  {
  }

  /** number_tostring_base(), with a buffer of the size that number_tostring_base_size() tells */
  method NumberToStringBase(a: Number, b: Base, nfrac: nat, r: array<char>) returns (n: nat)
    requires Proper(a.Contents()) && b < BASE && IsSize(r.Length, a.words.Length, b, nfrac)
    modifies r
    ensures n <= r.Length && r[..n] == BaseText(a.Contents(), b, nfrac)
  {
    hide Numeral, Rev, Val, Whole, FracString, TrimEnd, Finished, Remains, IsSize, AreWords;
    ghost var d := a.Contents();
    var sa := a.scale;
    var wx := new int[a.words.Length](i requires 0 <= i < a.words.Length reads a, a.words => a.words[i]);
    assert wx[..] == d.words;
    Separated(d, b);
    SubWordsAre(d.words, sa, |d.words|);
    assert wx[sa..] == d.words[sa..] == d.words[sa..|d.words|] && wx[..sa] == d.words[..sa];
    IntegerFits(wx[sa..], |d.words|, b, nfrac, r.Length);
    ghost var i := Numeral(Whole(d, b, 0), b);
    var p := IntegerDigits(wx, sa, b, r);
    p := Head(r, p, a.sign, i);
    WholeNumeral(Whole(d, b, 0), b);
    n := Tail(wx, sa, b, nfrac, r, p, d, (if d.neg then "-" else "") + (if i == [] then "0" else i));
  }

  /** The rest of number_tostring_base(): the point, the fraction and the removal of zeros at the end. */
  method Tail(wx: array<int>, sa: nat, b: Base, nfrac: nat, r: array<char>, p: nat, ghost d: Dec, ghost head: string)
    returns (n: nat)
    requires AreWords(wx[..]) && sa <= wx.Length && sa == d.scale && Remains(wx[..sa], d, b, 0) && b < BASE
    requires p + 1 + nfrac <= r.Length && r[..p] == head && AreWords(d.words)
    modifies wx, r
    ensures n <= r.Length && r[..n] == Finished(head, TrimEnd(FracString(d, b, nfrac)))
  {
    hide FracString, TrimEnd, Finished, Remains, AreWords;
    r[p] := '.';
    assert r[..p + 1] == head + ['.'];
    FractionDigits(wx, sa, b, nfrac, r, p + 1, d);
    ghost var f := FracString(d, b, nfrac);
    TrimAppend(head, '.', f);
    assert r[..p + 1 + nfrac] == head + ['.'] + f && r[|head|] == r[..p + 1 + nfrac][|head|];
    var q := TrimZeros(r, p + 1 + nfrac);
    NoPoints(d, b, nfrac);
    n := Finish(r, q, head, TrimEnd(f));
  }

  lemma WholeNumeral(v: nat, b: Base)
    ensures Numeral(v, b) == [] <==> v == 0
  {
  }

  /** At least one digit, the sign, and everything turned around. */
  method Head(r: array<char>, p: nat, neg: bool, ghost i: string) returns (q: nat)
    requires p + 3 <= r.Length && r[..p] == Rev(i)
    modifies r
    ensures q < r.Length && r[..q] == (if neg then "-" else "") + (if i == [] then "0" else i)
    ensures q <= p + 2 && (p > 0 ==> q <= p + 1)
  {
    hide Rev;
    ghost var whole := if i == [] then "0" else i;
    RevOne('0');
    q := p;
    if q == 0 {
      r[q] := '0';
      q := q + 1;
    }
    RevIsEmpty(i);
    assert r[..q] == Rev(whole);
    if neg {
      r[q] := '-';
      q := q + 1;
    }
    ghost var minus := if neg then "-" else "";
    assert r[..q] == Rev(whole) + minus;
    SpanReverse(r, q);
    RevAppend(Rev(whole), minus);
    RevRev(whole);
    RevOne('-');
    assert "-" == ['-'];
  }

  lemma RevIsEmpty(i: string)
    ensures Rev(i) == [] <==> i == []
  {
  }
}
