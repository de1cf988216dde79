/** What is written in some base can be read back. */
module BaseRoundTrip {
  import opened Powers
  import opened Words
  import opened Numbers
  import opened Digits
  import opened Truncation
  import opened Values
  import opened Printing
  import opened Parsing
  import opened Bases
  import opened BaseParsing

  // ----- The digits that are written -----

  /** Nothing but digits. */
  ghost predicate AllDigits(s: string, b: Base) {
    forall i {:trigger s[i]} :: 0 <= i < |s| ==> Decode(s[i]) < b && s[i] !in ".-'"
  }

  lemma {:induction false} FracDigits(d: Dec, b: Base, n: nat)
    requires AreWords(d.words)
    ensures AllDigits(FracString(d, b, n), b)
  {
    hide FracDigit, Decode, DigitChar;
    if n > 0 {
      FracDigits(d, b, n - 1);
      DigitInRange(d, b, n);
      DecodeDigit(FracDigit(d, b, n));
    }
  }

  /** Each digit behind the point is what the integer part grows by. */
  lemma WholeSnoc(d: Dec, b: Base, i: nat)
    requires AreWords(d.words)
    ensures Whole(d, b, i + 1) == b * Whole(d, b, i) + FracDigit(d, b, i + 1)
  {
    assert Pow(b, i + 1) == b * Pow(b, i);
    WholeDefined(d, b, i);
    WholeDefined(d, b, i + 1);
    ValBound(d.words);
    hide Val, Pow;
    var (v, t, p) := (Val(d.words), Pow(b, i), Pow(BASE, d.scale));
    MulLe(0, v, t);
    MulLe(0, v, b * t);
    OneMore(v, t, p, b);
  }

  lemma OneMore(v: nat, t: nat, p: nat, b: Base)
    requires p > 0 && v * t >= 0 && v * (b * t) >= 0
    ensures (v * (b * t)) / p == b * ((v * t) / p) + (v * (b * t)) / p % b
  {
    var x := (v * (b * t)) / p;
    QuotientAbove(v * (b * t), p, 0);
    QuotientOfQuotient(v * (b * t), p, b);
    CommonFactor(v * t, p, b);
    assert v * (b * t) == (v * t) * b by {
      MulAssoc(v, b, t);
      MulAssoc(v, t, b);
    }
    Division(x, b);
  }

  lemma {:induction false} DigitsOfWhole(d: Dec, b: Base, n: nat, i: string)
    requires AreWords(d.words) && Value(i, b) == Whole(d, b, 0)
    ensures Value(i + FracString(d, b, n), b) == Whole(d, b, n)
  {
    hide Value, Whole, Decode, DigitChar;
    if n == 0 {
      assert i + [] == i;
    } else {
      DigitsOfWhole(d, b, n - 1, i);
      WholeSnoc(d, b, n - 1);
      DigitInRange(d, b, n);
      DecodeDigit(FracDigit(d, b, n));
      var s := FracString(d, b, n - 1);
      assert i + (s + [DigitChar(FracDigit(d, b, n))]) == (i + s) + [DigitChar(FracDigit(d, b, n))];
      ValueSnoc(i + s, DigitChar(FracDigit(d, b, n)), b);
    }
  }

  /** Zeros that are left out at the end do not change the value of the fraction. */
  lemma ShorterFraction(i: string, f: string, b: Base)
    ensures Value(i + f, b) == Value(i + TrimEnd(f), b) * Pow(b, |f| - |TrimEnd(f)|)
  {
    hide Value, TrimEnd, Pow;
    var (g, k) := (TrimEnd(f), |f| - |TrimEnd(f)|);
    ValueTrimmed(f, b);
    ValueAppend(i, f, b);
    ValueAppend(i, g, b);
    PowAdd(b, |g|, k);
    assert Value(i, b) * (Pow(b, |g|) * Pow(b, k)) + Value(g, b) * Pow(b, k)
      == (Value(i, b) * Pow(b, |g|) + Value(g, b)) * Pow(b, k) by {
      MulAssoc(Value(i, b), Pow(b, |g|), Pow(b, k));
    }
  }

  // ----- The text as a literal -----

  lemma {:induction false} DigitsAreIn(s: string, b: Base)
    requires AllDigits(s, b)
    ensures DigitsIn(s) == s
    decreases |s|
  {
    if s != [] {
      DigitsAreIn(s[..|s| - 1], b);
      assert s == s[..|s| - 1] + [s[|s| - 1]];
    }
  }

  lemma {:induction false} DigitsBehind(s: string, f: string, b: Base)
    requires AllDigits(f, b)
    ensures DigitsIn(s + f) == DigitsIn(s) + f
    decreases |f|
  {
    if f == [] {
      assert s + f == s && DigitsIn(s) + f == DigitsIn(s);
    } else {
      var (g, c) := (f[..|f| - 1], f[|f| - 1]);
      DigitsBehind(s, g, b);
      DigitsSnoc(s + g, c);
      assert s + f == (s + g) + [c] && (DigitsIn(s) + g) + [c] == DigitsIn(s) + f;
    }
  }

  lemma WithPoint(i: string, f: string, b: Base)
    requires AllDigits(i, b) && AllDigits(f, b) && i != []
    ensures var t := i + ['.'] + f; IsBaseLiteral(t, b) && DigitsIn(t) == i + f && NumFrac(t) == |f|
  {
    hide DigitsIn, Decode, Point;
    var t := i + ['.'] + f;
    DigitsAreIn(i, b);
    DigitsAreIn(f, b);
    DigitsSnoc(i, '.');
    DigitsBehind(i + ['.'], f, b);
    assert i + [] == i;
    assert forall k :: 0 <= k < |i| ==> t[k] == i[k];
    assert forall k :: |i| < k < |t| ==> t[k] == f[k - |i| - 1];
    BeforePoint(t, |i|);
    PointIs(t, |i|);
    assert t[|i| + 1..] == f;
  }

  lemma WithoutPoint(i: string, b: Base)
    requires AllDigits(i, b) && i != []
    ensures IsBaseLiteral(i, b) && DigitsIn(i) == i && NumFrac(i) == 0
  {
    hide DigitsIn, Decode, Point;
    DigitsAreIn(i, b);
    BeforePoint(i, |i|);
  }

  // ----- What the text denotes -----

  ghost function IntegerText(v: nat, b: Base): string {
    if v == 0 then "0" else Numeral(v, b)
  }

  lemma IntegerTextIs(v: nat, b: Base)
    ensures var i := IntegerText(v, b); i != [] && AllDigits(i, b) && Value(i, b) == v
  {
    if v == 0 {
      assert Value("0", b) == b * Value([], b) + Decode('0');
    } else {
      NumeralDigits(v, b);
    }
  }

  ghost function Literal(d: Dec, b: Base, n: nat): string
    requires AreWords(d.words)
  {
    var (i, f) := (IntegerText(Whole(d, b, 0), b), TrimEnd(FracString(d, b, n)));
    if f == [] then i else i + ['.'] + f
  }

  /** The sign is left out of zero, but only when no digits are written behind the point. */
  ghost predicate Minus(d: Dec, b: Base, n: nat)
    requires AreWords(d.words)
  {
    d.neg && Literal(d, b, n) != "0"
  }

  lemma TextIsSigned(d: Dec, b: Base, n: nat)
    requires AreWords(d.words)
    ensures var (s, t) := (BaseText(d, b, n), Literal(d, b, n));
      && s == (if Minus(d, b, n) then "-" else "") + t && t != [] && t[0] != '-'
      && Unsigned(s) == t && s != [] && (s[0] == '-' <==> Minus(d, b, n))
  {
    hide Whole, FracString, TrimEnd, Numeral, Value, Decode;
    IntegerTextIs(Whole(d, b, 0), b);
    var (i, f) := (IntegerText(Whole(d, b, 0), b), TrimEnd(FracString(d, b, n)));
    SignedText(d.neg, i, f);
    assert "-" + Literal(d, b, n) == ['-'] + Literal(d, b, n);
  }

  lemma SignedText(neg: bool, i: string, f: string)
    requires i != [] && i[0] != '-'
    ensures var t := if f == [] then i else i + ['.'] + f;
      && Finished((if neg then "-" else "") + i, f) == (if neg && t != "0" then "-" else "") + t && t[0] != '-'
  {
    var t := if f == [] then i else i + ['.'] + f;
    var m := if neg then "-" else "";
    assert m + i + ['.'] + f == m + (i + ['.'] + f);
    assert t[0] == i[0] && m + t == if neg then ['-'] + t else t;
    if neg {
      assert m + t == "-0" <==> t == "0" by { assert (m + t)[1..] == t; }
    } else {
      assert t != "-0";
    }
  }

  lemma LiteralParts(d: Dec, b: Base, n: nat)
    requires AreWords(d.words)
    ensures var (t, f) := (Literal(d, b, n), TrimEnd(FracString(d, b, n)));
      && IsBaseLiteral(t, b) && DigitsIn(t) == IntegerText(Whole(d, b, 0), b) + f && NumFrac(t) == |f|
  {
    hide Whole, FracString, TrimEnd, IntegerText, IsBaseLiteral, DigitsIn, NumFrac, Value, Decode;
    var (i, f) := (IntegerText(Whole(d, b, 0), b), TrimEnd(FracString(d, b, n)));
    IntegerTextIs(Whole(d, b, 0), b);
    FracDigits(d, b, n);
    if f == [] {
      WithoutPoint(i, b);
      assert i + f == i;
    } else {
      WithPoint(i, f, b);
    }
  }

  /** The text with n digits behind the point denotes the magnitude, cut off behind them. */
  lemma TextDenotes(d: Dec, b: Base, n: nat)
    requires AreWords(d.words)
    ensures Pow(b, n) > 0 && LiteralValue(Literal(d, b, n), b) == Whole(d, b, n) as real / Pow(b, n) as real
  {
    hide Whole, FracString, TrimEnd, IntegerText, DigitsIn, NumFrac, Value, Pow;
    var (t, i, f) := (Literal(d, b, n), IntegerText(Whole(d, b, 0), b), FracString(d, b, n));
    var g := TrimEnd(f);
    LiteralParts(d, b, n);
    IntegerTextIs(Whole(d, b, 0), b);
    DigitsOfWhole(d, b, n, i);
    ShorterFraction(i, f, b);
    PowAdd(b, |g|, n - |g|);
    PowPositive(b, |g|);
    PowPositive(b, n - |g|);
    Widened(Value(i + g, b), Pow(b, |g|), Pow(b, n - |g|));
  }

  lemma WholeIsFloor(d: Dec, b: Base, n: nat)
    requires AreWords(d.words)
    ensures Whole(d, b, n) == (Magnitude(d) * Pow(b, n) as real).Floor
  {
    hide Val, Pow;
    WholeDefined(d, b, n);
    PowPositive(BASE, d.scale);
    var (v, t, p) := (Val(d.words), Pow(b, n), Pow(BASE, d.scale));
    FloorIsQuotient(v * t, p);
    Factored(v, t, p);
  }

  lemma Factored(v: int, t: int, p: int)
    requires p > 0
    ensures (v * t) as real / p as real == v as real / p as real * t as real
  {
    var (x, y, q) := (v as real, t as real, p as real);
    var z := x / q;
    assert (v * t) as real == x * y && x == z * q;
    assert (z * y) * q == x * y;
  }

  // ----- The round trip -----

  /** The magnitude of d with only n digits behind the point. */
  ghost function Shortened(d: Dec, b: Base, n: nat): real {
    PowPositive(b, n);
    CutAt(Magnitude(d), Pow(b, n))
  }

  lemma LiteralIsShortened(d: Dec, b: Base, n: nat)
    requires AreWords(d.words)
    ensures LiteralValue(Literal(d, b, n), b) == Shortened(d, b, n)
    ensures Literal(d, b, n) == "0" ==> Shortened(d, b, n) == 0.0
  {
    hide Whole, Magnitude, Pow, LiteralValue, FracString, TrimEnd, IntegerText;
    TextDenotes(d, b, n);
    WholeIsFloor(d, b, n);
    CutAtIs(Magnitude(d), Whole(d, b, n), Pow(b, n));
    if Literal(d, b, n) == "0" { ZeroLiteral(b); }
  }

  lemma ZeroLiteral(b: Base)
    ensures LiteralValue("0", b) == 0.0
  {
    assert DigitsIn("0") == ['0'] by { assert "0"[..0] == []; }
    assert Value(['0'], b) == b * Value([], b) + Decode('0');
  }

  /** An integer has nothing to cut off. */
  lemma NothingToCut(v: int, p: nat)
    ensures CutOff(v as real, p) == v as real
  {
    PowPositive(10, p);
    hide Pow;
    var t := Pow(10, p);
    assert v as real * t as real == (v * t) as real;
    CutAtIs(v as real, v * t, t);
    Widened(v, 1, t);
  }

  lemma NoFraction(t: string, b: Base, p: nat)
    requires NumFrac(t) == 0
    ensures LiteralValue(t, b) == CutOff(LiteralValue(t, b), p)
  {
    hide CutOff, DigitsIn, NumFrac, Value;
    WholeLiteral(t, b);
    NothingToCut(Value(DigitsIn(t), b), p);
  }

  lemma NothingIsCut(p: nat)
    ensures CutOff(0.0, p) == 0.0
  {
    NothingToCut(0, p);
  }

  /** number_parse_base() of what number_tostring_base() writes */
  method PrintAndParseBase(a: Number, b: Base, nfrac: nat, ntp: Ntp, ghost p: nat) returns (r: Number)
    requires Proper(a.Contents()) && b < BASE && Keeps(ntp, p)
    ensures fresh(r) && r.refs == 1 && Proper(r.Contents())
    ensures var v := CutOff(Shortened(a.Contents(), b, nfrac), p);
      Real(r.Contents()) == if a.sign then -v else v
    ensures nfrac == 0 && a.scale == 0 ==> Real(r.Contents()) == Real(a.Contents())
  {
    hide BaseText, Literal, IsBaseLiteral, LiteralValue, CutOff, Shortened, Real, Proper, Keeps, NumFrac, Value,
      DigitsIn;
    ghost var d := a.Contents();
    ProperWords(d);
    TextIsSigned(d, b, nfrac);
    LiteralParts(d, b, nfrac);
    LiteralIsShortened(d, b, nfrac);
    var size := NumberToStringBaseSize(a, b, nfrac);
    SizePositive(size, a.words.Length, b, nfrac);
    var buf := new char[size];
    var n := NumberToStringBase(a, b, nfrac, buf);
    var s := buf[..n];
    var ok := NumberParseBaseValidate(s, b);
    assert ok;
    r := NumberParseBase(s, b, ntp, p);
    ghost var t := Literal(d, b, nfrac);
    if NumFrac(t) == 0 { NoFraction(t, b, p); }
    NothingIsCut(p);
    if nfrac == 0 && d.scale == 0 { WholeStays(d, b, p); }
  }

  lemma SizePositive(size: int, nwords: nat, b: Base, nfrac: nat)
    requires IsSize(size, nwords, b, nfrac)
    ensures size >= 3
  {
  }

  /** An integer is neither shortened nor cut. */
  lemma WholeStays(d: Dec, b: Base, p: nat)
    requires d.scale == 0
    ensures var v := CutOff(Shortened(d, b, 0), p); Real(d) == if d.neg then -v else v
  {
    hide CutOff, Real, Val;
    IntegerReal(d);
    assert Pow(b, 0) == 1;
    NothingToCut(Val(d.words), p);
  }
}
