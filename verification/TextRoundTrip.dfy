/** From a number to its text and back (number.c). */
module TextRoundTrip {
  import opened Powers
  import opened Words
  import opened Numbers
  import opened Digits
  import opened Shifts
  import opened Printing
  import opened Parsing

  /** r is d without superfluous zero words, and not negative if it is zero. */
  ghost predicate IsNormal(r: Dec, d: Dec) {
    && Full(r) && r.neg == (d.neg && Val(d.words) != 0)
    && Val(r.words) * Pow(BASE, d.scale) == Val(d.words) * Pow(BASE, r.scale)
  }

  // ----- There is only one such number -----

  lemma FullUnique(x: Dec, y: Dec)
    requires Full(x) && Full(y) && x.neg == y.neg
      && Val(x.words) * Pow(BASE, y.scale) == Val(y.words) * Pow(BASE, x.scale)
    ensures x == y
  {
    hide Val, Pow;
    NoSmallerScale(x, y);
    NoSmallerScale(y, x);
    PowPositive(BASE, x.scale);
    Cancel(Val(x.words), Val(y.words), Pow(BASE, x.scale));
    NotShorter(x, y);
    NotShorter(y, x);
    ValUnique(x.words, y.words);
  }

  /** Otherwise the lowest word of y would be zero. */
  lemma NoSmallerScale(x: Dec, y: Dec)
    requires Full(y) && Val(x.words) * Pow(BASE, y.scale) == Val(y.words) * Pow(BASE, x.scale)
    ensures x.scale >= y.scale
  {
    if x.scale < y.scale {
      var k := y.scale - x.scale;
      PowAdd(BASE, k, x.scale);
      PowPositive(BASE, x.scale);
      assert Pow(BASE, k) == BASE * Pow(BASE, k - 1);
      var (v, w) := (y.words[0], Val(y.words[1..]));
      assert Val(y.words) == v + BASE * w;
      hide Val, Pow;
      MulAssoc(Val(x.words), Pow(BASE, k), Pow(BASE, x.scale));
      Cancel(Val(x.words) * Pow(BASE, k), Val(y.words), Pow(BASE, x.scale));
      MulAssoc(Val(x.words), BASE, Pow(BASE, k - 1));
      LowestIsZero(v, w, Val(x.words), Pow(BASE, k - 1));
    }
  }

  lemma LowestIsZero(v: int, w: int, x: int, p: int)
    requires 0 <= v < BASE && v + BASE * w == x * (BASE * p)
    ensures v == 0
  {
    assert x * (BASE * p) == (x * p) * BASE by { MulAssoc(x, p, BASE); }
    assert BASE * w == w * BASE;
    assert 0 + BASE * (x * p) == v + BASE * w;
    DigitUnique(0, x * p, v, w, BASE);
  }

  lemma NotShorter(x: Dec, y: Dec)
    requires Full(x) && Full(y) && x.scale == y.scale && Val(x.words) == Val(y.words)
    ensures |x.words| >= |y.words|
  {
    hide Val, Pow;
    if |x.words| < |y.words| {
      TopWord(y.words);
      ValBound(x.words);
      PowMonoExp(BASE, |x.words|, |y.words| - 1);
    }
  }

  lemma NormalUnique(x: Dec, y: Dec, d: Dec)
    requires IsNormal(x, d) && IsNormal(y, d)
    ensures x == y
  {
    hide Val, Pow;
    var (vx, vy, vd, px, py, pd) := (Val(x.words), Val(y.words), Val(d.words), Pow(BASE, x.scale), Pow(BASE, y.scale),
      Pow(BASE, d.scale));
    PowPositive(BASE, d.scale);
    BothWays(vx, vy, vd, px, py, pd);
    Cancel(vx * py, vy * px, pd);
    FullUnique(x, y);
  }

  lemma BothWays(vx: int, vy: int, vd: int, px: int, py: int, pd: int)
    requires vx * pd == vd * px && vy * pd == vd * py
    ensures (vx * py) * pd == (vy * px) * pd
  {
    assert (vx * py) * pd == (vx * pd) * py;
    assert (vy * px) * pd == (vy * pd) * px;
  }

  // ----- The text denotes the number -----

  /** Only decimal digits. */
  ghost predicate AreClean(s: string) {
    AreDigits(s, 10) && forall k {:trigger s[k]} :: 0 <= k < |s| ==> s[k] !in ".-'"
  }

  /** The digits behind the point. */
  ghost function FracDigits(fs: seq<int>): string
    requires AreWords(fs)
  {
    if Val(fs) == 0 then [] else TrimEnd(Rev(Dig(fs)))
  }

  lemma IntTextIs(ii: seq<int>)
    requires AreWords(ii) && (ii != [] ==> ii[|ii| - 1] != 0)
    ensures var s := IntText(ii);
      s != [] && AreClean(s) && Value(s, 10) == Val(ii)
  {
    hide Val, Pow, Value, Numeral;
    if ii == [] {
      NoValueWords();
      NoValue(10);
      ValueSnoc([], '0', 10);
      assert [] + ['0'] == "0";
    } else {
      TopWord(ii);
      PowPositive(BASE, |ii| - 1);
      NumeralDigits(Val(ii), 10);
    }
  }

  lemma FracDigitsAre(fs: seq<int>)
    requires AreWords(fs)
    ensures var s := FracDigits(fs);
      |s| <= LOG * |fs| && AreClean(s) && Val(fs) == Value(s, 10) * Pow(10, LOG * |fs| - |s|)
  {
    hide Val, Pow, Value, Low, Rev, TrimEnd, Dig, Decode;
    DigIs(fs);
    ValueLow(Val(fs), LOG * |fs|, 10);
    ValueTrimmed(Rev(Dig(fs)), 10);
    NoValue(10);
  }

  /** The text without its sign. */
  ghost function Body(d: Dec): string
    requires Proper(d)
  {
    IntText(d.words[d.scale..]) + FracText(d.words[..d.scale])
  }

  lemma BodyParts(d: Dec)
    requires Proper(d)
    ensures var (t, i, f) := (Body(d), IntText(d.words[d.scale..]), FracDigits(d.words[..d.scale]));
      && IsPlain(t) && IntChars(t) == i && FracChars(t) == f && t != [] && t[0] != '-'
      && (forall k {:trigger t[k]} :: 0 <= k < |t| ==> t[k] != '\'')
  {
    hide IntText, FracText, FracDigits, Val, Value, Decode, IsPlain, IntChars, FracChars;
    IntTextIs(d.words[d.scale..]);
    FracDigitsAre(d.words[..d.scale]);
    FracTextIs(d.words[..d.scale]);
    SplitAtPoint(IntText(d.words[d.scale..]), FracDigits(d.words[..d.scale]));
  }

  lemma SplitAtPoint(i: string, f: string)
    requires AreClean(i) && AreClean(f) && i != []
    ensures var t := i + if f == [] then [] else ['.'] + f;
      && IsPlain(t) && IntChars(t) == i && FracChars(t) == f && t != [] && t[0] != '-'
      && (forall k {:trigger t[k]} :: 0 <= k < |t| ==> t[k] != '\'')
  {
    hide Decode, Point;
    var t := i + if f == [] then [] else ['.'] + f;
    assert forall k :: 0 <= k < |i| ==> t[k] == i[k];
    assert forall k :: |i| < k < |t| ==> t[k] == f[k - |i| - 1];
    BeforePoint(t, |i|);
    PointIs(t, |i|);
    assert t[..|i|] == i;
    if f != [] { assert t[|i| + 1..] == f; }
  }

  lemma FracTextIs(fs: seq<int>)
    requires AreWords(fs)
    ensures FracText(fs) == if FracDigits(fs) == [] then [] else ['.'] + FracDigits(fs)
  {
    hide Val, Pow, Low, Rev, Dig;
    DigIs(fs);
    TrimmedZero(Val(fs), LOG * |fs|, 10);
  }

  lemma {:induction false} NoQuotes(s: string)
    requires forall k {:trigger s[k]} :: 0 <= k < |s| ==> s[k] != '\''
    ensures Unquoted(s) == s
    decreases |s|
  {
    if s != [] {
      NoQuotes(s[1..]);
      assert [s[0]] + s[1..] == s;
    }
  }

  /** The text can be read, and its parts are those of the number. */
  lemma TextIsLiteral(d: Dec)
    requires Proper(d)
    ensures var s := Text(d);
      && s != [] && Unquoted(s) == s && Unsigned(s) == Body(d) && IsPlain(Body(d))
      && (s[0] == '-' <==> d.neg && Val(d.words) != 0)
  {
    hide Val, Body, IsPlain, Unquoted, IntText, FracText;
    BodyParts(d);
    TextIs(d);
    var s := Text(d);
    assert s == (if d.neg && Val(d.words) != 0 then "-" else "") + Body(d) by { BodySplit(d); }
    if d.neg && Val(d.words) != 0 { assert s[1..] == Body(d); } else { assert s == Body(d); }
    NoQuotes(s);
  }

  lemma BodySplit(d: Dec)
    requires Proper(d)
    ensures forall m: string :: m + IntText(d.words[d.scale..]) + FracText(d.words[..d.scale]) == m + Body(d)
  {
  }

  /** Whatever the text denotes, it is the number it was made from. */
  lemma TextDenotes(d: Dec, r: Dec)
    requires Proper(d) && Full(r) && Denotes(r, Body(d)) && r.neg == (d.neg && Val(d.words) != 0)
    ensures IsNormal(r, d)
  {
    hide Val, Pow, Value, Body, Full, IntText, FracDigits, Decode, Denotes, IsPlain;
    BodyParts(d);
    PartsOf(d, r, Body(d), IntText(d.words[d.scale..]), FracDigits(d.words[..d.scale]));
  }

  lemma PartsOf(d: Dec, r: Dec, t: string, i: string, f: string)
    requires Proper(d) && Denotes(r, t) && IntChars(t) == i && FracChars(t) == f
    requires i == IntText(d.words[d.scale..]) && f == FracDigits(d.words[..d.scale])
    ensures Val(r.words) * Pow(BASE, d.scale) == Val(d.words) * Pow(BASE, r.scale)
  {
    hide Val, Pow, Value, IntText, FracDigits, Decode, IntChars, FracChars;
    var (fs, ii) := (d.words[..d.scale], d.words[d.scale..]);
    IntTextIs(ii);
    FracDigitsAre(fs);
    ValueAppend(i, f, 10);
    ValSplit(d.words, d.scale);
    PowPow(10, LOG, d.scale);
    PowAdd(10, |f|, LOG * d.scale - |f|);
    PowPositive(10, |f|);
    DenoteNormal(Val(r.words), Val(ii), Val(fs), Value(f, 10), Pow(10, |f|), Pow(10, LOG * d.scale - |f|),
      Pow(BASE, r.scale));
  }

  lemma DenoteNormal(vr: int, vi: int, vf: int, f: int, t: int, q: int, pr: int)
    requires vr * t == (vi * t + f) * pr && vf == f * q && t > 0
    ensures vr * (t * q) == (vf + (t * q) * vi) * pr
  {
    DenoteBack(vr, vi, vf, f, t, q, pr);
    Cancel(vr * (t * q), (vf + (t * q) * vi) * pr, t);
  }

  lemma DenoteBack(vr: int, vi: int, vf: int, f: int, t: int, q: int, pr: int)
    requires vr * t == (vi * t + f) * pr && vf == f * q
    ensures (vr * (t * q)) * t == ((vf + (t * q) * vi) * pr) * t
  {
    assert (vr * (t * q)) * t == (vr * t) * (q * t);
    assert ((vi * t + f) * pr) * (q * t) == ((vf + (t * q) * vi) * pr) * t by {
      assert (vi * t + f) * q == vf + (t * q) * vi;
      assert ((vi * t + f) * pr) * (q * t) == (((vi * t + f) * q) * pr) * t;
    }
  }

  /** number_parse() of what number_tostring() writes; number_write() emits the same. */
  method PrintAndParse(a: Number) returns (r: Number, same: bool)
    requires Proper(a.Contents())
    ensures fresh(r) && r.refs == 1 && IsNormal(r.Contents(), a.Contents()) && same
  {
    hide IsNormal, Full, Text, Denotes, IsPlain, Body, Unquoted;
    ghost var d := a.Contents();
    var buf := new char[TextSize(a.words.Length)];
    var n := NumberToString(a, buf);
    var s := buf[..n];
    TextIsLiteral(d);
    r := NumberParse(s);
    FullIsProper(r.Contents());
    TextDenotes(d, r.Contents());
    var t := NumberWrite(a);
    same := s == t;
  }

  /** The text has no superfluous zeros and no point without digits on both sides, and zero has no sign. */
  lemma {:induction false} TextIsCanonical(d: Dec)
    requires Proper(d)
    ensures var (s, t) := (Text(d), Unsigned(Text(d)));
      && (s[0] == '-' <==> d.neg && Val(d.words) != 0) && IsPlain(t) && IntChars(t) != []
      && (IntChars(t)[0] == '0' ==> IntChars(t) == "0")
      && (Point(t) < |t| ==> FracChars(t) != [] && FracChars(t)[|FracChars(t)| - 1] != '0')
  {
    hide Val, Body, IsPlain, IntText, FracDigits, IntChars, FracChars, Text, Value, Decode;
    TextIsLiteral(d);
    BodyParts(d);
    IntTextIs(d.words[d.scale..]);
    IntTextStart(d.words[d.scale..]);
    FractionEnd(d);
  }

  lemma IntTextStart(ii: seq<int>)
    requires AreWords(ii) && (ii != [] ==> ii[|ii| - 1] != 0)
    ensures IntText(ii) != [] && (IntText(ii)[0] == '0' ==> IntText(ii) == "0")
  {
    hide Val, Numeral;
    IntTextIs(ii);
    if ii != [] {
      ValBound(ii);
      TopWord(ii);
      PowPositive(BASE, |ii| - 1);
      NumeralDigits(Val(ii), 10);
    }
  }

  lemma FractionEnd(d: Dec)
    requires Proper(d)
    ensures var (t, f) := (Body(d), FracDigits(d.words[..d.scale]));
      Point(t) < |t| ==> f != [] && f[|f| - 1] != '0'
  {
    hide Val, IntText, TrimEnd, Rev, Dig, Value, Decode, IsPlain;
    BodyParts(d);
    FracTextIs(d.words[..d.scale]);
    assert |IntChars(Body(d))| == |IntText(d.words[d.scale..])|;
  }
}
