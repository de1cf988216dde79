/** Reading numbers in other bases (number.c). */
module BaseParsing {
  import opened Powers
  import opened Words
  import opened Numbers
  import opened Digits
  import opened Truncation
  import opened NumberDivision
  import opened Values
  import opened Shifts
  import opened Multiplication
  import opened Printing
  import opened Parsing

  // ----- What a literal denotes -----

  /** The digits, without points and quotes. */
  function DigitsIn(t: string): string {
    if t == [] then []
    else DigitsIn(t[..|t| - 1]) + (if t[|t| - 1] in ".'" then [] else [t[|t| - 1]])
  }

  /** The number of digits behind the point. */
  function NumFrac(t: string): nat {
    if Point(t) < |t| then |DigitsIn(t[Point(t) + 1..])| else 0
  }

  /** Only digits, quotes and at most one point among the first n characters. */
  ghost predicate Readable(t: string, n: nat, b: Base)
    requires n <= |t|
  {
    && (forall i {:trigger t[i]} :: 0 <= i < n ==> t[i] in ".'" || Decode(t[i]) < b)
    && (forall i, j {:trigger t[i], t[j]} :: 0 <= i < j < n ==> !(t[i] == '.' && t[j] == '.'))
  }

  /** At least one digit is there. */
  ghost predicate IsBaseLiteral(t: string, b: Base) {
    Readable(t, |t|, b) && DigitsIn(t) != []
  }

  ghost predicate HasPoint(t: string, n: nat)
    requires n <= |t|
  {
    exists k :: 0 <= k < n && t[k] == '.'
  }

  lemma DigitsSnoc(t: string, c: char)
    ensures DigitsIn(t + [c]) == DigitsIn(t) + (if c in ".'" then [] else [c])
  {
    assert (t + [c])[..|t|] == t;
  }

  lemma ReadOne(t: string, n: nat, b: Base)
    requires n < |t|
    ensures Readable(t, n + 1, b) <==>
      Readable(t, n, b) && (t[n] in ".'" || Decode(t[n]) < b) && !(t[n] == '.' && HasPoint(t, n))
    ensures HasPoint(t, n + 1) <==> HasPoint(t, n) || t[n] == '.'
  {
    hide Decode;
  }

  lemma ReadablePart(t: string, n: nat, m: nat, b: Base)
    requires n <= m <= |t| && Readable(t, m, b)
    ensures Readable(t, n, b)
  {
  }

  /** number_parse_base_validate() */
  method NumberParseBaseValidate(s: string, b: Base) returns (ok: bool)
    ensures ok <==> IsBaseLiteral(Unsigned(s), b)
  {
    hide Readable, HasPoint, DigitsIn, Decode, Unsigned;
    var t := Unsigned(s);
    var i, seenDigit, seenDot := 0, false, false;
    NothingRead(t, b);
    while i != |t|
      invariant 0 <= i <= |t| && Readable(t, i, b)
      invariant (seenDot <==> HasPoint(t, i)) && (seenDigit <==> DigitsIn(t[..i]) != [])
    {
      var c := t[i];
      NextChar(t, i);
      ReadOne(t, i, b);
      if Readable(t, |t|, b) { ReadablePart(t, i + 1, |t|, b); }
      if c == '.' {
        if seenDot { return false; }
        seenDot := true;
      } else if c != '\'' {
        if Decode(c) >= b { return false; }
        seenDigit := true;
      }
      i := i + 1;
    }
    assert t[..i] == t;
    ok := seenDigit;
  }

  lemma NothingRead(t: string, b: Base)
    ensures Readable(t, 0, b) && !HasPoint(t, 0) && DigitsIn(t[..0]) == []
  {
  }

  // ----- Accumulating digits -----

  /** number_new_from_zu() */
  method NumberNewFromZu(x: nat) returns (a: Number)
    ensures fresh(a) && fresh(a.words) && a.refs == 1 && Proper(a.Contents()) && a.scale == 0 && !a.sign
    ensures Val(a.words[..]) == x
  {
    hide Val, Pow;
    a := new Number(false, 0, 0);
    var y := x;
    assert a.words[..] == [];
    NoValueWords();
    assert Pow(BASE, 0) == 1 by { PowZero(); }
    while y != 0
      invariant 0 <= y && fresh(a) && fresh(a.words) && a.refs == 1 && a.scale == 0 && !a.sign && AreWords(a.words[..])
      invariant Val(a.words[..]) + y * Pow(BASE, a.words.Length) == x
      invariant y == 0 && a.words.Length > 0 ==> a.words[a.words.Length - 1] != 0
      decreases y
    {
      var w := y % BASE;
      NextWord(y, a.words[..]);
      a.PushWord(w);
      y := y / BASE;
    }
  }

  lemma PowZero()
    ensures Pow(BASE, 0) == 1
  {
  }

  lemma NextWord(y: nat, ws: seq<int>)
    requires y > 0
    ensures var (w, r) := (y % BASE, y / BASE);
      && 0 <= w < BASE && 0 <= r < y && (r == 0 ==> w != 0)
      && Val(ws + [w]) + r * Pow(BASE, |ws| + 1) == Val(ws) + y * Pow(BASE, |ws|)
  {
    assert Pow(BASE, |ws| + 1) == BASE * Pow(BASE, |ws|);
    hide Val, Pow;
    LowestWord(y);
    ValSnoc(ws, y % BASE);
    WordMoved(y, y % BASE, y / BASE, Pow(BASE, |ws|), BASE);
  }

  lemma LowestWord(y: nat)
    requires y > 0
    ensures var (w, r) := (y % BASE, y / BASE); 0 <= w < BASE && 0 <= r < y && (r == 0 ==> w != 0) && y == r * BASE + w
  {
    Division(y, BASE);
    QuotientAbove(y, BASE, 0);
    MulLe(2, BASE, y);
    QuotientBelow(y, BASE, y);
  }

  lemma WordMoved(y: int, w: int, r: int, p: int, b: int)
    requires y == r * b + w
    ensures p * w + r * (b * p) == y * p
  {
    MulAssoc(r, b, p);
    assert (r * b + w) * p == (r * b) * p + w * p;
  }

  // ----- number_parse_base() -----

  lemma OneMoreDigit(ws: seq<int>, times: seq<int>, plus: seq<int>, ds: string, c: char, b: Base)
    requires Val(ws) == Value(ds, b) && IsProduct(times, ws, b) && Val(plus) == Val(times) + Decode(c) * Pow(BASE, 0)
    ensures Val(plus) == Value(ds + [c], b)
  {
    hide Val, Value, Pow, Decode, IsProduct;
    PowZero();
    ValueOfProduct(times, ws, b);
    ValueSnoc(ds, c, b);
  }

  lemma ValueOfProduct(times: seq<int>, ws: seq<int>, b: Base)
    requires IsProduct(times, ws, b)
    ensures Val(times) == b * Val(ws)
  {
    hide Val;
  }

  /** One more digit at the end of an integer. */
  method AppendDigit(a: Number, b: Base, c: char, ghost ds: string) returns (r: Number)
    requires a.Valid() && a.refs == 1 && a.scale == 0 && !a.sign && Decode(c) < b < BASE
      && Val(a.words[..]) == Value(ds, b)
    modifies a, a.words
    ensures r.refs == 1 && Proper(r.Contents()) && r.scale == 0 && !r.sign && Val(r.words[..]) == Value(ds + [c], b)
    ensures (r == a || fresh(r)) && (fresh(r.words) || r.words == old(a.words))
  {
    hide Val, Value, IsProduct, Pow, Decode;
    ghost var ws := a.words[..];
    r := NumberMulUword(a, b);
    ghost var times := r.words[..];
    DigitIsWord(c, b);
    r := NumberAbsAddUword(r, Decode(c));
    OneMoreDigit(ws, times, r.words[..], ds, c, b);
  }

  /** What one more character does to the digits and to the number of those behind the point. */
  lemma NextChar(t: string, i: nat)
    requires i < |t|
    ensures DigitsIn(t[..i + 1]) == if t[i] in ".'" then DigitsIn(t[..i]) else DigitsIn(t[..i]) + [t[i]]
    ensures Point(t) < i ==>
      |DigitsIn(t[Point(t) + 1..i + 1])| == |DigitsIn(t[Point(t) + 1..i])| + if t[i] in ".'" then 0 else 1
    ensures i <= Point(t) ==>
      if t[i] == '.' then Point(t) == i && DigitsIn(t[Point(t) + 1..i + 1]) == [] else i + 1 <= Point(t)
  {
    hide DigitsIn;
    assert t[..i + 1] == t[..i] + [t[i]];
    DigitsSnoc(t[..i], t[i]);
    if Point(t) < i {
      assert t[Point(t) + 1..i + 1] == t[Point(t) + 1..i] + [t[i]];
      DigitsSnoc(t[Point(t) + 1..i], t[i]);
    } else if t[i] == '.' {
      PointIs(t, i);
      NoDigitsIn(t[i + 1..i + 1]);
    } else {
      NotThePoint(t, i);
    }
  }

  lemma NoDigitsIn(t: string)
    requires t == []
    ensures DigitsIn(t) == []
  {
  }

  /** The loop of number_parse_base(): all digits as one integer, and how many of them are behind the point. */
  method ParseDigits(t: string, b: Base) returns (a: Number, baseScale: nat)
    requires IsBaseLiteral(t, b) && b < BASE
    ensures fresh(a) && fresh(a.words) && a.refs == 1 && Proper(a.Contents()) && a.scale == 0 && !a.sign
    ensures Val(a.words[..]) == Value(DigitsIn(t), b) && baseScale == NumFrac(t)
  {
    hide Val, Value, Pow, Proper, Decode, DigitsIn, Point;
    a := NumberNewFromZu(0);
    NoValue(b);
    baseScale := 0;
    var i, seenDot := 0, false;
    NoDigitsIn(t[..0]);
    while i != |t|
      invariant 0 <= i <= |t| && fresh(a) && fresh(a.words) && a.refs == 1 && a.scale == 0 && !a.sign
        && Proper(a.Contents())
      invariant Val(a.words[..]) == Value(DigitsIn(t[..i]), b)
      invariant if seenDot then Point(t) < i && baseScale == |DigitsIn(t[Point(t) + 1..i])|
        else i <= Point(t) && baseScale == 0
    {
      var c := t[i];
      NextChar(t, i);
      if c == '.' {
        seenDot := true;
      } else if c != '\'' {
        if seenDot { baseScale := baseScale + 1; }
        a := AppendDigit(a, b, c, DigitsIn(t[..i]));
      }
      i := i + 1;
    }
    assert t[..i] == t;
    if Point(t) < |t| { assert t[Point(t) + 1..i] == t[Point(t) + 1..]; }
  }

  lemma NotThePoint(t: string, i: nat)
    requires i <= Point(t) && i < |t| && t[i] != '.'
    ensures i + 1 <= Point(t)
  {
  }

  lemma DigitIsWord(c: char, b: Base)
    requires Decode(c) < b < BASE
    ensures 0 <= Decode(c) < BASE
  {
  }

  /** The number that a literal without sign denotes. */
  ghost function LiteralValue(t: string, b: Base): real {
    PowPositive(b, NumFrac(t));
    Value(DigitsIn(t), b) as real / Pow(b, NumFrac(t)) as real
  }

  lemma IntegerReal(d: Dec)
    requires d.scale == 0
    ensures Real(d) == (Sign(d.neg) * Val(d.words)) as real && Magnitude(d) == Val(d.words) as real
  {
    assert Pow(BASE, 0) == 1;
  }

  lemma {:induction false} PowerReal(b: nat, k: nat)
    ensures RealPow(b as real, k) == Pow(b, k) as real
  {
    if k > 0 { PowerReal(b, k - 1); }
  }

  lemma PositiveMagnitude(d: Dec)
    requires Real(d) > 0.0 && AreWords(d.words)
    ensures !d.neg && Magnitude(d) == Real(d) && Val(d.words) != 0
  {
    PowPositive(BASE, d.scale);
    ValBound(d.words);
    hide Val, Pow;
    var (v, p) := (Val(d.words), Pow(BASE, d.scale));
    if d.neg { NegatedPositive(v, p); }
  }

  lemma NegatedPositive(v: int, p: int)
    requires v >= 0 && p > 0
    ensures (-1 * v) as real / p as real <= 0.0
  {
    var x := (-1 * v) as real / p as real;
    if x > 0.0 {
      SmallerProduct(0.0, x, p as real);
    }
  }

  /** The divisor of number_parse_base() */
  method BasePower(b: Base, k: nat) returns (d: Number)
    ensures fresh(d) && fresh(d.words) && d.refs == 1 && Proper(d.Contents())
    ensures !d.sign && Val(d.words[..]) != 0 && Magnitude(d.Contents()) == Pow(b, k) as real
  {
    hide Val, Pow, Real, Magnitude, Proper;
    var n := NumberNewFromZu(b);
    IntegerReal(n.Contents());
    d := NumberPowZu(n, k);
    PowerReal(b, k);
    PowPositive(b, k);
    ProperWords(d.Contents());
    PositiveMagnitude(d.Contents());
  }

  lemma ProperWords(d: Dec)
    requires Proper(d)
    ensures AreWords(d.words)
  {
  }

  /** number_negate() */
  method NumberNegate(a: Number) returns (r: Number)
    requires a.Valid()
    modifies a
    ensures Traded(a, r) && r.Contents() == old(a.Contents()).(neg := !old(a.sign))
  {
    r := Mkuniq(a);
    r.sign := !r.sign;
  }

  lemma NegatedReal(d: Dec)
    ensures Real(d.(neg := !d.neg)) == -Real(d) && (Proper(d) ==> Proper(d.(neg := !d.neg)))
  {
    PowPositive(BASE, d.scale);
    hide Val, Pow;
    Negated(Val(d.words), Pow(BASE, d.scale));
  }

  /** number_parse_base(), for a literal that number_parse_base_validate() accepts and truncation behind p digits */
  method NumberParseBase(s: string, b: Base, ntp: Ntp, ghost p: nat) returns (a: Number)
    requires s != [] && IsBaseLiteral(Unsigned(s), b) && b < BASE && Keeps(ntp, p)
    ensures fresh(a) && a.refs == 1 && Proper(a.Contents())
    ensures var t := Unsigned(s);
      var v := if NumFrac(t) == 0 then LiteralValue(t, b) else CutOff(LiteralValue(t, b), p);
      Real(a.Contents()) == if s[0] == '-' then -v else v
    ensures NumFrac(Unsigned(s)) == 0 ==>
      a.scale == 0 && a.sign == (s[0] == '-') && Val(a.words[..]) == Value(DigitsIn(Unsigned(s)), b)
  {
    hide Val, Value, Pow, Proper, Real, IsBaseLiteral, DigitsIn, NumFrac, Keeps, Decode, CutOff, LiteralValue;
    var negate := s[0] == '-';
    var t := if negate then s[1..] else s;
    var baseScale;
    a, baseScale := ParseDigits(t, b);
    ghost var n := a.Contents();
    IntegerReal(n);
    if baseScale != 0 {
      a := DivideByPower(a, b, baseScale, ntp, p);
      CutLiteral(t, b, p);
    } else {
      WholeLiteral(t, b);
    }
    if negate {
      NegatedReal(a.Contents());
      a := NumberNegate(a);
    }
  }

  /** The division that moves the point to where it belongs. */
  method DivideByPower(a: Number, b: Base, k: nat, ntp: Ntp, ghost p: nat) returns (r: Number)
    requires a.Valid() && a.refs == 1 && a.scale == 0 && !a.sign && Keeps(ntp, p)
    modifies a, a.words
    ensures r.refs == 1 && Proper(r.Contents()) && (r == a || fresh(r)) && (fresh(r.words) || r.words == old(a.words))
    ensures Pow(b, k) > 0 && Real(r.Contents()) == CutOff(old(Val(a.words[..])) as real / Pow(b, k) as real, p)
  {
    hide Val, Pow, Real, Magnitude, IsQuotient, Keeps, CutOff;
    ghost var n := a.Contents();
    IntegerReal(n);
    PowPositive(b, k);
    var divisor := BasePower(b, k);
    ghost var d := divisor.Contents();
    r := NumberDiv(a, divisor, ntp, p);
    QuotientIsExact(r.Contents(), n, d, p);
  }

  lemma CutLiteral(t: string, b: Base, p: nat)
    ensures Pow(b, NumFrac(t)) > 0
    ensures CutOff(LiteralValue(t, b), p) == CutOff(Value(DigitsIn(t), b) as real / Pow(b, NumFrac(t)) as real, p)
  {
    PowPositive(b, NumFrac(t));
  }

  lemma WholeLiteral(t: string, b: Base)
    requires NumFrac(t) == 0
    ensures LiteralValue(t, b) == Value(DigitsIn(t), b) as real
  {
    assert Pow(b, 0) == 1;
  }

  // ----- Upper and lower case -----

  /** The same characters, except that letters may differ in case. */
  ghost predicate SameDigits(s: string, t: string) {
    |s| == |t| && forall i {:trigger s[i]} {:trigger t[i]} :: 0 <= i < |s| ==> SameDigit(s[i], t[i])
  }

  ghost predicate SameDigit(c: char, e: char) {
    c == e || exists d :: 0 <= d < 36 && c in [Upper(d), Lower(d)] && e in [Upper(d), Lower(d)]
  }

  lemma SameDigitIs(c: char, e: char)
    requires SameDigit(c, e)
    ensures Decode(c) == Decode(e) && (c in ".'-" || e in ".'-" ==> c == e)
  {
    if c != e {
      var d :| 0 <= d < 36 && c in [Upper(d), Lower(d)] && e in [Upper(d), Lower(d)];
      hide Upper, Lower, Decode;
      DigitTable(d);
      NotSpecial(c);
      NotSpecial(e);
    }
  }

  lemma NotSpecial(c: char)
    requires Decode(c) < 36
    ensures c !in ".'-"
  {
  }

  lemma {:induction false} SamePoint(s: string, t: string)
    requires SameDigits(s, t)
    ensures Point(s) == Point(t)
    decreases |s|
  {
    hide SameDigit, Decode;
    if s != [] {
      SameDigitIs(s[0], t[0]);
      assert SameDigits(s[1..], t[1..]);
      SamePoint(s[1..], t[1..]);
    }
  }

  lemma {:induction false} SameDigitsIn(s: string, t: string, b: Base)
    requires SameDigits(s, t)
    ensures |DigitsIn(s)| == |DigitsIn(t)| && Value(DigitsIn(s), b) == Value(DigitsIn(t), b)
    decreases |s|
  {
    hide SameDigit, Decode, Value;
    if s != [] {
      var n := |s| - 1;
      SameDigitIs(s[n], t[n]);
      SameDigitsIn(s[..n], t[..n], b);
      ValueSnoc(DigitsIn(s[..n]), s[n], b);
      ValueSnoc(DigitsIn(t[..n]), t[n], b);
      assert DigitsIn(s[..n]) + [] == DigitsIn(s[..n]) && DigitsIn(t[..n]) + [] == DigitsIn(t[..n]);
    }
  }

  /** The case of its letters does not matter for a literal. */
  lemma {:induction false} EitherCase(s: string, t: string, b: Base)
    requires SameDigits(s, t)
    ensures IsBaseLiteral(s, b) <==> IsBaseLiteral(t, b)
    ensures LiteralValue(s, b) == LiteralValue(t, b) && NumFrac(s) == NumFrac(t)
  {
    hide SameDigit, Decode, Value, DigitsIn, Point, Pow;
    SamePoint(s, t);
    SameDigitsIn(s, t, b);
    var k := Point(s);
    if k < |s| { SameDigitsIn(s[k + 1..], t[k + 1..], b); }
    forall i | 0 <= i < |s| ensures Decode(s[i]) == Decode(t[i]) && (s[i] in ".'" || t[i] in ".'" ==> s[i] == t[i]) {
      SameDigitIs(s[i], t[i]);
    }
  }
}
