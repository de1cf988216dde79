/** Digit strings in any base, lowest digit first and highest digit first. */
module Digits {
  import opened Common
  import opened Powers

  type Base = b: int | 2 <= b <= 36 witness 10

  // ----- Single digits -----

  /** The table CHARS of number_tostring_base(). */
  function DigitChar(d: int): char
    requires 0 <= d < 36
  {
    if d < 10 then '0' + d as char else 'A' + (d - 10) as char
  }

  /** decode() */
  function Decode(c: char): int {
    if '0' <= c <= '9' then c as int - '0' as int
    else if 'a' <= c <= 'z' then c as int - 'a' as int + 10
    else if 'A' <= c <= 'Z' then c as int - 'A' as int + 10
    else 255
  }

  lemma DecodeDigit(d: int)
    requires 0 <= d < 36
    ensures Decode(DigitChar(d)) == d && (DigitChar(d) == '0' <==> d == 0)
    ensures DigitChar(d) != '.' && DigitChar(d) != '-' && DigitChar(d) != '\''
  {
  }

  const TEN := "0123456789"
  const CAPITALS := "ABCDEFGHIJKLMNOPQRSTUVWXYZ"
  const SMALL := "abcdefghijklmnopqrstuvwxyz"

  /** The digit d in upper and in lower case. */
  function Upper(d: int): char
    requires 0 <= d < 36
  {
    if d < 10 then TEN[d] else CAPITALS[d - 10]
  }

  function Lower(d: int): char
    requires 0 <= d < 36
  {
    if d < 10 then TEN[d] else SMALL[d - 10]
  }

  lemma Tens(k: int)
    requires 0 <= k < 10
    ensures TEN[k] == '0' + k as char
  {
  }

  lemma Capital(k: int)
    requires 0 <= k < 26
    ensures CAPITALS[k] == 'A' + k as char
  {
  }

  lemma Small(k: int)
    requires 0 <= k < 26
    ensures SMALL[k] == 'a' + k as char
  {
  }

  /** Digits are written in upper case and read in either case. */
  lemma DigitTable(d: int)
    requires 0 <= d < 36
    ensures DigitChar(d) == Upper(d) && Decode(Upper(d)) == d && Decode(Lower(d)) == d
  {
    if d < 10 {
      Tens(d);
    } else {
      Capital(d - 10);
      Small(d - 10);
    }
  }

  /** Nothing else is a digit in any base. */
  lemma NoOtherDigit(c: char)
    ensures Decode(c) < 36 ==> 0 <= Decode(c) && (c == Upper(Decode(c)) || c == Lower(Decode(c)))
  {
    if Decode(c) < 10 {
      Tens(Decode(c));
    } else if Decode(c) < 36 {
      Capital(Decode(c) - 10);
      Small(Decode(c) - 10);
    }
  }

  predicate AreDigits(s: string, b: Base) {
    forall i {:trigger s[i]} :: 0 <= i < |s| ==> Decode(s[i]) < b
  }

  // ----- Strings -----

  function Rev(s: string): (r: string)
    ensures |r| == |s|
  {
    if s == [] then [] else Rev(s[1..]) + [s[0]]
  }

  lemma {:induction false} RevAppend(a: string, b: string)
    ensures Rev(a + b) == Rev(b) + Rev(a)
    decreases |a|
  {
    if a == [] {
      assert a + b == b && Rev(b) + [] == Rev(b);
    } else {
      assert (a + b)[1..] == a[1..] + b;
      RevAppend(a[1..], b);
      Cat3(Rev(b), Rev(a[1..]), [a[0]]);
    }
  }

  lemma {:induction false} RevRev(s: string)
    ensures Rev(Rev(s)) == s
    decreases |s|
  {
    if s != [] {
      RevRev(s[1..]);
      RevAppend(Rev(s[1..]), [s[0]]);
      assert [s[0]][1..] == [] && Rev([s[0]]) == [s[0]] && [s[0]] + s[1..] == s;
    }
  }

  /** Without the zeros at the end. */
  function TrimEnd(s: string): (r: string)
    ensures |r| <= |s| && r == s[..|r|] && (r != [] ==> r[|r| - 1] != '0')
    ensures forall i :: |r| <= i < |s| ==> s[i] == '0'
  {
    if s == [] || s[|s| - 1] != '0' then s else TrimEnd(s[..|s| - 1])
  }

  /** The result is determined by what it is. */
  lemma {:induction false} TrimUnique(s: string, n: nat)
    requires n <= |s| && (forall i :: n <= i < |s| ==> s[i] == '0') && (n > 0 ==> s[n - 1] != '0')
    ensures TrimEnd(s) == s[..n]
  {
  }

  /** Trimming stops at the last character that is not a zero. */
  lemma TrimAppend(a: string, c: char, b: string)
    requires c != '0'
    ensures TrimEnd(a + [c] + b) == a + [c] + TrimEnd(b)
  {
    var s := a + [c] + b;
    var n := |a| + 1 + |TrimEnd(b)|;
    assert forall i :: n <= i < |s| ==> s[i] == b[i - |a| - 1];
    assert s[..n] == a + [c] + TrimEnd(b);
    TrimUnique(s, n);
  }

  // ----- The digits of a number -----

  /** The n lowest digits of v, lowest first. */
  function Low(v: nat, n: nat, b: Base): (s: string)
    ensures |s| == n
  {
    if n == 0 then [] else [DigitChar(v % b)] + Low(v / b, n - 1, b)
  }

  /** v without leading zeros, highest digit first; nothing for zero. */
  function Numeral(v: nat, b: Base): string {
    if v == 0 then [] else Numeral(v / b, b) + [DigitChar(v % b)]
  }

  /** The value of a digit string, highest digit first. */
  function Value(s: string, b: Base): int {
    if s == [] then 0 else b * Value(s[..|s| - 1], b) + Decode(s[|s| - 1])
  }

  lemma {:induction false} LowAppend(x: nat, m: nat, y: nat, n: nat, b: Base)
    requires x < Pow(b, m)
    ensures x + Pow(b, m) * y >= 0 && Low(x + Pow(b, m) * y, m + n, b) == Low(x, m, b) + Low(y, n, b)
    decreases m
  {
    MulLe(0, y, Pow(b, m));
    if m > 0 {
      var p := Pow(b, m - 1);
      LowerDigit(x, p, y, b);
      LowAppend(x / b, m - 1, y, n, b);
    }
  }

  lemma LowerDigit(x: nat, p: nat, y: nat, b: Base)
    requires x < b * p
    ensures var v := x + (b * p) * y;
      v >= 0 && v % b == x % b && v / b == x / b + p * y && 0 <= x / b < p
  {
    Division(x, b);
    QuotientBelow(x, b, p);
    QuotientAbove(x, b, 0);
    MulLe(0, p, y);
    MulLe(0, b, p * y);
    DigitSplit(x, x / b, x % b, p, y, b);
    QuotientIs(x + (b * p) * y, b, x / b + p * y, x % b);
  }

  lemma DigitSplit(x: int, q: int, r: int, p: int, y: int, b: int)
    requires x == q * b + r
    ensures x + (b * p) * y == (q + p * y) * b + r && (b * p) * y == (p * y) * b
  {
    MulAssoc(b, p, y);
    assert b * (p * y) == (p * y) * b;
    assert (q + p * y) * b == q * b + (p * y) * b;
  }

  // ----- Trimming and values -----

  lemma TrimCons(c: char, s: string)
    ensures TrimEnd([c] + s) ==
      if TrimEnd(s) != [] then [c] + TrimEnd(s) else if c == '0' then [] else [c]
  {
    var t := [c] + s;
    var n := if TrimEnd(s) != [] then 1 + |TrimEnd(s)| else if c == '0' then 0 else 1;
    assert forall i :: n <= i < |t| && i > 0 ==> t[i] == s[i - 1];
    TrimUnique(t, n);
    if TrimEnd(s) != [] { assert t[..n] == [c] + s[..n - 1]; }
  }

  lemma LowUnfold(v: nat, n: nat, b: Base)
    requires n > 0
    ensures v / b >= 0 && 0 <= v % b < b && Low(v, n, b) == [DigitChar(v % b)] + Low(v / b, n - 1, b)
  {
  }

  lemma LowStep(v: nat, n: nat, b: Base)
    requires n > 0 && v < Pow(b, n)
    ensures Low(v, n, b) == [DigitChar(v % b)] + Low(v / b, n - 1, b)
    ensures 0 <= v / b < Pow(b, n - 1) && v == b * (v / b) + v % b && (v == 0 <==> v / b == 0 && v % b == 0)
  {
    PowStep(b, n);
    hide Pow;
    DigitBounds(v, Pow(b, n - 1), b);
  }

  lemma PowStep(b: nat, n: nat)
    requires n > 0
    ensures Pow(b, n) == b * Pow(b, n - 1)
  {
  }

  lemma DigitBounds(v: nat, p: nat, b: Base)
    requires v < b * p
    ensures 0 <= v / b < p && 0 <= v % b < b && v == b * (v / b) + v % b && (v == 0 <==> v / b == 0 && v % b == 0)
  {
    LowerDigit(v, p, 0, b);
    Division(v, b);
    QuotientIs(0, b, 0, 0);
  }

  lemma RevCons(c: char, s: string)
    ensures Rev([c] + s) == Rev(s) + [c]
  {
    assert ([c] + s)[1..] == s;
  }

  lemma NumeralStep(v: nat, b: Base)
    ensures Numeral(v, b) == if v == 0 then [] else Numeral(v / b, b) + [DigitChar(v % b)]
  {
  }

  /** The digits of v, turned around and without leading zeros, are its numeral. */
  lemma {:induction false} TrimmedNumeral(v: nat, n: nat, b: Base)
    requires v < Pow(b, n)
    ensures Rev(TrimEnd(Low(v, n, b))) == Numeral(v, b) && (TrimEnd(Low(v, n, b)) == [] <==> v == 0)
    decreases n
  {
    hide Low, Numeral, TrimEnd, Rev, DigitChar;
    NumeralStep(v, b);
    if n == 0 {
      NoDigits(v, b);
    } else {
      LowStep(v, n, b);
      TrimmedNumeral(v / b, n - 1, b);
      var (c, s) := (DigitChar(v % b), Low(v / b, n - 1, b));
      TrimCons(c, s);
      DecodeDigit(v % b);
      if TrimEnd(s) != [] {
        RevCons(c, TrimEnd(s));
      } else {
        NumeralStep(v / b, b);
        RevOne(c);
      }
    }
  }

  lemma NoDigits(v: nat, b: Base)
    requires v < Pow(b, 0)
    ensures v == 0 && Low(v, 0, b) == [] && TrimEnd([]) == [] && Rev([]) == []
  {
  }

  lemma RevOne(c: char)
    ensures Rev([c]) == [c] && Rev([]) == []
  {
    assert [c][1..] == [];
  }

  lemma NumeralSmall(v: nat, b: Base)
    requires v / b == 0
    ensures Numeral(v, b) == if v == 0 then [] else [DigitChar(v % b)]
  {
  }

  ghost predicate PlainDigits(s: string, b: Base) {
    AreDigits(s, b) && forall i {:trigger s[i]} :: 0 <= i < |s| ==> s[i] !in ".-'"
  }

  lemma PlainSnoc(s: string, c: char, b: Base)
    requires PlainDigits(s, b) && Decode(c) < b && c !in ".-'"
    ensures PlainDigits(s + [c], b)
  {
    hide Decode;
  }

  lemma {:induction false} NumeralDigits(v: nat, b: Base)
    ensures AreDigits(Numeral(v, b), b) && Value(Numeral(v, b), b) == v
    ensures v > 0 ==> Numeral(v, b) != [] && Numeral(v, b)[0] != '0'
    ensures forall i {:trigger Numeral(v, b)[i]} :: 0 <= i < |Numeral(v, b)| ==> Numeral(v, b)[i] !in ".-'"
  {
    hide Value, Decode, DigitChar;
    NumeralPlain(v, b);
  }

  lemma {:induction false} NumeralPlain(v: nat, b: Base)
    ensures PlainDigits(Numeral(v, b), b) && Value(Numeral(v, b), b) == v
    ensures v > 0 ==> Numeral(v, b) != [] && Numeral(v, b)[0] != '0'
  {
    hide Value, Decode, DigitChar, PlainDigits;
    if v == 0 {
      NoValue(b);
      assert PlainDigits([], b) by { NothingPlain(b); }
    } else {
      NumeralPlain(v / b, b);
      DecodeDigit(v % b);
      Division(v, b);
      var s := Numeral(v / b, b);
      PlainSnoc(s, DigitChar(v % b), b);
      ValueSnoc(s, DigitChar(v % b), b);
      if v / b == 0 { NumeralSmall(v, b); }
    }
  }

  lemma NothingPlain(b: Base)
    ensures PlainDigits([], b)
  {
  }

  lemma {:induction false} ValueAppend(a: string, c: string, b: Base)
    ensures Value(a + c, b) == Value(a, b) * Pow(b, |c|) + Value(c, b)
    decreases |c|
  {
    if c == [] {
      assert a + c == a && Pow(b, 0) == 1;
    } else {
      var n := |c| - 1;
      assert (a + c)[..|a + c| - 1] == a + c[..n];
      ValueAppend(a, c[..n], b);
      ShiftSum(b, Value(a, b), Pow(b, n), Value(c[..n], b));
    }
  }

  lemma ShiftSum(b: int, x: int, p: int, y: int)
    ensures b * (x * p + y) == x * (b * p) + b * y
  {
    MulAssoc(b, x, p);
    MulAssoc(x, b, p);
  }

  lemma ValueSnoc(s: string, c: char, b: Base)
    ensures Value(s + [c], b) == b * Value(s, b) + Decode(c)
  {
    assert (s + [c])[..|s|] == s;
  }

  lemma {:induction false} ValueLow(v: nat, n: nat, b: Base)
    requires v < Pow(b, n)
    ensures Value(Rev(Low(v, n, b)), b) == v && AreDigits(Rev(Low(v, n, b)), b)
    ensures forall i {:trigger Rev(Low(v, n, b))[i]} :: 0 <= i < n ==> Rev(Low(v, n, b))[i] !in ".-'"
    decreases n
  {
    hide Low, Value, Rev, DigitChar, Decode;
    if n == 0 {
      NoDigits(v, b);
      NoValue(b);
    } else {
      LowStep(v, n, b);
      ValueLow(v / b, n - 1, b);
      DecodeDigit(v % b);
      var (c, s) := (DigitChar(v % b), Low(v / b, n - 1, b));
      RevCons(c, s);
      ValueSnoc(Rev(s), c, b);
    }
  }

  lemma NoValue(b: Base)
    ensures Value([], b) == 0
  {
  }

  /** Zeros at the end multiply by powers of the base. */
  lemma {:induction false} ValueTrimmed(s: string, b: Base)
    ensures Value(s, b) == Value(TrimEnd(s), b) * Pow(b, |s| - |TrimEnd(s)|)
    decreases |s|
  {
    if s == [] || s[|s| - 1] != '0' {
      assert Pow(b, 0) == 1;
    } else {
      var t := s[..|s| - 1];
      ValueTrimmed(t, b);
      var (x, p) := (Value(TrimEnd(t), b), Pow(b, |t| - |TrimEnd(t)|));
      assert b * (x * p) == x * (b * p) by { ShiftSum(b, x, p, 0); }
    }
  }

  /** Trimming a string that goes on behind a. */
  lemma TrimBehind(a: string, s: string)
    ensures TrimEnd(a + s) == if TrimEnd(s) == [] then TrimEnd(a) else a + TrimEnd(s)
  {
    var t := a + s;
    var n := if TrimEnd(s) == [] then |TrimEnd(a)| else |a| + |TrimEnd(s)|;
    assert forall i :: |a| <= i < |t| ==> t[i] == s[i - |a|];
    TrimUnique(t, n);
  }

  /** A word is zero iff nothing is left of its digits. */
  lemma TrimmedZero(v: nat, n: nat, b: Base)
    requires v < Pow(b, n)
    ensures TrimEnd(Rev(Low(v, n, b))) == [] <==> v == 0
  {
    hide Low, Rev, Value, Pow;
    var s := Rev(Low(v, n, b));
    ValueLow(v, n, b);
    ValueTrimmed(s, b);
    NoValue(b);
    if v == 0 {
      ZeroDigits(n, b);
    }
  }

  lemma {:induction false} ZeroDigits(n: nat, b: Base)
    ensures TrimEnd(Rev(Low(0, n, b))) == []
  {
    hide Low, Rev, TrimEnd;
    if n == 0 {
      NoDigits(0, b);
    } else {
      ZeroDigits(n - 1, b);
      QuotientIs(0, b, 0, 0);
      LowUnfold(0, n, b);
      RevCons('0', Low(0, n - 1, b));
      TrimBehind(Rev(Low(0, n - 1, b)), ['0']);
      TrimUnique(['0'], 0);
    }
  }
}
