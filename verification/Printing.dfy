/** The two printers of numbers (number.c): number_tostring(), which fills a buffer backwards and turns it around, and
    number_write(), which emits one word after another. */
module Printing {
  import opened Common
  import opened Powers
  import opened Words
  import opened Numbers
  import opened Digits

  // ----- The text of a number -----

  /** The number whose integer part is i and whose fraction is f, with p digits. */
  function Decimal(neg: bool, i: nat, f: nat, p: nat): string {
    var fd := TrimEnd(Rev(Low(f, p, 10)));
    (if neg && (i > 0 || fd != []) then "-" else "")
    + (if i == 0 then "0" else Numeral(i, 10))
    + (if fd == [] then "" else "." + fd)
  }

  /** The decimal digits of all the words, lowest first. */
  ghost function Dig(ws: seq<int>): (s: string)
    requires AreWords(ws)
    ensures |s| == LOG * |ws|
  {
    ValBound(ws);
    MulLe(0, |ws|, LOG);
    Low(Val(ws), LOG * |ws|, 10)
  }

  ghost function Text(d: Dec): string
    requires Proper(d)
  {
    ValBound(d.words[..d.scale]);
    ValBound(d.words[d.scale..]);
    Decimal(d.neg, Val(d.words[d.scale..]), Val(d.words[..d.scale]), LOG * d.scale)
  }

  lemma DigAppend(x: seq<int>, y: seq<int>)
    requires AreWords(x) && AreWords(y)
    ensures Dig(x + y) == Dig(x) + Dig(y)
  {
    hide Val, Pow, Low;
    ValBound(x);
    ValBound(y);
    ValAppend(x, y);
    PowPow(10, LOG, |x|);
    MulLe(0, |x|, LOG);
    MulLe(0, |y|, LOG);
    assert LOG * |x + y| == LOG * |x| + LOG * |y|;
    LowAppend(Val(x), LOG * |x|, Val(y), LOG * |y|, 10);
  }

  lemma DigOne(w: int)
    requires 0 <= w < BASE
    ensures Dig([w]) == Low(w, LOG, 10)
  {
    hide Low, Pow, Val;
    OneWord(w);
    assert LOG * 1 == LOG;
  }

  lemma DigNone()
    ensures Dig([]) == []
  {
  }

  // ----- number_tostring() -----

  /** The n lowest digits of the word x are put at p, lowest first. */
  method PutDigits(r: array<char>, p: nat, x: nat, n: nat)
    requires p + n <= r.Length
    modifies r
    ensures r[..p + n] == old(r[..p]) + Low(x, n, 10)
  {
    hide Low, DigitChar;
    var y: nat, j: nat := x, 0;
    ghost var done: string := [];
    assert [] + Low(y, n, 10) == Low(y, n, 10);
    while j < n
      invariant j <= n == j + (n - j) && |done| == j && Low(x, n, 10) == done + Low(y, n - j, 10)
      invariant forall k :: 0 <= k < p ==> r[k] == old(r[k])
      invariant forall k :: 0 <= k < j ==> r[p + k] == done[k]
    {
      LowUnfold(y, n - j, 10);
      var c := DigitChar(y % 10);
      Cat3(done, [c], Low(y / 10, n - j - 1, 10));
      r[p + j] := c;
      done := done + [c];
      y := y / 10;
      j := j + 1;
    }
    assert Low(y, 0, 10) == [] && done + [] == done;
    assert r[..p + n] == old(r[..p]) + done;
  }

  /** span_reverse() */
  method SpanReverse(r: array<char>, p: nat)
    requires p <= r.Length
    modifies r
    ensures r[..p] == Rev(old(r[..p]))
  {
    ghost var s := r[..p];
    var i := 0;
    while i < p / 2
      invariant i <= p / 2
      invariant forall k :: 0 <= k < i ==> r[k] == s[p - 1 - k] && r[p - 1 - k] == s[k]
      invariant forall k :: i <= k < p - i ==> r[k] == s[k]
    {
      r[i], r[p - 1 - i] := r[p - 1 - i], r[i];
      i := i + 1;
    }
    RevIs(s);
    forall k | 0 <= k < p ensures r[k] == Rev(s)[k] {
      assert k < p / 2 ==> r[k] == s[p - 1 - k];
      assert p - 1 - k < p / 2 ==> r[p - 1 - (p - 1 - k)] == s[p - 1 - k];
    }
    assert r[..p] == Rev(s);
  }

  lemma {:induction false} RevIs(s: string)
    ensures forall k {:trigger Rev(s)[k]} :: 0 <= k < |s| ==> Rev(s)[k] == s[|s| - 1 - k]
    decreases |s|
  {
    if s != [] { RevIs(s[1..]); }
  }

  /** The loops that remove zeros from the end; some other character stops them. */
  method TrimZeros(r: array<char>, p: nat) returns (q: nat)
    requires p <= r.Length && exists k :: 0 <= k < p && r[k] != '0'
    ensures 0 < q <= p && r[..q] == TrimEnd(r[..p])
  {
    q := p;
    while r[q - 1] == '0'
      invariant 0 < q <= p && exists k :: 0 <= k < q && r[k] != '0'
      invariant forall k :: q <= k < p ==> r[k] == '0'
      decreases q
    {
      q := q - 1;
    }
    assert r[..p][..q] == r[..q];
    TrimUnique(r[..p], q);
  }

  /** What the first loop has written after i words. */
  ghost function Out(ws: seq<int>, sa: nat, i: nat): string
    requires AreWords(ws) && sa <= |ws| && i <= |ws|
  {
    if i <= sa then Dig(ws[..i]) else Dig(ws[..sa]) + "." + Dig(ws[sa..i])
  }

  lemma OutStep(ws: seq<int>, sa: nat, i: nat)
    requires AreWords(ws) && sa <= |ws| && i < |ws|
    ensures Out(ws, sa, i + 1) == (if i == sa then Out(ws, sa, i) + "." else Out(ws, sa, i)) + Low(ws[i], LOG, 10)
    ensures |Out(ws, sa, i)| == LOG * i + (if i > sa then 1 else 0) && LOG * i + LOG <= LOG * |ws|
  {
    hide Dig, Low;
    DigOne(ws[i]);
    MulLe(i + 1, |ws|, LOG);
    if i < sa {
      assert ws[..i + 1] == ws[..i] + [ws[i]];
      DigAppend(ws[..i], [ws[i]]);
    } else {
      assert ws[sa..i + 1] == ws[sa..i] + [ws[i]];
      DigAppend(ws[sa..i], [ws[i]]);
      Cat3(Dig(ws[..sa]) + ".", Dig(ws[sa..i]), Low(ws[i], LOG, 10));
      DigNone();
      if i == sa {
        assert ws[sa..i] == [] && [] + Low(ws[i], LOG, 10) == Low(ws[i], LOG, 10);
        assert Dig(ws[..sa]) + "." + [] == Dig(ws[..sa]) + ".";
      } else {
        assert LOG * i == LOG * sa + LOG * (i - sa);
      }
    }
  }

  /** number_tostring_size() */
  function TextSize(nwords: nat): int { 3 + nwords * LOG }

  /** The first loop of number_tostring(): all digits, lowest first. */
  method PutWords(a: Number, r: array<char>) returns (p: nat)
    requires Proper(a.Contents()) && r.Length >= TextSize(a.words.Length)
    modifies r
    ensures p + 3 <= r.Length + (if a.words.Length > a.scale then 1 else 0)
      && r[..p] == Out(a.words[..], a.scale, a.words.Length)
  {
    hide Out, Low, Dig;
    var sa := a.scale;
    ghost var ws := a.words[..];
    p := 0;
    var i := 0;
    OutStart(ws, sa);
    while i < a.words.Length
      invariant 0 <= i <= a.words.Length && p <= r.Length && r[..p] == Out(ws, sa, i)
      invariant p == LOG * i + (if i > sa then 1 else 0)
    {
      OutStep(ws, sa, i);
      if i == sa {
        ghost var before := r[..p];
        r[p] := '.';
        p := p + 1;
        assert r[..p] == before + ".";
      }
      PutDigits(r, p, a.words[i], LOG);
      p := p + LOG;
      i := i + 1;
      assert LOG * i == LOG * (i - 1) + LOG;
    }
    assert i * LOG == LOG * i;
  }

  lemma OutStart(ws: seq<int>, sa: nat)
    requires AreWords(ws) && sa <= |ws|
    ensures Out(ws, sa, 0) == []
  {
    DigNone();
  }

  /** The digits of the integer part are completed: without leading zeros, but not empty. */
  method CloseInteger(r: array<char>, p: nat, none: bool, ghost f: string, ghost i: string) returns (q: nat)
    requires p <= r.Length && r[..p] == if none then f else f + ['.'] + i
    requires none ==> p + 2 <= r.Length
    modifies r
    ensures q <= r.Length && r[..q] == f + ['.'] + (if none then "0" else TrimEnd(i))
    ensures q <= if none then p + 2 else p
  {
    hide TrimEnd;
    if none {
      r[p] := '.';
      r[p + 1] := '0';
      q := p + 2;
      assert r[..q] == f + ['.'] + "0";
    } else {
      TrimAppend(f, '.', i);
      assert r[|f|] == r[..p][|f|] == '.';
      q := TrimZeros(r, p);
    }
  }

  /** The sign is added, everything is turned around, and the zeros at the end are removed. */
  method TurnAround(r: array<char>, p: nat, neg: bool, ghost f: string, ghost whole: string) returns (q: nat)
    requires p < r.Length && r[..p] == f + ['.'] + whole
    modifies r
    ensures q <= r.Length && r[..q] == (if neg then "-" else "") + Rev(whole) + ['.'] + TrimEnd(Rev(f))
  {
    hide TrimEnd, Rev;
    ghost var minus := if neg then "-" else "";
    q := p;
    if neg {
      r[q] := '-';
      q := q + 1;
    }
    assert r[..q] == f + ['.'] + whole + minus;
    SpanReverse(r, q);
    Turned(f, whole, minus);
    TrimAppend(minus + Rev(whole), '.', Rev(f));
    assert r[|minus + Rev(whole)|] == r[..q][|minus + Rev(whole)|] == '.';
    q := TrimZeros(r, q);
  }

  /** number_tostring(): the text is left at the start of the buffer, whose size number_tostring_size() tells. */
  method NumberToString(a: Number, r: array<char>) returns (n: nat)
    requires Proper(a.Contents()) && r.Length >= TextSize(a.words.Length)
    modifies r
    ensures n <= r.Length && r[..n] == Text(a.Contents())
  {
    hide Out, Text, Dig, TrimEnd, Rev, Finished;
    ghost var d := a.Contents();
    ghost var (f, i) := (Dig(d.words[..d.scale]), Dig(d.words[d.scale..]));
    var none := a.words.Length == a.scale;
    var p := PutWords(a, r);
    OutEnd(d);
    p := CloseInteger(r, p, none, f, i);
    TextParts(d);
    p := TurnAround(r, p, a.sign, f, if none then "0" else TrimEnd(i));
    n := Finish(r, p, (if d.neg then "-" else "") + Rev(if none then "0" else TrimEnd(i)), TrimEnd(Rev(f)));
  }

  /** The rest of number_tostring(), with finalize_tostring(). */
  method Finish(r: array<char>, p: nat, ghost head: string, ghost tail: string) returns (n: nat)
    requires p <= r.Length && r[..p] == head + ['.'] + tail && '.' !in tail
    modifies r
    ensures n <= r.Length && r[..n] == Finished(head, tail)
  {
    assert r[p - 1] == r[..p][p - 1] && (tail != [] ==> tail[|tail| - 1] in tail);
    n := if r[p - 1] == '.' then p - 1 else p;
    assert tail == [] ==> r[..n] == head;
    ghost var s := r[..n];
    if n == 2 && r[0] == '-' && r[1] == '0' {
      assert s == "-0";
      r[0] := '0';
      n := 1;
      assert r[..1] == "0";
    }
  }

  lemma OutEnd(d: Dec)
    requires Proper(d)
    ensures var (f, i) := (Dig(d.words[..d.scale]), Dig(d.words[d.scale..]));
      Out(d.words, d.scale, |d.words|) == if |d.words| == d.scale then f else f + ['.'] + i
  {
    hide Dig;
    assert d.words[d.scale..|d.words|] == d.words[d.scale..];
  }

  lemma Turned(f: string, whole: string, minus: string)
    requires minus == [] || minus == "-"
    ensures Rev(f + ['.'] + whole + minus) == minus + Rev(whole) + ['.'] + Rev(f)
  {
    hide Rev;
    RevAppend(f + ['.'] + whole, minus);
    RevAppend(f + ['.'], whole);
    RevAppend(f, ['.']);
    RevOne('.');
    RevOne('-');
    assert "-" == ['-'];
    assert Rev(minus) + (Rev(whole) + (['.'] + Rev(f))) == minus + Rev(whole) + ['.'] + Rev(f);
  }

  /** What finalize_tostring() and the step before it make of the two parts. */
  ghost function Finished(head: string, tail: string): string {
    var s := if tail == [] then head else head + ['.'] + tail;
    if s == "-0" then "0" else s
  }

  lemma DecimalIs(neg: bool, i: nat, f: nat, p: nat)
    ensures Decimal(neg, i, f, p) ==
      Finished((if neg then "-" else "") + (if i == 0 then "0" else Numeral(i, 10)), TrimEnd(Rev(Low(f, p, 10))))
  {
    hide Numeral, TrimEnd, Rev, Low, Value, Digits.Decode;
    NumeralDigits(i, 10);
    var (fd, whole) := (TrimEnd(Rev(Low(f, p, 10))), if i == 0 then "0" else Numeral(i, 10));
    var head := (if neg then "-" else "") + whole;
    assert whole != [] && whole[0] != '-' && (whole == "0" <==> i == 0);
    assert "-0"[1..] == "0" && (neg ==> head[1..] == whole) && (neg && whole == "0" ==> head == "-0");
    assert !neg ==> head == whole;
    if fd == [] {
      assert whole + [] == whole;
    } else {
      assert |head + ['.'] + fd| > 2;
    }
  }

  lemma DigIs(ws: seq<int>)
    requires AreWords(ws)
    ensures LOG * |ws| >= 0 && 0 <= Val(ws) < Pow(10, LOG * |ws|) && Dig(ws) == Low(Val(ws), LOG * |ws|, 10)
  {
    hide Val, Pow, Low;
    MulLe(0, |ws|, LOG);
    ValBound(ws);
    PowPow(10, LOG, |ws|);
  }

  lemma TextParts(d: Dec)
    requires Proper(d)
    ensures var (f, i) := (Dig(d.words[..d.scale]), Dig(d.words[d.scale..]));
      var (tail, whole) := (TrimEnd(Rev(f)), if |d.words| == d.scale then "0" else TrimEnd(i));
      && Text(d) == Finished((if d.neg then "-" else "") + Rev(whole), tail)
      && '.' !in tail && Rev(whole) != []
  {
    hide Val, Pow, Low, Dig, Decimal, Finished, TrimEnd, Rev, Numeral, Value, Digits.Decode;
    var (fs, ii) := (d.words[..d.scale], d.words[d.scale..]);
    DigIs(fs);
    DigIs(ii);
    DecimalIs(d.neg, Val(ii), Val(fs), LOG * d.scale);
    ValueLow(Val(fs), LOG * d.scale, 10);
    if ii == [] {
      NoValueWords();
      RevOne('0');
    } else {
      TopWord(ii);
      PowPositive(BASE, |ii| - 1);
      TrimmedNumeral(Val(ii), LOG * |ii|, 10);
      NumeralDigits(Val(ii), 10);
    }
  }

  lemma NoValueWords()
    ensures Val([]) == 0
  {
  }

  // ----- number_write() -----

  /** word2str() */
  method WordToStr(x: int, buf: array<char>)
    requires 0 <= x < BASE && buf.Length == LOG
    modifies buf
    ensures buf[..] == Rev(Low(x, LOG, 10))
  {
    hide Low, DigitChar, Rev;
    var y: nat, i: nat := x, LOG;
    ghost var done: string := [];
    assert Rev(Low(x, LOG, 10)) + [] == Rev(Low(x, LOG, 10));
    while i > 0
      invariant i <= LOG && |done| == LOG - i && Rev(Low(x, LOG, 10)) == Rev(Low(y, i, 10)) + done
      invariant forall k :: i <= k < LOG ==> buf[k] == done[k - i]
    {
      i := i - 1;
      LowUnfold(y, i + 1, 10);
      var c := DigitChar(y % 10);
      RevCons(c, Low(y / 10, i, 10));
      Cat3(Rev(Low(y / 10, i, 10)), [c], done);
      buf[i] := c;
      done := [c] + done;
      y := y / 10;
    }
    RevNone(y);
    assert [] + done == done && buf[..] == done;
  }

  lemma RevNone(y: nat)
    ensures Rev(Low(y, 0, 10)) == []
  {
  }

  /** write_leading(), for a word that is not zero */
  method WriteLeading(x: int) returns (out: string)
    requires 0 < x < BASE
    ensures out == Numeral(x, 10)
  {
    hide Low, Rev, Numeral, TrimEnd;
    var buf := new char[LOG];
    WordToStr(x, buf);
    var i := 0;
    while i < LOG && buf[i] == '0'
      invariant 0 <= i <= LOG && forall k :: 0 <= k < i ==> buf[k] == '0'
    {
      i := i + 1;
    }
    out := buf[i..];
    DigOne(x);
    TrimmedNumeral(x, LOG, 10);
    LeadingZeros(Low(x, LOG, 10), i);
  }

  /** t begins with exactly i zeros. */
  ghost predicate ZerosAhead(t: string, i: nat) {
    i <= |t| && (forall k :: 0 <= k < i ==> t[k] == '0') && (i < |t| ==> t[i] != '0')
  }

  /** Skipping zeros in front of the digits turned around is trimming the digits. */
  lemma LeadingZeros(s: string, i: nat)
    requires ZerosAhead(Rev(s), i)
    ensures Rev(s)[i..] == Rev(TrimEnd(s))
  {
    TopDigits(s, i);
    hide Rev, TrimEnd, ZerosAhead;
    var n := |s| - i;
    TrimUnique(s, n);
    assert s == s[..n] + s[n..];
    RevAppend(s[..n], s[n..]);
    BehindPrefix(Rev(s[n..]), Rev(s[..n]));
  }

  lemma BehindPrefix(a: string, b: string)
    ensures (a + b)[|a|..] == b
  {
  }

  lemma TopDigits(s: string, i: nat)
    requires ZerosAhead(Rev(s), i)
    ensures i <= |s| && (forall k :: |s| - i <= k < |s| ==> s[k] == '0') && (i < |s| ==> s[|s| - i - 1] != '0')
  {
    hide Rev;
    RevIs(s);
    forall k | |s| - i <= k < |s| ensures s[k] == '0' { assert Rev(s)[|s| - 1 - k] == '0'; }
    if i < |s| { assert Rev(s)[i] == s[|s| - 1 - i]; }
  }

  /** write_trailing() */
  method WriteTrailing(x: int) returns (out: string)
    requires 0 <= x < BASE
    ensures out == TrimEnd(Rev(Low(x, LOG, 10)))
  {
    hide Low, Rev;
    var buf := new char[LOG];
    WordToStr(x, buf);
    var n := LOG;
    while n > 0 && buf[n - 1] == '0'
      invariant 0 <= n <= LOG && forall k :: n <= k < LOG ==> buf[k] == '0'
    {
      n := n - 1;
    }
    out := buf[..n];
    TrimUnique(buf[..], n);
    assert buf[..][..n] == buf[..n];
  }

  /** write_seq(), for the words from lo to hi */
  method WriteSeq(words: array<int>, lo: nat, hi: nat) returns (out: string)
    requires lo <= hi <= words.Length && AreWords(words[..])
    ensures out == Rev(Dig(words[lo..hi]))
  {
    hide Low, Rev, Dig;
    var buf := new char[LOG];
    var end := hi;
    out := [];
    ghost var ws := words[..];
    DigNone();
    RevOne('0');
    while end != lo
      invariant lo <= end <= hi && out == Rev(Dig(ws[end..hi])) && words[..] == ws
    {
      end := end - 1;
      assert ws[end..hi] == [ws[end]] + ws[end + 1..hi];
      DigAppend([ws[end]], ws[end + 1..hi]);
      DigOne(ws[end]);
      RevAppend(Low(ws[end], LOG, 10), Dig(ws[end + 1..hi]));
      WordToStr(words[end], buf);
      out := out + buf[..];
    }
  }

  /** number_is_zero() */
  method NumberIsZero(a: Number) returns (zero: bool)
    requires Proper(a.Contents())
    ensures zero <==> Val(a.words[..]) == 0
  {
    hide Val;
    ghost var ws := a.words[..];
    if a.scale != a.words.Length {
      TopWord(ws);
      PowPositive(BASE, |ws| - 1);
      return false;
    }
    var k := Skip0(a.words, 0, a.scale);
    SomeWord(ws, k);
    zero := k == a.scale;
  }

  lemma SomeWord(ws: seq<int>, k: nat)
    requires AreWords(ws) && k <= |ws| && (forall i :: 0 <= i < k ==> ws[i] == 0) && (k < |ws| ==> ws[k] != 0)
    ensures Val(ws) == 0 <==> k == |ws|
  {
    hide Val, Pow;
    if k == |ws| {
      assert ws == Zeros(k);
      ValZeros(k);
    } else {
      ValSplit(ws, k + 1);
      TopWord(ws[..k + 1]);
      PowPositive(BASE, k);
      PowPositive(BASE, k + 1);
      ValBound(ws[k + 1..]);
      MulLe(0, Val(ws[k + 1..]), Pow(BASE, k + 1));
    }
  }

  /** The integer part of number_write(). */
  lemma IntegerWritten(ws: seq<int>)
    requires AreWords(ws) && ws != [] && ws[|ws| - 1] != 0
    ensures var n := |ws| - 1; Val(ws) > 0 && Numeral(Val(ws), 10) == Numeral(ws[n], 10) + Rev(Dig(ws[..n]))
  {
    hide Val, Pow, Low, Rev, TrimEnd, Numeral, Dig;
    var n := |ws| - 1;
    assert ws == ws[..n] + [ws[n]];
    DigAppend(ws[..n], [ws[n]]);
    DigOne(ws[n]);
    DigIs(ws);
    TopWord(ws);
    PowPositive(BASE, n);
    TrimmedNumeral(Val(ws), LOG * |ws|, 10);
    TrimmedNumeral(ws[n], LOG, 10);
    TrimBehind(Dig(ws[..n]), Low(ws[n], LOG, 10));
    RevAppend(Dig(ws[..n]), TrimEnd(Low(ws[n], LOG, 10)));
  }

  /** Its fraction; k is the position of the lowest word that is not zero. */
  lemma FractionWritten(ws: seq<int>, k: nat)
    requires AreWords(ws) && k < |ws| && (forall i :: 0 <= i < k ==> ws[i] == 0) && ws[k] != 0
    ensures TrimEnd(Rev(Dig(ws))) == Rev(Dig(ws[k + 1..])) + TrimEnd(Rev(Low(ws[k], LOG, 10)))
  {
    hide Val, Pow, Low, Rev, TrimEnd, Dig;
    assert ws == ws[..k] + [ws[k]] + ws[k + 1..] && ws[..k] == Zeros(k);
    DigAppend(ws[..k] + [ws[k]], ws[k + 1..]);
    DigAppend(ws[..k], [ws[k]]);
    DigOne(ws[k]);
    RevAppend(Dig(Zeros(k)) + Low(ws[k], LOG, 10), Dig(ws[k + 1..]));
    RevAppend(Dig(Zeros(k)), Low(ws[k], LOG, 10));
    var (high, low, none) := (Rev(Dig(ws[k + 1..])), Rev(Low(ws[k], LOG, 10)), Rev(Dig(Zeros(k))));
    Cat3(high, low, none);
    ZeroWords(k);
    TrimBehind(high + low, none);
    PowPositive(10, LOG);
    TrimmedZero(ws[k], LOG, 10);
    TrimBehind(high, low);
  }

  lemma ZeroWords(k: nat)
    ensures TrimEnd(Rev(Dig(Zeros(k)))) == []
  {
    hide Val, Pow, Low, Rev, TrimEnd;
    ValZeros(k);
    DigIs(Zeros(k));
    ZeroDigits(LOG * k, 10);
  }

  ghost function IntText(ii: seq<int>): string
    requires AreWords(ii)
  {
    ValBound(ii);
    if ii == [] then "0" else Numeral(Val(ii), 10)
  }

  ghost function FracText(fs: seq<int>): string
    requires AreWords(fs)
  {
    if Val(fs) == 0 then [] else "." + TrimEnd(Rev(Dig(fs)))
  }

  lemma TextIs(d: Dec)
    requires Proper(d)
    ensures Text(d) == (if d.neg && Val(d.words) != 0 then "-" else "") + IntText(d.words[d.scale..])
      + FracText(d.words[..d.scale])
  {
    hide Val, Pow, Low, Rev, TrimEnd, Dig, Numeral;
    var (fs, ii) := (d.words[..d.scale], d.words[d.scale..]);
    DigIs(fs);
    DigIs(ii);
    TrimmedZero(Val(fs), LOG * d.scale, 10);
    ValSplit(d.words, d.scale);
    PowPositive(BASE, d.scale);
    if ii == [] {
      NoValueWords();
      assert Pow(BASE, d.scale) * 0 == 0;
    } else {
      TopWord(ii);
      PowPositive(BASE, |ii| - 1);
      MulLe(1, Val(ii), Pow(BASE, d.scale));
    }
  }

  method WriteInteger(a: Number) returns (out: string)
    requires Proper(a.Contents())
    ensures out == IntText(a.words[a.scale..])
  {
    hide Val, Rev, Dig, Numeral;
    ghost var ii := a.words[a.scale..];
    var sa, n := a.scale, a.words.Length;
    if n == sa { return "0"; }
    IntegerWritten(ii);
    assert a.words[sa..n - 1] == ii[..|ii| - 1];
    out := WriteLeading(a.words[n - 1]);
    var t := WriteSeq(a.words, sa, n - 1);
    out := out + t;
  }

  method WriteFraction(a: Number) returns (out: string)
    requires Proper(a.Contents())
    ensures out == FracText(a.words[..a.scale])
  {
    hide Val, Rev, Dig, TrimEnd;
    ghost var fs := a.words[..a.scale];
    var sa := a.scale;
    var k := Skip0(a.words, 0, sa);
    SomeWord(fs, k);
    if k == sa { return []; }
    FractionWritten(fs, k);
    assert a.words[k + 1..sa] == fs[k + 1..];
    var s := WriteSeq(a.words, k + 1, sa);
    var t := WriteTrailing(a.words[k]);
    out := "." + (s + t);
  }

  /** number_write(), with a writer that collects what it gets */
  method NumberWrite(a: Number) returns (out: string)
    requires Proper(a.Contents())
    ensures out == Text(a.Contents())
  {
    hide Val, Text, IntText, FracText;
    TextIs(a.Contents());
    out := [];
    var zero := NumberIsZero(a);
    if a.sign && !zero { out := "-"; }
    var i := WriteInteger(a);
    var f := WriteFraction(a);
    assert a.words[..][a.scale..] == a.words[a.scale..] && a.words[..][..a.scale] == a.words[..a.scale];
    out := out + i + f;
  }
}
