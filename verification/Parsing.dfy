/** Reading decimal literals (number.c), and the way from a number through its text and back. */
module Parsing {
  import opened Common
  import opened Powers
  import opened Words
  import opened Numbers
  import opened Digits
  import opened Shifts

  // ----- Values of digit strings -----

  lemma {:induction false} ValueBound(s: string, b: Base)
    requires AreDigits(s, b)
    ensures 0 <= Value(s, b) < Pow(b, |s|)
    decreases |s|
  {
    if s != [] {
      ValueBound(s[..|s| - 1], b);
      DigitSum(Value(s[..|s| - 1], b), Decode(s[|s| - 1]), Pow(b, |s| - 1), b);
    }
  }

  lemma DigitSum(v: int, d: int, p: nat, b: nat)
    requires 0 <= v < p && 0 <= d < b
    ensures 0 <= b * v + d < b * p
  {
    MulLe(v, p - 1, b);
    MulLe(0, v, b);
    assert b * (p - 1) == b * p - b;
  }

  // ----- The parts of a literal -----

  /** parse_word() */
  method ParseWord(s: string) returns (r: int)
    requires AreDigits(s, 10)
    ensures r == Value(s, 10)
  {
    r := 0;
    var i := 0;
    NoValue(10);
    assert s[..0] == [];
    while i < |s|
      invariant 0 <= i <= |s| && r == Value(s[..i], 10)
    {
      assert s[..i + 1] == s[..i] + [s[i]];
      ValueSnoc(s[..i], s[i], 10);
      r := r * 10;
      r := r + Decode(s[i]);
      i := i + 1;
    }
    assert s[..|s|] == s;
  }

  /** parse_word_pad() */
  method ParseWordPad(s: string) returns (r: int)
    requires AreDigits(s, 10) && |s| <= LOG
    ensures PaddedWord(r, s)
  {
    r := ParseWord(s);
    r := TimesTen(r, LOG - |s|);
  }

  /** w has the digits s, filled up with zeros. */
  ghost predicate PaddedWord(w: int, s: string) {
    AreDigits(s, 10) && |s| <= LOG && w == Value(s, 10) * Pow(10, LOG - |s|)
  }

  /** parse_nchars_to_nwords() */
  function NWords(n: nat): (w: nat)
    ensures LOG * w >= n && (w > 0 ==> LOG * (w - 1) < n) && (w == 0 <==> n == 0)
  {
    Division(n, LOG);
    QuotientAbove(n, LOG, 0);
    n / LOG + if n % LOG != 0 then 1 else 0
  }

  lemma WordFits(s: string)
    requires AreDigits(s, 10) && |s| <= LOG
    ensures 0 <= Value(s, 10) < BASE
  {
    ValueBound(s, 10);
    PowMonoExp(10, |s|, LOG);
  }

  /** ws are the words of the digits s, of which the highest word has all that are left over. */
  ghost predicate IntWords(ws: seq<int>, s: string) {
    AreWords(ws) && Val(ws) == Value(s, 10)
  }

  /** ws are the words of the fraction s, whose lowest word is filled up with zeros. */
  ghost predicate FracWords(ws: seq<int>, s: string) {
    && AreWords(ws) && LOG * |ws| >= |s|
    && Val(ws) == Value(s, 10) * Pow(10, LOG * |ws| - |s|)
  }

  lemma IntMore(ws: seq<int>, s: string, w: int, chunk: string)
    requires IntWords(ws, s) && |s| == LOG * |ws| && AreDigits(chunk, 10) && |chunk| <= LOG && w == Value(chunk, 10)
    ensures IntWords(ws + [w], chunk + s)
  {
    hide Val, Value, Pow;
    WordFits(chunk);
    ValSnoc(ws, w);
    ValueAppend(chunk, s, 10);
    PowPow(10, LOG, |ws|);
    assert w * Pow(10, |s|) == Pow(BASE, |ws|) * w;
  }

  lemma NoWords()
    ensures IntWords([], []) && FracWords([], [])
  {
  }

  /** parse_int_part() */
  method ParseIntPart(s: string, words: array<int>, lo: nat, hi: nat)
    requires AreDigits(s, 10) && lo <= hi <= words.Length && hi - lo == NWords(|s|)
    modifies words
    ensures IntWords(words[lo..hi], s)
    ensures forall k :: 0 <= k < words.Length && !(lo <= k < hi) ==> words[k] == old(words[k])
  {
    hide Val, Value, Pow, IntWords;
    NoWords();
    if lo == hi {
      assert words[lo..hi] == [] && s == [];
      return;
    }
    var end := |s|;
    var out := lo;
    ghost var ws: seq<int> := [];
    assert s[|s|..] == [];
    while out != hi - 1
      invariant lo <= out <= hi - 1 && |ws| == out - lo && 0 <= end <= |s| && end == |s| - LOG * (out - lo)
      invariant IntWords(ws, s[end..])
      invariant forall k :: lo <= k < out ==> words[k] == ws[k - lo]
      invariant forall k :: 0 <= k < words.Length && !(lo <= k < out) ==> words[k] == old(words[k])
    {
      ChunkLeft(|s|, out - lo, hi - lo);
      var p := end - LOG;
      var w := ParseWord(s[p..end]);
      IntMore(ws, s[end..], w, s[p..end]);
      assert s[p..end] + s[end..] == s[p..];
      assert LOG * (out + 1 - lo) == LOG * (out - lo) + LOG;
      words[out] := w;
      ws := ws + [w];
      out := out + 1;
      end := p;
    }
    var w := ParseWord(s[..end]);
    IntMore(ws, s[end..], w, s[..end]);
    assert s[..end] + s[end..] == s;
    words[out] := w;
    assert words[lo..hi] == ws + [w];
  }

  /** Before the last of n words there are enough characters left for a whole one, before the last one there are
      not more. */
  lemma ChunkLeft(len: nat, i: nat, n: nat)
    requires n == NWords(len) && i < n
    ensures i < n - 1 ==> len - LOG * i > LOG
    ensures i == n - 1 ==> 0 < len - LOG * i <= LOG
  {
    assert LOG * (n - 1) + LOG == LOG * n;
    if i < n - 1 {
      MulLe(i, n - 2, LOG);
      assert LOG * (n - 2) + LOG == LOG * (n - 1);
    }
  }

  lemma FracMore(ws: seq<int>, s: string, w: int, chunk: string)
    requires FracWords(ws, s) && |s| == LOG * |ws| && PaddedWord(w, chunk)
    ensures FracWords([w] + ws, s + chunk)
  {
    var k := LOG - |chunk|;
    WordPadded(chunk);
    assert ([w] + ws)[1..] == ws;
    ValueAppend(s, chunk, 10);
    PowAdd(10, |chunk|, k);
    assert LOG * (|ws| + 1) == LOG * |ws| + LOG;
    assert Pow(10, 0) == 1;
    hide Val, Value, Pow;
    FracSum(Val(ws), Value(s, 10), Value(chunk, 10), Pow(10, |chunk|), Pow(10, k), BASE);
  }

  lemma FracSum(v: int, x: int, y: int, p: int, q: int, b: int)
    requires v == x && b == p * q
    ensures y * q + b * v == (x * p + y) * q
  {
    assert b * v == (x * p) * q by { MulAssoc(x, p, q); }
  }

  lemma WordPadded(chunk: string)
    requires AreDigits(chunk, 10) && |chunk| <= LOG
    ensures 0 <= Value(chunk, 10) * Pow(10, LOG - |chunk|) < BASE
  {
    ValueBound(chunk, 10);
    PowAdd(10, |chunk|, LOG - |chunk|);
    PowPositive(10, LOG - |chunk|);
    hide Pow, Value;
    MulLe(0, Value(chunk, 10), Pow(10, LOG - |chunk|));
    MulLess(Value(chunk, 10), Pow(10, |chunk|), Pow(10, LOG - |chunk|));
  }

  lemma SliceDigits(s: string, i: nat, j: nat)
    requires AreDigits(s, 10) && i <= j <= |s|
    ensures AreDigits(s[i..j], 10)
  {
    hide Decode;
  }

  /** k whole words end before position p. */
  ghost predicate ChunkAt(p: nat, k: nat) { p == LOG * k }

  lemma ChunkStep(len: nat, p: nat, k: nat, n: nat)
    requires ChunkAt(p, k) && k < n == NWords(len)
    ensures k < n - 1 ==> p + LOG <= len && ChunkAt(p + LOG, k + 1)
    ensures k == n - 1 ==> 0 < len - p <= LOG
  {
    ChunkLeft(len, k, n);
    assert LOG * (k + 1) == LOG * k + LOG;
  }

  lemma NoChunk()
    ensures ChunkAt(0, 0)
  {
  }

  /** One more word of the fraction. */
  lemma NextChunk(ws: seq<int>, s: string, begin: nat, p: nat, w: int)
    requires AreDigits(s, 10) && ChunkAt(begin, |ws|) && begin <= p <= |s|
    requires FracWords(ws, s[..begin]) && PaddedWord(w, s[begin..p])
    ensures FracWords([w] + ws, s[..p])
  {
    hide Value, FracWords, PaddedWord, Decode;
    FracMore(ws, s[..begin], w, s[begin..p]);
    assert s[..begin] + s[begin..p] == s[..p];
  }

  /** parse_frac_part() */
  method ParseFracPart(s: string, words: array<int>, lo: nat, hi: nat)
    requires AreDigits(s, 10) && lo <= hi <= words.Length && hi - lo == NWords(|s|)
    modifies words
    ensures FracWords(words[lo..hi], s)
    ensures lo < hi && s[|s| - 1] != '0' ==> words[lo] != 0
    ensures forall k :: 0 <= k < words.Length && !(lo <= k < hi) ==> words[k] == old(words[k])
  {
    hide Val, Value, Pow, FracWords, PaddedWord, Decode, AreDigits, ChunkAt;
    NoWords();
    NoChunk();
    if lo == hi {
      assert words[lo..hi] == [] && s == [];
      return;
    }
    hide NWords;
    var begin := 0;
    var out := hi - 1;
    ghost var ws: seq<int> := [];
    assert s[..0] == [];
    while out != lo
      invariant lo <= out <= hi - 1 && |ws| == hi - 1 - out && 0 <= begin <= |s| && ChunkAt(begin, |ws|)
      invariant FracWords(ws, s[..begin])
      invariant forall k :: out < k < hi ==> words[k] == ws[k - out - 1]
      invariant forall k :: 0 <= k < words.Length && !(out < k < hi) ==> words[k] == old(words[k])
    {
      ChunkStep(|s|, begin, |ws|, hi - lo);
      var p := begin + LOG;
      SliceDigits(s, begin, p);
      var w := ParseWord(s[begin..p]);
      Unpadded(w, s[begin..p]);
      NextChunk(ws, s, begin, p, w);
      words[out] := w;
      ws := [w] + ws;
      out := out - 1;
      begin := p;
    }
    ChunkStep(|s|, begin, |ws|, hi - lo);
    LastWord(s, words, begin, out, ws);
    assert words[lo..hi] == [words[lo]] + ws;
  }

  /** The word with the last digits, which may be fewer than a word has. */
  method LastWord(s: string, words: array<int>, begin: nat, out: nat, ghost ws: seq<int>)
    requires AreDigits(s, 10) && begin < |s| <= begin + LOG && out < words.Length
    requires ChunkAt(begin, |ws|) && FracWords(ws, s[..begin])
    modifies words
    ensures FracWords([words[out]] + ws, s) && (s[|s| - 1] != '0' ==> words[out] != 0)
    ensures forall k :: 0 <= k < words.Length && k != out ==> words[k] == old(words[k])
  {
    hide Val, Value, Pow, FracWords, PaddedWord, Decode, AreDigits, ChunkAt;
    SliceDigits(s, begin, |s|);
    assert s[begin..|s|] == s[begin..] && s[..|s|] == s;
    var w := ParseWordPad(s[begin..]);
    NextChunk(ws, s, begin, |s|, w);
    if s[|s| - 1] != '0' { LastDigit(w, s[begin..]); }
    words[out] := w;
  }

  lemma Unpadded(w: int, chunk: string)
    requires AreDigits(chunk, 10) && |chunk| == LOG && w == Value(chunk, 10)
    ensures PaddedWord(w, chunk)
  {
    assert Pow(10, 0) == 1;
  }

  /** Digits that do not end in a zero are not zero. */
  lemma LastDigit(w: int, chunk: string)
    requires PaddedWord(w, chunk) && chunk != [] && chunk[|chunk| - 1] != '0'
    ensures w != 0
  {
    var n := |chunk| - 1;
    ValueBound(chunk[..n], 10);
    assert Value(chunk, 10) == 10 * Value(chunk[..n], 10) + Decode(chunk[n]);
    assert Decode(chunk[n]) != 0;
    PowPositive(10, LOG - |chunk|);
    hide Pow, Value, Decode;
    MulLe(1, Value(chunk, 10), Pow(10, LOG - |chunk|));
  }

  // ----- Literals -----

  function Unsigned(s: string): string {
    if s != [] && s[0] == '-' then s[1..] else s
  }

  /** The position of the first point, or the length. */
  function Point(t: string): (k: nat)
    ensures k <= |t| && (forall i :: 0 <= i < k ==> t[i] != '.') && (k < |t| ==> t[k] == '.')
  {
    if t == [] || t[0] == '.' then 0 else 1 + Point(t[1..])
  }

  function IntChars(t: string): string { t[..Point(t)] }

  function FracChars(t: string): string {
    if Point(t) < |t| then t[Point(t) + 1..] else []
  }

  /** Digits with at most one point among them. */
  predicate IsPlain(t: string) {
    AreDigits(IntChars(t), 10) && AreDigits(FracChars(t), 10)
  }

  /** The magnitude of d is the number that t denotes. */
  ghost predicate Denotes(d: Dec, t: string) {
    Val(d.words) * Pow(10, |FracChars(t)|) == Value(IntChars(t) + FracChars(t), 10) * Pow(BASE, d.scale)
  }

  lemma {:induction false} ZeroValue(s: string)
    requires forall i :: 0 <= i < |s| ==> s[i] == '0'
    ensures Value(s, 10) == 0
    decreases |s|
  {
    if s != [] { ZeroValue(s[..|s| - 1]); }
  }

  /** What the words of the two parts, without zeros at the ends, are together. */
  lemma PartsDenote(d: Dec, t: string, z: nat)
    requires IsPlain(t) && z <= |IntChars(t)| && (forall i :: 0 <= i < z ==> t[i] == '0') && d.scale <= |d.words|
    requires IntWords(d.words[d.scale..], IntChars(t)[z..]) && FracWords(d.words[..d.scale], TrimEnd(FracChars(t)))
    ensures Denotes(d, t) && AreWords(d.words)
  {
    hide Val, Value, Pow, TrimEnd, IntWords, FracWords, IsPlain;
    var (ii, ff) := (IntChars(t), FracChars(t));
    assert ii == ii[..z] + ii[z..] && d.words == d.words[..d.scale] + d.words[d.scale..];
    ZeroValue(ii[..z]);
    ValueAppend(ii[..z], ii[z..], 10);
    WordsOfParts(d, ii[z..], TrimEnd(ff));
    hide IntChars, FracChars;
    PartsSum(d, ii, ff);
  }

  lemma WordsOfParts(d: Dec, i: string, f: string)
    requires d.scale <= |d.words| && IntWords(d.words[d.scale..], i) && FracWords(d.words[..d.scale], f)
    ensures AreWords(d.words[d.scale..]) && AreWords(d.words[..d.scale]) && |f| <= LOG * d.scale
    ensures Val(d.words[d.scale..]) == Value(i, 10)
    ensures Val(d.words[..d.scale]) == Value(f, 10) * Pow(10, LOG * d.scale - |f|)
  {
    hide Val, Value, Pow;
  }

  lemma PartsSum(d: Dec, ii: string, ff: string)
    requires d.scale <= |d.words| && |TrimEnd(ff)| <= LOG * d.scale && Val(d.words[d.scale..]) == Value(ii, 10)
    requires Val(d.words[..d.scale]) == Value(TrimEnd(ff), 10) * Pow(10, LOG * d.scale - |TrimEnd(ff)|)
    ensures Val(d.words) * Pow(10, |ff|) == Value(ii + ff, 10) * Pow(BASE, d.scale)
  {
    hide Val, Value, Pow, TrimEnd;
    var f := TrimEnd(ff);
    var (p, q) := (|ff| - |f|, LOG * d.scale - |f|);
    ValueTrimmed(ff, 10);
    ValueAppend(ii, ff, 10);
    ValSplit(d.words, d.scale);
    PowPow(10, LOG, d.scale);
    PowAdd(10, |f|, q);
    PowAdd(10, |f|, p);
    DenoteSum(Val(d.words[..d.scale]), Val(d.words[d.scale..]), Value(f, 10), Pow(10, p), Pow(10, q), Pow(10, |f|));
  }

  lemma DenoteSum(vf: int, vi: int, f: int, p: int, q: int, t: int)
    requires vf == f * q
    ensures (vf + (t * q) * vi) * (t * p) == (vi * (t * p) + f * p) * (t * q)
  {
    assert (f * q) * (t * p) == (f * p) * (t * q);
    assert ((t * q) * vi) * (t * p) == (vi * (t * p)) * (t * q);
  }

  /** The top word has the first of the digits that are left, the bottom word the last one. */
  lemma PartsFull(d: Dec, int': string)
    requires AreWords(d.words) && d.scale <= |d.words| && |d.words| - d.scale == NWords(|int'|)
    requires IntWords(d.words[d.scale..], int') && AreDigits(int', 10) && (int' != [] ==> int'[0] != '0')
    requires d.scale > 0 ==> d.words[0] != 0
    ensures Full(d)
  {
    var ws := d.words[d.scale..];
    if ws != [] {
      FirstDigit(int');
      PowPow(10, LOG, |ws| - 1);
      PowMonoExp(10, LOG * (|ws| - 1), |int'| - 1);
      TopWord(ws);
    }
  }

  lemma FirstDigit(s: string)
    requires AreDigits(s, 10) && s != [] && s[0] != '0'
    ensures Value(s, 10) >= Pow(10, |s| - 1)
  {
    assert s == s[..1] + s[1..] && s[..1] == [s[0]];
    ValueAppend(s[..1], s[1..], 10);
    ValueBound(s[1..], 10);
    NoValue(10);
    ValueSnoc([], s[0], 10);
    assert [] + [s[0]] == [s[0]];
    PowPositive(10, |s| - 1);
    MulLe(1, Decode(s[0]), Pow(10, |s| - 1));
  }

  /** The digits behind the point at p, without zeros at the end. */
  method Fraction(t: string, p: nat) returns (frac: string)
    requires p < |t| && t[p] == '.'
    ensures frac == TrimEnd(t[p + 1..])
  {
    hide TrimEnd;
    var end := |t|;
    while t[end - 1] == '0'
      invariant p < end <= |t| && forall i :: end <= i < |t| ==> t[i] == '0'
      decreases end
    {
      end := end - 1;
    }
    TrimmedFraction(t, p, end);
    frac := t[p + 1..end];
  }

  /** The first half of parse_no_sq(): the digits before and behind the point, without zeros at the ends. */
  method SplitDigits(t: string) returns (int': string, frac: string, ghost z: nat)
    requires IsPlain(t)
    ensures z <= |IntChars(t)| && (forall i :: 0 <= i < z ==> t[i] == '0') && int' == IntChars(t)[z..]
    ensures int' != [] ==> int'[0] != '0'
    ensures frac == TrimEnd(FracChars(t)) && AreDigits(int', 10) && AreDigits(frac, 10)
  {
    hide TrimEnd, AreDigits, IsPlain, Point;
    var begin := 0;
    while begin != |t| && t[begin] == '0'
      invariant 0 <= begin <= Point(t) && forall i :: 0 <= i < begin ==> t[i] == '0'
    {
      NoPoint(t, begin);
      begin := begin + 1;
    }
    var period := begin;
    while period != |t| && t[period] != '.'
      invariant begin <= period <= Point(t)
    {
      period := period + 1;
    }
    PointIs(t, period);
    z := begin;
    int' := t[begin..period];
    frac := if period != |t| then t[period + 1..] else [];
    if period != |t| {
      frac := Fraction(t, period);
    } else {
      TrimUnique([], 0);
    }
    PlainParts(t, z, frac);
  }

  lemma TrimmedFraction(t: string, p: nat, end: nat)
    requires p < end <= |t| && t[end - 1] != '0' && t[p] == '.' && forall i :: end <= i < |t| ==> t[i] == '0'
    ensures TrimEnd(t[p + 1..]) == t[p + 1..end]
  {
    hide TrimEnd;
    TrimUnique(t[p + 1..], end - p - 1);
  }

  lemma PlainParts(t: string, z: nat, frac: string)
    requires IsPlain(t) && z <= |IntChars(t)| && frac == TrimEnd(FracChars(t))
    ensures AreDigits(IntChars(t)[z..], 10) && AreDigits(frac, 10)
  {
    hide Decode, Point, IntChars, FracChars;
  }

  /** The second half: the words are allocated and filled. */
  method FromDigits(sign: bool, int': string, frac: string) returns (a: Number)
    requires AreDigits(int', 10) && AreDigits(frac, 10)
    requires (int' != [] ==> int'[0] != '0') && (frac != [] ==> frac[|frac| - 1] != '0')
    ensures fresh(a) && fresh(a.words) && a.refs == 1 && a.sign == sign && a.scale == NWords(|frac|) <= a.words.Length
    ensures a.words.Length - a.scale == NWords(|int'|) && (a.scale > 0 ==> a.words[0] != 0)
    ensures IntWords(a.words[a.scale..], int') && FracWords(a.words[..a.scale], frac)
  {
    hide IntWords, FracWords, AreDigits;
    var (intWords, fracWords) := (NWords(|int'|), NWords(|frac|));
    a := new Number(sign, intWords + fracWords, fracWords);
    ParseFracPart(frac, a.words, 0, fracWords);
    ghost var low := a.words[0..fracWords];
    ParseIntPart(int', a.words, fracWords, fracWords + intWords);
    assert a.words[..fracWords] == low && a.words[fracWords..] == a.words[fracWords..fracWords + intWords];
  }

  /** parse_no_sq() */
  method ParseNoSq(s: string) returns (a: Number)
    requires s != [] && IsPlain(Unsigned(s))
    ensures fresh(a) && fresh(a.words) && a.refs == 1 && Full(a.Contents())
    ensures a.sign == (s[0] == '-') && Denotes(a.Contents(), Unsigned(s))
  {
    hide Full, Denotes, IntWords, FracWords, IsPlain, AreDigits, IntChars, FracChars;
    var sign := s[0] == '-';
    var t := if sign then s[1..] else s;
    var int', frac, z := SplitDigits(t);
    a := FromDigits(sign, int', frac);
    ghost var d := a.Contents();
    assert d.words[..d.scale] == a.words[..a.scale] && d.words[d.scale..] == a.words[a.scale..];
    PartsDenote(d, t, z);
    PartsFull(d, int');
  }

  lemma NoPoint(t: string, k: nat)
    requires k <= Point(t) && k < |t| && t[k] == '0'
    ensures k + 1 <= Point(t)
  {
  }

  lemma PointIs(t: string, k: nat)
    requires k <= Point(t) && (k < |t| ==> t[k] == '.')
    ensures k == Point(t)
  {
  }

  lemma {:induction false} BeforePoint(t: string, k: nat)
    requires k <= |t| && forall i :: 0 <= i < k ==> t[i] != '.'
    ensures k <= Point(t)
    decreases k
  {
    if k > 0 {
      assert forall i :: 0 <= i < k - 1 ==> t[1..][i] == t[i + 1];
      BeforePoint(t[1..], k - 1);
    }
  }

  // ----- Quotes -----

  function Unquoted(s: string): string {
    if s == [] then [] else (if s[0] == '\'' then [] else [s[0]]) + Unquoted(s[1..])
  }

  /** Single quotes are left out, wherever they stand, and nothing else. */
  lemma {:induction false} QuotesIgnored(s: string, t: string, c: char)
    ensures Unquoted(s + [c] + t) == if c == '\'' then Unquoted(s + t) else Unquoted(s) + [c] + Unquoted(t)
    decreases |s|
  {
    if s == [] {
      assert (s + [c] + t)[1..] == t && [] + t == t;
    } else {
      assert (s + [c] + t)[1..] == s[1..] + [c] + t && (s + t)[1..] == s[1..] + t;
      QuotesIgnored(s[1..], t, c);
    }
  }

  /** copy_remove_sq() */
  method CopyRemoveSq(s: string) returns (r: string)
    ensures r == Unquoted(s)
  {
    hide Unquoted;
    r := [];
    var from := 0;
    assert s[0..] == s && [] + Unquoted(s) == Unquoted(s);
    while true
      invariant 0 <= from <= |s| && Unquoted(s) == r + Unquoted(s[from..])
      decreases |s| - from
    {
      var next := from;
      while next != |s| && s[next] != '\''
        invariant from <= next <= |s| && forall i :: from <= i < next ==> s[i] != '\''
      {
        next := next + 1;
      }
      Segment(s, from, next);
      Cat3(r, s[from..next], Unquoted(s[next..]));
      r := r + s[from..next];
      if next == |s| {
        assert r + [] == r;
        return;
      }
      OneQuote(s, next);
      from := next + 1;
    }
  }

  lemma OneQuote(s: string, k: nat)
    requires k < |s| && s[k] == '\''
    ensures Unquoted(s[k..]) == Unquoted(s[k + 1..])
  {
    assert s[k..][1..] == s[k + 1..];
    assert [] + Unquoted(s[k + 1..]) == Unquoted(s[k + 1..]);
  }

  lemma {:induction false} Segment(s: string, from: nat, next: nat)
    requires from <= next <= |s| && forall i :: from <= i < next ==> s[i] != '\''
    ensures Unquoted(s[from..]) == s[from..next] + Unquoted(s[next..]) && (next == |s| ==> Unquoted(s[next..]) == [])
    decreases next - from
  {
    if from < next {
      assert s[from..][1..] == s[from + 1..];
      Segment(s, from + 1, next);
      assert [s[from]] + s[from + 1..next] == s[from..next];
    }
  }

  /** number_parse() */
  method NumberParse(s: string) returns (a: Number)
    requires Unquoted(s) != [] && IsPlain(Unsigned(Unquoted(s)))
    ensures fresh(a) && fresh(a.words) && a.refs == 1 && Full(a.Contents())
    ensures a.sign == (Unquoted(s)[0] == '-') && Denotes(a.Contents(), Unsigned(Unquoted(s)))
  {
    var t := CopyRemoveSq(s);
    a := ParseNoSq(t);
  }
}
