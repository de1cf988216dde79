/** Spans of words: little-endian numbers to the base 10^LOG, and the primitive operations on them (libdeci). */
module Words {
  import opened Powers

  type Positive = n: int | n >= 1 witness 1
  type Radix = n: nat | n >= 10 witness 10

  /** DECI_BASE_LOG, the number of decimal digits of a word. */
  const LOG: Positive

  /** DECI_BASE */
  const BASE: Radix := PowerOfTen(LOG)

  function PowerOfTen(n: Positive): Radix {
    TenOrMore(n);
    Pow(10, n)
  }

  lemma TenOrMore(n: Positive)
    ensures Pow(10, n) >= 10
  {
    PowMonoExp(10, 1, n);
    assert Pow(10, 1) == 10 * Pow(10, 0) == 10;
  }

  ghost predicate AreWords(ws: seq<int>) {
    forall i {:trigger ws[i]} :: 0 <= i < |ws| ==> 0 <= ws[i] < BASE
  }

  function Val(ws: seq<int>): int {
    if ws == [] then 0 else ws[0] + BASE * Val(ws[1..])
  }

  function Zeros(n: nat): (ws: seq<int>)
    ensures |ws| == n
  {
    seq(n, _ => 0)
  }

  // ----- The value of a span -----

  lemma {:induction false} ValAppend(x: seq<int>, y: seq<int>)
    ensures Val(x + y) == Val(x) + Pow(BASE, |x|) * Val(y)
    decreases |x|
  {
    if x == [] {
      assert x + y == y;
    } else {
      assert (x + y)[1..] == x[1..] + y;
      ValAppend(x[1..], y);
      Distribute(BASE, Val(x[1..]), Pow(BASE, |x| - 1), Val(y));
    }
  }

  lemma Distribute(b: int, v: int, p: int, w: int)
    ensures b * (v + p * w) == b * v + (b * p) * w
  {
    MulAssoc(b, p, w);
  }

  lemma ValSnoc(x: seq<int>, w: int)
    ensures Val(x + [w]) == Val(x) + Pow(BASE, |x|) * w
  {
    assert Val([w]) == w by { assert [w][1..] == []; }
    hide Val, Pow;
    ValAppend(x, [w]);
  }

  lemma OneWord(b: int)
    ensures Val([b]) == b
  {
    assert [b][1..] == [];
  }

  lemma {:induction false} ValBound(ws: seq<int>)
    requires AreWords(ws)
    ensures 0 <= Val(ws) < Pow(BASE, |ws|)
    decreases |ws|
  {
    if ws != [] {
      ValBound(ws[1..]);
      DigitBound(ws[0], Val(ws[1..]), BASE, Pow(BASE, |ws| - 1));
    }
  }

  lemma DigitBound(w: int, v: int, b: nat, p: nat)
    requires 0 <= w < b && 0 <= v < p
    ensures 0 <= w + b * v < b * p
  {
    MulLe(v, p - 1, b);
    MulLe(0, v, b);
    assert b * (p - 1) == b * p - b;
  }

  lemma {:induction false} ValZeros(n: nat)
    ensures Val(Zeros(n)) == 0
  {
    if n > 0 {
      ValZeros(n - 1);
      assert Zeros(n)[1..] == Zeros(n - 1);
    }
  }

  /** Appending zero words changes nothing. */
  lemma ValPadded(ws: seq<int>, n: nat)
    ensures Val(ws + Zeros(n)) == Val(ws)
  {
    ValAppend(ws, Zeros(n));
    ValZeros(n);
  }

  lemma ValSplit(ws: seq<int>, i: nat)
    requires i <= |ws|
    ensures Val(ws) == Val(ws[..i]) + Pow(BASE, i) * Val(ws[i..])
  {
    assert ws[..i] + ws[i..] == ws;
    ValAppend(ws[..i], ws[i..]);
  }

  /** Words and values determine each other. */
  lemma {:induction false} ValUnique(x: seq<int>, y: seq<int>)
    requires AreWords(x) && AreWords(y) && |x| == |y| && Val(x) == Val(y)
    ensures x == y
    decreases |x|
  {
    if x != [] {
      DigitUnique(x[0], Val(x[1..]), y[0], Val(y[1..]), BASE);
      ValUnique(x[1..], y[1..]);
      assert x == [x[0]] + x[1..] && y == [y[0]] + y[1..];
    }
  }

  lemma DigitUnique(w: int, v: int, x: int, y: int, b: nat)
    requires 0 <= w < b && 0 <= x < b && w + b * v == x + b * y
    ensures w == x && v == y
  {
    assert (v + 1) * b == b * v + b && (y + 1) * b == b * y + b;
    if v < y {
      MulLe(v + 1, y, b);
    } else if y < v {
      MulLe(y + 1, v, b);
    }
  }

  // ----- Primitives that carry upwards -----

  /** r holds the low words of k times x plus s times y, and c is carried. */
  ghost predicate Carried(r: seq<int>, x: seq<int>, y: seq<int>, k: int, s: int, c: int)
    requires |r| <= |x| == |y|
  {
    Val(r) + c * Pow(BASE, |r|) == k * Val(x[..|r|]) + s * Val(y[..|r|])
  }

  /** One word of that: w stays and c' is carried on. */
  ghost predicate WordSum(w: int, c': int, k: int, x: int, s: int, y: int, c: int) {
    w + c' * BASE == k * x + s * y + c
  }

  lemma CarryStart(x: seq<int>, y: seq<int>, k: int, s: int)
    requires |x| == |y|
    ensures Carried([], x, y, k, s, 0)
  {
  }

  lemma CarryEnd(r: seq<int>, x: seq<int>, y: seq<int>, k: int, s: int, c: int)
    requires |r| == |x| == |y| && Carried(r, x, y, k, s, c)
    ensures Val(r) + c * Pow(BASE, |r|) == k * Val(x) + s * Val(y)
  {
    assert x[..|x|] == x && y[..|y|] == y;
  }

  lemma CarryOn(r: seq<int>, x: seq<int>, y: seq<int>, k: int, s: int, c: int, w: int, c': int)
    requires |r| < |x| == |y| && Carried(r, x, y, k, s, c)
    requires WordSum(w, c', k, x[|r|], s, y[|r|], c)
    ensures Carried(r + [w], x, y, k, s, c')
  {
    var i := |r|;
    var p := Pow(BASE, i);
    assert Pow(BASE, i + 1) == BASE * p;
    hide Val, Pow;
    assert x[..i + 1] == x[..i] + [x[i]] && y[..i + 1] == y[..i] + [y[i]];
    ValSnoc(r, w);
    ValSnoc(x[..i], x[i]);
    ValSnoc(y[..i], y[i]);
    CarrySum(Val(r), Val(x[..i]), Val(y[..i]), k, s, c, w, x[i], y[i], c', BASE, p);
  }

  lemma CarrySum(v: int, vx: int, vy: int, k: int, s: int, c: int, w: int, x: int, y: int, c': int, b: int, p: int)
    requires v + c * p == k * vx + s * vy && w + c' * b == k * x + s * y + c
    ensures (v + p * w) + c' * (b * p) == k * (vx + p * x) + s * (vy + p * y)
  {
    assert p * (w + c' * b) == p * w + c' * (b * p) by { MulAssoc(p, c', b); MulAssoc(c', b, p); }
    assert p * (k * x + s * y + c) == k * (p * x) + s * (p * y) + c * p by {
      assert p * (k * x + s * y + c) == p * (k * x) + p * (s * y) + p * c;
      MulAssoc(p, k, x);
      MulAssoc(k, p, x);
      MulAssoc(p, s, y);
      MulAssoc(s, p, y);
    }
    assert k * (vx + p * x) == k * vx + k * (p * x);
    assert s * (vy + p * y) == s * vy + s * (p * y);
  }

  /** deci_add(), for the span of wa from lo to its end: adds wb in place and returns the carry. */
  method Add(wa: array<int>, lo: nat, wb: seq<int>) returns (carry: bool)
    requires lo + |wb| <= wa.Length && AreWords(wa[..]) && AreWords(wb)
    modifies wa
    ensures AreWords(wa[..]) && wa[..lo] == old(wa[..lo])
    ensures Val(wa[lo..]) + (if carry then Pow(BASE, wa.Length - lo) else 0) == old(Val(wa[lo..])) + Val(wb)
  {
    hide Val, Pow, Carried;
    var n := wa.Length - lo;
    ghost var x := wa[lo..];
    ghost var y := wb + Zeros(n - |wb|);
    ghost var r: seq<int> := [];
    var c := 0;
    var i := 0;
    CarryStart(x, y, 1, 1);
    while i < n
      invariant 0 <= i <= n && |r| == i && 0 <= c <= 1
      invariant forall j :: 0 <= j < i ==> wa[lo + j] == r[j]
      invariant forall j :: 0 <= j < wa.Length && !(lo <= j < lo + i) ==> wa[j] == old(wa[j])
      invariant AreWords(r) && Carried(r, x, y, 1, 1, c)
    {
      var sum := wa[lo + i] + (if i < |wb| then wb[i] else 0) + c;
      ghost var c0 := c;
      c := if sum >= BASE then 1 else 0;
      var w := sum - c * BASE;
      CarryOn(r, x, y, 1, 1, c0, w, c);
      wa[lo + i] := w;
      r := r + [w];
      i := i + 1;
    }
    assert wa[lo..] == r;
    CarryEnd(r, x, y, 1, 1, c);
    ValPadded(wb, n - |wb|);
    carry := c == 1;
  }

  /** deci_sub_raw(): subtracts wb in place and returns the borrow; the difference wraps around. */
  method SubRaw(wa: array<int>, lo: nat, wb: seq<int>) returns (borrow: bool)
    requires lo + |wb| <= wa.Length && AreWords(wa[..]) && AreWords(wb)
    modifies wa
    ensures AreWords(wa[..]) && wa[..lo] == old(wa[..lo])
    ensures Val(wa[lo..]) == old(Val(wa[lo..])) - Val(wb) + (if borrow then Pow(BASE, wa.Length - lo) else 0)
  {
    hide Val, Pow, Carried;
    var n := wa.Length - lo;
    ghost var x := wa[lo..];
    ghost var y := wb + Zeros(n - |wb|);
    ghost var r: seq<int> := [];
    var c := 0;
    var i := 0;
    CarryStart(x, y, 1, -1);
    while i < n
      invariant 0 <= i <= n && |r| == i && -1 <= c <= 0
      invariant forall j :: 0 <= j < i ==> wa[lo + j] == r[j]
      invariant forall j :: 0 <= j < wa.Length && !(lo <= j < lo + i) ==> wa[j] == old(wa[j])
      invariant AreWords(r) && Carried(r, x, y, 1, -1, c)
    {
      var diff := wa[lo + i] - (if i < |wb| then wb[i] else 0) + c;
      ghost var c0 := c;
      c := if diff < 0 then -1 else 0;
      var w := diff - c * BASE;
      CarryOn(r, x, y, 1, -1, c0, w, c);
      wa[lo + i] := w;
      r := r + [w];
      i := i + 1;
    }
    assert wa[lo..] == r;
    CarryEnd(r, x, y, 1, -1, c);
    ValPadded(wb, n - |wb|);
    borrow := c == -1;
  }

  /** deci_uncomplement(): negates all of wa modulo the power of the base. */
  method Uncomplement(wa: array<int>)
    requires AreWords(wa[..])
    modifies wa
    ensures AreWords(wa[..])
    ensures Val(wa[..]) == if old(Val(wa[..])) == 0 then 0 else Pow(BASE, wa.Length) - old(Val(wa[..]))
  {
    hide Val, Pow, Carried;
    ghost var x := wa[..];
    ghost var r: seq<int> := [];
    var c := 0;
    var i := 0;
    CarryStart(x, x, -1, 0);
    while i < wa.Length
      invariant 0 <= i <= wa.Length && |r| == i && -1 <= c <= 0
      invariant forall j :: 0 <= j < i ==> wa[j] == r[j]
      invariant forall j :: i <= j < wa.Length ==> wa[j] == old(wa[j])
      invariant AreWords(r) && Carried(r, x, x, -1, 0, c)
    {
      var diff := c - wa[i];
      ghost var c0 := c;
      c := if diff < 0 then -1 else 0;
      var w := diff - c * BASE;
      CarryOn(r, x, x, -1, 0, c0, w, c);
      wa[i] := w;
      r := r + [w];
      i := i + 1;
    }
    assert wa[..] == r;
    CarryEnd(r, x, x, -1, 0, c);
    ValBound(r);
    ValBound(x);
  }

  /** deci_mul_uword(), for the first hi words of wa: multiplies in place by b and returns the word that sticks out. */
  method MulUword(wa: array<int>, hi: nat, b: int) returns (out: int)
    requires hi <= wa.Length && AreWords(wa[..]) && 0 <= b < BASE
    modifies wa
    ensures AreWords(wa[..]) && wa[hi..] == old(wa[hi..])
    ensures 0 <= out < BASE && Multiplied(wa[..hi], old(wa[..hi]), b, out)
  {
    hide Val, Carried, WordSum, Multiplied;
    ghost var x := wa[..hi];
    ghost var r: seq<int> := [];
    out := 0;
    var i := 0;
    CarryStart(x, x, b, 0);
    while i < hi
      invariant 0 <= i <= hi && |r| == i && (out == 0 || 0 <= out < b) && AreWords(r)
      invariant forall j :: 0 <= j < i ==> wa[j] == r[j]
      invariant forall j :: i <= j < wa.Length ==> wa[j] == old(wa[j])
      invariant Carried(r, x, x, b, 0, out)
    {
      ghost var c0 := out;
      var w;
      w, out := WordTimes(b, wa[i], out);
      CarryOn(r, x, x, b, 0, c0, w, out);
      wa[i] := w;
      r := r + [w];
      i := i + 1;
    }
    assert wa[..hi] == r;
    MultiplyEnd(r, x, b, out);
  }

  /** r and the word `out` on top of it hold b times x. */
  ghost predicate Multiplied(r: seq<int>, x: seq<int>, b: int, out: int) {
    Val(r) + out * Pow(BASE, |r|) == b * Val(x)
  }

  lemma MultiplyEnd(r: seq<int>, x: seq<int>, b: int, out: int)
    requires |r| == |x| && Carried(r, x, x, b, 0, out)
    ensures Multiplied(r, x, b, out)
  {
    hide Val, Pow;
    CarryEnd(r, x, x, b, 0, out);
  }

  /** The low and the high word of b times w plus c. */
  method WordTimes(b: int, w: int, c: int) returns (low: int, high: int)
    requires 0 <= b < BASE && 0 <= w < BASE && (c == 0 || 0 <= c < b)
    ensures 0 <= low < BASE && (high == 0 || 0 <= high < b) && WordSum(low, high, b, w, 0, w, c)
  {
    var all := b * w + c;
    ProductBounds(b, w, c, BASE);
    Division(all, BASE);
    low, high := all % BASE, all / BASE;
  }

  lemma ProductBounds(b: int, w: int, c: int, base: nat)
    requires 0 <= b < base && 0 <= w < base && (c == 0 || 0 <= c < b)
    ensures var q := (b * w + c) / base; q == 0 || 0 <= q < b
  {
    var all := b * w + c;
    MulLe(0, w, b);
    MulLe(w, base - 1, b);
    if b > 0 {
      assert (base - 1) * b == b * base - b;
      QuotientBelow(all, base, b);
      QuotientAbove(all, base, 0);
    }
  }

  // ----- Primitives that go downwards -----

  /** q is the quotient of x by d, and rem the remainder. */
  ghost predicate Divided(q: seq<int>, x: seq<int>, d: int, rem: int) {
    0 <= rem < d && Val(x) == Val(q) * d + rem
  }

  /** One word of that: q with the remainder rem' is the quotient of the word y below rem. */
  ghost predicate WordQuotient(q: int, rem': int, rem: int, y: int, d: int) {
    y + rem * BASE == q * d + rem'
  }

  lemma DivideStart(d: int)
    requires d > 0
    ensures Divided([], [], d, 0)
  {
  }

  lemma DivideOn(q: seq<int>, x: seq<int>, d: int, rem: int, y: int, w: int, rem': int)
    requires Divided(q, x, d, rem) && 0 <= rem' < d && WordQuotient(w, rem', rem, y, d)
    ensures Divided([w] + q, [y] + x, d, rem')
  {
    assert ([w] + q)[1..] == q && ([y] + x)[1..] == x;
    DivideSum(Val(x), Val(q), d, rem, y, w, rem', BASE);
  }

  lemma DivideSum(v: int, q: int, d: int, rem: int, y: int, w: int, rem': int, b: int)
    requires v == q * d + rem && y + rem * b == w * d + rem'
    ensures y + b * v == (w + b * q) * d + rem'
  {
    assert b * (q * d + rem) == b * (q * d) + b * rem;
    MulAssoc(b, q, d);
  }

  /** deci_divmod_uword(), for the span of wa from lo to hi: divides in place by d and returns the remainder. */
  method DivmodUword(wa: array<int>, lo: nat, hi: nat, d: int) returns (rem: int)
    requires lo <= hi <= wa.Length && AreWords(wa[..]) && d > 0
    modifies wa
    ensures AreWords(wa[..]) && wa[..lo] == old(wa[..lo]) && wa[hi..] == old(wa[hi..])
    ensures Divided(wa[lo..hi], old(wa[lo..hi]), d, rem)
  {
    hide Val, Divided, WordQuotient;
    ghost var x := wa[lo..hi];
    ghost var q: seq<int> := [];
    rem := 0;
    var i := hi;
    DivideStart(d);
    assert x[hi - lo..] == [];
    while i > lo
      invariant lo <= i <= hi && |q| == hi - i && 0 <= rem < d && AreWords(q)
      invariant forall j :: i <= j < hi ==> wa[j] == q[j - i]
      invariant forall j :: 0 <= j < wa.Length && !(i <= j < hi) ==> wa[j] == old(wa[j])
      invariant Divided(q, x[i - lo..], d, rem)
    {
      i := i - 1;
      assert x[i - lo..] == [wa[i]] + x[i - lo + 1..];
      var w, rem' := WordOver(rem, wa[i], d);
      DivideOn(q, x[i - lo + 1..], d, rem, wa[i], w, rem');
      wa[i] := w;
      q := [w] + q;
      rem := rem';
    }
    assert wa[lo..hi] == q && x[0..] == x;
  }

  /** A word w below the remainder rem is divided by d. */
  method WordOver(rem: int, w: int, d: int) returns (q: int, rem': int)
    requires 0 <= rem < d && 0 <= w < BASE
    ensures 0 <= q < BASE && 0 <= rem' < d && WordQuotient(q, rem', rem, w, d)
  {
    var all := w + rem * BASE;
    MulLe(rem, d - 1, BASE);
    MulLe(0, rem, BASE);
    assert (d - 1) * BASE == BASE * d - BASE;
    QuotientBelow(all, d, BASE);
    QuotientAbove(all, d, 0);
    Division(all, d);
    q, rem' := all / d, all % d;
  }

  /** fancy_div(): the quotient is left in the low words of wa, whose number is returned; the words above are left
      over. */
  method Div(wa: array<int>, wb: seq<int>) returns (nwr: nat)
    requires AreWords(wa[..]) && AreWords(wb) && Val(wb) > 0
    modifies wa
    ensures AreWords(wa[..]) && nwr <= wa.Length
    ensures Val(wa[..nwr]) == old(Val(wa[..])) / Val(wb)
  {
    hide Val, Divided;
    ghost var x := wa[..];
    var rem := DivmodUword(wa, 0, wa.Length, Val(wb));
    nwr := wa.Length;
    assert wa[0..wa.Length] == wa[..nwr] && x[0..wa.Length] == x;
    Quotient(wa[..nwr], x, Val(wb), rem);
  }

  lemma Quotient(q: seq<int>, x: seq<int>, d: int, rem: int)
    requires Divided(q, x, d, rem)
    ensures Val(q) == Val(x) / d && rem == Val(x) % d
  {
    hide Val;
    QuotientIs(Val(x), d, Val(q), rem);
  }

  // ----- Zero words -----

  /** Zero words on top do not count. */
  lemma ValTrimmed(ws: seq<int>, n: nat)
    requires n <= |ws| && forall i :: n <= i < |ws| ==> ws[i] == 0
    ensures Val(ws[..n]) == Val(ws)
  {
    assert ws[..n] + Zeros(|ws| - n) == ws;
    ValPadded(ws[..n], |ws| - n);
  }

  /** The top word is zero iff the value fits into the words below it. */
  lemma TopWord(ws: seq<int>)
    requires AreWords(ws) && ws != []
    ensures ws[|ws| - 1] != 0 <==> Val(ws) >= Pow(BASE, |ws| - 1)
  {
    hide Val, Pow;
    var n := |ws| - 1;
    assert ws == ws[..n] + [ws[n]];
    ValSnoc(ws[..n], ws[n]);
    ValBound(ws[..n]);
    TopDigit(Val(ws[..n]), Pow(BASE, n), ws[n]);
  }

  lemma TopDigit(v: int, p: int, w: int)
    requires 0 <= v < p && 0 <= w
    ensures w != 0 <==> v + p * w >= p
  {
    if w != 0 { MulLe(1, w, p); }
  }

  /** deci_normalize(): the end of the words from lo to hi without the zero words on top. */
  method Normalize(wa: array<int>, lo: nat, hi: nat) returns (n: nat)
    requires lo <= hi <= wa.Length
    ensures lo <= n <= hi && (forall i :: n <= i < hi ==> wa[i] == 0) && (n > lo ==> wa[n - 1] != 0)
  {
    n := hi;
    while n != lo && wa[n - 1] == 0
      invariant lo <= n <= hi && forall i :: n <= i < hi ==> wa[i] == 0
    {
      n := n - 1;
    }
  }

  /** deci_skip0(): the position of the first word that is not zero. */
  method Skip0(wa: array<int>, lo: nat, hi: nat) returns (n: nat)
    requires lo <= hi <= wa.Length
    ensures lo <= n <= hi && (forall i :: lo <= i < n ==> wa[i] == 0) && (n < hi ==> wa[n] != 0)
  {
    n := lo;
    while n != hi && wa[n] == 0
      invariant lo <= n <= hi && forall i :: lo <= i < n ==> wa[i] == 0
    {
      n := n + 1;
    }
  }
}
