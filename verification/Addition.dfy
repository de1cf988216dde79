/** Sums and differences of numbers (number.c). */
module Addition {
  import opened Powers
  import opened Words
  import opened Numbers

  /** a and b may be operands of one operation: each holds the reference that the operation takes. */
  ghost predicate Operands(a: Number, b: Number)
    reads a, b, a.words, b.words
  {
    a.Valid() && b.Valid() && (if a == b then a.refs >= 2 else a.words != b.words)
  }

  /** One reference to a and one to b were taken; whoever else refers to them sees what was there. */
  twostate predicate Spent(a: Number, b: Number)
    reads a, b, a.words, b.words
  {
    if a == b then
      old(a.refs) > 2 ==> a.refs == old(a.refs) - 2 && a.Contents() == old(a.Contents())
    else
      && (old(a.refs) > 1 ==> a.refs == old(a.refs) - 1 && a.Contents() == old(a.Contents()))
      && (old(b.refs) > 1 ==> b.refs == old(b.refs) - 1 && b.Contents() == old(b.Contents()))
  }

  /** r is a plus b, or a minus b, at the larger of their scales. */
  ghost predicate IsSum(r: Dec, a: Dec, b: Dec, add: bool) {
    && Proper(r)
    && r.scale == (if a.scale < b.scale then b.scale else a.scale)
    && At(r, r.scale) == At(a, r.scale) + (if add then At(b, r.scale) else -At(b, r.scale))
  }

  /** The first operand of do_add_or_sub(), copied if it is shared, with the larger scale and the larger number of words
      of the integer part. */
  ghost function Prepared(a: Dec, b: Dec): Dec
    requires Proper(a) && Proper(b) && |a.words| >= |b.words|
  {
    var (ninta, nintb) := (|a.words| - a.scale, |b.words| - b.scale);
    if ninta < nintb then Extended(a, a.scale + nintb)
    else if a.scale < b.scale then ScaledUp(a, b.scale)
    else a
  }

  method Prepare(a: Number, b: Number) returns (r: Number)
    requires a.Valid() && b.Valid() && a.words.Length >= b.words.Length
    modifies a`refs, a`words
    ensures Traded(a, r) && r.Contents() == Prepared(old(a.Contents()), old(b.Contents()))
  {
    var sa, sb := a.scale, b.scale;
    var ninta, nintb := a.words.Length - sa, b.words.Length - sb;
    if ninta < nintb {
      r := MkuniqExtend(a, sa + nintb);
    } else if sa < sb {
      r := MkuniqScaleUp(a, sb);
    } else {
      r := Mkuniq(a);
    }
  }

  lemma PreparedFacts(a: Dec, b: Dec)
    requires Proper(a) && Proper(b) && |a.words| >= |b.words|
    ensures var p := Prepared(a, b);
      && p.scale == (if a.scale < b.scale then b.scale else a.scale) && p.neg == a.neg
      && At(p, p.scale) == At(a, p.scale) && AreWords(p.words) && p.scale <= |p.words|
      && p.scale - b.scale + |b.words| <= |p.words|
  {
    var p := Prepared(a, b);
    var (ninta, nintb) := (|a.words| - a.scale, |b.words| - b.scale);
    if ninta < nintb {
      ExtendedAt(a, a.scale + nintb, p.scale);
    } else if a.scale < b.scale {
      ScaledUpAt(a, b.scale, b.scale);
    }
  }

  /** The top word of the integer part is not zero in both operands. */
  lemma PreparedTop(a: Dec, b: Dec)
    requires Proper(a) && Proper(b) && |a.words| >= |b.words|
    ensures var p := Prepared(a, b); |p.words| > p.scale && p.scale >= b.scale ==>
      Pow(BASE, |p.words| - 1) <= Val(p.words) + Pow(BASE, p.scale - b.scale) * Val(b.words)
  {
    hide Val, Pow, At;
    PreparedFacts(a, b);
    var p := Prepared(a, b);
    ShiftedBounds(b.words, p.scale - b.scale, |p.words|);
    ValBound(p.words);
    if |p.words| > p.scale {
      TopWord(p.words);
    }
  }

  /** wb, whose lowest word belongs at off, lies within n words; its top word counts. */
  lemma ShiftedBounds(wb: seq<int>, off: nat, n: nat)
    requires AreWords(wb) && off + |wb| <= n
    ensures 0 <= Pow(BASE, off) * Val(wb) < Pow(BASE, n)
    ensures wb != [] && wb[|wb| - 1] != 0 ==> Pow(BASE, off + |wb| - 1) <= Pow(BASE, off) * Val(wb)
  {
    hide Val, Pow;
    ValBound(wb);
    PowPositive(BASE, off);
    MulLe(0, Val(wb), Pow(BASE, off));
    MulLess(Val(wb), Pow(BASE, |wb|), Pow(BASE, off));
    PowAdd(BASE, off, |wb|);
    PowMonoExp(BASE, off + |wb|, n);
    if wb != [] && wb[|wb| - 1] != 0 {
      TopWord(wb);
      PowAdd(BASE, off, |wb| - 1);
      MulLe(Pow(BASE, |wb| - 1), Val(wb), Pow(BASE, off));
    }
  }

  /** The magnitude of a grows by that of wb, whose lowest word belongs at off. */
  method AddWords(a: Number, off: nat, wb: seq<int>)
    requires off + |wb| <= a.words.Length && AreWords(a.words[..]) && AreWords(wb)
    modifies a`words, a.words
    ensures AreWords(a.words[..]) && Val(a.words[..]) == old(Val(a.words[..])) + Pow(BASE, off) * Val(wb)
    ensures fresh(a.words) || a.words == old(a.words)
    ensures a.words.Length == old(a.words.Length)
      || (a.words.Length == old(a.words.Length) + 1 && a.words[a.words.Length - 1] == 1)
  {
    hide Val, Pow;
    ghost var was := a.words[..];
    var carry := Add(a.words, off, wb);
    ghost var now := a.words[..];
    assert was[..off] == now[..off] && now[off..] == a.words[off..];
    Raised(was, now, off, Val(wb), if carry then 1 else 0);
    if carry {
      ValSnoc(now, 1);
      a.PushWord(1);
    }
  }

  /** The words from off up have grown by v, and c has been carried out. */
  lemma Raised(was: seq<int>, now: seq<int>, off: nat, v: int, c: int)
    requires off <= |was| == |now| && was[..off] == now[..off]
    requires Val(now[off..]) + c * Pow(BASE, |was| - off) == Val(was[off..]) + v
    ensures Val(now) + c * Pow(BASE, |was|) == Val(was) + Pow(BASE, off) * v
  {
    hide Val, Pow;
    ValSplit(was, off);
    ValSplit(now, off);
    PowAdd(BASE, off, |was| - off);
    RaisedSum(Val(now[off..]), Val(was[off..]), c, Pow(BASE, |was| - off), Pow(BASE, off), v);
  }

  lemma RaisedSum(x: int, y: int, c: int, q: int, p: int, v: int)
    requires x + c * q == y + v
    ensures p * x + c * (p * q) == p * y + p * v
  {
    assert p * (x + c * q) == p * x + p * (c * q);
    assert p * (y + v) == p * y + p * v;
    MulAssoc(p, c, q);
    MulAssoc(c, p, q);
  }

  /** The magnitude of a becomes its difference from that of wb, without zero words on top of the integer part;
      flip tells whether wb was the larger. */
  method SubWords(a: Number, off: nat, wb: seq<int>, sa: nat) returns (flip: bool)
    requires off + |wb| <= a.words.Length && sa <= a.words.Length && AreWords(a.words[..]) && AreWords(wb)
    modifies a`words, a.words
    ensures AreWords(a.words[..]) && (fresh(a.words) || a.words == old(a.words))
    ensures var (x, y) := (old(Val(a.words[..])), Pow(BASE, off) * Val(wb));
      flip == (x < y) && Val(a.words[..]) == if flip then y - x else x - y
    ensures sa <= a.words.Length && (a.words.Length > sa ==> a.words[a.words.Length - 1] != 0)
  {
    hide Val, Pow;
    ghost var was := a.words[..];
    flip := SubRaw(a.words, off, wb);
    ghost var now := a.words[..];
    assert was[..off] == now[..off] && now[off..] == a.words[off..];
    Borrowed(was, now, off, wb, flip);
    if flip { Uncomplement(a.words); }
    TrimInteger(a, sa);
  }

  lemma Borrowed(was: seq<int>, now: seq<int>, off: nat, wb: seq<int>, flip: bool)
    requires off + |wb| <= |was| == |now| && was[..off] == now[..off] && AreWords(was) && AreWords(now) && AreWords(wb)
    requires Val(now[off..]) == Val(was[off..]) - Val(wb) + if flip then Pow(BASE, |was| - off) else 0
    ensures var (x, y) := (Val(was), Pow(BASE, off) * Val(wb));
      flip == (x < y) && Val(now) == if flip then Pow(BASE, |was|) - (y - x) else x - y
    ensures flip ==> Val(now) > 0
  {
    hide Val, Pow;
    Raised(was, now, off, 0 - Val(wb), if flip then -1 else 0);
    MulMinus(Pow(BASE, off), Val(wb));
    ShiftedBounds(wb, off, |was|);
    ValBound(was);
    ValBound(now);
  }

  lemma MulMinus(p: int, v: int)
    ensures p * (0 - v) == 0 - p * v
  {
  }

  /** Zero words on top of the integer part are cut off. */
  method TrimInteger(a: Number, sa: nat)
    requires sa <= a.words.Length && AreWords(a.words[..])
    modifies a`words
    ensures AreWords(a.words[..]) && (fresh(a.words) || a.words == old(a.words))
      && Val(a.words[..]) == old(Val(a.words[..]))
    ensures sa <= a.words.Length && (a.words.Length > sa ==> a.words[a.words.Length - 1] != 0)
  {
    hide Val;
    var n := a.words.Length;
    if n != sa && a.words[n - 1] == 0 {
      ghost var was := a.words[..];
      var nwa := Normalize(a.words, sa, n);
      ValTrimmed(was, nwa);
      a.Reallocate(nwa);
      assert a.words[..] == was[..nwa];
    }
  }

  /** q is p plus or minus b, or b minus p if they are swapped. */
  ghost predicate IsCombined(q: Dec, p: Dec, b: Dec, add: bool, swapped: bool) {
    && p.scale == q.scale && p.scale >= b.scale && Proper(q)
    && var (r, ap, ab) := (At(q, p.scale), At(p, p.scale), At(b, p.scale));
       r == if add then ap + ab else if swapped then ab - ap else ap - ab
  }

  lemma Combined(p: Dec, b: Dec, words: seq<int>, neg: bool, add: bool, swapped: bool)
    requires p.scale >= b.scale && Proper(Dec(neg, words, p.scale))
    requires var (x, y, other) := (Val(p.words), Pow(BASE, p.scale - b.scale) * Val(b.words),
      p.neg != (swapped && !add));
      if (p.neg != b.neg) != add then Val(words) == x + y && neg == other
      else Val(words) == (if x < y then y - x else x - y) && neg == (other != (x < y))
    ensures IsCombined(Dec(neg, words, p.scale), p, b, add, swapped)
  {
    hide Val;
    var (x, y) := (Val(p.words), Pow(BASE, p.scale - b.scale) * Val(b.words));
    AtOwn(p);
    AtOwn(Dec(neg, words, p.scale));
    assert At(b, p.scale) == Sign(b.neg) * y;
    hide At, Pow;
  }

  lemma AtOwn(d: Dec)
    ensures At(d, d.scale) == Sign(d.neg) * Val(d.words)
  {
    assert Pow(BASE, 0) == 1;
  }

  /** The second half of do_add_or_sub(): b is added to r, which is prepared for that, or subtracted from it. */
  method Combine(r: Number, b: Number, add: bool, negate: bool)
    requires r != b && r.words != b.words && r.scale >= b.scale && AreWords(r.words[..]) && Proper(b.Contents())
    requires r.scale <= r.words.Length && r.scale - b.scale + b.words.Length <= r.words.Length
    requires r.words.Length > r.scale ==>
      Pow(BASE, r.words.Length - 1) <= Val(r.words[..]) + Pow(BASE, r.scale - b.scale) * Val(b.words[..])
    requires add ==> !negate
    modifies r`words, r`sign, r.words
    ensures IsCombined(r.Contents(), old(r.Contents()), b.Contents(), add, negate)
    ensures fresh(r.words) || r.words == old(r.words)
  {
    hide Val, Pow, IsCombined;
    ghost var p := r.Contents();
    var sa, sb := r.scale, b.scale;
    var negateResult := negate;
    if (r.sign != b.sign) != add {
      AddWords(r, sa - sb, b.words[..]);
      if r.words.Length > 0 { TopWord(r.words[..]); }
    } else {
      var flip := SubWords(r, sa - sb, b.words[..], sa);
      negateResult := negateResult != flip;
    }
    r.sign := r.sign != negateResult;
    Combined(p, b.Contents(), r.words[..], r.sign, add, negate);
  }

  /** The operands may be exchanged: for an addition always, for a subtraction if the result is negated. */
  lemma CombinedIsSum(r: Dec, a: Dec, b: Dec, add: bool, swapped: bool)
    requires Proper(a) && Proper(b) && |a.words| >= |b.words| && IsCombined(r, Prepared(a, b), b, add, swapped)
    ensures !swapped ==> IsSum(r, a, b, add)
    ensures swapped || add ==> IsSum(r, b, a, add)
  {
    hide Val, Pow, At, Prepared, AreWords, Proper;
    PreparedFacts(a, b);
  }

  /** do_add_or_sub() */
  method DoAddOrSub(first: Number, second: Number, add: bool) returns (r: Number)
    requires Operands(first, second)
    modifies first, second, first.words, second.words
    ensures r.refs == 1 && IsSum(r.Contents(), old(first.Contents()), old(second.Contents()), add)
    ensures Spent(first, second)
  {
    hide Val, Pow, At, Prepared, AreWords, IsSum, IsCombined;
    var a, b := first, second;
    var negateResult := false;
    if a.words.Length < b.words.Length || (a.words.Length == b.words.Length && b.refs == 1) {
      a, b := b, a;
      negateResult := !add;
    }
    ghost var (da, db) := (a.Contents(), b.Contents());
    PreparedFacts(da, db);
    PreparedTop(da, db);
    r := Prepare(a, b);
    Combine(r, b, add, negateResult);
    CombinedIsSum(r.Contents(), da, db, add, negateResult);
    b.Unref();
  }
}
