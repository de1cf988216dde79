/** Arbitrary-precision decimal numbers: their representation and the functions that copy them on write (number.h,
    number.c). */
module Numbers {
  import opened Powers
  import opened Words

  // ----- Values -----

  /** The contents of a number: the words of its fraction, then those of its integer part, lowest first. */
  datatype Dec = Dec(neg: bool, words: seq<int>, scale: nat)

  /** The invariants at number.h:14-16: the fraction fits, and the integer part has no zero word on top. */
  ghost predicate Proper(d: Dec) {
    && d.scale <= |d.words| && AreWords(d.words)
    && (|d.words| > d.scale ==> d.words[|d.words| - 1] != 0)
  }

  function Sign(neg: bool): int { if neg then -1 else 1 }

  /** d times BASE^s. */
  ghost function At(d: Dec, s: int): int
    requires d.scale <= s
  {
    Sign(d.neg) * (Val(d.words) * Pow(BASE, s - d.scale))
  }

  ghost function ScaledUp(d: Dec, s: nat): Dec
    requires d.scale <= s
  {
    Dec(d.neg, Zeros(s - d.scale) + d.words, s)
  }

  ghost function Extended(d: Dec, n: nat): Dec
    requires |d.words| <= n
  {
    d.(words := d.words + Zeros(n - |d.words|))
  }

  /** Zero words at the bottom of the fraction do not change the value. */
  lemma ScaledUpAt(d: Dec, t: nat, s: int)
    requires d.scale <= t <= s
    ensures At(ScaledUp(d, t), s) == At(d, s)
  {
    var n := t - d.scale;
    ValAppend(Zeros(n), d.words);
    ValZeros(n);
    PowAdd(BASE, n, s - t);
    var (v, p, q) := (Val(d.words), Pow(BASE, n), Pow(BASE, s - t));
    hide Val, Pow;
    assert (p * v) * q == v * (p * q) by { MulAssoc(v, p, q); }
  }

  /** Nor do zero words on top. */
  lemma ExtendedAt(d: Dec, n: nat, s: int)
    requires d.scale <= s && |d.words| <= n
    ensures At(Extended(d, n), s) == At(d, s)
  {
    ValPadded(d.words, n - |d.words|);
  }

  // ----- Objects -----

  class Number {
    var refs: nat
    var sign: bool
    var scale: nat
    var words: array<int>

    /** allocate() */
    constructor (sign: bool, nwords: nat, scale: nat)
      ensures refs == 1 && this.sign == sign && this.scale == scale && fresh(words) && words.Length == nwords
      ensures words[..] == Zeros(nwords)
    {
      this.refs, this.sign, this.scale := 1, sign, scale;
      this.words := new int[nwords](_ => 0);
    }

    ghost function Contents(): Dec
      reads this, words
    {
      Dec(sign, words[..], scale)
    }

    ghost predicate Valid()
      reads this, words
    {
      refs > 0 && Proper(Contents())
    }

    /** unsafe_reallocate() */
    method Reallocate(nwords: nat)
      modifies `words
      ensures fresh(words) && words.Length == nwords
      ensures forall i :: 0 <= i < nwords && i < old(words.Length) ==> words[i] == old(words[i])
      ensures forall i :: old(words.Length) <= i < nwords ==> words[i] == 0
    {
      var was := words;
      words := new int[nwords](i requires 0 <= i reads was => if i < was.Length then was[i] else 0);
    }

    /** unsafe_push_word() */
    method PushWord(w: int)
      modifies `words
      ensures fresh(words) && words[..] == old(words[..]) + [w]
    {
      var n := words.Length;
      Reallocate(n + 1);
      words[n] := w;
    }

    /** value_unref(), but that a dead number stays where it is. */
    method Unref()
      requires refs > 0
      modifies `refs
      ensures refs == old(refs) - 1
    {
      refs := refs - 1;
    }
  }

  /** One reference to a has been given up for the only reference to r: whoever else refers to a sees what was there. */
  twostate predicate Traded(a: Number, new r: Number)
    reads a, a.words, r
  {
    && r.refs == 1
    && (if r == a then old(a.refs) == 1 && (fresh(r.words) || r.words == old(a.words)) else fresh(r) && fresh(r.words))
    && (old(a.refs) > 1 ==> a.refs == old(a.refs) - 1 && a.words == old(a.words) && a.Contents() == old(a.Contents()))
  }

  /** mkuniq() */
  method Mkuniq(a: Number) returns (r: Number)
    requires a.refs > 0
    modifies a`refs
    ensures Traded(a, r) && r.Contents() == old(a.Contents())
  {
    if a.refs == 1 { return a; }
    r := new Number(a.sign, a.words.Length, a.scale);
    forall i | 0 <= i < a.words.Length { r.words[i] := a.words[i]; }
    a.Unref();
  }

  method CopyAbove(src: array<int>, dst: array<int>, d: nat)
    requires src != dst && dst.Length == d + src.Length && dst[..] == Zeros(d + src.Length)
    modifies dst
    ensures dst[..] == Zeros(d) + src[..]
  {
    forall i | 0 <= i < src.Length { dst[d + i] := src[i]; }
  }

  /** mkuniq_scale_up() */
  method MkuniqScaleUp(a: Number, sr: nat) returns (r: Number)
    requires a.refs > 0 && a.scale <= sr && a.scale <= a.words.Length
    modifies a`refs
    ensures Traded(a, r) && r.Contents() == ScaledUp(old(a.Contents()), sr)
  {
    var sa := a.scale;
    ghost var was := a.words[..];
    assert Zeros(0) + was == was;
    if a.refs == 1 && sa == sr { return a; }
    var nintpart := a.words.Length - sa;
    r := new Number(a.sign, nintpart + sr, sr);
    var d := sr - sa;
    CopyAbove(a.words, r.words, d);
    a.Unref();
  }

  /** mkuniq_extend() */
  method MkuniqExtend(a: Number, n: nat) returns (r: Number)
    requires a.refs > 0 && a.words.Length <= n
    modifies a`refs, a`words
    ensures Traded(a, r) && r.Contents() == Extended(old(a.Contents()), n)
  {
    var nwa := a.words.Length;
    if a.refs == 1 {
      if nwa != n { a.Reallocate(n); }
      return a;
    }
    r := new Number(a.sign, n, a.scale);
    forall i | 0 <= i < nwa { r.words[i] := a.words[i]; }
    a.Unref();
  }
}
