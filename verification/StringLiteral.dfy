/** String literals: written by the machine (vm.c), read by the lexer (lexer.c) and the parser (parse.c). */
module StringLiteral {
  import opened Common

  type Byte = b: int | 0 <= b < 256

  const QUOTE: Byte := 34
  const BACKSLASH: Byte := 92
  const NEWLINE: Byte := 10

  // ----- Writing -----

  function HexChar(d: int): Byte
    requires 0 <= d < 16
  {
    if d < 10 then 48 + d else 65 + d - 10
  }

  /** The letters after the backslash that stand for one byte each. */
  function Letter(c: Byte): Option<Byte> {
    match c
    case 0 => Some(48)
    case 7 => Some(97)
    case 8 => Some(98)
    case 9 => Some(116)
    case 10 => Some(110)
    case 11 => Some(118)
    case 12 => Some(102)
    case 13 => Some(114)
    case 27 => Some(101)
    case 92 => Some(92)
    case 34 => Some(34)
    case _ => None
  }

  predicate MustEscape(c: Byte) { c < 32 || c == BACKSLASH || c == QUOTE }

  /** write_char_escaped() */
  function EscapedByte(c: Byte): seq<Byte> {
    if Letter(c).Some? then [BACKSLASH, Letter(c).value] else [BACKSLASH, 120, HexChar(c / 16), HexChar(c % 16)]
  }

  function Body(s: seq<Byte>): seq<Byte> {
    if s == [] then [] else (if MustEscape(s[0]) then EscapedByte(s[0]) else [s[0]]) + Body(s[1..])
  }

  function Written(s: seq<Byte>): seq<Byte> { [QUOTE] + Body(s) + [QUOTE] }

  lemma {:induction false} BodyAppend(s: seq<Byte>, t: seq<Byte>)
    ensures Body(s + t) == Body(s) + Body(t)
    decreases |s|
  {
    if s == [] {
      assert s + t == t;
    } else {
      assert (s + t)[1..] == s[1..] + t;
      BodyAppend(s[1..], t);
      Cat3(if MustEscape(s[0]) then EscapedByte(s[0]) else [s[0]], Body(s[1..]), Body(t));
    }
  }

  lemma {:induction false} BodyPlain(s: seq<Byte>)
    requires forall c :: c in s ==> !MustEscape(c)
    ensures Body(s) == s
    decreases |s|
  {
    if s != [] {
      assert s[0] in s && forall c :: c in s[1..] ==> c in s;
      BodyPlain(s[1..]);
      assert [s[0]] + s[1..] == s;
    }
  }

  lemma {:induction false} BodySnoc(s: seq<Byte>, from: nat, i: nat)
    requires from <= i < |s| && MustEscape(s[i]) && forall k :: from <= k < i ==> !MustEscape(s[k])
    ensures Body(s[..i + 1]) == Body(s[..from]) + s[from..i] + EscapedByte(s[i])
  {
    assert s[..i + 1] == s[..from] + (s[from..i] + [s[i]]);
    BodyAppend(s[..from], s[from..i] + [s[i]]);
    BodyAppend(s[from..i], [s[i]]);
    BodyPlain(s[from..i]);
    assert [s[i]][1..] == [] && EscapedByte(s[i]) + [] == EscapedByte(s[i]);
    Cat3(Body(s[..from]), s[from..i], EscapedByte(s[i]));
  }

  lemma {:induction false} BodyRest(s: seq<Byte>, prev: nat)
    requires prev <= |s| && forall k :: prev <= k < |s| ==> !MustEscape(s[k])
    ensures [QUOTE] + Body(s) == if prev == |s| then [QUOTE] + Body(s[..prev])
      else [QUOTE] + Body(s[..prev]) + s[prev..]
  {
    assert s[..prev] + s[prev..] == s;
    BodyAppend(s[..prev], s[prev..]);
    BodyPlain(s[prev..]);
    Cat3([QUOTE], Body(s[..prev]), s[prev..]);
  }

  /** write_string_escaped(): stretches without special bytes are written in one piece. */
  method WriteStringEscaped(s: seq<Byte>) returns (out: seq<Byte>)
    ensures out == Written(s)
  {
    hide Body, EscapedByte, MustEscape;
    out := [QUOTE];
    var prev := 0;
    var i := 0;
    BodyPlain([]);
    assert s[..0] == [] && out == [QUOTE] + [];
    while i != |s|
      invariant prev <= i <= |s| && out == [QUOTE] + Body(s[..prev])
      invariant forall k :: prev <= k < i ==> !MustEscape(s[k])
    {
      if MustEscape(s[i]) {
        BodySnoc(s, prev, i);
        Cat4([QUOTE], Body(s[..prev]), s[prev..i], EscapedByte(s[i]));
        out := out + s[prev..i];
        out := out + EscapedByte(s[i]);
        prev := i + 1;
      }
      i := i + 1;
    }
    BodyRest(s, prev);
    if prev != i { out := out + s[prev..]; }
    out := out + [QUOTE];
  }

  // ----- Lexing -----

  /** How many bytes of s belong to the literal, if s begins behind the opening quote: up to the closing quote, which is
      counted; None if the literal does not end on its line. */
  function Scan(s: seq<Byte>): (n: Option<nat>)
    ensures n.Some? ==> 0 < n.value <= |s| && s[n.value - 1] == QUOTE
    decreases |s|
  {
    if s == [] || s[0] == NEWLINE then None
    else if s[0] == QUOTE then Some(1)
    else
      var k := if s[0] == BACKSLASH then 2 else 1;
      if |s| < k then None else
      var r := Scan(s[k..]);
      if r.None? then None else Some(k + r.value)
  }

  function Plus(n: nat, r: Option<nat>): Option<nat> {
    if r.None? then None else Some(n + r.value)
  }

  /** One round of the scan, whose position is `at`. */
  lemma {:induction false} ScanRound(src: seq<Byte>, at: nat, done: nat)
    requires at <= |src|
    ensures at == |src| || src[at] == NEWLINE ==> Plus(done, Scan(src[at..])) == None
    ensures at < |src| && src[at] == QUOTE ==> Plus(done, Scan(src[at..])) == Some(done + 1)
    ensures at + 1 == |src| && src[at] == BACKSLASH ==> Plus(done, Scan(src[at..])) == None
    ensures at + 1 < |src| && src[at] == BACKSLASH ==>
      Plus(done, Scan(src[at..])) == Plus(done + 2, Scan(src[at + 2..]))
    ensures at < |src| && src[at] != NEWLINE && src[at] != QUOTE && src[at] != BACKSLASH ==>
      Plus(done, Scan(src[at..])) == Plus(done + 1, Scan(src[at + 1..]))
  {
    if at < |src| { assert src[at..][1..] == src[at + 1..]; }
    if at + 1 < |src| { assert src[at..][2..] == src[at + 2..]; }
  }

  class Lexer {
    const src: seq<Byte>
    var cur: nat

    constructor (src: seq<Byte>)
      ensures this.src == src && cur == 0
    {
      this.src, cur := src, 0;
    }

    /** string(): `cur` is at the opening quote; afterwards it is behind the literal. */
    method String() returns (lexeme: Option<seq<Byte>>)
      requires cur < |src| && src[cur] == QUOTE
      modifies this
      ensures var r := Scan(src[old(cur) + 1..]);
        && (lexeme.Some? <==> r.Some?)
        && (r.Some? ==> cur == old(cur) + 1 + r.value && lexeme == Some(src[old(cur)..cur]))
    {
      hide Scan;
      var start := cur;
      ghost var done: nat := 0;
      assert Plus(0, Scan(src[start + 1..])) == Scan(src[start + 1..]);
      while true
        invariant start <= cur < |src| && cur == start + done
        invariant Scan(src[start + 1..]) == Plus(done, Scan(src[cur + 1..]))
        decreases |src| - cur
      {
        cur := cur + 1;
        ScanRound(src, cur, done);
        if cur == |src| { return None; }
        if src[cur] == QUOTE {
          cur := cur + 1;
          return Some(src[start..cur]);
        } else if src[cur] == BACKSLASH {
          cur := cur + 1;
          if cur == |src| { return None; }
          done := done + 2;
        } else if src[cur] == NEWLINE {
          return None;
        } else {
          done := done + 1;
        }
      }
    }
  }

  // ----- Unescaping -----

  function HexDigit(c: Byte): Option<int> {
    if 48 <= c <= 57 then Some(c - 48)
    else if 97 <= c <= 102 then Some(c - 97 + 10)
    else if 65 <= c <= 70 then Some(c - 65 + 10)
    else None
  }

  /** The byte that a letter after a backslash stands for, except for `x`. */
  function Meaning(c: Byte): Option<Byte> {
    match c
    case 92 => Some(92)
    case 97 => Some(7)
    case 98 => Some(8)
    case 101 => Some(27)
    case 102 => Some(12)
    case 110 => Some(10)
    case 114 => Some(13)
    case 116 => Some(9)
    case 118 => Some(11)
    case 34 => Some(34)
    case 48 => Some(0)
    case _ => None
  }

  /** The escape behind a backslash: the byte and the length of the escape. */
  function Unescape1(s: seq<Byte>): (r: Option<(Byte, nat)>)
    requires s != []
    ensures r.Some? ==> 1 <= r.value.1 <= |s|
  {
    if s[0] != 120 then
      if Meaning(s[0]).Some? then Some((Meaning(s[0]).value, 1)) else None
    else if |s| >= 3 && HexDigit(s[1]).Some? && HexDigit(s[2]).Some? then
      Some((HexDigit(s[1]).value * 16 + HexDigit(s[2]).value, 3))
    else None
  }

  /** The value of the text between the quotes; None for an invalid escape. */
  function Value(s: seq<Byte>): Option<seq<Byte>>
    decreases |s|
  {
    if s == [] then Some([])
    else if s[0] != BACKSLASH then
      var r := Value(s[1..]);
      if r.None? then None else Some([s[0]] + r.value)
    else if |s| < 2 then None
    else
      var e := Unescape1(s[1..]);
      if e.None? then None else
      var r := Value(s[1 + e.value.1..]);
      if r.None? then None else Some([e.value.0] + r.value)
  }

  /** add_string_const() for the token with its quotes; false for an invalid escape. */
  method AddStringConst(token: seq<Byte>) returns (s: seq<Byte>, ok: bool)
    requires |token| >= 2 && token[0] == QUOTE && Scan(token[1..]) == Some(|token| - 1)
    ensures ok <==> Value(token[1..|token| - 1]).Some?
    ensures ok ==> Some(s) == Value(token[1..|token| - 1])
  {
    hide Scan, Value, Unescape1;
    var ptr := 1;
    var end := |token| - 1;
    s := [];
    ghost var all := Value(token[1..end]);
    assert Prefix([], all) == all by { if all.Some? { assert [] + all.value == all.value; } }
    while ptr != end
      invariant 1 <= ptr <= end && all == Prefix(s, Value(token[ptr..end]))
      decreases end - ptr
    {
      ghost var (from, s0) := (ptr, s);
      var esc := ptr;
      while esc != end && token[esc] != BACKSLASH
        invariant from <= esc <= end && forall k :: from <= k < esc ==> token[k] != BACKSLASH
      {
        esc := esc + 1;
      }
      PlainPiece(token, from, esc, end, s);
      s := s + token[ptr..esc];
      ValueRound(token, esc, end, s);
      if esc == end { return s, true; }
      esc := esc + 1;
      if esc == end { return s, false; }
      var e := Unescape1(token[esc..end]);
      if e.None? { return s, false; }
      s := s + [e.value.0];
      ptr := esc + e.value.1;
    }
    ValueRound(token, ptr, end, s);
    ok := true;
  }

  function Prefix(s: seq<Byte>, r: Option<seq<Byte>>): Option<seq<Byte>> {
    if r.None? then None else Some(s + r.value)
  }

  lemma {:induction false} PlainPiece(token: seq<Byte>, from: nat, esc: nat, end: nat, s: seq<Byte>)
    requires from <= esc <= end <= |token| && forall k :: from <= k < esc ==> token[k] != BACKSLASH
    ensures Prefix(s, Value(token[from..end])) == Prefix(s + token[from..esc], Value(token[esc..end]))
  {
    PlainValue(token[from..end], esc - from);
    assert token[from..end][..esc - from] == token[from..esc] && token[from..end][esc - from..] == token[esc..end];
    var r := Value(token[esc..end]);
    if r.Some? { Cat3(s, token[from..esc], r.value); }
  }

  /** At a backslash or at the end. */
  lemma {:induction false} ValueRound(token: seq<Byte>, at: nat, end: nat, s: seq<Byte>)
    requires at <= end <= |token| && (at == end || token[at] == BACKSLASH)
    ensures at == end ==> Prefix(s, Value(token[at..end])) == Some(s)
    ensures at + 1 == end ==> Prefix(s, Value(token[at..end])) == None
    ensures at + 1 < end ==> var e := Unescape1(token[at + 1..end]);
      Prefix(s, Value(token[at..end])) == if e.None? then None
        else Prefix(s + [e.value.0], Value(token[at + 1 + e.value.1..end]))
  {
    hide Value, Unescape1;
    var t := token[at..end];
    NextValue(t);
    if at == end {
      assert t == [] && s + [] == s;
    } else if at + 1 < end {
      assert t[0] == token[at] && t[1..] == token[at + 1..end];
      var e := Unescape1(token[at + 1..end]);
      if e.Some? {
        assert t[1 + e.value.1..] == token[at + 1 + e.value.1..end];
        var r := Value(token[at + 1 + e.value.1..end]);
        if r.Some? { Cat3(s, [e.value.0], r.value); }
      }
    }
  }

  lemma NextValue(t: seq<Byte>)
    requires t == [] || t[0] == BACKSLASH
    ensures t == [] ==> Value(t) == Some([])
    ensures |t| == 1 ==> Value(t) == None
    ensures |t| > 1 ==> var e := Unescape1(t[1..]);
      Value(t) == if e.None? then None else
      var r := Value(t[1 + e.value.1..]);
      if r.None? then None else Some([e.value.0] + r.value)
  {
    hide Unescape1;
  }

  lemma {:induction false} PlainValue(s: seq<Byte>, n: nat)
    requires n <= |s| && forall k :: 0 <= k < n ==> s[k] != BACKSLASH
    ensures Value(s) == var r := Value(s[n..]); if r.None? then None else Some(s[..n] + r.value)
    decreases n
  {
    if n == 0 {
      var r := Value(s);
      if r.Some? { assert s[..0] + r.value == r.value; }
    } else {
      PlainValue(s[1..], n - 1);
      assert s[1..][n - 1..] == s[n..] && [s[0]] + s[1..][..n - 1] == s[..n];
      var r := Value(s[n..]);
      if r.Some? { Cat3([s[0]], s[1..][..n - 1], r.value); }
    }
  }

  // ----- Round trip -----

  lemma {:induction false} EscapeBack(c: Byte, rest: seq<Byte>)
    requires MustEscape(c)
    ensures var t := EscapedByte(c) + rest;
      && t[0] == BACKSLASH && |t| >= 2
      && Unescape1(t[1..]) == Some((c, |EscapedByte(c)| - 1)) && t[1 + (|EscapedByte(c)| - 1)..] == rest
  {
    var t := EscapedByte(c) + rest;
    if Letter(c).None? {
      HexBack(c / 16);
      HexBack(c % 16);
      assert t[1] == 120 && t[2] == HexChar(c / 16) && t[3] == HexChar(c % 16);
    }
  }

  lemma HexBack(d: int)
    requires 0 <= d < 16
    ensures HexDigit(HexChar(d)) == Some(d)
  {
  }

  lemma {:induction false} ValueOfBody(s: seq<Byte>)
    ensures Value(Body(s)) == Some(s)
    decreases |s|
  {
    if s != [] {
      ValueOfBody(s[1..]);
      var b := Body(s[1..]);
      if MustEscape(s[0]) {
        EscapeBack(s[0], b);
      } else {
        assert ([s[0]] + b)[1..] == b;
      }
      assert [s[0]] + s[1..] == s;
    }
  }

  lemma ScanPlain(c: Byte, rest: seq<Byte>)
    requires c != QUOTE && c != BACKSLASH && c != NEWLINE
    ensures Scan([c] + rest) == Plus(1, Scan(rest))
  {
    assert ([c] + rest)[1..] == rest;
  }

  lemma ScanClose(rest: seq<Byte>)
    ensures Scan([QUOTE] + rest) == Some(1)
  {
  }

  lemma ScanPair(c: Byte, rest: seq<Byte>)
    ensures Scan([BACKSLASH, c] + rest) == Plus(2, Scan(rest))
  {
    assert ([BACKSLASH, c] + rest)[2..] == rest;
  }

  lemma {:induction false} ScanEscape(c: Byte, rest: seq<Byte>)
    requires MustEscape(c)
    ensures Scan(EscapedByte(c) + rest) == Plus(|EscapedByte(c)|, Scan(rest))
  {
    hide Scan, MustEscape, Letter;
    if Letter(c).Some? {
      ScanPair(Letter(c).value, rest);
    } else {
      var (hi, lo) := (HexChar(c / 16), HexChar(c % 16));
      assert EscapedByte(c) + rest == [BACKSLASH, 120] + ([hi] + ([lo] + rest));
      ScanPlain(lo, rest);
      ScanPlain(hi, [lo] + rest);
      ScanPair(120, [hi] + ([lo] + rest));
    }
  }

  lemma {:induction false} ScanBody(s: seq<Byte>, rest: seq<Byte>)
    ensures Scan(Body(s) + ([QUOTE] + rest)) == Some(|Body(s)| + 1)
    decreases |s|
  {
    hide Scan, EscapedByte;
    var tail := [QUOTE] + rest;
    if s == [] {
      assert [] + tail == tail;
      ScanClose(rest);
    } else {
      ScanBody(s[1..], rest);
      var (x, b) := (if MustEscape(s[0]) then EscapedByte(s[0]) else [s[0]], Body(s[1..]));
      Cat3(x, b, tail);
      if MustEscape(s[0]) {
        ScanEscape(s[0], b + tail);
      } else {
        ScanPlain(s[0], b + tail);
      }
    }
  }

  /** For every byte string, whatever follows the text that is written for it: the lexer takes exactly that text as one
      literal, and its value is the original string. */
  lemma {:induction false} RoundTrip(s: seq<Byte>, rest: seq<Byte>)
    ensures var t := Written(s) + rest;
      && t[0] == QUOTE && Scan(t[1..]) == Some(|Written(s)| - 1)
      && t[..|Written(s)|] == Written(s) && Written(s)[1..|Written(s)| - 1] == Body(s) && Value(Body(s)) == Some(s)
  {
    assert (Written(s) + rest)[1..] == Body(s) + ([QUOTE] + rest);
    ScanBody(s, rest);
    ValueOfBody(s);
  }

  // ----- The escapes, written out -----

  const LOWER_HEX := "0123456789abcdef"
  const UPPER_HEX := "0123456789ABCDEF"

  /** c is the digit h in lower or upper case. */
  predicate IsHex(c: Byte, h: int) { 0 <= h < 16 && (c == LOWER_HEX[h] as int || c == UPPER_HEX[h] as int) }

  lemma HexDigitIs(c: Byte)
    ensures HexDigit(c) == None ==> forall h :: !IsHex(c, h)
    ensures forall h :: IsHex(c, h) ==> 0 <= h < 16 && HexDigit(c) == Some(h)
    ensures HexDigit(c).Some? ==> IsHex(c, HexDigit(c).value)
  {
    assert forall h: nat :: h < 16 ==> LOWER_HEX[h] as int == (if h < 10 then 48 + h else 87 + h);
    assert forall h: nat :: h < 16 ==> UPPER_HEX[h] as int == (if h < 10 then 48 + h else 55 + h);
  }

  /** `\x` and two hexadecimal digits, whatever their case, are one byte; with anything else it is an error. */
  lemma HexEscape(c1: Byte, c2: Byte, h: int, l: int, rest: seq<Byte>)
    ensures IsHex(c1, h) && IsHex(c2, l) ==>
      0 <= 16 * h + l < 256 && Value([BACKSLASH, 120, c1, c2] + rest) == Prefix([16 * h + l], Value(rest))
    ensures (forall h :: !IsHex(c1, h)) || (forall l :: !IsHex(c2, l)) ==>
      Value([BACKSLASH, 120, c1, c2] + rest) == None
    ensures Value([BACKSLASH, 120, c1]) == None && Value([BACKSLASH, 120]) == None
  {
    HexDigitIs(c1);
    HexDigitIs(c2);
    hide IsHex, HexDigit, Value;
    var t := [BACKSLASH, 120, c1, c2] + rest;
    NextValue(t);
    NextValue([BACKSLASH, 120, c1]);
    NextValue([BACKSLASH, 120]);
    assert t[1..][0] == 120 && t[1..][1] == c1 && t[1..][2] == c2 && t[4..] == rest;
  }

  /** The other escapes, and the bytes that they stand for. */
  const ESCAPES: seq<(char, Byte)> := [
    ('\\', 92), ('a', 7), ('b', 8), ('e', 27), ('f', 12), ('n', 10), ('r', 13), ('t', 9), ('v', 11), ('\"', 34),
      ('0', 0)]

  lemma LetterEscape(c: Byte, rest: seq<Byte>)
    ensures forall i :: 0 <= i < |ESCAPES| && c == ESCAPES[i].0 as int ==>
      Value([BACKSLASH, c] + rest) == Prefix([ESCAPES[i].1], Value(rest))
    ensures (forall i :: 0 <= i < |ESCAPES| ==> c != ESCAPES[i].0 as int) && c != 120 ==>
      Value([BACKSLASH, c] + rest) == None
    ensures c != BACKSLASH ==> Value([c] + rest) == Prefix([c], Value(rest))
  {
    EscapesAre(c);
    var t := [BACKSLASH, c] + rest;
    assert t[1..][0] == c && t[2..] == rest && ([c] + rest)[1..] == rest;
    hide Meaning, ESCAPES;
    NextValue(t);
  }

  lemma EscapesAre(c: Byte)
    ensures forall i :: 0 <= i < |ESCAPES| && c == ESCAPES[i].0 as int ==> c != 120 && Meaning(c) == Some(ESCAPES[i].1)
    ensures (forall i :: 0 <= i < |ESCAPES| ==> c != ESCAPES[i].0 as int) ==> Meaning(c) == None
  {
    if Meaning(c).Some? {
      assert exists i :: 0 <= i < |ESCAPES| && c == ESCAPES[i].0 as int by {
        assert ESCAPES[0].0 as int == 92 && ESCAPES[1].0 as int == 97 && ESCAPES[2].0 as int == 98;
        assert ESCAPES[3].0 as int == 101 && ESCAPES[4].0 as int == 102 && ESCAPES[5].0 as int == 110;
        assert ESCAPES[6].0 as int == 114 && ESCAPES[7].0 as int == 116 && ESCAPES[8].0 as int == 118;
        assert ESCAPES[9].0 as int == 34 && ESCAPES[10].0 as int == 48;
      }
    }
  }

  /** What is written for one byte: itself, a letter behind a backslash, or two upper-case hexadecimal digits. */
  lemma WrittenByte(c: Byte)
    ensures c >= 32 && c != 34 && c != 92 ==> Body([c]) == [c]
    ensures forall i :: 0 <= i < |ESCAPES| && c == ESCAPES[i].1 ==> Body([c]) == [BACKSLASH, ESCAPES[i].0 as int]
    ensures c < 32 && (forall i :: 0 <= i < |ESCAPES| ==> c != ESCAPES[i].1) ==>
      Body([c]) == [BACKSLASH, 120, UPPER_HEX[c / 16] as int, UPPER_HEX[c % 16] as int]
  {
    assert [c][1..] == [] && Body([]) == [];
    LettersAre(c);
    assert forall h: nat :: h < 16 ==> UPPER_HEX[h] as int == (if h < 10 then 48 + h else 55 + h);
    hide Letter, ESCAPES;
    assert Body([c]) == (if MustEscape(c) then EscapedByte(c) else [c]) + [];
  }

  lemma LettersAre(c: Byte)
    ensures forall i :: 0 <= i < |ESCAPES| && c == ESCAPES[i].1 ==>
      MustEscape(c) && Letter(c) == Some(ESCAPES[i].0 as int)
    ensures (forall i :: 0 <= i < |ESCAPES| ==> c != ESCAPES[i].1) ==> Letter(c) == None
  {
    if Letter(c).Some? {
      assert exists i :: 0 <= i < |ESCAPES| && c == ESCAPES[i].1 by {
        assert ESCAPES[0].1 == 92 && ESCAPES[1].1 == 7 && ESCAPES[2].1 == 8 && ESCAPES[3].1 == 27;
        assert ESCAPES[4].1 == 12 && ESCAPES[5].1 == 10 && ESCAPES[6].1 == 13 && ESCAPES[7].1 == 9;
        assert ESCAPES[8].1 == 11 && ESCAPES[9].1 == 34 && ESCAPES[10].1 == 0;
      }
    }
  }

  /** Where a literal ends: at the first quote that no backslash precedes; not behind the end of its line. */
  lemma LiteralEnds(c: Byte, d: Byte, rest: seq<Byte>)
    ensures Scan([34] + rest) == Some(1) && Scan([10] + rest) == None && Scan([]) == None && Scan([92]) == None
    ensures Scan([92, d] + rest) == Plus(2, Scan(rest))
    ensures c != 34 && c != 10 && c != 92 ==> Scan([c] + rest) == Plus(1, Scan(rest))
  {
    ScanEmpty();
    ScanPair(d, rest);
    ScanClose(rest);
    if c != 34 && c != 10 && c != 92 { ScanPlain(c, rest); }
  }

  lemma ScanEmpty()
    ensures Scan([]) == None && Scan([92]) == None && forall rest: seq<Byte> :: Scan([10] + rest) == None
  {
  }
}
