/** Patching the open jumps of a control structure gives the code of the structure. */
module Backpatch {
  import opened Common
  import opened Bytecode
  import opened Syntax
  import opened Codegen
  import opened Patching

  /** fixup_jump() */
  function Fixed(prog: seq<Instr>, from: int, to: int): (r: seq<Instr>)
    requires 0 <= from < |prog| && (prog[from].Jump? || prog[from].JumpUnless?)
    ensures |r| == |prog|
  {
    prog[from := if prog[from].Jump? then Jump(Encode(to - from)) else JumpUnless(Encode(to - from))]
  }

  // ----- if -----

  lemma {:induction false} FixClause(c: Clause, f: seq<string>, tg: Targets, pre: seq<Instr>, post: seq<Instr>,
      skip: int)
    ensures var (open, from) := (pre + CodeClause(c, f, tg, 0) + post, |pre| + |CodeE(c.cond)|);
      && from < |open| && open[from] == JumpUnless(0)
      && Fixed(open, from, from + skip) == pre + CodeClause(c, f, tg, skip) + post
  {
    var (e, n) := (CodeE(c.cond), |CodeE(c.cond)|);
    var body := CodeB(c.blk, f, tg.Shift(n + 1));
    assert CodeClause(c, f, tg, 0) == e + [JumpUnless(0)] + body;
    assert CodeClause(c, f, tg, skip) == e + [JumpUnless(Encode(skip))] + body;
    FixAt(pre + e, JumpUnless(0), JumpUnless(Encode(skip)), body + post);
    Cat5(pre, e, [JumpUnless(0)], body, post);
    Cat4(e, [JumpUnless(0)], body, post);
    assert pre + CodeClause(c, f, tg, 0) + post == pre + e + [JumpUnless(0)] + (body + post);
    assert pre + CodeClause(c, f, tg, skip) + post == pre + e + [JumpUnless(Encode(skip))] + (body + post);
  }

  lemma {:induction false} FixAt(pre: seq<Instr>, i: Instr, j: Instr, post: seq<Instr>)
    ensures (pre + [i] + post)[|pre|] == i && (pre + [i] + post)[|pre| := j] == pre + [j] + post
  {
  }

  /** The arms parsed so far, with the jump after the last one and its conditional jump patched. */
  lemma {:induction false} CloseArm(cs: seq<Clause>, f: seq<string>, pre: seq<Instr>)
    requires cs != []
    ensures var (init, c) := (cs[..|cs| - 1], cs[|cs| - 1]);
      var from := |pre| + LenArms(init) + |CodeE(c.cond)|;
      var open := pre + CodeInit(cs, f, NO_TARGETS, None, 0) + [Jump(0)];
      && from < |open| && open[from] == JumpUnless(0)
      && Fixed(open, from, |open|) == pre + CodeArms(cs, f, NO_TARGETS, None)
  {
    hide CodeArms, LenArms, CodeClause, Fixed;
    var (init, c) := (cs[..|cs| - 1], cs[|cs| - 1]);
    var a := CodeArms(init, f, NO_TARGETS, None);
    FixClause(c, f, NO_TARGETS, pre + a, [Jump(0)], LenB(c.blk) + 2);
    Cat3(pre, a, CodeClause(c, f, NO_TARGETS, 0));
    Cat4(pre, a, CodeClause(c, f, NO_TARGETS, LenB(c.blk) + 2), [Jump(0)]);
    LastArm(init, c, cs, f, NO_TARGETS, None);
  }

  lemma {:induction false} FinishIf(cs: seq<Clause>, f: seq<string>, pre: seq<Instr>)
    requires cs != []
    ensures var (init, c) := (cs[..|cs| - 1], cs[|cs| - 1]);
      var from := |pre| + LenArms(init) + |CodeE(c.cond)|;
      var open := pre + CodeInit(cs, f, NO_TARGETS, None, 0);
      && from < |open| && open[from] == JumpUnless(0)
      && Patched(Fixed(open, from, |open|), EndJumps(init, |pre|), |open|)
         == pre + CodeClauses(cs, f, NO_TARGETS, Some(LenClauses(cs)), false)
  {
    hide CodeArms, LenArms, CodeClause, Closes, Fixed, Patched, EndJumps, LenB;
    var (init, c) := (cs[..|cs| - 1], cs[|cs| - 1]);
    var n := LenClauses(cs);
    var (a, a') := (CodeArms(init, f, NO_TARGETS, None), CodeArms(init, f, NO_TARGETS, Some(n)));
    ClosesEndArms(init, f, NO_TARGETS, n, |pre|);
    FinishArms(c, f, pre, a, a', EndJumps(init, |pre|), n);
  }

  lemma {:induction false} FinishArms(
      c: Clause, f: seq<string>, pre: seq<Instr>, a: seq<Instr>, a': seq<Instr>, ends: seq<int>, n: int)
    requires Closes(a, a', ends, |pre|, n) && n == |a| + LenClause(c)
    ensures forall tg: Targets :: tg == NO_TARGETS.Shift(|a|) ==>
      var from := |pre| + |a| + |CodeE(c.cond)|;
      var open := pre + (a + CodeClause(c, f, tg, 0));
      && from < |open| && open[from] == JumpUnless(0)
      && Patched(Fixed(open, from, |open|), ends, |open|) == pre + (a' + CodeClause(c, f, tg, LenB(c.blk) + 1))
  {
    var (open, b) := (CodeClause(c, f, NO_TARGETS, 0), CodeClause(c, f, NO_TARGETS, LenB(c.blk) + 1));
    FixClause(c, f, NO_TARGETS, pre + a, [], LenB(c.blk) + 1);
    Cat3(pre, a, open);
    Cat3(pre, a', b);
    assert pre + a + open + [] == pre + a + open && pre + a + b + [] == pre + a + b;
    PatchedSegment(pre, a, a', b, ends, |pre| + n);
  }

  lemma {:induction false} FinishElse(cs: seq<Clause>, f: seq<string>, pre: seq<Instr>, b: seq<Instr>)
    ensures var (n, open) := (LenArms(cs) + |b|, pre + (CodeArms(cs, f, NO_TARGETS, None) + b));
      Patched(open, EndJumps(cs, |pre|), |open|) == pre + (CodeArms(cs, f, NO_TARGETS, Some(n)) + b)
  {
    hide CodeArms, LenArms, EndJumps, Closes, Patched;
    var n := LenArms(cs) + |b|;
    ClosesEndArms(cs, f, NO_TARGETS, n, |pre|);
    PatchedHead(pre, CodeArms(cs, f, NO_TARGETS, None), CodeArms(cs, f, NO_TARGETS, Some(n)), b, EndJumps(cs, |pre|),
      n);
  }

  lemma {:induction false} PatchedHead(
      pre: seq<Instr>, a: seq<Instr>, a': seq<Instr>, b: seq<Instr>, ps: seq<int>, n: int)
    requires Closes(a, a', ps, |pre|, n)
    ensures Patched(pre + (a + b), ps, |pre| + n) == pre + (a' + b)
  {
    PatchedSegment(pre, a, a', b, ps, |pre| + n);
    Cat3(pre, a, b);
    Cat3(pre, a', b);
  }

  // ----- The positions on the stacks are positions of jumps -----

  predicate AllJumps(prog: seq<Instr>, ps: seq<int>) {
    forall p :: p in ps ==> 0 <= p < |prog| && prog[p].Jump?
  }

  lemma {:induction false} OpenAreJumps(pre: seq<Instr>, open: seq<Instr>, closed: seq<Instr>, post: seq<Instr>,
      ps: seq<int>, at: int, t: int)
    requires at == |pre| && Closes(open, closed, ps, at, t)
    ensures AllJumps(pre + open + post, ps)
  {
    forall p | p in ps ensures 0 <= p < |pre + open + post| && (pre + open + post)[p].Jump? {
      assert closed[p - at] == Jump(Encode(t - (p - at))) && open[p - at] == Jump(0);
    }
  }

  lemma {:induction false} PendAreJumps(pre: seq<Instr>, b: seq<Stmt>, f: seq<string>, post: seq<Instr>, k: Loop,
      at: int)
    requires at == |pre|
    ensures AllJumps(pre + CodeB(b, f, NO_TARGETS) + post, PendB(b, at, k))
  {
    ClosesB(b, f, NO_TARGETS, k, 0, at);
    OpenAreJumps(pre, CodeB(b, f, NO_TARGETS), CodeB(b, f, NO_TARGETS.With(k, 0)), post, PendB(b, at, k), at, 0);
  }

  lemma {:induction false} EndsAreJumps(pre: seq<Instr>, cs: seq<Clause>, f: seq<string>, post: seq<Instr>, at: int)
    requires at == |pre|
    ensures AllJumps(pre + CodeArms(cs, f, NO_TARGETS, None) + post, EndJumps(cs, at))
  {
    ClosesEndArms(cs, f, NO_TARGETS, 0, at);
    OpenAreJumps(pre, CodeArms(cs, f, NO_TARGETS, None), CodeArms(cs, f, NO_TARGETS, Some(0)), post, EndJumps(cs, at),
      at, 0);
  }

  // ----- while and for -----

  /** Patching the breaks and continues of a loop body that stands between a and z. */
  lemma {:induction false} CloseBody(
      a: seq<Instr>, b: seq<Instr>, b': seq<Instr>, b'': seq<Instr>, ps: seq<int>, qs: seq<int>, z: seq<Instr>,
      at: int, brk: int, cnt: int)
    requires at == |a| && Closes(b, b', ps, at, brk) && Closes(b', b'', qs, at, cnt)
    ensures Patched(Patched(a + b + z, ps, at + brk), qs, at + cnt) == a + b'' + z
  {
    PatchedSegment(a, b, b', z, ps, at + brk);
    PatchedSegment(a, b', b'', z, qs, at + cnt);
  }

  lemma {:induction false} ClosesBody(b: seq<Stmt>, f: seq<string>, at: int, brk: int, cnt: int)
    returns (b': seq<Instr>)
    ensures Closes(CodeB(b, f, NO_TARGETS), b', PendB(b, at, ToBreak), at, brk)
    ensures Closes(b', CodeB(b, f, Targets(Some(brk), Some(cnt))), PendB(b, at, ToContinue), at, cnt)
  {
    var tg := NO_TARGETS.With(ToBreak, brk);
    b' := CodeB(b, f, tg);
    ClosesB(b, f, NO_TARGETS, ToBreak, brk, at);
    ClosesB(b, f, tg, ToContinue, cnt, at);
  }

  /** `from` and `back` are the positions of the two jumps of the loop, `here` the position after it. */
  lemma {:induction false} FinishWhile(
      c: Expr, b: seq<Stmt>, f: seq<string>, pre: seq<Instr>, from: int, back: int, here: int, open: seq<Instr>)
    requires from == |pre| + |CodeE(c)| && back == from + 1 + LenB(b) && here == back + 1
    requires open == pre + CodeE(c) + [JumpUnless(0)] + CodeB(b, f, NO_TARGETS) + [Jump(Encode(|pre| - back))]
    ensures |open| == here && 0 <= from < here && open[from] == JumpUnless(0)
    ensures Patched(Patched(Fixed(open, from, here), PendB(b, from + 1, ToBreak), here),
      PendB(b, from + 1, ToContinue), |pre|)
         == pre + CodeWhile(c, b, f)
  {
    var (n, k) := (LenB(b), |CodeE(c)| + 1);
    var b' := ClosesBody(b, f, from + 1, n + 1, -k);
    ShapeWhile(pre, CodeE(c), CodeB(b, f, NO_TARGETS), b', CodeB(b, f, Targets(Some(n + 1), Some(-k))),
      PendB(b, from + 1, ToBreak), PendB(b, from + 1, ToContinue), n + 1, -k, from, back, here, open,
      CodeWhile(c, b, f));
  }

  lemma {:induction false} ShapeWhile(
      pre: seq<Instr>, e: seq<Instr>, b: seq<Instr>, b': seq<Instr>, b'': seq<Instr>, ps: seq<int>, qs: seq<int>,
      brk: int, cnt: int, from: int, back: int, here: int, open: seq<Instr>, whole: seq<Instr>)
    requires from == |pre| + |e| && back == from + 1 + |b| && here == back + 1 && brk == |b| + 1 && cnt == -(|e| + 1)
    requires Closes(b, b', ps, from + 1, brk) && Closes(b', b'', qs, from + 1, cnt)
    requires open == pre + e + [JumpUnless(0)] + b + [Jump(Encode(|pre| - back))]
    requires whole == e + [JumpUnless(Encode(|b| + 2))] + b'' + [Jump(Encode(-(|e| + 1 + |b|)))]
    ensures |open| == here && 0 <= from < here && open[from] == JumpUnless(0)
    ensures Patched(Patched(Fixed(open, from, here), ps, here), qs, |pre|) == pre + whole
  {
    var d := Encode(|b| + 2);
    var z := [Jump(Encode(-(|e| + 1 + |b|)))];
    FixAt4(pre, e, JumpUnless(0), JumpUnless(d), b, z);
    CloseBody(pre + e + [JumpUnless(d)], b, b', b'', ps, qs, z, from + 1, brk, cnt);
    Cat5'(pre, e, [JumpUnless(d)], b'', z);
  }

  lemma {:induction false} FixAt4(pre: seq<Instr>, e: seq<Instr>, i: Instr, j: Instr, b: seq<Instr>, z: seq<Instr>)
    ensures var open := pre + e + [i] + b + z;
      open[|pre| + |e|] == i && open[|pre| + |e| := j] == pre + e + [j] + b + z
  {
  }

  lemma Cat5'<T>(a: seq<T>, b: seq<T>, c: seq<T>, d: seq<T>, e: seq<T>)
    ensures a + b + c + d + e == a + (b + c + d + e)
  {
  }

  /** ti_rotate_left(): the first r of the n instructions at lo move behind the others. */
  function Rotated(prog: seq<Instr>, lo: nat, n: nat, r: nat): seq<Instr>
    requires r <= n && lo + n <= |prog|
  {
    prog[..lo] + prog[lo + r..lo + n] + prog[lo..lo + r] + prog[lo + n..]
  }

  /** q is p with the n instructions at lo in reverse order. */
  ghost predicate IsReverse(p: seq<Instr>, q: seq<Instr>, lo: int, n: int) {
    && |p| == |q| && 0 <= lo <= lo + n <= |p|
    && forall i {:trigger q[i]} :: 0 <= i < |q| ==> q[i] == p[if lo <= i < lo + n then lo + (lo + n - 1 - i) else i]
  }

  /** Three reversals rotate. */
  lemma {:induction false} ThreeReversals(
      p0: seq<Instr>, p1: seq<Instr>, p2: seq<Instr>, p3: seq<Instr>, lo: nat, n: nat, r: nat, d: nat)
    requires n == r + d && IsReverse(p0, p1, lo, n) && IsReverse(p1, p2, lo, d) && IsReverse(p2, p3, lo + d, r)
    ensures p3 == Rotated(p0, lo, n, r)
  {
    var q := Rotated(p0, lo, n, r);
    forall i | 0 <= i < |p3| ensures p3[i] == q[i] {
      RotatedAt(p0, lo, n, r, i);
      if lo <= i < lo + d {
        assert p3[i] == p2[i] == p1[lo + (lo + d - 1 - i)] == p0[i + r];
      } else if lo + d <= i < lo + n {
        var j := lo + d + (lo + d + r - 1 - i);
        assert p3[i] == p2[j] == p1[j] == p0[i - d];
      } else {
        assert p3[i] == p2[i] == p1[i] == p0[i];
      }
    }
  }

  lemma {:induction false} RotatedAt(p: seq<Instr>, lo: nat, n: nat, r: nat, i: nat)
    requires r <= n && lo + n <= |p| && i < |p|
    ensures |Rotated(p, lo, n, r)| == |p|
    ensures Rotated(p, lo, n, r)[i] ==
      p[if lo <= i < lo + n - r then i + r else if lo + n - r <= i < lo + n then i - (n - r) else i]
  {
  }

  lemma {:induction false} RotatedParts(
      a: seq<Instr>, x: seq<Instr>, y: seq<Instr>, z: seq<Instr>, p: seq<Instr>, lo: nat, n: nat, r: nat)
    requires p == a + x + y + z && lo == |a| && n == |x| + |y| && r == |x|
    ensures Rotated(p, lo, n, r) == a + y + x + z
  {
    assert p[..|a|] == a && p[|a|..|a| + |x|] == x && p[|a| + |x|..|a| + |x| + |y|] == y && p[|a| + |x| + |y|..] == z;
  }

  /** The condition of a `for`, with its conditional jump still open. */
  function OpenTest(c: Option<Expr>): seq<Instr> {
    if c.None? then [] else CodeE(c.value) + [JumpUnless(0)]
  }

  /** fixup of the conditional jump of a `for`, if there is one */
  function FixedTest(prog: seq<Instr>, c: Option<Expr>, from: int, to: int): (r: seq<Instr>)
    requires c.Some? ==> 0 <= from < |prog| && (prog[from].Jump? || prog[from].JumpUnless?)
    ensures |r| == |prog|
  {
    if c.None? then prog else Fixed(prog, from, to)
  }

  /** The post clause is emitted before the body: it stands at i1, the body at i2, the jump back at i3.  The
      displacements that are computed before the rotation lead to the right place after it. */
  lemma {:induction false} FinishFor(
      c: Option<Expr>, p: Option<Simple>, b: seq<Stmt>, f: seq<string>, pre: seq<Instr>,
      i1: int, i2: int, i3: int, n: int, end: int, ctnue: int, open: seq<Instr>)
    requires i1 == |pre| + LenTest(c) && i2 == i1 + n && i3 == i2 + LenB(b) && n == LenOpt(p)
    requires end == i3 + 1 && ctnue == i3 - n
    requires open == pre + OpenTest(c) + CodeOptSimple(p, f) + CodeB(b, f, NO_TARGETS) + [Jump(Encode(|pre| - i3))]
    ensures |open| == end && (c.Some? ==> 0 <= i1 - 1 < end && open[i1 - 1] == JumpUnless(0))
    ensures Rotated(ClosedFor(open, c, i1 - 1, end, PendB(b, i2, ToBreak), end + n, PendB(b, i2, ToContinue),
      ctnue + n), i1, i3 - i1, n)
         == pre + CodeFor(c, p, b, f)
  {
    var (brk, cnt) := (LenB(b) + n + 1, LenB(b));
    var b' := ClosesBody(b, f, i2, brk, cnt);
    ShapeFor(c, pre, CodeOptSimple(p, f), CodeB(b, f, NO_TARGETS), b', CodeB(b, f, Targets(Some(brk), Some(cnt))),
      PendB(b, i2, ToBreak), PendB(b, i2, ToContinue), brk, cnt, i1, i2, i3, n, end, ctnue, open, CodeFor(c, p, b, f));
  }

  /** All jumps of a `for` patched: the one of its condition, its breaks and its continues. */
  function ClosedFor(
      open: seq<Instr>, c: Option<Expr>, from: int, end: int, ps: seq<int>, brkTo: int, qs: seq<int>,
      cntTo: int): (r: seq<Instr>)
    requires c.Some? ==> 0 <= from < |open| && (open[from].Jump? || open[from].JumpUnless?)
    ensures |r| == |open|
  {
    Patched(Patched(FixedTest(open, c, from, end), ps, brkTo), qs, cntTo)
  }

  lemma {:induction false} ShapeFor(
      c: Option<Expr>, pre: seq<Instr>, x: seq<Instr>, b: seq<Instr>, b': seq<Instr>, b'': seq<Instr>, ps: seq<int>,
      qs: seq<int>,
      brk: int, cnt: int, i1: int, i2: int, i3: int, n: int, end: int, ctnue: int, open: seq<Instr>, whole: seq<Instr>)
    requires i1 == |pre| + LenTest(c) && i2 == i1 + n && i3 == i2 + |b| && n == |x|
    requires end == i3 + 1 && ctnue == i3 - n && brk == |b| + n + 1 && cnt == |b|
    requires Closes(b, b', ps, i2, brk) && Closes(b', b'', qs, i2, cnt)
    requires open == pre + OpenTest(c) + x + b + [Jump(Encode(|pre| - i3))]
    requires whole == CodeTest(c, |b| + n + 2) + b'' + x + [Jump(Encode(-(LenTest(c) + |b| + n)))]
    ensures |open| == end && (c.Some? ==> 0 <= i1 - 1 < end && open[i1 - 1] == JumpUnless(0))
    ensures Rotated(ClosedFor(open, c, i1 - 1, end, ps, end + n, qs, ctnue + n), i1, i3 - i1, n) == pre + whole
  {
    var (test, back) := (CodeTest(c, |b| + n + 2), |pre| - i3);
    assert |test| == LenTest(c) && |b''| == |b|;
    hide OpenTest, CodeTest, LenTest, Closes, Rotated, ClosedFor, Encode;
    assert back == -(LenTest(c) + |b| + n);
    var z := [Jump(Encode(back))];
    ShapeClosed(c, pre, test, x, b, b', b'', z, ps, qs, brk, cnt, i1, i2, n, end, ctnue, open);
    var closed := ClosedFor(open, c, i1 - 1, end, ps, end + n, qs, ctnue + n);
    RotatedParts(pre + test, x, b'', z, closed, i1, i3 - i1, n);
    Cat5'(pre, test, b'', x, z);
  }

  lemma {:induction false} ShapeClosed(
      c: Option<Expr>, pre: seq<Instr>, test: seq<Instr>, x: seq<Instr>, b: seq<Instr>, b': seq<Instr>,
      b'': seq<Instr>, z: seq<Instr>,
      ps: seq<int>, qs: seq<int>, brk: int, cnt: int, i1: int, i2: int, n: int, end: int, ctnue: int, open: seq<Instr>)
    requires i1 == |pre| + LenTest(c) && i2 == i1 + n && n == |x| && |z| == 1 && test == CodeTest(c, |b| + n + 2)
    requires end == i2 + |b| + 1 && ctnue == i2 + |b| - n && brk == |b| + n + 1 && cnt == |b|
    requires Closes(b, b', ps, i2, brk) && Closes(b', b'', qs, i2, cnt)
    requires open == pre + OpenTest(c) + x + b + z
    ensures |open| == end && (c.Some? ==> 0 <= i1 - 1 < end && open[i1 - 1] == JumpUnless(0))
    ensures ClosedFor(open, c, i1 - 1, end, ps, end + n, qs, ctnue + n) == pre + test + x + b'' + z
  {
    FixTest(c, pre, x, b, z, |b| + n + 2, open, i1 - 1, end);
    CloseBody(pre + test + x, b, b', b'', ps, qs, z, i2, brk, cnt);
    assert i2 + brk == end + n && i2 + cnt == ctnue + n;
  }

  lemma {:induction false} FixTest(
      c: Option<Expr>, pre: seq<Instr>, x: seq<Instr>, y: seq<Instr>, z: seq<Instr>, d: int,
      open: seq<Instr>, from: int, to: int)
    requires open == pre + OpenTest(c) + x + y + z && from == |pre| + LenTest(c) - 1 && to == from + d
    ensures c.Some? ==> 0 <= from < |open| && open[from] == JumpUnless(0)
    ensures FixedTest(open, c, from, to) == pre + CodeTest(c, d) + x + y + z
  {
    if c.Some? {
      FixAt5(pre, CodeE(c.value), JumpUnless(0), JumpUnless(Encode(d)), x, y, z);
    }
  }

  lemma {:induction false} FixAt5(
      pre: seq<Instr>, e: seq<Instr>, i: Instr, j: Instr, x: seq<Instr>, y: seq<Instr>, z: seq<Instr>)
    ensures var open := pre + (e + [i]) + x + y + z;
      open[|pre| + |e|] == i && open[|pre| + |e| := j] == pre + (e + [j]) + x + y + z
  {
  }
}
