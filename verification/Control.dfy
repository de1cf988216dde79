/** The control structures as transformations of the compiler's state. */
module Control {
  import opened Common
  import opened Bytecode
  import opened Syntax
  import opened Codegen
  import opened Patching
  import opened Snapshots
  import opened Backpatch

  lemma {:induction false} ClauseState(p: Snap, c: Clause)
    requires Ok(p)
    ensures AfterB(p.(prog := p.prog + CodeE(c.cond) + [JumpUnless(0)]), c.blk) == AfterClause(p, c)
  {
    var f := SlotsB(Slots(p), c.blk);
    Cat4(p.prog, CodeE(c.cond), [JumpUnless(0)], CodeB(c.blk, f, NO_TARGETS));
    Cat3(CodeE(c.cond), [JumpUnless(0)], CodeB(c.blk, f, NO_TARGETS));
    assert NO_TARGETS.Shift(|CodeE(c.cond)| + 1) == NO_TARGETS;
  }

  /** Before the first arm of an `if`. */
  lemma {:induction false} NoArms(p: Snap)
    requires Ok(p)
    ensures p.(sIf := p.sIf + [-2]) == AfterArms(p, [])
  {
    assert p.prog + [] == p.prog && p.sBreak + [] == p.sBreak && p.sContinue + [] == p.sContinue;
    assert p.sIf + [-2] + [] == p.sIf + [-2];
  }

  ghost function CondJump(p: Snap, cs: seq<Clause>): int
    requires cs != []
  {
    |p.prog| + LenArms(cs[..|cs| - 1]) + |CodeE(cs[|cs| - 1].cond)|
  }

  lemma {:induction false} ArmAt(p: Snap, cs: seq<Clause>, c: Clause)
    requires Ok(p)
    ensures CondJump(p, cs + [c]) == |AfterArms(p, cs).prog| + |CodeE(c.cond)|
  {
    assert (cs + [c])[..|cs + [c]| - 1] == cs;
  }

  /** A jump to the end is put after the last arm, whose own jump now leads behind it. */
  lemma {:induction false} ArmState(p: Snap, cs: seq<Clause>, q: Snap, from: int)
    requires Ok(p) && cs != [] && q == AfterInit(p, cs) && from == CondJump(p, cs)
    ensures 0 <= from < |q.prog| && q.prog[from] == JumpUnless(0)
    ensures q.(prog := Fixed(q.prog + [Jump(0)], from, |q.prog| + 1), sIf := q.sIf + [|q.prog|]) == AfterArms(p, cs)
  {
    var (f, at) := (SlotsClauses(Slots(p), cs), |p.prog|);
    CloseArm(cs, f, p.prog);
    Cat3(p.sIf + [-2], EndJumps(cs[..|cs| - 1], at), [|q.prog|]);
    assert |q.prog| == at + LenArms(cs) - 1;
  }

  lemma {:induction false} IfParts(slots: seq<string>, cs: seq<Clause>, at: int)
    ensures var (s, f) := (If(cs, NoElse), SlotsClauses(slots, cs));
      && SlotsS(slots, s) == f && HolesS(s, at) == HolesArms(cs, at)
      && PendS(s, at, ToBreak) == PendArms(cs, at, ToBreak) && PendS(s, at, ToContinue) == PendArms(cs, at, ToContinue)
      && CodeS(s, f, NO_TARGETS) == CodeClauses(cs, f, NO_TARGETS, Some(LenClauses(cs)), false)
  {
    var (s, f) := (If(cs, NoElse), SlotsClauses(slots, cs));
    IfCode(s, f, NO_TARGETS);
    var code := CodeClauses(cs, f, NO_TARGETS, Some(LenClauses(cs)), false);
    assert code + [] == code;
    assert HolesArms(cs, at) + [] == HolesArms(cs, at);
    assert PendArms(cs, at, ToBreak) + [] == PendArms(cs, at, ToBreak);
    assert PendArms(cs, at, ToContinue) + [] == PendArms(cs, at, ToContinue);
  }

  /** The end of an `if` without `else`. */
  lemma {:induction false} IfState(p: Snap, cs: seq<Clause>, q: Snap, from: int, ends: seq<int>, here: int)
    requires Ok(p) && cs != [] && q == AfterInit(p, cs) && from == CondJump(p, cs)
    requires ends == EndJumps(cs[..|cs| - 1], |p.prog|) && here == |q.prog|
    ensures 0 <= from < here && q.prog[from] == JumpUnless(0) && q.sIf == p.sIf + [-2] + ends
    ensures AllJumps(q.prog, ends)
    ensures q.(prog := Patched(Fixed(q.prog, from, here), ends, here), sIf := p.sIf) == AfterS(p, If(cs, NoElse))
  {
    hide CodeS, CodeB, CodeE, CodeArms, CodeClause, CodeClauses, CodeIf, SlotsS, SlotsB, SlotsClauses;
    hide HolesS, HolesB, HolesArms, PendS, PendB, PendArms, LenS, LenB, LenArms, LenClauses;
    var (f, init, c) := (SlotsClauses(Slots(p), cs), cs[..|cs| - 1], cs[|cs| - 1]);
    FinishIf(cs, f, p.prog);
    IfParts(Slots(p), cs, |p.prog|);
    EndsAreJumps(p.prog, init, f, CodeClause(c, f, NO_TARGETS, 0), |p.prog|);
    Cat3(p.prog, CodeArms(init, f, NO_TARGETS, None), CodeClause(c, f, NO_TARGETS, 0));
  }

  lemma {:induction false} ElseParts(slots: seq<string>, cs: seq<Clause>, b: seq<Stmt>, at: int)
    ensures var (s, f) := (If(cs, Else(b)), SlotsClauses(slots, cs));
      var (g, n) := (SlotsB(f, b), LenArms(cs));
      && SlotsS(slots, s) == g && HolesS(s, at) == HolesArms(cs, at) + HolesB(b, at + n)
      && PendS(s, at, ToBreak) == PendArms(cs, at, ToBreak) + PendB(b, at + n, ToBreak)
      && PendS(s, at, ToContinue) == PendArms(cs, at, ToContinue) + PendB(b, at + n, ToContinue)
      && CodeArms(cs, f, NO_TARGETS, None) == CodeArms(cs, g, NO_TARGETS, None)
      && CodeS(s, g, NO_TARGETS) == CodeArms(cs, g, NO_TARGETS, Some(n + LenB(b))) + CodeB(b, g, NO_TARGETS)
  {
    hide CodeS, CodeB, CodeArms, SlotsB, SlotsClauses, HolesB, HolesArms, PendB, PendArms, LenB, LenArms;
    var f := SlotsClauses(slots, cs);
    var g := SlotsB(f, b);
    GrowsB(f, b);
    StableArms(slots, cs, f, g, NO_TARGETS, None);
    IfElseIs(cs, b, g);
    assert NO_TARGETS.Shift(LenArms(cs)) == NO_TARGETS;
  }

  lemma {:induction false} IfElseIs(cs: seq<Clause>, b: seq<Stmt>, g: seq<string>)
    ensures NO_TARGETS.Shift(LenArms(cs)) == NO_TARGETS
    ensures CodeS(If(cs, Else(b)), g, NO_TARGETS) ==
      CodeArms(cs, g, NO_TARGETS, Some(LenArms(cs) + LenB(b))) + CodeB(b, g, NO_TARGETS)
  {
    hide CodeS, CodeB, CodeArms, LenB, LenArms;
    IfCode(If(cs, Else(b)), g, NO_TARGETS);
    assert NO_TARGETS.Shift(LenArms(cs)) == NO_TARGETS;
  }

  /** The end of an `if` with an `else`. */
  lemma {:induction false} ElseState(p: Snap, cs: seq<Clause>, b: seq<Stmt>, q: Snap, ends: seq<int>, here: int)
    requires Ok(p) && Ok(AfterArms(p, cs)) && q == AfterB(AfterArms(p, cs), b)
    requires ends == EndJumps(cs, |p.prog|) && here == |q.prog|
    ensures q.sIf == p.sIf + [-2] + ends && AllJumps(q.prog, ends)
    ensures q.(prog := Patched(q.prog, ends, here), sIf := p.sIf) == AfterS(p, If(cs, Else(b)))
  {
    hide CodeS, CodeB, CodeE, CodeArms, CodeClause, CodeClauses, CodeIf, SlotsS, SlotsB, SlotsClauses;
    hide HolesS, HolesB, HolesArms, PendS, PendB, PendArms, LenS, LenB, LenArms, LenClauses;
    hide Patched, AllJumps, AddHoles, SetSlots, EndJumps;
    var (f, at, n) := (SlotsClauses(Slots(p), cs), |p.prog|, LenArms(cs));
    var g := SlotsB(f, b);
    var code := CodeB(b, g, NO_TARGETS);
    ElseParts(Slots(p), cs, b, at);
    AfterAfter(p.(sIf := q.sIf), CodeArms(cs, f, NO_TARGETS, None), f, HolesArms(cs, at), PendArms(cs, at, ToBreak),
      PendArms(cs, at, ToContinue),
      code, g, HolesB(b, at + n), PendB(b, at + n, ToBreak), PendB(b, at + n, ToContinue));
    FinishElse(cs, g, p.prog, code);
    EndsAreJumps(p.prog, cs, g, code, at);
    Cat3(p.prog, CodeArms(cs, g, NO_TARGETS, None), code);
  }

  // ----- Loops -----

  /** The state when the body of a loop begins, after `code` has been emitted for its head. */
  ghost function LoopBody(p: Snap, code: seq<Instr>, f: seq<string>): Snap
    requires Ok(p)
  {
    p.(prog := p.prog + code, scopes := SetSlots(p.scopes, f), sBreak := p.sBreak + [-2],
      sContinue := p.sContinue + [-2])
  }

  /** Patching and fixing keep jumps jumps. */
  lemma {:induction false} StillJumps(prog: seq<Instr>, from: int, to: int, ps: seq<int>, qs: seq<int>, t: int)
    requires 0 <= from < |prog| && prog[from].JumpUnless? && AllJumps(prog, ps) && AllJumps(prog, qs)
    ensures AllJumps(Fixed(prog, from, to), ps) && AllJumps(Patched(Fixed(prog, from, to), ps, t), qs)
  {
  }

  /** A statement with the given code and holes that leaves no jumps open. */
  ghost predicate Leaves(s: Stmt, slots: seq<string>, f: seq<string>, code: seq<Instr>, holes: seq<Span>, at: int) {
    && SlotsS(slots, s) == f && CodeS(s, f, NO_TARGETS) == code && HolesS(s, at) == holes
    && PendS(s, at, ToBreak) == [] && PendS(s, at, ToContinue) == []
  }

  lemma {:induction false} LeavesState(
      p: Snap, s: Stmt, f: seq<string>, code: seq<Instr>, holes: seq<Span>, q: Snap)
    requires Ok(p) && Leaves(s, Slots(p), f, code, holes, |p.prog|)
    requires q == Snap(p.prog + code, SetSlots(p.scopes, f), AddHoles(p.ranges, |p.scopes| - 1, holes), p.sIf,
      p.sBreak, p.sContinue)
    ensures q == AfterS(p, s)
  {
    hide CodeS, SlotsS, HolesS, PendS, AddHoles;
    assert p.sBreak + [] == p.sBreak && p.sContinue + [] == p.sContinue;
  }

  lemma {:induction false} WhileState(
      p: Snap, c: Expr, b: seq<Stmt>, q: Snap, from: int, back: int, here: int, open: seq<Instr>, ps: seq<int>,
      qs: seq<int>)
    requires Ok(p) && from == |p.prog| + |CodeE(c)| && back == from + 1 + LenB(b) && here == back + 1
    requires q == AfterB(LoopBody(p, CodeE(c) + [JumpUnless(0)], Slots(p)), b)
    requires open == q.prog + [Jump(Encode(|p.prog| - back))]
    requires ps == PendB(b, from + 1, ToBreak) && qs == PendB(b, from + 1, ToContinue)
    ensures 0 <= from < |open| == here && open[from] == JumpUnless(0)
    ensures q.sBreak == p.sBreak + [-2] + ps && q.sContinue == p.sContinue + [-2] + qs
    ensures AllJumps(Fixed(open, from, here), ps) && AllJumps(Patched(Fixed(open, from, here), ps, here), qs)
    ensures q.(prog := Patched(Patched(Fixed(open, from, here), ps, here), qs, |p.prog|), sBreak := p.sBreak,
      sContinue := p.sContinue)
         == AfterS(p, While(c, b))
  {
    var f := SlotsB(Slots(p), b);
    assert Leaves(While(c, b), Slots(p), f, CodeWhile(c, b, f), HolesB(b, from + 1), |p.prog|);
    hide CodeS, CodeB, CodeE, CodeArms, CodeClause, CodeClauses, CodeIf, SlotsS, SlotsB, SlotsClauses;
    hide HolesS, HolesB, HolesArms, PendS, PendB, PendArms, LenS, LenB, LenArms, LenClauses;
    var z := [Jump(Encode(|p.prog| - back))];
    var pre := p.prog + CodeE(c) + [JumpUnless(0)];
    Cat3(p.prog, CodeE(c), [JumpUnless(0)]);
    FinishWhile(c, b, f, p.prog, from, back, here, open);
    PendAreJumps(pre, b, f, z, ToBreak, from + 1);
    PendAreJumps(pre, b, f, z, ToContinue, from + 1);
    StillJumps(open, from, here, ps, qs, here);
    LeavesState(p, While(c, b), f, CodeWhile(c, b, f), HolesB(b, from + 1),
      q.(prog := p.prog + CodeWhile(c, b, f), sBreak := p.sBreak, sContinue := p.sContinue));
  }

  /** What is emitted before the body of a `for`: initialization, condition, post clause. */
  ghost function ForHeadCode(i: Option<Simple>, c: Option<Expr>, x: Option<Simple>, f: seq<string>): seq<Instr> {
    CodeOptSimple(i, f) + OpenTest(c) + CodeOptSimple(x, f)
  }

  /** The post clause does not change the code of the initialization. */
  lemma {:induction false} HeadCode(
      i: Option<Simple>, c: Option<Expr>, x: Option<Simple>, slots: seq<string>, before: seq<Instr>)
    ensures var g1 := SlotsOpt(slots, i);
      var g := SlotsOpt(g1, x);
      before + CodeOptSimple(i, g1) + OpenTest(c) + CodeOptSimple(x, g) == before + ForHeadCode(i, c, x, g)
  {
    var g1 := SlotsOpt(slots, i);
    var g := SlotsOpt(g1, x);
    StableOpt(slots, i, g1, g);
    Cat4(before, CodeOptSimple(i, g), OpenTest(c), CodeOptSimple(x, g));
    Cat3(CodeOptSimple(i, g), OpenTest(c), CodeOptSimple(x, g));
  }

  lemma {:induction false} ForParts(
      i: Option<Simple>, c: Option<Expr>, x: Option<Simple>, b: seq<Stmt>, slots: seq<string>, at: int, i2: int)
    requires i2 == at + LenOpt(i) + LenTest(c) + LenOpt(x)
    ensures var (s, g) := (For(i, c, x, b), SlotsOpt(SlotsOpt(slots, i), x));
      var f := SlotsB(g, b);
      && ForHeadCode(i, c, x, g) == ForHeadCode(i, c, x, f)
      && Leaves(s, slots, f, CodeOptSimple(i, f) + CodeFor(c, x, b, f), HolesB(b, i2), at)
  {
    var g1 := SlotsOpt(slots, i);
    var g := SlotsOpt(g1, x);
    var f := SlotsB(g, b);
    GrowsB(g, b);
    StableOpt(slots, i, g, f);
    StableOpt(g1, x, g, f);
  }

  /** The state q after the body of a `for` and the jump back to its condition. */
  ghost predicate AtForEnd(
      p: Snap, i: Option<Simple>, c: Option<Expr>, x: Option<Simple>, b: seq<Stmt>, q: Snap,
      begin: int, i1: int, i2: int, i3: int, open: seq<Instr>)
  {
    && Ok(p) && begin == |p.prog| + LenOpt(i) && i1 == begin + LenTest(c) && i2 == i1 + LenOpt(x) && i3 == i2 + LenB(b)
    && var g := SlotsOpt(SlotsOpt(Slots(p), i), x);
       && q == AfterB(LoopBody(p, ForHeadCode(i, c, x, g), g), b)
       && open == q.prog + [Jump(Encode(begin - i3))]
  }

  lemma {:induction false} ForOpen(
      p: Snap, i: Option<Simple>, c: Option<Expr>, x: Option<Simple>, b: seq<Stmt>, q: Snap,
      begin: int, i1: int, i2: int, i3: int, n: int, end: int, open: seq<Instr>, ps: seq<int>, qs: seq<int>)
    requires AtForEnd(p, i, c, x, b, q, begin, i1, i2, i3, open) && n == LenOpt(x) && end == i3 + 1
    requires ps == PendB(b, i2, ToBreak) && qs == PendB(b, i2, ToContinue)
    ensures |open| == end && ForReady(open, c, i1 - 1, end, n, ps, qs)
  {
    hide AtForEnd, CodeB, CodeOptSimple, OpenTest, PendB, SlotsS, LenB, LenOpt, LenTest, ForReady, Rotated, ClosedFor,
      CodeFor;
    var f := ForProg(p, i, c, x, b, q, begin, i1, i2, i3, open);
    var pre := p.prog + CodeOptSimple(i, f);
    FinishFor(c, x, b, f, pre, i1, i2, i3, n, end, i3 - n, open);
    ForJumps(pre, c, x, b, f, begin, i1, i2, i3, end, n, open, ps, qs);
  }

  /** All the open jumps of a `for` are where they are patched. */
  ghost predicate ForReady(open: seq<Instr>, c: Option<Expr>, from: int, end: int, n: int, ps: seq<int>, qs: seq<int>) {
    && (c.Some? ==> 0 <= from < |open| && open[from] == JumpUnless(0))
    && AllJumps(FixedTest(open, c, from, end), ps)
    && AllJumps(Patched(FixedTest(open, c, from, end), ps, end + n), qs)
  }

  lemma {:induction false} ForStacks(
      p: Snap, i: Option<Simple>, c: Option<Expr>, x: Option<Simple>, b: seq<Stmt>, q: Snap,
      begin: int, i1: int, i2: int, i3: int, open: seq<Instr>, ps: seq<int>, qs: seq<int>)
    requires AtForEnd(p, i, c, x, b, q, begin, i1, i2, i3, open)
    requires ps == PendB(b, i2, ToBreak) && qs == PendB(b, i2, ToContinue)
    ensures q.sBreak == p.sBreak + [-2] + ps && q.sContinue == p.sContinue + [-2] + qs && q.sIf == p.sIf
    ensures q.scopes == SetSlots(p.scopes, SlotsS(Slots(p), For(i, c, x, b)))
    ensures q.ranges == AddHoles(p.ranges, |p.scopes| - 1, HolesB(b, i2))
  {
    hide CodeS, CodeB, CodeE, CodeArms, CodeClause, CodeClauses, CodeIf, SlotsB, SlotsClauses;
    hide HolesS, HolesB, HolesArms, PendS, PendB, PendArms, LenS, LenB, LenArms, LenClauses;
  }

  lemma {:induction false} ForState(
      p: Snap, i: Option<Simple>, c: Option<Expr>, x: Option<Simple>, b: seq<Stmt>, q: Snap,
      begin: int, i1: int, i2: int, i3: int, n: int, end: int, ctnue: int, open: seq<Instr>, ps: seq<int>, qs: seq<int>)
    requires AtForEnd(p, i, c, x, b, q, begin, i1, i2, i3, open) && n == LenOpt(x) && end == i3 + 1 && ctnue == i3 - n
    requires ps == PendB(b, i2, ToBreak) && qs == PendB(b, i2, ToContinue)
    requires |open| == end && (c.Some? ==> 0 <= i1 - 1 < end && open[i1 - 1] == JumpUnless(0))
    ensures q.(prog := Rotated(ClosedFor(open, c, i1 - 1, end, ps, end + n, qs, ctnue + n), i1, i3 - i1, n),
               sBreak := p.sBreak, sContinue := p.sContinue)
         == AfterS(p, For(i, c, x, b))
  {
    var f := ForProg(p, i, c, x, b, q, begin, i1, i2, i3, open);
    var code := CodeOptSimple(i, f) + CodeFor(c, x, b, f);
    assert Rotated(ClosedFor(open, c, i1 - 1, end, ps, end + n, qs, ctnue + n), i1, i3 - i1, n) == p.prog + code by {
      FinishFor(c, x, b, f, p.prog + CodeOptSimple(i, f), i1, i2, i3, n, end, ctnue, open);
      Cat3(p.prog, CodeOptSimple(i, f), CodeFor(c, x, b, f));
    }
    ForDone(p, i, c, x, b, q, begin, i1, i2, i3, open, f);
  }

  lemma {:induction false} ForDone(
      p: Snap, i: Option<Simple>, c: Option<Expr>, x: Option<Simple>, b: seq<Stmt>, q: Snap,
      begin: int, i1: int, i2: int, i3: int, open: seq<Instr>, f: seq<string>)
    requires AtForEnd(p, i, c, x, b, q, begin, i1, i2, i3, open) && f == SlotsS(Slots(p), For(i, c, x, b))
    ensures q.(prog := p.prog + (CodeOptSimple(i, f) + CodeFor(c, x, b, f)), sBreak := p.sBreak,
      sContinue := p.sContinue)
         == AfterS(p, For(i, c, x, b))
  {
    ForParts(i, c, x, b, Slots(p), |p.prog|, i2);
    ForStacks(p, i, c, x, b, q, begin, i1, i2, i3, open, PendB(b, i2, ToBreak), PendB(b, i2, ToContinue));
    hide CodeS, CodeB, CodeE, CodeArms, CodeClause, CodeClauses, CodeIf, SlotsS, SlotsB, SlotsClauses;
    hide HolesS, HolesB, HolesArms, PendS, PendB, PendArms, LenS, LenB, LenArms, LenClauses;
    hide CodeFor, CodeOptSimple, SlotsOpt, ForHeadCode, Leaves, AddHoles, AfterS, AfterB, OpenTest, LenOpt, LenTest;
    var code := CodeOptSimple(i, f) + CodeFor(c, x, b, f);
    LeavesState(p, For(i, c, x, b), f, code, HolesB(b, i2),
      q.(prog := p.prog + code, sBreak := p.sBreak, sContinue := p.sContinue));
  }

  lemma {:induction false} ForProg(
      p: Snap, i: Option<Simple>, c: Option<Expr>, x: Option<Simple>, b: seq<Stmt>, q: Snap,
      begin: int, i1: int, i2: int, i3: int, open: seq<Instr>) returns (f: seq<string>)
    requires AtForEnd(p, i, c, x, b, q, begin, i1, i2, i3, open)
    ensures f == SlotsS(Slots(p), For(i, c, x, b))
    ensures open == p.prog + CodeOptSimple(i, f) + OpenTest(c) + CodeOptSimple(x, f) + CodeB(b, f, NO_TARGETS)
      + [Jump(Encode(begin - i3))]
    ensures begin == |p.prog + CodeOptSimple(i, f)| && i1 == begin + LenTest(c) && i2 == i1 + LenOpt(x)
      && i3 == i2 + LenB(b)
  {
    f := SlotsS(Slots(p), For(i, c, x, b));
    ForParts(i, c, x, b, Slots(p), |p.prog|, i2);
    hide CodeS, CodeB, CodeE, CodeArms, CodeClause, CodeClauses, CodeIf, SlotsB, SlotsClauses;
    hide HolesS, HolesB, HolesArms, PendS, PendB, PendArms, LenS, LenB, LenArms, LenClauses;
    Cat4(p.prog, CodeOptSimple(i, f), OpenTest(c), CodeOptSimple(x, f));
    Cat3(CodeOptSimple(i, f), OpenTest(c), CodeOptSimple(x, f));
  }

  lemma {:induction false} ForJumps(
      pre: seq<Instr>, c: Option<Expr>, x: Option<Simple>, b: seq<Stmt>, f: seq<string>,
      begin: int, i1: int, i2: int, i3: int, end: int, n: int, open: seq<Instr>, ps: seq<int>, qs: seq<int>)
    requires begin == |pre| && i1 == begin + LenTest(c) && i2 == i1 + n && n == LenOpt(x) && i3 == i2 + LenB(b)
      && end == i3 + 1
    requires open == pre + OpenTest(c) + CodeOptSimple(x, f) + CodeB(b, f, NO_TARGETS) + [Jump(Encode(begin - i3))]
    requires c.Some? ==> 0 <= i1 - 1 < end && open[i1 - 1] == JumpUnless(0)
    requires ps == PendB(b, i2, ToBreak) && qs == PendB(b, i2, ToContinue)
    ensures |open| == end && ForReady(open, c, i1 - 1, end, n, ps, qs)
  {
    hide CodeS, CodeB, CodeE, CodeArms, CodeClause, CodeClauses, CodeIf, SlotsS, SlotsB, SlotsClauses;
    hide HolesS, HolesB, HolesArms, PendS, PendB, PendArms, LenS, LenB, LenArms, LenClauses;
    var (head, z) := (pre + OpenTest(c) + CodeOptSimple(x, f), [Jump(Encode(begin - i3))]);
    PendAreJumps(head, b, f, z, ToBreak, i2);
    PendAreJumps(head, b, f, z, ToContinue, i2);
    StillJumpsTest(open, c, i1 - 1, end, ps, qs, end + n);
  }

  lemma {:induction false} StillJumpsTest(
      prog: seq<Instr>, c: Option<Expr>, from: int, to: int, ps: seq<int>, qs: seq<int>, t: int)
    requires c.Some? ==> 0 <= from < |prog| && prog[from].JumpUnless?
    requires AllJumps(prog, ps) && AllJumps(prog, qs)
    ensures AllJumps(FixedTest(prog, c, from, to), ps) && AllJumps(Patched(FixedTest(prog, c, from, to), ps, t), qs)
  {
  }
}
