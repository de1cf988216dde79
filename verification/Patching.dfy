/** Facts about the code of a statement that the one-pass compiler relies on: which of its jumps are still
    placeholders, and that neither patching nor a growing table of locals disturbs the rest. */
module Patching {
  import opened Common
  import opened Bytecode
  import opened Syntax
  import opened Codegen

  // ----- The table of locals only grows -----

  lemma {:induction false} GrowsS(slots: seq<string>, s: Stmt)
    ensures slots <= SlotsS(slots, s)
    decreases s, 1
  {
    match s
    case If(cs, els) => GrowsClauses(slots, cs); GrowsElse(SlotsClauses(slots, cs), els);
    case While(_, b) => GrowsB(slots, b);
    case For(i, _, p, b) => GrowsB(SlotsOpt(SlotsOpt(slots, i), p), b);
    case _ =>
  }

  lemma {:induction false} GrowsClauses(slots: seq<string>, cs: seq<Clause>)
    ensures slots <= SlotsClauses(slots, cs)
    decreases cs, 0
  {
    if cs != [] {
      GrowsClauses(slots, cs[..|cs| - 1]);
      GrowsClause(SlotsClauses(slots, cs[..|cs| - 1]), cs[|cs| - 1]);
    }
  }

  lemma {:induction false} GrowsClause(slots: seq<string>, c: Clause)
    ensures slots <= SlotsClause(slots, c)
    decreases c, 1
  {
    GrowsB(slots, c.blk);
  }

  lemma {:induction false} GrowsElse(slots: seq<string>, els: ElsePart)
    ensures slots <= SlotsElse(slots, els)
    decreases els, 1
  {
    if els.Else? { GrowsB(slots, els.blk); }
  }

  lemma {:induction false} GrowsB(slots: seq<string>, b: seq<Stmt>)
    ensures slots <= SlotsB(slots, b)
    decreases b, 0
  {
    if b != [] {
      GrowsB(slots, b[..|b| - 1]);
      GrowsS(SlotsB(slots, b[..|b| - 1]), b[|b| - 1]);
    }
  }

  lemma {:induction false} SlotOfPrefix(f: seq<string>, g: seq<string>, x: string)
    requires f <= g && x in f
    ensures SlotOf(f, x) == SlotOf(g, x)
    decreases f
  {
    if f[0] != x {
      assert f[1..] <= g[1..];
      SlotOfPrefix(f[1..], g[1..], x);
    }
  }

  // ----- Code does not depend on the locals that are added later -----

  lemma {:induction false} StableSimple(start: seq<string>, m: Simple, f: seq<string>, g: seq<string>)
    requires SlotsSimple(start, m) <= f <= g
    ensures CodeSimple(m, f) == CodeSimple(m, g)
  {
    if m.Assign? {
      LastOfCode(m.lhs);
      if m.kind == StoreHere && TargetVar(m.lhs).Some? {
        var x := TargetVar(m.lhs).value;
        var k := SlotOf(AddSlot(start, x), x);
        assert f[k] == AddSlot(start, x)[k] == x;
        SlotOfPrefix(f, g, x);
      }
    }
  }

  /** The last instruction of an expression tells what kind of assignment target it is. */
  lemma {:induction false} LastOfCode(e: Expr)
    ensures var i := CodeE(e)[|CodeE(e)| - 1];
      && (i.LoadSymbolic? <==> TargetVar(e).Some?) && (i.LoadSymbolic? ==> TargetVar(e) == Some(i.name))
      && (i.LoadAt? <==> IsTargetAt(e))
    decreases e
  {
    match e
    case Paren(i) => LastOfCode(i);
    case _ =>
  }

  lemma {:induction false} StableOpt(start: seq<string>, m: Option<Simple>, f: seq<string>, g: seq<string>)
    requires SlotsOpt(start, m) <= f <= g
    ensures CodeOptSimple(m, f) == CodeOptSimple(m, g)
  {
    if m.Some? { StableSimple(start, m.value, f, g); }
  }

  lemma {:induction false} StableS(start: seq<string>, s: Stmt, f: seq<string>, g: seq<string>, tg: Targets)
    requires SlotsS(start, s) <= f <= g
    ensures CodeS(s, f, tg) == CodeS(s, g, tg)
    decreases s, 1
  {
    match s
    case Do(m) => StableSimple(start, m, f, g);
    case If(_, _) => StableIf(start, s, f, g, tg, Some(LenS(s)));
    case While(c, b) => StableB(start, b, f, g, Targets(Some(LenB(b) + 1), Some(-(|CodeE(c)| + 1))));
    case For(i, c, p, b) => StableFor(start, i, c, p, b, f, g);
    case _ =>
  }

  lemma {:induction false} StableFor(
      start: seq<string>, i: Option<Simple>, c: Option<Expr>, p: Option<Simple>, b: seq<Stmt>, f: seq<string>,
      g: seq<string>)
    requires SlotsB(SlotsOpt(SlotsOpt(start, i), p), b) <= f <= g
    ensures CodeOptSimple(i, f) == CodeOptSimple(i, g) && CodeFor(c, p, b, f) == CodeFor(c, p, b, g)
    decreases b, 3
  {
    hide SlotsB, CodeB, LenB;
    var s1 := SlotsOpt(start, i);
    var s2 := SlotsOpt(s1, p);
    GrowsB(s2, b);
    StableOpt(start, i, f, g);
    StableOpt(s1, p, f, g);
    StableB(s2, b, f, g, Targets(Some(LenB(b) + LenOpt(p) + 1), Some(LenB(b))));
  }

  lemma {:induction false} StableIf(start: seq<string>, s: Stmt, f: seq<string>, g: seq<string>, tg: Targets,
      end: Option<int>)
    requires s.If? && SlotsS(start, s) <= f <= g
    ensures CodeIf(s, f, tg, end) == CodeIf(s, g, tg, end)
    decreases s, 0
  {
    var If(cs, els) := s;
    GrowsElse(SlotsClauses(start, cs), els);
    StableClauses(start, cs, f, g, tg, end, els.Else?);
    if els.Else? {
      StableB(SlotsClauses(start, cs), els.blk, f, g, tg.Shift(LenArms(cs)));
    }
  }

  lemma {:induction false} StableClause(start: seq<string>, c: Clause, f: seq<string>, g: seq<string>, tg: Targets,
      skip: int)
    requires SlotsClause(start, c) <= f <= g
    ensures CodeClause(c, f, tg, skip) == CodeClause(c, g, tg, skip)
    decreases c, 1
  {
    StableB(start, c.blk, f, g, tg.Shift(|CodeE(c.cond)| + 1));
  }

  lemma {:induction false} StableArms(start: seq<string>, cs: seq<Clause>, f: seq<string>, g: seq<string>,
      tg: Targets, end: Option<int>)
    requires SlotsClauses(start, cs) <= f <= g
    ensures CodeArms(cs, f, tg, end) == CodeArms(cs, g, tg, end)
    decreases cs, 0
  {
    if cs != [] {
      var (init, c) := (cs[..|cs| - 1], cs[|cs| - 1]);
      GrowsClause(SlotsClauses(start, init), c);
      StableArms(start, init, f, g, tg, end);
      StableClause(SlotsClauses(start, init), c, f, g, tg.Shift(LenArms(init)), LenB(c.blk) + 2);
    }
  }

  lemma {:induction false} StableClauses(
      start: seq<string>, cs: seq<Clause>, f: seq<string>, g: seq<string>, tg: Targets, end: Option<int>, more: bool)
    requires SlotsClauses(start, cs) <= f <= g
    ensures CodeClauses(cs, f, tg, end, more) == CodeClauses(cs, g, tg, end, more)
    decreases cs, 1
  {
    if more || cs == [] {
      StableArms(start, cs, f, g, tg, end);
    } else {
      var (init, c) := (cs[..|cs| - 1], cs[|cs| - 1]);
      GrowsClause(SlotsClauses(start, init), c);
      StableArms(start, init, f, g, tg, end);
      StableClause(SlotsClauses(start, init), c, f, g, tg.Shift(LenArms(init)), LenB(c.blk) + 1);
    }
  }

  lemma {:induction false} StableB(start: seq<string>, b: seq<Stmt>, f: seq<string>, g: seq<string>, tg: Targets)
    requires SlotsB(start, b) <= f <= g
    ensures CodeB(b, f, tg) == CodeB(b, g, tg)
    decreases b, 0
  {
    if b != [] {
      var (init, s) := (b[..|b| - 1], b[|b| - 1]);
      GrowsS(SlotsB(start, init), s);
      StableB(start, init, f, g, tg);
      StableS(SlotsB(start, init), s, f, g, tg.Shift(LenB(init)));
    }
  }

  // ----- The jumps of `break` and `continue` that a statement leaves open -----

  function PendS(s: Stmt, at: int, k: Loop): seq<int>
    decreases s, 1
  {
    match s
    case If(cs, els) => PendArms(cs, at, k) + PendElse(els, at + LenArms(cs), k)
    case Break => if k == ToBreak then [at] else []
    case Continue => if k == ToContinue then [at] else []
    case _ => []
  }

  function PendClause(c: Clause, at: int, k: Loop): seq<int>
    decreases c, 1
  {
    PendB(c.blk, at + |CodeE(c.cond)| + 1, k)
  }

  function PendArms(cs: seq<Clause>, at: int, k: Loop): seq<int>
    decreases cs, 0
  {
    if cs == [] then []
    else PendArms(cs[..|cs| - 1], at, k) + PendClause(cs[|cs| - 1], at + LenArms(cs[..|cs| - 1]), k)
  }

  function PendElse(els: ElsePart, at: int, k: Loop): seq<int>
    decreases els, 1
  {
    if els.NoElse? then [] else PendB(els.blk, at, k)
  }

  function PendB(b: seq<Stmt>, at: int, k: Loop): seq<int>
    decreases b, 0
  {
    if b == [] then [] else PendB(b[..|b| - 1], at, k) + PendS(b[|b| - 1], at + LenB(b[..|b| - 1]), k)
  }

  predicate Within(ps: seq<int>, lo: int, hi: int) {
    forall p :: p in ps ==> lo <= p < hi
  }

  lemma {:induction false} PendWithinS(s: Stmt, at: int, k: Loop)
    ensures Within(PendS(s, at, k), at, at + LenS(s))
    decreases s, 1
  {
    match s
    case If(cs, els) =>
      PendWithinClauses(cs, at, k);
      if els.Else? { PendWithinB(els.blk, at + LenArms(cs), k); }
    case _ =>
  }

  lemma {:induction false} PendWithinClauses(cs: seq<Clause>, at: int, k: Loop)
    ensures Within(PendArms(cs, at, k), at, at + LenClauses(cs)) && LenClauses(cs) <= LenArms(cs)
    decreases cs, 0
  {
    if cs != [] {
      PendWithinClauses(cs[..|cs| - 1], at, k);
      PendWithinClause(cs[|cs| - 1], at + LenArms(cs[..|cs| - 1]), k);
    }
  }

  lemma {:induction false} PendWithinClause(c: Clause, at: int, k: Loop)
    ensures Within(PendClause(c, at, k), at + |CodeE(c.cond)| + 1, at + LenClause(c))
    decreases c, 1
  {
    PendWithinB(c.blk, at + |CodeE(c.cond)| + 1, k);
  }

  lemma {:induction false} PendWithinB(b: seq<Stmt>, at: int, k: Loop)
    ensures Within(PendB(b, at, k), at, at + LenB(b))
    decreases b, 0
  {
    if b != [] {
      PendWithinB(b[..|b| - 1], at, k);
      PendWithinS(b[|b| - 1], at + LenB(b[..|b| - 1]), k);
    }
  }

  /** Giving a target to the open jumps changes exactly them. */
  ghost predicate Closes(open: seq<Instr>, closed: seq<Instr>, ps: seq<int>, at: int, t: int) {
    && |open| == |closed| && Within(ps, at, at + |open|)
    && forall i {:trigger closed[i]} {:trigger open[i]} :: 0 <= i < |open| ==>
         if at + i in ps then closed[i] == Jump(Encode(t - i)) && open[i] == Jump(0) else closed[i] == open[i]
  }

  lemma {:induction false} ClosesAppend(
      a: seq<Instr>, a': seq<Instr>, ps: seq<int>, b: seq<Instr>, b': seq<Instr>, qs: seq<int>, at: int, t: int)
    requires Closes(a, a', ps, at, t) && Closes(b, b', qs, at + |a|, t - |a|)
    ensures Closes(a + b, a' + b', ps + qs, at, t)
  {
  }

  lemma {:induction false} ClosesFixed(a: seq<Instr>, at: int, t: int)
    ensures Closes(a, a, [], at, t)
  {
  }

  lemma {:induction false} ClosesJump(
      x: seq<Instr>, x': seq<Instr>, xs: seq<int>,
      a: seq<Instr>, a': seq<Instr>, ps: seq<int>, b: seq<Instr>, at: int, t: int)
    requires Closes(a, a', ps, at, t)
    requires x == a + b + [Jump(0)] && x' == a' + b + [Jump(Encode(t - (|a| + |b|)))]
    requires xs == ps + [at + (|a| + |b|)]
    ensures Closes(x, x', xs, at, t)
  {
  }

  lemma {:induction false} ClosesS(s: Stmt, slots: seq<string>, tg: Targets, k: Loop, t: int, at: int)
    requires tg.Get(k) == None
    ensures Closes(CodeS(s, slots, tg), CodeS(s, slots, tg.With(k, t)), PendS(s, at, k), at, t)
    decreases s, 1
  {
    if s.If? {
      ClosesIf(s, slots, tg, k, t, at);
    } else if !s.Break? && !s.Continue? {
      ClosesFixed(CodeS(s, slots, tg), at, t);
    }
  }

  lemma {:induction false} ClosesIf(s: Stmt, slots: seq<string>, tg: Targets, k: Loop, t: int, at: int)
    requires tg.Get(k) == None && s.If?
    ensures Closes(CodeS(s, slots, tg), CodeS(s, slots, tg.With(k, t)), PendS(s, at, k), at, t)
    decreases s, 0
  {
    hide Closes, CodeS, PendS, CodeClauses, CodeB, PendArms, PendElse, LenS, LenArms;
    IfCode(s, slots, tg);
    IfCode(s, slots, tg.With(k, t));
    IfPend(s, at, k);
    var If(cs, els) := s;
    var (end, n) := (Some(LenS(s)), LenArms(cs));
    ClosesClauses(cs, slots, tg, k, t, at, end, els.Else?);
    if els.Else? {
      ClosesElse(els, slots, tg.Shift(n), k, t - n, at + n);
      ClosesAppend(
        CodeClauses(cs, slots, tg, end, true), CodeClauses(cs, slots, tg.With(k, t), end, true), PendArms(cs, at, k),
        CodeElse(els, slots, tg.Shift(n)), CodeElse(els, slots, tg.With(k, t).Shift(n)), PendElse(els, at + n, k), at,
        t);
    } else {
      ClosesFixed([], at + LenS(s), t - LenS(s));
      ClosesAppend(
        CodeClauses(cs, slots, tg, end, false), CodeClauses(cs, slots, tg.With(k, t), end, false), PendArms(cs, at, k),
        [], [], [], at, t);
      assert PendArms(cs, at, k) + [] == PendArms(cs, at, k);
    }
  }

  lemma {:induction false} IfPend(s: Stmt, at: int, k: Loop)
    requires s.If?
    ensures PendS(s, at, k) == PendArms(s.clauses, at, k) +
      if s.els.Else? then PendElse(s.els, at + LenArms(s.clauses), k) else []
  {
  }

  lemma {:induction false} IfCode(s: Stmt, slots: seq<string>, tg: Targets)
    requires s.If?
    ensures CodeS(s, slots, tg) ==
      CodeClauses(s.clauses, slots, tg, Some(LenS(s)), s.els.Else?)
        + CodeElse(s.els, slots, tg.Shift(LenArms(s.clauses)))
  {
  }

  lemma {:induction false} ClosesElse(els: ElsePart, slots: seq<string>, tg: Targets, k: Loop, t: int, at: int)
    requires tg.Get(k) == None
    ensures Closes(CodeElse(els, slots, tg), CodeElse(els, slots, tg.With(k, t)), PendElse(els, at, k), at, t)
    decreases els, 1
  {
    if els.Else? { ClosesB(els.blk, slots, tg, k, t, at); }
  }

  lemma {:induction false} ClosesClause(c: Clause, slots: seq<string>, tg: Targets, k: Loop, t: int, at: int, skip: int)
    requires tg.Get(k) == None
    ensures Closes(CodeClause(c, slots, tg, skip), CodeClause(c, slots, tg.With(k, t), skip), PendClause(c, at, k),
      at, t)
    decreases c, 1
  {
    hide Closes, CodeB, LenB, CodeE, Encode, PendB;
    var n := |CodeE(c.cond)| + 1;
    var head := CodeE(c.cond) + [JumpUnless(Encode(skip))];
    ClosesFixed(head, at, t);
    ClosesB(c.blk, slots, tg.Shift(n), k, t - n, at + n);
    ClosesAppend(head, head, [],
      CodeB(c.blk, slots, tg.Shift(n)), CodeB(c.blk, slots, tg.With(k, t).Shift(n)), PendB(c.blk, at + n, k), at, t);
    assert [] + PendB(c.blk, at + n, k) == PendB(c.blk, at + n, k);
  }

  lemma {:induction false} ClosesArms(
      cs: seq<Clause>, slots: seq<string>, tg: Targets, k: Loop, t: int, at: int, end: Option<int>)
    requires tg.Get(k) == None
    ensures Closes(CodeArms(cs, slots, tg, end), CodeArms(cs, slots, tg.With(k, t), end), PendArms(cs, at, k), at, t)
    decreases cs, 0
  {
    if cs != [] {
      ClosesLast(cs, slots, tg, k, t, at, end, LenB(cs[|cs| - 1].blk) + 2);
      var n := LenArms(cs) - 1;
      var jump := [JumpTo(Shifted(end, n))];
      ClosesFixed(jump, at + n, t - n);
      ClosesAppend(
        CodeInit(cs, slots, tg, end, LenB(cs[|cs| - 1].blk) + 2),
        CodeInit(cs, slots, tg.With(k, t), end, LenB(cs[|cs| - 1].blk) + 2),
        PendArms(cs, at, k), jump, jump, [], at, t);
    }
  }

  /** All arms, without a jump after the last one. */
  function CodeInit(cs: seq<Clause>, slots: seq<string>, tg: Targets, end: Option<int>, skip: int): seq<Instr>
    requires cs != []
  {
    CodeArms(cs[..|cs| - 1], slots, tg, end)
    + CodeClause(cs[|cs| - 1], slots, tg.Shift(LenArms(cs[..|cs| - 1])), skip)
  }

  lemma {:induction false} ClosesLast(
      cs: seq<Clause>, slots: seq<string>, tg: Targets, k: Loop, t: int, at: int, end: Option<int>, skip: int)
    requires tg.Get(k) == None && cs != []
    ensures Closes(CodeInit(cs, slots, tg, end, skip), CodeInit(cs, slots, tg.With(k, t), end, skip),
      PendArms(cs, at, k), at, t)
    decreases cs, 0, 0
  {
    hide CodeClause, LenClause, PendClause, Closes;
    var (init, c) := (cs[..|cs| - 1], cs[|cs| - 1]);
    var n := LenArms(init);
    ClosesArms(init, slots, tg, k, t, at, end);
    ClosesClause(c, slots, tg.Shift(n), k, t - n, at + n, skip);
    ClosesAppend(
      CodeArms(init, slots, tg, end), CodeArms(init, slots, tg.With(k, t), end), PendArms(init, at, k),
      CodeClause(c, slots, tg.Shift(n), skip), CodeClause(c, slots, tg.With(k, t).Shift(n), skip),
      PendClause(c, at + n, k), at, t);
  }

  lemma {:induction false} ClosesClauses(
      cs: seq<Clause>, slots: seq<string>, tg: Targets, k: Loop, t: int, at: int, end: Option<int>, more: bool)
    requires tg.Get(k) == None
    ensures Closes(CodeClauses(cs, slots, tg, end, more), CodeClauses(cs, slots, tg.With(k, t), end, more),
      PendArms(cs, at, k), at, t)
    decreases cs, 1
  {
    if more || cs == [] {
      ClosesArms(cs, slots, tg, k, t, at, end);
    } else {
      ClosesLast(cs, slots, tg, k, t, at, end, LenB(cs[|cs| - 1].blk) + 1);
    }
  }

  lemma {:induction false} ClosesB(b: seq<Stmt>, slots: seq<string>, tg: Targets, k: Loop, t: int, at: int)
    requires tg.Get(k) == None
    ensures Closes(CodeB(b, slots, tg), CodeB(b, slots, tg.With(k, t)), PendB(b, at, k), at, t)
    decreases b, 0
  {
    hide CodeS, LenS, PendS, Closes;
    if b == [] {
      ClosesFixed([], at, t);
    } else {
      var (init, s) := (b[..|b| - 1], b[|b| - 1]);
      var n := LenB(init);
      ClosesB(init, slots, tg, k, t, at);
      ClosesS(s, slots, tg.Shift(n), k, t - n, at + n);
      ClosesAppend(
        CodeB(init, slots, tg), CodeB(init, slots, tg.With(k, t)), PendB(init, at, k),
        CodeS(s, slots, tg.Shift(n)), CodeS(s, slots, tg.With(k, t).Shift(n)), PendS(s, at + n, k), at, t);
    }
  }

  // ----- The jumps after the arms of an `if` -----

  function EndJumps(cs: seq<Clause>, at: int): seq<int> {
    if cs == [] then [] else EndJumps(cs[..|cs| - 1], at) + [at + LenArms(cs) - 1]
  }

  lemma {:induction false} ClosesEndArms(cs: seq<Clause>, slots: seq<string>, tg: Targets, end: int, at: int)
    ensures Closes(CodeArms(cs, slots, tg, None), CodeArms(cs, slots, tg, Some(end)), EndJumps(cs, at), at, end)
    decreases cs
  {
    if cs != [] {
      ClosesEndArms(cs[..|cs| - 1], slots, tg, end, at);
      ClosesEndArm(cs[..|cs| - 1], cs[|cs| - 1], cs, slots, tg, end, at);
    }
  }

  lemma {:induction false} ClosesEndArm(
      init: seq<Clause>, c: Clause, cs: seq<Clause>, slots: seq<string>, tg: Targets, end: int, at: int)
    requires cs != [] && init == cs[..|cs| - 1] && c == cs[|cs| - 1]
    requires Closes(CodeArms(init, slots, tg, None), CodeArms(init, slots, tg, Some(end)), EndJumps(init, at), at, end)
    ensures Closes(CodeArms(cs, slots, tg, None), CodeArms(cs, slots, tg, Some(end)), EndJumps(cs, at), at, end)
  {
    hide CodeClause, CodeB, LenB, LenArms, CodeArms, LenClause, EndJumps, Closes;
    var n := LenArms(init);
    LastEndJump(init, c, cs, at);
    var b := CodeClause(c, slots, tg.Shift(n), LenB(c.blk) + 2);
    LastArm(init, c, cs, slots, tg, None);
    LastArm(init, c, cs, slots, tg, Some(end));
    ClosesJump(CodeArms(cs, slots, tg, None), CodeArms(cs, slots, tg, Some(end)), EndJumps(cs, at),
      CodeArms(init, slots, tg, None), CodeArms(init, slots, tg, Some(end)), EndJumps(init, at), b, at, end);
  }

  lemma LastEndJump(init: seq<Clause>, c: Clause, cs: seq<Clause>, at: int)
    requires cs != [] && init == cs[..|cs| - 1] && c == cs[|cs| - 1]
    ensures LenArms(cs) == LenArms(init) + LenClause(c) + 1
    ensures EndJumps(cs, at) == EndJumps(init, at) + [at + LenArms(cs) - 1]
  {
    hide LenClause;
  }

  lemma {:induction false} LastArm(
      init: seq<Clause>, c: Clause, cs: seq<Clause>, slots: seq<string>, tg: Targets, end: Option<int>)
    requires cs != [] && init == cs[..|cs| - 1] && c == cs[|cs| - 1]
    ensures var (n, b) := (LenArms(init), CodeClause(c, slots, tg.Shift(LenArms(init)), LenB(c.blk) + 2));
      CodeArms(cs, slots, tg, end) ==
        CodeArms(init, slots, tg, end) + b + [Jump(if end.None? then 0 else Encode(end.value - (n + |b|)))]
  {
    hide CodeClause, CodeB, LenB, LenArms;
  }

  // ----- Patching -----

  /** The program after the jumps at the positions have been pointed to `to`. */
  function Patched(prog: seq<Instr>, ps: seq<int>, to: int): (r: seq<Instr>)
    ensures |r| == |prog|
  {
    seq(|prog|, i requires 0 <= i < |prog| => if i in ps then Jump(Encode(to - i)) else prog[i])
  }

  lemma {:induction false} PatchedSegment(
      pre: seq<Instr>, open: seq<Instr>, closed: seq<Instr>, post: seq<Instr>, ps: seq<int>, to: int)
    requires Closes(open, closed, ps, |pre|, to - |pre|)
    ensures Patched(pre + open + post, ps, to) == pre + closed + post
  {
    var (p, q) := (Patched(pre + open + post, ps, to), pre + closed + post);
    forall i | 0 <= i < |p| ensures p[i] == q[i] {
      if |pre| <= i < |pre| + |open| {
        assert closed[i - |pre|] == q[i];
      }
    }
  }
}
