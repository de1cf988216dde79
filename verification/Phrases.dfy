/** What assignments, conditions and the ends of loops do, in terms of the primitive operations, and what some whole
    programs mean. */
module Phrases {
  import opened Common
  import opened Bytecode
  import opened Syntax
  import opened Codegen
  import opened Grammar
  import opened StmtGrammar
  import opened Machine
  import opened Semantics
  import opened Resolution
  import opened Loading
  import opened DepthScan
  import opened Correctness

  // ----- Assignments to elements -----

  lemma PerformIs(ops: Ops, o: BinOp, a: Aop)
    requires BinInstr(o) == Arith(a)
    ensures forall l, r, w :: Perform(ops, a, l, r, w) == Binary2(ops, o, l, r, w)
  {
  }

  /** `c[i] op= v` in the machine: the element is the left operand, and the result takes its place. */
  lemma ElementUpdated(code: Code, ops: Ops, c: Config, o: BinOp, a: Aop)
    requires c.Running? && |c.stack| >= 3 && BinInstr(o) == Arith(a)
    ensures var n := |c.stack|;
      var (place, rest, d) := (ops.cell(c.stack[n - 3], c.stack[n - 2], c.w.heap), c.stack[..n - 3],
        Exec(code, ops, ModifyAt(a), c));
      match place
      case None => d == Failed(c.w)
      case Some((k, h)) =>
        match Binary2(ops, o, ops.fetch(k, h), c.stack[n - 1], c.w.(heap := h))
        case None => d == Failed(c.w.(heap := h))
        case Some((x, w2)) => d == Running(c.ip + 1, rest, c.base, c.calls, w2.(heap := ops.put(k, x, w2.heap)))
  {
    var n := |c.stack|;
    UpdateWrites(ops, o, a, c.stack[n - 3], c.stack[n - 2], c.stack[n - 1], c.w);
    hide UpdateAt, Binary2, BinInstr;
  }

  /** `c[i] = v` in the machine. */
  lemma ElementStored(code: Code, ops: Ops, c: Config)
    requires c.Running? && |c.stack| >= 3
    ensures var n := |c.stack|;
      var (place, rest, d) := (ops.cell(c.stack[n - 3], c.stack[n - 2], c.w.heap), c.stack[..n - 3],
        Exec(code, ops, StoreAt, c));
      match place
      case None => d == Failed(c.w)
      case Some((k, h)) =>
        d == Running(c.ip + 1, rest, c.base, c.calls, c.w.(heap := ops.put(k, c.stack[n - 1], h)))
  {
  }

  /** The container, the index and the right-hand side are computed in this order. */
  ghost predicate Computes(t: Table, ops: Ops, es: (Expr, Expr, Expr), env: Env, w: World, fuel: nat,
      vs: (Value, Value, Value), w': World)
  {
    var c := EvalE(t, ops, es.0, env, w, fuel);
    c.Got? && c.v == vs.0 &&
    var i := EvalE(t, ops, es.1, env, c.w, fuel);
    i.Got? && i.v == vs.1 && EvalE(t, ops, es.2, env, i.w, fuel) == Got(vs.2, w')
  }

  /** `b[i] op= e` in a program. */
  lemma UpdateMeans(t: Table, ops: Ops, b: Expr, i: Expr, e: Expr, o: BinOp, a: Aop, env: Env, w: World, fuel: nat,
      vs: (Value, Value, Value), w': World)
    requires Computes(t, ops, (b, i, e), env, w, fuel, vs, w') && BinInstr(o) == Arith(a)
    ensures var r := ExecSimple(t, ops, Assign(Modify(a), Index(b, i), e), env, w, fuel);
      match ops.cell(vs.0, vs.1, w'.heap)
      case None => r == Error(w')
      case Some((k, h)) =>
        match Binary2(ops, o, ops.fetch(k, h), vs.2, w'.(heap := h))
        case None => r == Error(w'.(heap := h))
        case Some((x, w2)) => r == Normal(env, w2.(heap := ops.put(k, x, w2.heap)))
  {
    ElementMeans(t, ops, Modify(a), b, i, e, env, w, fuel, vs, w');
    UpdateWrites(ops, o, a, vs.0, vs.1, vs.2, w');
    hide ExecSimple, UpdateAt, Binary2, BinInstr, EvalE, Computes;
  }

  lemma UpdateWrites(ops: Ops, o: BinOp, a: Aop, c: Value, i: Value, v: Value, w: World)
    requires BinInstr(o) == Arith(a)
    ensures var r := UpdateAt(ops, a, c, i, v, w);
      match ops.cell(c, i, w.heap)
      case None => r == Broken(w)
      case Some((k, h)) =>
        match Binary2(ops, o, ops.fetch(k, h), v, w.(heap := h))
        case None => r == Broken(w.(heap := h))
        case Some((x, w2)) => r == Done(w2.(heap := ops.put(k, x, w2.heap)))
  {
    PerformIs(ops, o, a);
    hide Perform, Binary2, BinInstr;
  }

  /** `b[i] = e` in a program. */
  lemma StoreMeans(t: Table, ops: Ops, b: Expr, i: Expr, e: Expr, env: Env, w: World, fuel: nat,
      vs: (Value, Value, Value), w': World)
    requires Computes(t, ops, (b, i, e), env, w, fuel, vs, w')
    ensures var r := ExecSimple(t, ops, Assign(Store, Index(b, i), e), env, w, fuel);
      match ops.cell(vs.0, vs.1, w'.heap)
      case None => r == Error(w')
      case Some((k, h)) => r == Normal(env, w'.(heap := ops.put(k, vs.2, h)))
  {
    ElementMeans(t, ops, Store, b, i, e, env, w, fuel, vs, w');
    hide ExecSimple;
  }

  lemma ElementMeans(t: Table, ops: Ops, k: Kind, b: Expr, i: Expr, e: Expr, env: Env, w: World, fuel: nat,
      vs: (Value, Value, Value), w': World)
    requires Computes(t, ops, (b, i, e), env, w, fuel, vs, w')
    ensures ExecSimple(t, ops, Assign(k, Index(b, i), e), env, w, fuel) ==
      AssignAt(ops, k, vs.0, vs.1, vs.2, env, w')
  {
    hide EvalE, AssignAt;
  }

  // ----- Assignments to variables, and output -----

  /** `x op= e`: e is computed first, and the variable is the left operand. */
  lemma VariableUpdated(t: Table, ops: Ops, x: string, e: Expr, o: BinOp, a: Aop, env: Env, w: World, fuel: nat,
      v: Value, w': World)
    requires EvalE(t, ops, e, env, w, fuel) == Got(v, w') && BinInstr(o) == Arith(a)
    ensures var r := ExecSimple(t, ops, Assign(Modify(a), Var(x), e), env, w, fuel);
      if x in env then
        match Binary2(ops, o, env[x], v, w')
        case None => r == Error(w')
        case Some((y, w2)) => r == Normal(env[x := y], w2)
      else if x in w'.globals then
        match Binary2(ops, o, w'.globals[x], v, w')
        case None => r == Error(w')
        case Some((y, w2)) => r == Normal(env, w2.(globals := w2.globals[x := y]))
      else r == Error(w')
  {
    PerformIs(ops, o, a);
    hide EvalE, Perform, Binary2, BinInstr;
  }

  /** `x = e` and `x := e`: only the second one makes a variable local. */
  lemma VariableStored(t: Table, ops: Ops, x: string, e: Expr, env: Env, w: World, fuel: nat, v: Value, w': World)
    requires EvalE(t, ops, e, env, w, fuel) == Got(v, w')
    ensures ExecSimple(t, ops, Assign(Store, Var(x), e), env, w, fuel) ==
      if x in env then Normal(env[x := v], w') else Normal(env, w'.(globals := w'.globals[x := v]))
    ensures ExecSimple(t, ops, Assign(StoreHere, Var(x), e), env, w, fuel) == Normal(env[x := v], w')
    ensures ExecSimple(t, ops, PrintExpr(e), env, w, fuel) ==
      Normal(env, w'.(out := w'.out + ops.repr(v, w'.heap)))
  {
    hide EvalE;
  }

  // ----- Conditions -----

  predicate IsFalse(v: Value) { v == Nil || v == Flag(false) }

  /** Only nil and false are not true. */
  lemma Conditions(t: Table, ops: Ops, v: Value, a: seq<Stmt>, b: seq<Stmt>, pos: int, env: Env, w: World, fuel: nat)
    ensures ExecS(t, ops, If([Clause(Const(v), a)], Else(b)), pos, env, w, fuel) ==
      if IsFalse(v) then ExecB(t, ops, b, pos + LenB(a) + 3, env, w, fuel)
      else ExecB(t, ops, a, pos + 2, env, w, fuel)
    ensures fuel > 0 && IsFalse(v) ==> ExecS(t, ops, While(Const(v), a), pos, env, w, fuel) == Normal(env, w)
  {
    hide ExecB, LenB;
    var (c, cs) := (Clause(Const(v), a), [Clause(Const(v), a)]);
    assert cs[..0] == [];
    assert LenArms([]) == 0 && LenArms(cs) == LenB(a) + 3;
    assert ExecArms(t, ops, [], pos, env, w, fuel) == Untaken(w);
    assert ExecArms(t, ops, cs, pos, env, w, fuel) == ExecClause(t, ops, c, pos, env, w, fuel);
    assert EvalE(t, ops, Const(v), env, w, fuel) == Got(v, w) && |CodeE(Const(v))| == 1;
  }

  /** The conditional jump of the machine. */
  lemma ConditionalJump(code: Code, ops: Ops, c: Config, d: nat)
    requires c.Running? && c.stack != []
    ensures var n := |c.stack| - 1;
      Exec(code, ops, JumpUnless(d), c) ==
        Running(if IsFalse(c.stack[n]) then c.ip + Bytecode.Decode(d) else c.ip + 1, c.stack[..n], c.base, c.calls, c.w)
  {
  }

  // ----- The ends of loops -----

  lemma OneExit(t: Table, ops: Ops, pos: int, env: Env, w: World, fuel: nat)
    ensures ExecB(t, ops, [Break], pos, env, w, fuel) == Broke(env, w)
    ensures ExecB(t, ops, [Continue], pos, env, w, fuel) == Continued(env, w)
  {
    assert [Break][..0] == [] && [Continue][..0] == [];
    assert ExecB(t, ops, [], pos, env, w, fuel) == Normal(env, w);
  }

  /** `break` leaves the loop, and the post clause is not executed. */
  lemma BreakLeaves(t: Table, ops: Ops, v: Value, p: Option<Simple>, pos: int, env: Env, w: World, fuel: nat)
    requires fuel > 0
    ensures ExecS(t, ops, While(Const(v), [Break]), pos, env, w, fuel) == Normal(env, w)
    ensures ExecS(t, ops, For(None, Some(Const(v)), p, [Break]), pos, env, w, fuel) == Normal(env, w)
  {
    OneExit(t, ops, pos + 2, env, w, fuel);
    hide ExecB;
    assert |CodeE(Const(v))| == 1 && LenTest(Some(Const(v))) == 2 && LenOpt(None) == 0;
    assert EvalE(t, ops, Const(v), env, w, fuel) == Got(v, w);
    assert EvalTest(t, ops, Some(Const(v)), env, w, fuel) == Got(v, w);
    assert ExecOpt(t, ops, None, env, w, fuel) == Normal(env, w);
  }

  /** `continue` goes on with the condition of a `while`, which therefore never ends if it holds, and with the post
      clause of a `for`. */
  lemma {:induction false} ContinueRepeats(t: Table, ops: Ops, v: Value, pos: int, env: Env, w: World, fuel: nat)
    requires !IsFalse(v)
    ensures ExecS(t, ops, While(Const(v), [Continue]), pos, env, w, fuel) == OutOfFuel
    decreases fuel
  {
    if fuel > 0 {
      OneExit(t, ops, pos + 2, env, w, fuel);
      ContinueRepeats(t, ops, v, pos, env, w, fuel - 1);
      hide ExecB;
      assert |CodeE(Const(v))| == 1 && EvalE(t, ops, Const(v), env, w, fuel) == Got(v, w);
    }
  }

  lemma ContinueInFor(t: Table, ops: Ops, v: Value, p: Option<Simple>, pos: int, env: Env, w: World, fuel: nat)
    requires !IsFalse(v) && fuel > 0
    ensures var s := For(None, Some(Const(v)), p, [Continue]);
      var o := ExecOpt(t, ops, p, env, w, fuel);
      ExecS(t, ops, s, pos, env, w, fuel) ==
        if o.Normal? then ExecS(t, ops, s, pos, o.env, o.w, fuel - 1) else o
  {
    OneExit(t, ops, pos + 2, env, w, fuel);
    hide ExecB, ExecSimple;
    assert LenTest(Some(Const(v))) == 2 && LenOpt(None) == 0;
    assert EvalTest(t, ops, Some(Const(v)), env, w, fuel) == Got(v, w);
    assert forall env', w', fuel' :: ExecOpt(t, ops, None, env', w', fuel') == Normal(env', w');
  }

  // ----- The forms of statements -----

  function SetTo(x: string, k: Kind, v: Value): Simple { Assign(k, Var(x), Const(v)) }

  lemma SetToText(x: string, k: Kind, v: Value)
    ensures TextSimple(SetTo(x, k, v)) == [Ident(x), KindToken(k), Literal(v)] && FitsSimple(SetTo(x, k, v))
  {
    assert TextE(Var(x)) == [Ident(x)] && TextE(Const(v)) == [Literal(v)];
    assert [Ident(x)] + [KindToken(k)] + [Literal(v)] == [Ident(x), KindToken(k), Literal(v)];
  }

  function ForTree(x: string, v: Value, c: Value, y: string, a: Aop, u: Value): Stmt {
    For(Some(Assign(Store, Var(x), Const(v))), Some(Const(c)), Some(Assign(Modify(a), Var(y), Const(u))), [])
  }

  /** `for (x = v; c; y op= u) {}` */
  lemma ForForm(x: string, v: Value, c: Value, y: string, a: Aop, u: Value)
    ensures ParseS([KwFor, LParen, Ident(x), Assign1, Literal(v), Semicolon, Literal(c), Semicolon,
        Ident(y), OpEq(a), Literal(u), RParen, LBrace, RBrace], false) == Some((ForTree(x, v, c, y, a, u), []))
  {
    hide ParseS, TextS, FitsS, ForTree;
    ForText(x, v, c, y, a, u);
    var ts := TextS(ForTree(x, v, c, y, a, u));
    assert ts + [] == ts;
    ReadsS(ForTree(x, v, c, y, a, u), false, []);
  }

  lemma ForText(x: string, v: Value, c: Value, y: string, a: Aop, u: Value)
    ensures FitsS(ForTree(x, v, c, y, a, u), false)
    ensures TextS(ForTree(x, v, c, y, a, u)) == [KwFor, LParen, Ident(x), Assign1, Literal(v), Semicolon, Literal(c),
      Semicolon, Ident(y), OpEq(a), Literal(u), RParen, LBrace, RBrace]
  {
    SetToText(x, Store, v);
    SetToText(y, Modify(a), u);
    hide TextSimple, FitsSimple;
    assert TextSs([], 0) == [] && TextE(Const(c)) == [Literal(c)] && FitsB([], true);
  }

  function IfTree(c: Value, u: Value, d: Value): Stmt {
    If([Clause(Const(c), [ReturnVal(Const(u))]), Clause(Const(d), [])], Else([ReturnNil]))
  }

  /** `if (c) { return u; } elif (d) {} else { return; }` */
  lemma IfForm(c: Value, u: Value, d: Value)
    ensures ParseS([KwIf, LParen, Literal(c), RParen, LBrace, KwReturn, Literal(u), Semicolon, RBrace,
        KwElif, LParen, Literal(d), RParen, LBrace, RBrace, KwElse, LBrace, KwReturn, Semicolon, RBrace], false) ==
      Some((IfTree(c, u, d), []))
  {
    hide ParseS, TextS, FitsS, IfTree;
    IfText(c, u, d);
    IfFits(c, u, d);
    assert TextS(IfTree(c, u, d)) + [] == TextS(IfTree(c, u, d));
    ReadsS(IfTree(c, u, d), false, []);
  }

  lemma IfText(c: Value, u: Value, d: Value)
    ensures TextS(IfTree(c, u, d)) == [KwIf, LParen, Literal(c), RParen, LBrace, KwReturn, Literal(u), Semicolon,
      RBrace,
      KwElif, LParen, Literal(d), RParen, LBrace, RBrace, KwElse, LBrace, KwReturn, Semicolon, RBrace]
  {
    var s := IfTree(c, u, d);
    FirstArmText(c, u);
    assert TextClause(s.clauses[1]) == [LParen, Literal(d), RParen, LBrace, RBrace] by {
      assert TextSs([], 0) == [] && TextE(Const(d)) == [Literal(d)];
    }
    assert TextElse(s.els) == [KwElse, LBrace, KwReturn, Semicolon, RBrace] by {
      assert TextSs([ReturnNil], 1) == [] && TextSs([ReturnNil], 0) == [KwReturn, Semicolon] + [];
    }
    hide TextClause, TextElse;
    assert TextClauses(s.clauses, 1) == TextClause(s.clauses[1]);
    assert TextClauses(s.clauses, 0) == TextClause(s.clauses[0]) + [KwElif] + TextClauses(s.clauses, 1);
  }

  lemma FirstArmText(c: Value, u: Value)
    ensures TextClause(Clause(Const(c), [ReturnVal(Const(u))])) ==
      [LParen, Literal(c), RParen, LBrace, KwReturn, Literal(u), Semicolon, RBrace]
  {
    var s := ReturnVal(Const(u));
    assert TextE(Const(c)) == [Literal(c)] && TextE(Const(u)) == [Literal(u)];
    assert TextSs([s], 1) == [] && TextS(s) == [KwReturn, Literal(u), Semicolon];
    assert TextSs([s], 0) == TextS(s) + [];
  }

  lemma IfFits(c: Value, u: Value, d: Value)
    ensures FitsS(IfTree(c, u, d), false)
  {
    assert FitsB([], false) && FitsB([ReturnVal(Const(u))], false) && FitsB([ReturnNil], false);
  }

  function FunTree(f: string, x: string, y: string): Stmt { FunDecl(f, [x, y], [ReturnVal(Var(x))]) }

  /** `fun f(x, y) { return x; }` */
  lemma FunForm(f: string, x: string, y: string)
    requires x != y
    ensures ParseS([KwFun, Ident(f), LParen, Ident(x), Comma, Ident(y), RParen, LBrace, KwReturn, Ident(x), Semicolon,
        RBrace], false) == Some((FunTree(f, x, y), []))
  {
    hide ParseS, TextS, FitsS, FunTree;
    FunTreeText(f, x, y);
    FunTreeFits(f, x, y);
    assert TextS(FunTree(f, x, y)) + [] == TextS(FunTree(f, x, y));
    ReadsS(FunTree(f, x, y), false, []);
  }

  lemma FunTreeText(f: string, x: string, y: string)
    ensures TextS(FunTree(f, x, y)) ==
      [KwFun, Ident(f), LParen, Ident(x), Comma, Ident(y), RParen, LBrace, KwReturn, Ident(x), Semicolon, RBrace]
  {
    var (ps, s) := ([x, y], ReturnVal(Var(x)));
    assert TextParams(ps, 1) == [Ident(y)] && TextParams(ps, 0) == [Ident(x), Comma] + [Ident(y)];
    assert TextE(Var(x)) == [Ident(x)] && TextSs([s], 1) == [] && TextS(s) == [KwReturn, Ident(x), Semicolon];
    assert TextSs([s], 0) == TextS(s) + [];
  }

  lemma FunTreeFits(f: string, x: string, y: string)
    requires x != y
    ensures FitsS(FunTree(f, x, y), false)
  {
    hide FunFits;
    var (ps, s) := ([x, y], ReturnVal(Var(x)));
    assert [s][..0] == [] && FitsS(s, false) && FitsB([s], false);
    FitsIsGoodB([s], false);
    assert CleanB([]) && LenB([]) == 0 && SlotsB(ps, []) == ps;
    assert CleanS(s) && LenS(s) == 2 && SlotsS(ps, s) == ps;
    assert CleanB([s]) && LenB([s]) == 2 && SlotsB(ps, [s]) == ps;
    CleanFits(ps, [s]);
  }

  // ----- Whole programs -----

  /** `while (v) { break; } return u;`, or with `continue`. */
  function LoopAndReturn(v: Value, exit: Token, u: Value): Tokens {
    [KwWhile, LParen, Literal(v), RParen, LBrace, exit, Semicolon, RBrace, KwReturn, Literal(u), Semicolon]
  }

  function LoopTree(v: Value, exit: Stmt, u: Value): seq<Stmt> { [While(Const(v), [exit]), ReturnVal(Const(u))] }

  lemma LoopTreeText(v: Value, exit: Stmt, u: Value)
    requires exit.Break? || exit.Continue?
    ensures TextSs(LoopTree(v, exit, u), 0) == LoopAndReturn(v, if exit.Break? then KwBreak else KwContinue, u)
  {
    var (b, loop, last) := (LoopTree(v, exit, u), While(Const(v), [exit]), ReturnVal(Const(u)));
    var t := if exit.Break? then KwBreak else KwContinue;
    assert TextSs([exit], 1) == [] && TextSs([exit], 0) == [t, Semicolon] + [];
    assert TextBlock([exit]) == [LBrace] + [t, Semicolon] + [RBrace];
    assert TextS(loop) == [KwWhile, LParen] + [Literal(v)] + [RParen] + ([LBrace] + [t, Semicolon] + [RBrace]);
    assert TextS(last) == [KwReturn] + [Literal(u)] + [Semicolon];
    assert TextSs(b, 2) == [];
    assert TextSs(b, 1) == TextS(last) + [];
    assert TextSs(b, 0) == TextS(loop) + TextSs(b, 1);
  }

  lemma LoopTreeFits(v: Value, exit: Stmt, u: Value)
    requires exit.Break? || exit.Continue?
    ensures var b := LoopTree(v, exit, u); FitsB(b, false) && CleanB(b) && LenB(b) == 6 && SlotsB([], b) == []
  {
    var (b, loop, last) := (LoopTree(v, exit, u), While(Const(v), [exit]), ReturnVal(Const(u)));
    assert [exit][..0] == [] && b[..1] == [loop] && b[..1][..0] == [];
    assert FitsB([exit], true) && FitsS(loop, false) && FitsS(last, false);
    assert LenB([]) == 0 && SlotsB([], []) == [] && CleanB([]) && CleanS(exit);
    assert LenB([exit]) == 1 && SlotsB([], [exit]) == [] && CleanB([exit]);
    assert LenS(loop) == 4 && SlotsS([], loop) == [] && CleanS(loop);
    assert LenB([loop]) == 0 + LenS(loop) && SlotsB([], [loop]) == SlotsS([], loop) && CleanB([loop]);
    assert LenS(last) == 2;
  }

  lemma LoopParses(v: Value, exit: Stmt, u: Value)
    requires exit.Break? || exit.Continue?
    ensures ParseProgram(LoopAndReturn(v, if exit.Break? then KwBreak else KwContinue, u)) ==
      Some(LoopTree(v, exit, u))
  {
    hide LoopTree, FitsB, CleanB, LenB, SlotsB, TextSs, ParseProgram, FunFits, GoodB, LoopAndReturn;
    var b := LoopTree(v, exit, u);
    LoopTreeText(v, exit, u);
    LoopTreeFits(v, exit, u);
    FitsIsGoodB(b, false);
    CleanFits([], b);
    ProgramReadsBack(b);
  }

  /** `while (v) { break; } return u;` returns u. */
  lemma BreakProgram(v: Value, u: Value, ops: Ops, w: World, fuel: nat)
    requires fuel > 0
    ensures var p := ParseProgram(LoopAndReturn(v, KwBreak, u));
      p.Some? && MeaningOf(p.value, ops, w, fuel) == Got(u, w)
  {
    LoopParses(v, Break, u);
    var (b, env) := (LoopTree(v, Break, u), InitialEnv(Fun([], LoopTree(v, Break, u)), []));
    hide ParseProgram, InitialEnv;
    BreakLeaves(TableOf(b), ops, v, None, 1, env, w, fuel);
    LoopThenReturn(TableOf(b), ops, v, Break, u, env, w, fuel);
  }

  /** `while (v) { continue; } return u;` never ends if v is true. */
  lemma ContinueProgram(v: Value, u: Value, ops: Ops, w: World, fuel: nat)
    requires !IsFalse(v)
    ensures var p := ParseProgram(LoopAndReturn(v, KwContinue, u));
      p.Some? && MeaningOf(p.value, ops, w, fuel) == NoFuel
  {
    LoopParses(v, Continue, u);
    var (b, env) := (LoopTree(v, Continue, u), InitialEnv(Fun([], LoopTree(v, Continue, u)), []));
    hide ParseProgram, InitialEnv;
    ContinueRepeats(TableOf(b), ops, v, 1, env, w, fuel);
    LoopThenReturn(TableOf(b), ops, v, Continue, u, env, w, fuel);
  }

  lemma LoopThenReturn(t: Table, ops: Ops, v: Value, exit: Stmt, u: Value, env: Env, w: World, fuel: nat)
    ensures var o := ExecS(t, ops, While(Const(v), [exit]), 1, env, w, fuel);
      ExecB(t, ops, LoopTree(v, exit, u), 1, env, w, fuel) == if o.Normal? then Returned(u, o.w) else o
  {
    var (b, loop) := (LoopTree(v, exit, u), While(Const(v), [exit]));
    assert b[..1] == [loop] && b[..1][..0] == [] && LenB([]) == 0;
    hide ExecWhile;
    assert ExecB(t, ops, [], 1, env, w, fuel) == Normal(env, w);
    assert ExecB(t, ops, b[..1], 1, env, w, fuel) == ExecS(t, ops, loop, 1, env, w, fuel);
    Returns(t, ops, u, 1 + LenB(b[..1]), fuel);
    hide ExecS;
  }

  lemma Returns(t: Table, ops: Ops, u: Value, pos: int, fuel: nat)
    ensures forall env, w :: ExecS(t, ops, ReturnVal(Const(u)), pos, env, w, fuel) == Returned(u, w)
  {
  }
}
