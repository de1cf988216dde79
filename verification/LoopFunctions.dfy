/** Programs with a function in a `for` with a post clause that the compiler gets wrong: it leaves a name unresolved,
    reserves too little space for the operands, or refuses a program that is not too big. */
module LoopFunctions {
  import opened Common
  import opened Bytecode
  import opened Syntax
  import opened Codegen
  import opened Grammar
  import opened ExprGrammar
  import opened StmtGrammar
  import opened Resolution
  import opened Semantics
  import opened StackDepth
  import opened Reserve
  import opened Programs
  import opened Machine
  import opened Symbols

  /** `for (;; m) { fun f() {} }` */
  function Input(m: Simple, f: string): Tokens {
    [KwFor, LParen, Semicolon, Semicolon] + TextSimple(m) + [RParen]
    + [LBrace, KwFun, Ident(f), LParen, RParen, LBrace, RBrace, RBrace]
  }

  function Tree(m: Simple, f: string): seq<Stmt> {
    [For(None, None, Some(m), [FunDecl(f, [], [])])]
  }

  /** `x += v` */
  function Increment(x: string, v: Value): Simple { Assign(Modify(Add), Var(x), Const(v)) }

  /** `x = [v, v, v]` */
  function Three(x: string, v: Value): Simple { Assign(Store, Var(x), ListLit([Const(v), Const(v), Const(v)])) }

  // ----- The programs are in the grammar -----

  lemma EmptyFits()
    ensures FunFits([], [])
  {
    var raw := [LoadConst(Nil), Return];
    assert RawBody([], []) == raw && FunSpans([]) == [Span(0, 2)];
    assert ScanMax(raw, [Span(0, 2)], 0, 1, 1, 1) == 1;
  }

  /** The text of a `for` without initialization and condition. */
  lemma LoopText(m: Simple, body: seq<Stmt>)
    ensures var b := [For(None, None, Some(m), body)];
      TextSs(b, 0) == [KwFor, LParen, Semicolon, Semicolon] + TextSimple(m) + [RParen] + [LBrace] + TextSs(body, 0)
        + [RBrace]
  {
    hide TextSimple;
    var b := [For(None, None, Some(m), body)];
    assert TextSs(b, 1) == [];
    assert TextSs(b, 0) == TextS(b[0]) + [];
  }

  lemma InputIsText(m: Simple, f: string)
    ensures TextSs(Tree(m, f), 0) == Input(m, f)
  {
    hide TextSimple;
    var fun := FunDecl(f, [], []);
    LoopText(m, [fun]);
    assert TextSs([fun], 1) == [] && TextSs([], 0) == [];
    assert TextS(fun) == [KwFun, Ident(f), LParen] + [] + [RParen] + ([LBrace] + [] + [RBrace]);
    assert TextSs([fun], 0) == TextS(fun) + [];
  }

  lemma TreeFits(m: Simple, f: string)
    requires FitsSimple(m) && m.Assign?
    ensures FitsB(Tree(m, f), false)
  {
    hide FitsSimple, FunFits;
    EmptyFits();
    var fun := FunDecl(f, [], []);
    assert NoDup<string>([]) && FitsB([], false);
    assert FitsS(fun, true);
    assert FitsB([fun], true);
  }

  lemma Accepted(k: Kind, x: string, r: Expr, f: string)
    requires var m := Assign(k, Var(x), r); Fits(r, -1) && FunFits([], Tree(m, f))
    ensures var m := Assign(k, Var(x), r); ParseProgram(Input(m, f)) == Some(Tree(m, f))
  {
    hide Fits, FunFits, Tree, Input, ParseProgram, FitsB;
    var m := Assign(k, Var(x), r);
    assert FitsSimple(m) by { VarFits(x); }
    TreeFits(m, f);
    InputIsText(m, f);
    ProgramReadsBack(Tree(m, f));
  }

  lemma VarFits(x: string)
    ensures Fits(Var(x), -1)
  {
  }

  // ----- Their code -----

  /** The body of the program before its names are resolved. */
  function Raw(m: Simple, f: string): seq<Instr> {
    [Function(FunShape([], [])), LoadConst(Nil), Return, StoreSymbolic(f)] + CodeSimple(m, [])
    + [Jump(Encode(-(4 + LenSimple(m))))] + [LoadConst(Nil), Return]
  }

  lemma RawCode(m: Simple, f: string)
    ensures RawBody(Tree(m, f), []) == Raw(m, f)
  {
    hide FunShape, Encode, CodeFor, CodeB, CodeSimple, LenSimple;
    LoopCodeIs(m, f);
    var (b, loop) := (Tree(m, f), Tree(m, f)[0]);
    OneCode(loop, [], NO_TARGETS);
    assert CodeS(loop, [], NO_TARGETS.Shift(0)) == [] + CodeFor(None, Some(m), [FunDecl(f, [], [])], []);
  }

  lemma LoopCodeIs(m: Simple, f: string)
    ensures CodeFor(None, Some(m), [FunDecl(f, [], [])], []) + [LoadConst(Nil), Return] == Raw(m, f)
  {
    hide FunShape, Encode, CodeB, FunCode, LenB, CodeSimple, LenSimple;
    NestedCode();
    var fun := FunDecl(f, [], []);
    OneCode(fun, [], Targets(Some(4 + LenSimple(m) + 1), Some(4)));
  }

  lemma NestedCode()
    ensures FunCode([], []) == [Function(FunShape([], [])), LoadConst(Nil), Return] && LenB([]) == 0
  {
    hide FunShape;
  }

  /** The function begins at the first instruction, but the compiler believes its body to be where it was before
      the loop was rotated. */
  lemma Believed(m: Simple, f: string)
    requires SlotsSimple([], m) == []
    ensures var (b, n) := (Tree(m, f), LenSimple(m));
      && HolesB(b, 0) == [Span(n + 1, n + 3)] && FunSpans(b) == [Span(0, n + 1), Span(n + 3, n + 7)]
      && SlotsB([], b) == [] && LenB(b) == n + 5
  {
    hide LenSimple, SlotsSimple;
    var n := LenSimple(m);
    LoopHoles(m, f, [], []);
    OneHole(0, Span(n + 1, n + 3), n + 7);
    var (b, body) := (Tree(m, f), [FunDecl(f, [], [])]);
    assert body[..0] == [] && b[..0] == [];
    assert LenB(body) == 4 && LenB(b) == LenS(b[0]) == n + 5;
    assert SlotsB([], body) == [] && SlotsB([], b) == SlotsS([], b[0]) == [];
  }

  lemma Fitting(m: Simple, f: string)
    requires SlotsSimple([], m) == [] && LenSimple(m) <= 1000
    requires var n := LenSimple(m); MaxStack(Raw(m, f), [Span(0, n + 1), Span(n + 3, n + 7)]) <= 3
    ensures FunFits([], Tree(m, f))
    ensures var n := LenSimple(m); FunShape([], Tree(m, f)).maxstack == MaxStack(Raw(m, f),
      [Span(0, n + 1), Span(n + 3, n + 7)])
  {
    hide Tree, Raw, SlotsB, LenB, MaxStack, FunSpans, CodeB, SlotsSimple, LenSimple;
    Believed(m, f);
    RawCode(m, f);
  }

  lemma OneStep(raw: seq<Instr>, spans: seq<Span>, i: nat, j: nat, depth: nat, max: nat, d: nat)
    requires i < |spans| && j < spans[i].end && j < |raw| && d == depth + Effect(raw[j]) < SIZE_T
    ensures ScanMax(raw, spans, i, j, depth, max) == ScanMax(raw, spans, i, j + 1, d, if max < d then d else max)
  {
  }

  lemma NextSpan(raw: seq<Instr>, spans: seq<Span>, i: nat, j: nat, depth: nat, max: nat, to: int)
    requires i < |spans| && j >= spans[i].end && to == if i + 1 < |spans| then spans[i + 1].begin else 0
    ensures ScanMax(raw, spans, i, j, depth, max) == ScanMax(raw, spans, i + 1, to, depth, max)
  {
  }

  lemma NoSpan(raw: seq<Instr>, spans: seq<Span>, depth: nat, max: nat)
    ensures ScanMax(raw, spans, |spans|, 0, depth, max) == max
  {
  }

  // ----- A name is left -----

  lemma IncrementScanned(x: string, v: Value, f: string)
    ensures MaxStack(Raw(Increment(x, v), f), [Span(0, 3), Span(5, 9)]) == 2 && LenSimple(Increment(x, v)) == 2
  {
    hide FunShape, Encode, ScanMax;
    var (raw, spans) := (Raw(Increment(x, v), f), [Span(0, 3), Span(5, 9)]);
    assert CodeSimple(Increment(x, v), []) == [] + [LoadConst(v)] + [ModifySymbolic(Add, x)];
    OneStep(raw, spans, 0, 0, 0, 0, 1);
    OneStep(raw, spans, 0, 1, 1, 1, 2);
    OneStep(raw, spans, 0, 2, 2, 2, 1);
    NextSpan(raw, spans, 0, 3, 1, 2, 5);
    OneStep(raw, spans, 1, 5, 1, 2, 0);
    OneStep(raw, spans, 1, 6, 0, 2, 0);
    OneStep(raw, spans, 1, 7, 0, 2, 1);
    OneStep(raw, spans, 1, 8, 1, 2, 0);
    NextSpan(raw, spans, 1, 9, 0, 2, 0);
    NoSpan(raw, spans, 0, 2);
  }

  /** The compiler accepts `for (;; x += v) { fun f() {} }`, but the store of the function stays symbolic. */
  lemma NameIsLeft(x: string, v: Value, f: string)
    ensures var (m, b) := (Increment(x, v), Tree(Increment(x, v), f));
      && ParseProgram(Input(m, f)) == Some(b) && !Settled(b)
      && 4 < |FunCode([], b)| && FunCode([], b)[4] == StoreSymbolic(f)
  {
    hide FunCode, Input, ParseProgram, FunFits, Untouched, Tree, Raw, MaxStack;
    var m := Increment(x, v);
    StoreIsLeft(m, f);
    ResolvedIff([], Tree(m, f));
    IncrementScanned(x, v, f);
    Fitting(m, f);
    Accepted(Modify(Add), x, Const(v), f);
  }

  lemma StoreIsLeft(m: Simple, f: string)
    requires LenSimple(m) <= 2
    ensures var code := FunCode([], Tree(m, f)); 4 < |code| && code[4] == StoreSymbolic(f)
  {
    NestedCode();
    StoreLeftSymbolic([], m, f, [], []);
  }

  // ----- The space does not suffice -----

  lemma ThreeScanned(x: string, v: Value, f: string)
    ensures MaxStack(Raw(Three(x, v), f), [Span(0, 6), Span(8, 12)]) == 2 && LenSimple(Three(x, v)) == 5
  {
    hide FunShape, Encode, ScanMax, CodeSimple;
    var (raw, spans) := (Raw(Three(x, v), f), [Span(0, 6), Span(8, 12)]);
    ThreeCode(x, v);
    OneStep(raw, spans, 0, 0, 0, 0, 1);
    OneStep(raw, spans, 0, 1, 1, 1, 2);
    OneStep(raw, spans, 0, 2, 2, 2, 1);
    OneStep(raw, spans, 0, 3, 1, 2, 0);
    OneStep(raw, spans, 0, 4, 0, 2, 1);
    OneStep(raw, spans, 0, 5, 1, 2, 2);
    NextSpan(raw, spans, 0, 6, 2, 2, 8);
    SecondSpan(raw, spans);
  }

  lemma SecondSpan(raw: seq<Instr>, spans: seq<Span>)
    requires |raw| == 12 && |spans| == 2 && spans[1] == Span(8, 12)
    requires Effect(raw[8]) == -1 && Effect(raw[9]) == 0 && Effect(raw[10]) == 1 && Effect(raw[11]) == -1
    ensures ScanMax(raw, spans, 1, 8, 2, 2) == 2
  {
    hide ScanMax, Effect;
    OneStep(raw, spans, 1, 8, 2, 2, 1);
    OneStep(raw, spans, 1, 9, 1, 2, 1);
    OneStep(raw, spans, 1, 10, 1, 2, 2);
    OneStep(raw, spans, 1, 11, 2, 2, 1);
    NextSpan(raw, spans, 1, 12, 1, 2, 0);
    NoSpan(raw, spans, 1, 2);
  }

  lemma ThreeCode(x: string, v: Value)
    ensures CodeSimple(Three(x, v), []) == [LoadConst(v), LoadConst(v), LoadConst(v), MakeList(3), StoreSymbolic(x)]
    ensures DepthSimple(Three(x, v)) == [0, 1, 2, 3, 1]
  {
    var (one, two, es) := ([Const(v)], [Const(v), Const(v)], [Const(v), Const(v), Const(v)]);
    assert one[..0] == [] && two[..1] == one && es[..2] == two;
    assert CodeEs(one) == [LoadConst(v)] && DepthEs(one, 0) == [0];
    assert CodeEs(two) == [LoadConst(v), LoadConst(v)] && DepthEs(two, 0) == [0, 1];
    assert CodeEs(es) == [LoadConst(v), LoadConst(v), LoadConst(v)] && DepthEs(es, 0) == [0, 1, 2];
    assert CodeE(ListLit(es)) == CodeEs(es) + [MakeList(3)] && DepthE(ListLit(es), 0) == DepthEs(es, 0) + [3];
    assert CodeSimple(Three(x, v), []) == [] + CodeE(ListLit(es)) + [StoreSymbolic(x)];
    assert DepthSimple(Three(x, v)) == [] + DepthE(ListLit(es), 0) + [1];
  }

  /** The compiler accepts `for (;; x = [v, v, v]) { fun f() {} }`, but reserves space for two operands, where
      three are on the stack when the list is made. */
  lemma SpaceIsMissing(x: string, v: Value, f: string)
    ensures var (m, b) := (Three(x, v), Tree(Three(x, v), f));
      && ParseProgram(Input(m, f)) == Some(b)
      && FunShape([], b).maxstack == 2 && |Depths(b)| == 13 && Depths(b)[7] == 3 && !Reserves(Fun([], b))
  {
    hide FunCode, Input, ParseProgram, FunFits, Tree, Raw, MaxStack, FunShape;
    var m := Three(x, v);
    ThreeScanned(x, v, f);
    Fitting(m, f);
    Accepted(Store, x, ListLit([Const(v), Const(v), Const(v)]), f);
    ThreeDepth(x, v, f);
  }

  lemma ThreeDepth(x: string, v: Value, f: string)
    ensures var b := Tree(Three(x, v), f); |Depths(b)| == 13 && Depths(b)[7] == 3
  {
    var (m, body) := (Three(x, v), [FunDecl(f, [], [])]);
    var b := Tree(m, f);
    ThreeCode(x, v);
    Believed(m, f);
    hide DepthSimple, LenSimple;
    assert body[..0] == [] && b[..0] == [];
    assert DepthB(body) == [] + DepthS(body[0]) && |DepthS(body[0])| == 4;
    assert DepthB(b) == [] + DepthS(b[0]);
    assert DepthS(b[0]) == [] + [] + DepthB(body) + DepthSimple(m) + [0];
  }

  /** The function with its names resolved. */
  lemma ThreeResolved(x: string, v: Value, f: string)
    ensures var code := FunCode([], Tree(Three(x, v), f));
      && |code| == 13 && code[0] == Function(FunShape([], Tree(Three(x, v), f))) && code[4] == StoreGlobal(f)
      && code[1] == Function(FunShape([], [])) && code[5] == code[6] == code[7] == LoadConst(v)
  {
    hide FunShape, Encode, FunCode, HolesB, Tree, LenSimple, CodeSimple, Untouched, CodeB;
    var (m, b) := (Three(x, v), Tree(Three(x, v), f));
    ThreeCode(x, v);
    ThreeUntouched(x, v, f);
    BodyResolved([], b);
    RawCode(m, f);
    Believed(m, f);
  }

  lemma ThreeUntouched(x: string, v: Value, f: string)
    ensures Untouched(Tree(Three(x, v), f)) && LenSimple(Three(x, v)) == 5
  {
    hide FunShape, Encode, FunCode, HolesB, MarkB, Marks, Tree, CodeSimple, CodeB, Untouched, LenSimple, ScanMax;
    var (m, b) := (Three(x, v), Tree(Three(x, v), f));
    ThreeCode(x, v);
    ThreeScanned(x, v, f);
    Believed(m, f);
    RawCode(m, f);
    MarksB(b, [], NO_TARGETS);
    QuietSpan(b, CodeB(b, [], NO_TARGETS), Raw(m, f), Span(6, 8));
  }

  lemma QuietSpan(b: seq<Stmt>, code: seq<Instr>, raw: seq<Instr>, hole: Span)
    requires HolesB(b, 0) == [hole] && Marks(code) == MarkB(b) && code <= raw && |raw| >= hole.end
    requires forall k :: 0 <= k && hole.begin <= k < hole.end ==> !IsSymbolic(raw[k])
    ensures Untouched(b)
  {
    hide HolesB, MarkB;
    forall k | 0 <= k < |MarkB(b)| && Covers(HolesB(b, 0), k) ensures !MarkB(b)[k].named {
      assert MarkB(b)[k] == Marks(code)[k] && Marks(code)[k].named == IsSymbolic(code[k]) && code[k] == raw[k];
    }
  }

  /** When that program runs, whatever the primitive operations do, the third operand is on the stack after five
      instructions, beyond the space that is reserved. */
  lemma SpaceIsExceeded(x: string, v: Value, f: string, ops: Ops, w: World)
    ensures var code := FunCode([], Tree(Three(x, v), f));
      && code != [] && code[0].Function? && Start(code, 0, w).Some?
      && var c := Steps(code, ops, Start(code, 0, w).value, 5);
         && c.Running? && c.calls == [CallSite(None, 0, -1)] && Operands(code, c) == 3
         && code[0].shape.maxstack == 2 && Ticks(code, ops, Start(code, 0, w).value, 5) == Stuck
    ensures Settled(Tree(Three(x, v), f)) && !Roomy(Tree(Three(x, v), f))
  {
    hide FunShape, FunCode, Tree, Depths, Reserves, ParseProgram, Input, Steps, Ticks, Settled, Roomy;
    ThreeSettled(x, v, f);
    ThreeResolved(x, v, f);
    SpaceIsMissing(x, v, f);
    ThreeShape(x, v, f);
    ThreePushed(FunCode([], Tree(Three(x, v), f)), v, f, ops, w);
  }

  lemma ThreePushed(code: Code, v: Value, f: string, ops: Ops, w: World)
    requires |code| == 13 && code[0].Function? && code[0].shape.nargs == 0 && code[0].shape.nlocals == 0
      && code[0].shape.maxstack == 2
    requires code[1].Function? && code[1].shape.offset == 3 && code[4] == StoreGlobal(f)
    requires code[5] == code[6] == code[7] == LoadConst(v)
    ensures Start(code, 0, w).Some? && var c := Steps(code, ops, Start(code, 0, w).value, 5);
      && c.Running? && c.calls == [CallSite(None, 0, -1)] && Operands(code, c) == 3
      && Ticks(code, ops, Start(code, 0, w).value, 5) == Stuck
  {
    hide Steps, Ticks;
    var (c, s) := (Start(code, 0, w).value, [Closure(0)]);
    var w' := w.(globals := w.globals[f := Closure(1)]);
    assert c == Running(1, s, 1, c.calls, w);
    FiveSteps(code, ops, c,
      Running(4, s + [Closure(1)], 1, c.calls, w), Running(5, s, 1, c.calls, w'),
      Running(6, s + [v], 1, c.calls, w'), Running(7, s + [v, v], 1, c.calls, w'),
      Running(8, s + [v, v, v], 1, c.calls, w'));
  }

  lemma ThreeShape(x: string, v: Value, f: string)
    ensures var sh := FunShape([], Tree(Three(x, v), f)); sh.nargs == 0 && sh.nlocals == 0
    ensures FunShape([], []).offset == 3
  {
    hide Tree, LenSimple, MaxStack, CodeB, FunSpans;
    Believed(Three(x, v), f);
    assert SlotsB([], []) == [];
  }

  lemma FiveSteps(code: Code, ops: Ops, c0: Config, c1: Config, c2: Config, c3: Config, c4: Config, c5: Config)
    requires c0.Running? && Step(code, ops, c0) == c1 && c1.Running? && Step(code, ops, c1) == c2
    requires c2.Running? && Step(code, ops, c2) == c3 && c3.Running? && Step(code, ops, c3) == c4
    requires c4.Running? && Step(code, ops, c4) == c5
    ensures Steps(code, ops, c0, 5) == c5
    ensures (InReserve(code, c1) && InReserve(code, c2) && InReserve(code, c3) && InReserve(code, c4)
      && !InReserve(code, c5)) ==> Ticks(code, ops, c0, 5) == Stuck
  {
    hide Step, InReserve;
    if InReserve(code, c1) && InReserve(code, c2) && InReserve(code, c3) && InReserve(code, c4)
      && !InReserve(code, c5) {
      assert Ticks(code, ops, c4, 1) == Ticks(code, ops, Stuck, 0) == Stuck;
      assert Ticks(code, ops, c3, 2) == Ticks(code, ops, c4, 1);
      assert Ticks(code, ops, c2, 3) == Ticks(code, ops, c3, 2);
      assert Ticks(code, ops, c1, 4) == Ticks(code, ops, c2, 3);
    }
    assert Steps(code, ops, c4, 1) == Steps(code, ops, c5, 0) == c5;
    assert Steps(code, ops, c3, 2) == Steps(code, ops, c4, 1);
    assert Steps(code, ops, c2, 3) == Steps(code, ops, c3, 2);
    assert Steps(code, ops, c1, 4) == Steps(code, ops, c2, 3);
  }

  /** Its names are resolved, but its space does not suffice. */
  lemma ThreeSettled(x: string, v: Value, f: string)
    ensures Settled(Tree(Three(x, v), f)) && !Roomy(Tree(Three(x, v), f))
  {
    var b := Tree(Three(x, v), f);
    FunsOfLoop(Three(x, v), f);
    hide Tree, Untouched, MarkB, HolesB, FunShape, ParseProgram, Input, Reserves, Suffices, FunsB;
    ThreeUntouched(x, v, f);
    SpaceIsMissing(x, v, f);
    ParsedFits(Input(Three(x, v), f), b);
    ReservesIff(Fun([], b));
    NothingTouched();
  }

  lemma ParsedFits(ts: Tokens, b: seq<Stmt>)
    requires ParseProgram(ts) == Some(b)
    ensures FunFits([], b)
  {
    hide ParseSs, FunFits;
  }

  lemma FunsOfLoop(m: Simple, f: string)
    ensures FunsB(Tree(m, f)) == [Fun([], [])]
  {
    var (b, body) := (Tree(m, f), [FunDecl(f, [], [])]);
    assert b[..0] == [] && body[..0] == [];
    assert FunsB(body) == [] + FunsS(body[0]) && FunsS(body[0]) == [Fun([], [])] + [];
    assert FunsB(b) == [] + FunsS(b[0]);
  }

  lemma NothingTouched()
    ensures Untouched([])
  {
  }

  // ----- A program is refused -----

  /** `for (;; x = [v, v, v]) { fun f() {} v; }` */
  function Refused(x: string, v: Value, f: string): Tokens {
    [KwFor, LParen, Semicolon, Semicolon] + TextSimple(Three(x, v)) + [RParen]
    + [LBrace, KwFun, Ident(f), LParen, RParen, LBrace, RBrace, Literal(v), Semicolon, RBrace]
  }

  function RefusedBody(v: Value, f: string): seq<Stmt> { [FunDecl(f, [], []), Do(PrintExpr(Const(v)))] }

  function RefusedTree(x: string, v: Value, f: string): seq<Stmt> {
    [For(None, None, Some(Three(x, v)), RefusedBody(v, f))]
  }

  lemma RefusedParsed(x: string, v: Value, f: string)
    ensures ParseSs([], Refused(x, v, f), false, Eof) == Some((RefusedTree(x, v, f), []))
  {
    hide ParseSs, FitsB, Refused, RefusedTree;
    RefusedFits(x, v, f);
    RefusedText(x, v, f);
    var b := RefusedTree(x, v, f);
    assert b[..0] == [] && TextSs(b, 0) + [] == TextSs(b, 0);
    ReadsSs(b, 0, false, Eof, []);
  }

  lemma RefusedText(x: string, v: Value, f: string)
    ensures TextSs(RefusedTree(x, v, f), 0) == Refused(x, v, f)
  {
    hide TextSimple;
    var (fun, show, body) := (FunDecl(f, [], []), Do(PrintExpr(Const(v))), RefusedBody(v, f));
    LoopText(Three(x, v), body);
    assert TextSs(body, 2) == [] && TextSs([], 0) == [];
    assert TextS(fun) == [KwFun, Ident(f), LParen] + [] + [RParen] + ([LBrace] + [] + [RBrace]);
    assert TextS(show) == [Literal(v)] + [Semicolon] by { PrintText(v); }
    assert TextSs(body, 1) == TextS(show) + [];
    assert TextSs(body, 0) == TextS(fun) + TextSs(body, 1);
  }

  lemma PrintText(v: Value)
    ensures TextS(Do(PrintExpr(Const(v)))) == [Literal(v)] + [Semicolon]
  {
  }

  lemma RefusedFits(x: string, v: Value, f: string)
    ensures FitsB(RefusedTree(x, v, f), false)
  {
    hide FunFits;
    EmptyFits();
    var (fun, show, body) := (FunDecl(f, [], []), Do(PrintExpr(Const(v))), RefusedBody(v, f));
    assert NoDup<string>([]) && FitsB([], false);
    assert FitsS(fun, true) && FitsS(show, true);
    assert FitsB(body, true);
    assert FitsSimple(Three(x, v)) by { ThreeFits(v); }
  }

  lemma ThreeFits(v: Value)
    ensures Fits(ListLit([Const(v), Const(v), Const(v)]), -1)
  {
  }

  /** The instructions 6 and 7 are not visited; they load two of the values of the list. */
  lemma RefusedMarks(x: string, v: Value, f: string)
    ensures var b := RefusedTree(x, v, f);
      && HolesB(b, 0) == [Span(6, 8)] && |MarkBody(b)| == 14
      && MarkBody(b)[0].rise == 1 && MarkBody(b)[1].rise == 1 && MarkBody(b)[2].rise == -1
      && MarkBody(b)[3].rise == -1 && MarkBody(b)[4].rise == 1 && MarkBody(b)[5].rise == -1
      && MarkBody(b)[8].rise == 1 && MarkBody(b)[9].rise == -2
  {
    ThreeMarks(x, v);
    var (m, b, body) := (Three(x, v), RefusedTree(x, v, f), RefusedBody(v, f));
    hide MarkSimple, LenSimple;
    ThreeLength(x, v);
    assert b[..0] == [] && body[..1] == [FunDecl(f, [], [])] && body[..1][..0] == [];
    var fun := MarkFun([]) + [Mark(true, -1)];
    assert MarkFun([]) == [Rise(1)] + Left([] + [Rise(1), Rise(-1)], []);
    assert MarkB(body[..1]) == [] + fun;
    assert MarkS(body[1]) == MarkSimple(PrintExpr(Const(v))) == [Rise(1), Rise(-1)] by { ValueMarks(v); }
    assert MarkB(body) == MarkB(body[..1]) + [Rise(1), Rise(-1)];
    assert MarkFor(None, Some(m), body) == [] + MarkB(body) + MarkSimple(m) + [Rise(0)];
    assert MarkB(b) == [] + MarkS(b[0]) && MarkS(b[0]) == [] + MarkFor(None, Some(m), body);
    assert HolesB(body[..1], 5) == [] + [Span(6, 8)];
    assert HolesB(body, 5) == HolesB(body[..1], 5) + [];
    assert HolesB(b, 0) == [] + HolesS(b[0], 0) && HolesS(b[0], 0) == HolesB(body, 5);
  }

  lemma ThreeLength(x: string, v: Value)
    ensures LenSimple(Three(x, v)) == 5
  {
    ThreeCode(x, v);
  }

  lemma ValueMarks(v: Value)
    ensures MarkSimple(PrintExpr(Const(v))) == [Rise(1), Rise(-1)]
  {
  }

  lemma ThreeMarks(x: string, v: Value)
    ensures MarkSimple(Three(x, v)) == [Rise(1), Rise(1), Rise(1), Rise(-2), Mark(true, -1)]
  {
    var (one, two, es) := ([Const(v)], [Const(v), Const(v)], [Const(v), Const(v), Const(v)]);
    assert one[..0] == [] && two[..1] == one && es[..2] == two;
    assert MarkEs(one) == [Rise(1)];
    assert MarkEs(two) == [Rise(1), Rise(1)];
    assert MarkEs(es) == [Rise(1), Rise(1), Rise(1)];
    assert MarkE(ListLit(es)) == MarkEs(es) + [Rise(1 - 3)];
    assert MarkSimple(Three(x, v)) == [] + MarkE(ListLit(es)) + [Mark(true, -1)];
  }

  lemma BelowZero(ms: seq<Mark>)
    requires |ms| == 14 && ms[0].rise == 1 && ms[1].rise == 1 && ms[2].rise == -1 && ms[3].rise == -1
    requires ms[4].rise == 1 && ms[5].rise == -1 && ms[8].rise == 1 && ms[9].rise == -2
    ensures Level(ms, [Span(6, 8)], 10) == -1
  {
    hide Level;
    assert Level(ms, [Span(6, 8)], 0) == 0 by { LevelZero(ms); }
    LevelOn(ms, 0);
    LevelOn(ms, 1);
    LevelOn(ms, 2);
    LevelOn(ms, 3);
    LevelOn(ms, 4);
    LevelOn(ms, 5);
    LevelOn(ms, 6);
    LevelOn(ms, 7);
    LevelOn(ms, 8);
    LevelOn(ms, 9);
  }

  lemma LevelZero(ms: seq<Mark>)
    ensures Level(ms, [Span(6, 8)], 0) == 0
  {
  }

  lemma LevelOn(ms: seq<Mark>, k: nat)
    requires k < |ms|
    ensures Level(ms, [Span(6, 8)], k + 1) == Level(ms, [Span(6, 8)], k) + if 6 <= k < 8 then 0 else ms[k].rise
  {
    var holes := [Span(6, 8)];
    assert 6 <= k < 8 ==> holes[0].begin <= k < holes[0].end;
  }

  /** The compiler refuses `for (;; x = [v, v, v]) { fun f() {} v; }` as too big: its scan meets the list, which takes
      three operands, but only one of the three loads. */
  lemma LegalIsRefused(x: string, v: Value, f: string)
    ensures var b := RefusedTree(x, v, f);
      && ParseSs([], Refused(x, v, f), false, Eof) == Some((b, [])) && |FunCode([], b)| == 15
      && !NeverBelow(b) && !FunFits([], b) && ParseProgram(Refused(x, v, f)) == None
  {
    hide FunFits, ParseSs, Refused, RefusedTree, Level, FunCode;
    var b := RefusedTree(x, v, f);
    RefusedParsed(x, v, f);
    RefusedMarks(x, v, f);
    BelowZero(MarkBody(b));
    assert Level(MarkBody(b), HolesB(b, 0), 10) < 0;
    FitsIff([], b);
    BodyMarks(b, []);
  }
}
