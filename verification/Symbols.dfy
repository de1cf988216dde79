/** Which instructions name a variable and how they change the operand stack, as a function of the tree, and which
    of them still name a variable in the finished code. */
module Symbols {
  import opened Common
  import opened Bytecode
  import opened Syntax
  import opened Codegen
  import opened Scoping

  // ----- What the tree says of each instruction -----

  /** Whether an instruction names a variable until its function is closed, and by how much it raises the operand
      stack. */
  datatype Mark = Mark(named: bool, rise: int)

  /** An instruction that names nothing. */
  function Rise(n: int): Mark { Mark(false, n) }

  /** No instruction takes more operands than there are instructions before it, up to the three of a store. */
  predicate Slight(ms: seq<Mark>) {
    forall k {:trigger ms[k]} :: 0 <= k < |ms| ==> -3 - |ms| <= ms[k].rise <= 1
  }

  function MarkE(e: Expr): (r: seq<Mark>)
    ensures |r| > 0
    decreases e, 1
  {
    match e
    case Const(_) => [Rise(1)]
    case Var(_) => [Mark(true, 1)]
    case Paren(i) => MarkE(i)
    case Unary(_, a) => MarkE(a) + [Rise(0)]
    case Binary(_, l, r) => MarkE(l) + MarkE(r) + [Rise(-1)]
    case Index(b, i) => MarkE(b) + MarkE(i) + [Rise(-1)]
    case Field(b, _) => MarkE(b) + [Rise(1), Rise(-1)]
    case Invoke(f, args) => MarkE(f) + MarkEs(args) + [Rise(-|args|)]
    case ListLit(es) => MarkEs(es) + [Rise(1 - |es|)]
    case DictLit(ns) => MarkNs(ns) + [Rise(1 - 2 * |ns|)]
  }

  function MarkEs(es: seq<Expr>): (r: seq<Mark>)
    ensures |r| >= |es|
    decreases es, 0
  {
    if es == [] then [] else MarkEs(es[..|es| - 1]) + MarkE(es[|es| - 1])
  }

  function MarkN(n: Entry): (r: seq<Mark>)
    ensures |r| >= 2
    decreases n, 1
  {
    MarkE(n.key) + MarkE(n.val)
  }

  function MarkNs(ns: seq<Entry>): (r: seq<Mark>)
    ensures |r| >= 2 * |ns|
    decreases ns, 0
  {
    if ns == [] then [] else MarkNs(ns[..|ns| - 1]) + MarkN(ns[|ns| - 1])
  }

  /** The load of the target is replaced by a store behind the value; `:=` stores to a slot that is already known. */
  function MarkSimple(m: Simple): (r: seq<Mark>)
  {
    match m
    case PrintExpr(e) => MarkE(e) + [Rise(-1)]
    case Assign(k, l, r) =>
      var n := |MarkE(l)| - 1;
      MarkE(l)[..n] + MarkE(r) + [if MarkE(l)[n].named then Mark(k != StoreHere, -1) else Rise(-3)]
  }

  function MarkOpt(m: Option<Simple>): (r: seq<Mark>)
  {
    if m.None? then [] else MarkSimple(m.value)
  }

  function MarkTest(c: Option<Expr>): (r: seq<Mark>)
  {
    if c.None? then [] else MarkE(c.value) + [Rise(-1)]
  }

  function MarkS(s: Stmt): (r: seq<Mark>)
    decreases s, 1
  {
    match s
    case Empty => []
    case Do(m) => MarkSimple(m)
    case If(cs, els) => if els.Else? then MarkArms(cs) + MarkB(els.blk) else MarkClauses(cs)
    case While(c, b) => MarkWhile(c, b)
    case For(i, c, p, b) => MarkOpt(i) + MarkFor(c, p, b)
    case FunDecl(_, _, b) => MarkFun(b) + [Mark(true, -1)]
    case ReturnNil => [Rise(1), Rise(-1)]
    case ReturnVal(e) => MarkE(e) + [Rise(-1)]
    case Break => [Rise(0)]
    case Continue => [Rise(0)]
  }

  function MarkWhile(c: Expr, b: seq<Stmt>): (r: seq<Mark>)
    decreases b, 1
  {
    MarkE(c) + [Rise(-1)] + MarkB(b) + [Rise(0)]
  }

  function MarkFor(c: Option<Expr>, p: Option<Simple>, b: seq<Stmt>): (r: seq<Mark>)
    decreases b, 1
  {
    MarkTest(c) + MarkB(b) + MarkOpt(p) + [Rise(0)]
  }

  function MarkClause(c: Clause): (r: seq<Mark>)
    decreases c, 1
  {
    MarkE(c.cond) + [Rise(-1)] + MarkB(c.blk)
  }

  function MarkArms(cs: seq<Clause>): (r: seq<Mark>)
    decreases cs, 0
  {
    if cs == [] then [] else MarkArms(cs[..|cs| - 1]) + MarkClause(cs[|cs| - 1]) + [Rise(0)]
  }

  function MarkClauses(cs: seq<Clause>): (r: seq<Mark>)
    decreases cs, 1
  {
    if cs == [] then [] else MarkArms(cs[..|cs| - 1]) + MarkClause(cs[|cs| - 1])
  }

  function MarkB(b: seq<Stmt>): (r: seq<Mark>)
    decreases b, 0
  {
    if b == [] then [] else MarkB(b[..|b| - 1]) + MarkS(b[|b| - 1])
  }

  /** The body of a function with the return behind it. */
  function MarkBody(b: seq<Stmt>): (r: seq<Mark>)
    ensures |r| == |MarkB(b)| + 2
    decreases b, 1
  {
    MarkB(b) + [Rise(1), Rise(-1)]
  }

  /** The finished code of a function whose body is b: what lies in its holes, at the places where they were noted,
      is not visited when the function is closed. */
  function MarkFun(b: seq<Stmt>): (r: seq<Mark>)
    ensures |r| == |MarkB(b)| + 3
    decreases b, 2
  {
    [Rise(1)] + Left(MarkBody(b), HolesB(b, 0))
  }

  function Left(marks: seq<Mark>, holes: seq<Span>): (r: seq<Mark>)
    ensures |r| == |marks| && (Slight(marks) ==> Slight(r))
  {
    seq(|marks|, k requires 0 <= k < |marks| => Mark(marks[k].named && Covers(holes, k), marks[k].rise))
  }

  // ----- The marks are those of the code -----

  function Marks(code: seq<Instr>): (r: seq<Mark>)
    ensures |r| == |code|
  {
    seq(|code|, k requires 0 <= k < |code| => Mark(IsSymbolic(code[k]), Effect(code[k])))
  }

  lemma MarksAppend(a: seq<Instr>, b: seq<Instr>)
    ensures Marks(a + b) == Marks(a) + Marks(b)
    ensures Slight(Marks(a)) && Slight(Marks(b)) ==> Slight(Marks(a + b))
  {
  }

  lemma MarksOne(i: Instr)
    ensures Marks([i]) == [Mark(IsSymbolic(i), Effect(i))]
    ensures Effect(i) >= -4 ==> Slight(Marks([i]))
  {
  }

  /** Code followed by one instruction that names nothing. */
  lemma MarksThen(a: seq<Instr>, i: Instr)
    requires !IsSymbolic(i)
    ensures Marks(a + [i]) == Marks(a) + [Rise(Effect(i))]
    ensures Slight(Marks(a)) && Effect(i) >= -4 - |a| ==> Slight(Marks(a + [i]))
  {
  }

  lemma MarksBoth(a: seq<Instr>, b: seq<Instr>, i: Instr)
    requires !IsSymbolic(i)
    ensures Marks(a + b + [i]) == Marks(a) + Marks(b) + [Rise(Effect(i))]
    ensures Slight(Marks(a)) && Slight(Marks(b)) && Effect(i) >= -|b| ==> Slight(Marks(a + b + [i]))
  {
    hide Marks, Effect, Slight;
    MarksAppend(a, b);
    MarksThen(a + b, i);
  }

  lemma MarksField(a: seq<Instr>, field: Instr)
    requires field.LoadConst?
    ensures Marks(a + [field, LoadAt]) == Marks(a) + [Rise(1), Rise(-1)]
    ensures Slight(Marks(a)) ==> Slight(Marks(a + [field, LoadAt]))
  {
    hide Marks, Slight;
    MarksThen(a, field);
    MarksThen(a + [field], LoadAt);
    assert a + [field, LoadAt] == a + [field] + [LoadAt];
  }

  lemma {:induction false} MarksE(e: Expr)
    ensures Marks(CodeE(e)) == MarkE(e)
    ensures Slight(MarkE(e))
    decreases e, 1
  {
    hide Marks, Slight, CodeEs, MarkEs, CodeNs, MarkNs;
    match e
    case Const(v) => MarksOne(LoadConst(v));
    case Var(x) => MarksOne(LoadSymbolic(x));
    case Paren(i) => MarksE(i);
    case Binary(_, _, _) => MarksPair(e);
    case Index(_, _) => MarksPair(e);
    case Invoke(_, _) => MarksMany(e);
    case ListLit(_) => MarksMany(e);
    case DictLit(_) => MarksMany(e);
    case _ => MarksNode(e);
  }

  lemma {:induction false} MarksNode(e: Expr)
    requires e.Unary? || e.Field?
    ensures Marks(CodeE(e)) == MarkE(e)
    ensures Slight(MarkE(e))
    decreases e, 0
  {
    hide Marks, Slight;
    match e
    case Unary(o, a) =>
      MarksE(a);
      MarksThen(CodeE(a), UnInstr(o));
    case Field(b, f) =>
      MarksE(b);
      MarksField(CodeE(b), LoadConst(Str(f)));
  }

  lemma {:induction false} MarksPair(e: Expr)
    requires e.Binary? || e.Index?
    ensures Marks(CodeE(e)) == MarkE(e)
    ensures Slight(MarkE(e))
    decreases e, 0
  {
    hide Marks, Slight;
    match e
    case Binary(o, l, r) =>
      MarksE(l);
      MarksE(r);
      MarksBoth(CodeE(l), CodeE(r), BinInstr(o));
    case Index(b, i) =>
      MarksE(b);
      MarksE(i);
      MarksBoth(CodeE(b), CodeE(i), LoadAt);
  }

  lemma {:induction false} MarksMany(e: Expr)
    requires e.Invoke? || e.ListLit? || e.DictLit?
    ensures Marks(CodeE(e)) == MarkE(e)
    ensures Slight(MarkE(e))
    decreases e, 0
  {
    hide Marks, Slight, CodeEs, MarkEs, CodeNs, MarkNs;
    match e
    case Invoke(f, args) =>
      MarksE(f);
      MarksEs(args);
      MarksBoth(CodeE(f), CodeEs(args), Call(|args|));
    case ListLit(es) =>
      MarksEs(es);
      MarksThen(CodeEs(es), MakeList(|es|));
    case DictLit(ns) =>
      MarksNs(ns);
      MarksThen(CodeNs(ns), MakeDict(|ns|));
  }

  lemma {:induction false} MarksEs(es: seq<Expr>)
    ensures Marks(CodeEs(es)) == MarkEs(es)
    ensures Slight(MarkEs(es))
    decreases es, 0
  {
    if es != [] {
      MarksEs(es[..|es| - 1]);
      MarksE(es[|es| - 1]);
      MarksAppend(CodeEs(es[..|es| - 1]), CodeE(es[|es| - 1]));
    }
  }

  lemma {:induction false} MarksNs(ns: seq<Entry>)
    ensures Marks(CodeNs(ns)) == MarkNs(ns)
    ensures Slight(MarkNs(ns))
    decreases ns, 0
  {
    if ns != [] {
      var (init, n) := (ns[..|ns| - 1], ns[|ns| - 1]);
      MarksNs(init);
      MarksN(n);
      MarksAppend(CodeNs(init), CodeN(n));
    }
  }

  lemma {:induction false} MarksN(n: Entry)
    ensures Marks(CodeN(n)) == MarkN(n)
    ensures Slight(MarkN(n))
    decreases n, 1
  {
    MarksE(n.key);
    MarksE(n.val);
    MarksAppend(CodeE(n.key), CodeE(n.val));
  }

  /** The last instruction of an expression is symbolic only if it loads a variable. */
  lemma {:induction false} LastLoad(e: Expr)
    ensures var i := CodeE(e)[|CodeE(e)| - 1]; IsSymbolic(i) ==> i.LoadSymbolic?
    decreases e
  {
    if e.Paren? { LastLoad(e.inner); }
  }

  lemma MarksSimple(m: Simple, slots: seq<string>)
    ensures Marks(CodeSimple(m, slots)) == MarkSimple(m)
    ensures Slight(MarkSimple(m))
  {
    match m
    case PrintExpr(e) =>
      MarksE(e);
      MarksThen(CodeE(e), PrintTop);
    case Assign(k, l, r) =>
      hide CodeE, MarkE, Marks, Slight;
      MarksE(l);
      MarksE(r);
      LastLoad(l);
      MarksStore(CodeE(l), CodeE(r), k, slots);
      StoreSlight(MarkE(l), MarkE(r), MarkSimple(m)[|MarkE(l)| - 1 + |MarkE(r)|]);
  }

  /** Storing instead of loading. */
  lemma MarksStore(l: seq<Instr>, r: seq<Instr>, k: Kind, slots: seq<string>)
    requires l != [] && (IsSymbolic(l[|l| - 1]) ==> l[|l| - 1].LoadSymbolic?)
    ensures var (n, m) := (|l| - 1, Marks(l));
      Marks(l[..n] + r + [StoreInstr(l[n], k, slots)]) == m[..n] + Marks(r)
        + [if m[n].named then Mark(k != StoreHere, -1) else Rise(-3)]
  {
    var n := |l| - 1;
    var store := StoreInstr(l[n], k, slots);
    assert Marks(l[..n]) == Marks(l)[..n] && Marks(l)[n].named == IsSymbolic(l[n]);
    MarksOne(store);
    assert IsSymbolic(store) == (IsSymbolic(l[n]) && k != StoreHere);
    hide Marks, Slight;
    MarksAppend(l[..n], r);
    MarksAppend(l[..n] + r, [store]);
  }

  lemma StoreSlight(l: seq<Mark>, r: seq<Mark>, store: Mark)
    requires l != [] && Slight(l) && Slight(r) && -3 <= store.rise <= 1
    ensures Slight(l[..|l| - 1] + r + [store])
  {
  }

  lemma MarksOpt(m: Option<Simple>, slots: seq<string>)
    ensures Marks(CodeOptSimple(m, slots)) == MarkOpt(m)
    ensures Slight(MarkOpt(m))
  {
    if m.Some? { MarksSimple(m.value, slots); }
  }

  lemma MarksTest(c: Option<Expr>, d: int)
    ensures Marks(CodeTest(c, d)) == MarkTest(c)
    ensures Slight(MarkTest(c))
  {
    if c.Some? {
      MarksE(c.value);
      MarksThen(CodeE(c.value), JumpUnless(Encode(d)));
    }
  }

  lemma {:induction false} MarksS(s: Stmt, slots: seq<string>, tg: Targets)
    ensures Marks(CodeS(s, slots, tg)) == MarkS(s)
    ensures Slight(MarkS(s))
    decreases s, 1
  {
    hide Marks, Slight, CodeE, MarkE, CodeB, MarkB, CodeSimple, FunCode, MarkFun, CodeFor, CodeWhile, CodeIf, Encode,
      LenB, LenS;
    hide CodeClauses, MarkClauses, MarkArms;
    match s
    case Empty => MarksNone();
    case Do(m) => MarksSimple(m, slots);
    case If(_, _) => MarksIf(s, slots, tg);
    case While(c, b) => MarksWhile(c, b, slots);
    case For(i, c, p, b) =>
      MarksOpt(i, slots);
      MarksFor(c, p, b, slots);
      MarksAppend(CodeOptSimple(i, slots), CodeFor(c, p, b, slots));
    case FunDecl(x, ps, b) =>
      MarksFun(ps, b);
      MarksOne(StoreSymbolic(x));
      MarksAppend(FunCode(ps, b), [StoreSymbolic(x)]);
    case ReturnNil =>
      MarksOne(LoadConst(Nil));
      MarksThen([LoadConst(Nil)], Return);
      assert [LoadConst(Nil), Return] == [LoadConst(Nil)] + [Return];
    case ReturnVal(e) =>
      MarksE(e);
      MarksThen(CodeE(e), Return);
    case Break => MarksOne(JumpTo(tg.brk));
    case Continue => MarksOne(JumpTo(tg.cnt));
  }

  lemma MarksNone()
    ensures Marks([]) == [] && Slight(Marks([]))
  {
  }

  lemma {:induction false} MarksIf(s: Stmt, slots: seq<string>, tg: Targets)
    requires s.If?
    ensures Marks(CodeIf(s, slots, tg, Some(LenS(s)))) == MarkS(s)
    ensures Slight(MarkS(s))
    decreases s, 0
  {
    hide Marks, Slight, CodeB, MarkB, CodeArms, MarkArms, LenS, LenArms;
    var If(cs, els) := s;
    if els.Else? {
      MarksArms(cs, slots, tg, Some(LenS(s)));
      MarksB(els.blk, slots, tg.Shift(LenArms(cs)));
      MarksAppend(CodeArms(cs, slots, tg, Some(LenS(s))), CodeB(els.blk, slots, tg.Shift(LenArms(cs))));
    } else {
      MarksClauses(cs, slots, tg, Some(LenS(s)));
      MarksNone();
      MarksAppend(CodeClauses(cs, slots, tg, Some(LenS(s)), false), []);
      assert MarkClauses(cs) + [] == MarkClauses(cs);
    }
  }

  lemma {:induction false} MarksWhile(c: Expr, b: seq<Stmt>, slots: seq<string>)
    ensures Marks(CodeWhile(c, b, slots)) == MarkWhile(c, b)
    ensures Slight(MarkWhile(c, b))
    decreases b, 4
  {
    hide Marks, Slight, CodeE, MarkE, CodeB, MarkB, Encode, LenB;
    var tg := Targets(Some(LenB(b) + 1), Some(-(|CodeE(c)| + 1)));
    MarksE(c);
    MarksThen(CodeE(c), JumpUnless(Encode(LenB(b) + 2)));
    MarksB(b, slots, tg);
    MarksAppend(CodeE(c) + [JumpUnless(Encode(LenB(b) + 2))], CodeB(b, slots, tg));
    MarksThen(CodeE(c) + [JumpUnless(Encode(LenB(b) + 2))] + CodeB(b, slots, tg),
      Jump(Encode(-(|CodeE(c)| + 1 + LenB(b)))));
  }

  lemma {:induction false} MarksFor(c: Option<Expr>, p: Option<Simple>, b: seq<Stmt>, slots: seq<string>)
    ensures Marks(CodeFor(c, p, b, slots)) == MarkFor(c, p, b)
    ensures Slight(MarkFor(c, p, b))
    decreases b, 4
  {
    hide Marks, Slight, CodeTest, MarkTest, CodeB, MarkB, CodeOptSimple, MarkOpt, Encode, LenB;
    var tg := Targets(Some(LenB(b) + LenOpt(p) + 1), Some(LenB(b)));
    var (test, code, post) := (CodeTest(c, LenB(b) + LenOpt(p) + 2), CodeB(b, slots, tg), CodeOptSimple(p, slots));
    MarksTest(c, LenB(b) + LenOpt(p) + 2);
    MarksB(b, slots, tg);
    MarksOpt(p, slots);
    MarksAppend(test, code);
    MarksAppend(test + code, post);
    MarksThen(test + code + post, Jump(Encode(-(LenTest(c) + LenB(b) + LenOpt(p)))));
  }

  lemma {:induction false} MarksClause(c: Clause, slots: seq<string>, tg: Targets, skip: int)
    ensures Marks(CodeClause(c, slots, tg, skip)) == MarkClause(c)
    ensures Slight(MarkClause(c))
    decreases c, 1
  {
    hide Marks, Slight, CodeE, MarkE, CodeB, MarkB, Encode;
    MarksE(c.cond);
    MarksThen(CodeE(c.cond), JumpUnless(Encode(skip)));
    MarksB(c.blk, slots, tg.Shift(|CodeE(c.cond)| + 1));
    MarksAppend(CodeE(c.cond) + [JumpUnless(Encode(skip))], CodeB(c.blk, slots, tg.Shift(|CodeE(c.cond)| + 1)));
  }

  lemma {:induction false} MarksArms(cs: seq<Clause>, slots: seq<string>, tg: Targets, end: Option<int>)
    ensures Marks(CodeArms(cs, slots, tg, end)) == MarkArms(cs)
    ensures Slight(MarkArms(cs))
    decreases cs, 0
  {
    hide Marks, Slight, CodeClause, MarkClause, LenClause, LenB;
    if cs == [] {
      MarksNone();
    } else {
      var (init, c) := (cs[..|cs| - 1], cs[|cs| - 1]);
      var n := LenArms(init);
      var (arms, arm) := (CodeArms(init, slots, tg, end), CodeClause(c, slots, tg.Shift(n), LenB(c.blk) + 2));
      MarksArms(init, slots, tg, end);
      MarksClause(c, slots, tg.Shift(n), LenB(c.blk) + 2);
      MarksAppend(arms, arm);
      MarksThen(arms + arm, JumpTo(Shifted(end, n + LenClause(c))));
    }
  }

  lemma {:induction false} MarksClauses(cs: seq<Clause>, slots: seq<string>, tg: Targets, end: Option<int>)
    ensures Marks(CodeClauses(cs, slots, tg, end, false)) == MarkClauses(cs)
    ensures Slight(MarkClauses(cs))
    decreases cs, 1
  {
    hide Marks, Slight, CodeClause, MarkClause, LenB, MarkArms, CodeArms;
    if cs == [] {
      MarksArms(cs, slots, tg, end);
      NoMarks();
    } else {
      var (init, c) := (cs[..|cs| - 1], cs[|cs| - 1]);
      var n := LenArms(init);
      MarksArms(init, slots, tg, end);
      MarksClause(c, slots, tg.Shift(n), LenB(c.blk) + 1);
      MarksAppend(CodeArms(init, slots, tg, end), CodeClause(c, slots, tg.Shift(n), LenB(c.blk) + 1));
    }
  }

  lemma NoMarks()
    ensures MarkArms([]) == []
  {
  }

  lemma {:induction false} MarksB(b: seq<Stmt>, slots: seq<string>, tg: Targets)
    ensures Marks(CodeB(b, slots, tg)) == MarkB(b)
    ensures Slight(MarkB(b))
    decreases b, 0
  {
    hide Marks, Slight, CodeS, MarkS, LenB;
    if b == [] {
      MarksNone();
    } else {
      var (init, s) := (b[..|b| - 1], b[|b| - 1]);
      MarksB(init, slots, tg);
      MarksS(s, slots, tg.Shift(LenB(init)));
      MarksAppend(CodeB(init, slots, tg), CodeS(s, slots, tg.Shift(LenB(init))));
    }
  }

  // ----- What is left -----

  /** The instructions of a finished function that still name a variable are exactly those in the holes. */
  lemma {:induction false} MarksFun(ps: seq<string>, b: seq<Stmt>)
    ensures Marks(FunCode(ps, b)) == MarkFun(b)
    ensures Slight(MarkFun(b))
    decreases b, 3
  {
    hide Marks, Slight, CodeB, MarkB, HolesB, Gaps, ResolveIn, Left, FunShape, SlotsB, LenB;
    var slots := SlotsB(ps, b);
    var (raw, holes) := (RawBody(b, slots), HolesB(b, 0));
    MarksB(b, slots, NO_TARGETS);
    MarksRaw(CodeB(b, slots, NO_TARGETS));
    HolesOrderedB(b, 0, LenB(b));
    OrderedWiden(0, holes, LenB(b), |raw|);
    HolesAfter(0, holes, LenB(b));
    LeftInHoles(raw, holes, slots);
    MarksOne(Function(FunShape(ps, b)));
    MarksAppend([Function(FunShape(ps, b))], ResolveIn(raw, Gaps(0, holes, |raw|), slots));
  }

  lemma MarksRaw(code: seq<Instr>)
    ensures Marks(code + [LoadConst(Nil), Return]) == Marks(code) + [Rise(1), Rise(-1)]
    ensures Slight(Marks(code)) ==> Slight(Marks(code + [LoadConst(Nil), Return]))
  {
  }

  lemma {:induction false} LeftInHoles(raw: seq<Instr>, holes: seq<Span>, slots: seq<string>)
    requires Ordered(0, holes, |raw|)
    ensures Marks(ResolveIn(raw, Gaps(0, holes, |raw|), slots)) == Left(Marks(raw), holes)
  {
    var gaps := Gaps(0, holes, |raw|);
    GapsApart(0, holes, |raw|);
    HolesAfter(0, holes, |raw|);
    forall k | 0 <= k < |raw| ensures Marks(ResolveIn(raw, gaps, slots))[k] == Left(Marks(raw), holes)[k] {
      GapsCover(0, holes, |raw|, k);
      EndsWithin(0, holes, |raw|);
    }
  }

  lemma {:induction false} EndsWithin(lo: int, holes: seq<Span>, hi: int)
    requires Ordered(lo, holes, hi)
    ensures forall i :: 0 <= i < |holes| ==> holes[i].end <= hi
    decreases |holes|
  {
    if holes != [] {
      OrderedReach(holes[0].end, holes[1..], hi);
      EndsWithin(holes[0].end, holes[1..], hi);
    }
  }
}
