/** Programs in the memory of the machine: where their functions are. */
module Loading {
  import opened Common
  import opened Bytecode
  import opened Syntax
  import opened Codegen
  import opened Patching
  import opened Machine
  import opened Semantics
  import opened Resolution

  // ----- What the parser guarantees about a tree -----

  predicate GoodSimple(m: Simple) { m.Assign? ==> Assignable(m.kind, m.lhs) }

  predicate GoodOpt(m: Option<Simple>) { m.None? || GoodSimple(m.value) }

  /** Assignments have targets, break and continue are inside of loops, parameters are distinct, functions not too
      long. */
  ghost predicate GoodS(s: Stmt, loop: bool)
    decreases s, 1
  {
    match s
    case Do(m) => GoodSimple(m)
    case If(cs, els) => GoodClauses(cs, loop) && GoodElse(els, loop)
    case While(_, b) => GoodB(b, true)
    case For(i, _, p, b) => GoodOpt(i) && GoodOpt(p) && GoodB(b, true)
    case FunDecl(_, ps, b) => NoDup(ps) && GoodB(b, false) && FunFits(ps, b)
    case Break => loop
    case Continue => loop
    case _ => true
  }

  ghost predicate GoodClause(c: Clause, loop: bool)
    decreases c, 1
  {
    GoodB(c.blk, loop)
  }

  ghost predicate GoodClauses(cs: seq<Clause>, loop: bool)
    decreases cs, 0
  {
    cs == [] || (GoodClauses(cs[..|cs| - 1], loop) && GoodClause(cs[|cs| - 1], loop))
  }

  ghost predicate GoodElse(els: ElsePart, loop: bool)
    decreases els, 1
  {
    els.NoElse? || GoodB(els.blk, loop)
  }

  ghost predicate GoodB(b: seq<Stmt>, loop: bool)
    decreases b, 0
  {
    b == [] || (GoodB(b[..|b| - 1], loop) && GoodS(b[|b| - 1], loop))
  }

  // ----- Assignments -----

  /** The code of e without its last instruction. */
  function CodePlace(e: Expr): seq<Instr>
    requires e.Index? || e.Field?
  {
    if e.Index? then CodeE(e.base) + CodeE(e.index) else CodeE(e.base) + [LoadConst(Str(e.field))]
  }

  lemma {:induction false} AssignCode(m: Simple, slots: seq<string>)
    requires m.Assign? && GoodSimple(m)
    ensures var place := Bare(m.lhs);
      && |CodeSimple(m, slots)| == LenSimple(m)
      && (place.Var? ==> CodeSimple(m, slots) == CodeE(m.rhs) + [StoreInstr(LoadSymbolic(place.name), m.kind, slots)])
      && (!place.Var? ==>
            && (place.Index? || place.Field?) && m.kind != StoreHere
            && CodeSimple(m, slots) == CodePlace(place) + CodeE(m.rhs)
              + [if m.kind.Modify? then ModifyAt(m.kind.aop) else StoreAt])
  {
    var (place, cl) := (Bare(m.lhs), CodeE(m.lhs));
    var n := |cl| - 1;
    if place.Var? {
      assert cl == [LoadSymbolic(place.name)];
      assert cl[..n] == [];
      assert [] + CodeE(m.rhs) == CodeE(m.rhs);
    } else {
      assert cl == CodePlace(place) + [LoadAt];
      assert cl[..n] == CodePlace(place) && cl[n] == LoadAt;
    }
  }

  // ----- Loops -----

  /** The code of a `for`, whose condition is at `begin`, with absolute addresses for its jumps. */
  lemma {:induction false} ForCode(s: Stmt, slots: seq<string>, begin: int, from: int, post: int, back: int, end: int)
    requires s.For? && from == begin + LenTest(s.test) && post == from + LenB(s.body)
      && end == post + LenOpt(s.post) + 1 && back == end - 1
    ensures CodeFor(s.test, s.post, s.body, slots) == CodeTest(s.test, end - from + 1)
      + CodeB(s.body, slots, Targets(Some(end), Some(post)).Shift(from)) + CodeOptSimple(s.post, slots)
        + [Jump(Encode(begin - back))]
  {
    hide CodeTest, CodeB, CodeOptSimple, Encode, LenB, LenOpt, LenTest;
    assert LenB(s.body) + LenOpt(s.post) + 2 == end - from + 1;
    assert Targets(Some(end), Some(post)).Shift(from) == Targets(Some(LenB(s.body) + LenOpt(s.post) + 1),
      Some(LenB(s.body)));
    assert begin - back == -(LenTest(s.test) + LenB(s.body) + LenOpt(s.post));
  }

  /** All the names have slots. */
  ghost predicate Has(slots: seq<string>, names: set<string>) {
    forall x :: x in names ==> x in slots
  }

  // ----- Pieces of code in memory -----

  /** From pos on, the memory holds the code with its names resolved. */
  ghost predicate Seg(code: Code, pos: int, raw: seq<Instr>, slots: seq<string>) {
    && 0 <= pos && pos + |raw| <= |code|
    && forall k {:trigger raw[k]} :: 0 <= k < |raw| ==> code[pos + k] == Resolve(raw[k], slots)
  }

  lemma {:induction false} SegSplit(code: Code, pos: int, a: seq<Instr>, b: seq<Instr>, slots: seq<string>, mid: int)
    requires Seg(code, pos, a + b, slots) && mid == pos + |a|
    ensures Seg(code, pos, a, slots) && Seg(code, mid, b, slots)
  {
    forall k | 0 <= k < |a| ensures code[pos + k] == Resolve(a[k], slots) {
      assert (a + b)[k] == a[k];
    }
    forall k | 0 <= k < |b| ensures code[mid + k] == Resolve(b[k], slots) {
      assert (a + b)[|a| + k] == b[k];
    }
  }

  lemma {:induction false} SegOne(code: Code, pos: int, i: Instr, slots: seq<string>)
    requires Seg(code, pos, [i], slots)
    ensures 0 <= pos < |code| && code[pos] == Resolve(i, slots)
  {
    assert [i][0] == i;
  }

  /** The function f is loaded at the address a. */
  ghost predicate FunAt(code: Code, a: int, f: Fun) {
    && 0 <= a < |code| && code[a] == Function(FunShape(f.params, f.body))
    && Seg(code, a + 1, RawBody(f.body, SlotsB(f.params, f.body)), SlotsB(f.params, f.body))
    && NoDup(f.params) && GoodB(f.body, false) && FunFits(f.params, f.body)
  }

  /** The table holds exactly the functions in the interval. */
  ghost predicate Tabled(code: Code, lo: int, hi: int, t: Table) {
    && (forall a :: a in t ==> lo <= a < hi && FunAt(code, a, t[a]))
    && (forall a {:trigger code[a]} :: 0 <= a < |code| && lo <= a < hi && code[a].Function? ==> a in t)
  }

  /** The table holds exactly the functions of the memory. */
  ghost predicate Loaded(code: Code, t: Table) {
    Tabled(code, 0, |code|, t)
  }

  lemma {:induction false} TabledAppend(code: Code, lo: int, mid: int, hi: int, t: Table, u: Table)
    requires lo <= mid <= hi && Tabled(code, lo, mid, t) && Tabled(code, mid, hi, u)
    ensures Tabled(code, lo, hi, t + u)
  {
    hide FunAt;
  }

  /** Code without function declarations. */
  predicate Plain(raw: seq<Instr>) {
    forall k {:trigger raw[k]} :: 0 <= k < |raw| ==> !raw[k].Function?
  }

  lemma {:induction false} TabledPlain(code: Code, pos: int, raw: seq<Instr>, slots: seq<string>, end: int)
    requires Seg(code, pos, raw, slots) && Plain(raw) && end == pos + |raw|
    ensures Tabled(code, pos, end, map[])
  {
    forall a | 0 <= a < |code| && pos <= a < end ensures !code[a].Function? {
      assert code[pos + (a - pos)] == Resolve(raw[a - pos], slots);
    }
  }

  lemma {:induction false} PlainE(e: Expr)
    ensures Plain(CodeE(e))
    decreases e, 1
  {
    match e
    case Paren(i) => PlainE(i);
    case Unary(o, a) => PlainE(a);
    case Binary(o, l, r) => PlainE(l); PlainE(r);
    case Index(b, i) => PlainE(b); PlainE(i);
    case Field(b, f) => PlainE(b);
    case Invoke(f, args) => PlainE(f); PlainEs(args);
    case ListLit(es) => PlainEs(es);
    case DictLit(ns) => PlainNs(ns);
    case _ =>
  }

  lemma {:induction false} PlainEs(es: seq<Expr>)
    ensures Plain(CodeEs(es))
    decreases es, 0
  {
    if es != [] {
      PlainEs(es[..|es| - 1]);
      PlainE(es[|es| - 1]);
    }
  }

  lemma {:induction false} PlainN(n: Entry)
    ensures Plain(CodeN(n))
    decreases n, 1
  {
    PlainE(n.key);
    PlainE(n.val);
  }

  lemma {:induction false} PlainNs(ns: seq<Entry>)
    ensures Plain(CodeNs(ns))
    decreases ns, 0
  {
    if ns != [] {
      PlainNs(ns[..|ns| - 1]);
      PlainN(ns[|ns| - 1]);
    }
  }

  lemma {:induction false} PlainSimple(m: Simple, slots: seq<string>)
    ensures Plain(CodeSimple(m, slots))
  {
    match m
    case PrintExpr(e) => PlainE(e);
    case Assign(k, l, r) => PlainE(l); PlainE(r);
  }

  lemma {:induction false} PlainOpt(m: Option<Simple>, slots: seq<string>)
    ensures Plain(CodeOptSimple(m, slots)) && |CodeOptSimple(m, slots)| == LenOpt(m)
  {
    if m.Some? { PlainSimple(m.value, slots); }
  }

  lemma {:induction false} PlainTest(c: Option<Expr>, d: int)
    ensures Plain(CodeTest(c, d)) && |CodeTest(c, d)| == LenTest(c)
  {
    if c.Some? { PlainE(c.value); }
  }

  // ----- The table of a program -----

  function TableS(s: Stmt, pos: int): Table
    decreases s, 1
  {
    match s
    case If(cs, els) => TableArms(cs, pos) + (if els.Else? then TableB(els.blk, pos + LenArms(cs)) else map[])
    case While(c, b) => TableB(b, pos + |CodeE(c)| + 1)
    case For(i, c, _, b) => TableB(b, pos + LenOpt(i) + LenTest(c))
    case FunDecl(_, ps, b) => map[pos := Fun(ps, b)] + TableB(b, pos + 1)
    case _ => map[]
  }

  function TableClause(c: Clause, pos: int): Table
    decreases c, 1
  {
    TableB(c.blk, pos + |CodeE(c.cond)| + 1)
  }

  function TableArms(cs: seq<Clause>, pos: int): Table
    decreases cs, 0
  {
    if cs == [] then map[]
    else TableArms(cs[..|cs| - 1], pos) + TableClause(cs[|cs| - 1], pos + LenArms(cs[..|cs| - 1]))
  }

  function TableB(b: seq<Stmt>, pos: int): Table
    decreases b, 0
  {
    if b == [] then map[] else TableB(b[..|b| - 1], pos) + TableS(b[|b| - 1], pos + LenB(b[..|b| - 1]))
  }

  lemma {:induction false} TabledS(code: Code, pos: int, s: Stmt, loop: bool, slots: seq<string>, tg: Targets, end: int)
    requires AllUntouched(FunsS(s)) && GoodS(s, loop) && Seg(code, pos, CodeS(s, slots, tg), slots)
      && end == pos + LenS(s)
    ensures Tabled(code, pos, end, TableS(s, pos))
    decreases s, 1
  {
    hide Seg, Tabled, Encode, CodeB, CodeE, LenB, TableB, FunsB, AllUntouched, GoodB, CodeFor, CodeWhile, FunCode,
      CodeIf, CodeSimple, CodeOptSimple, LenOpt, LenTest, LenArms, LenClauses;
    match s
    case If(_, _) => TabledIf(code, pos, s, loop, slots, tg, end);
    case While(c, b) => TabledWhile(code, pos, c, b, slots, end);
    case For(i, c, p, b) => TabledFor(code, pos, i, c, p, b, slots, end);
    case FunDecl(x, ps, b) =>
      AllFirst(Fun(ps, b), FunsB(b));
      TabledFun(code, pos, x, ps, b, slots, end);
    case Do(m) =>
      PlainSimple(m, slots);
      TabledPlain(code, pos, CodeS(s, slots, tg), slots, end);
    case ReturnVal(e) =>
      PlainE(e);
      TabledPlain(code, pos, CodeS(s, slots, tg), slots, end);
    case _ => TabledPlain(code, pos, CodeS(s, slots, tg), slots, end);
  }

  lemma {:induction false} TabledIf(code: Code, pos: int, s: Stmt, loop: bool, slots: seq<string>, tg: Targets,
      end: int)
    requires s.If? && AllUntouched(FunsS(s)) && GoodS(s, loop) && Seg(code, pos, CodeS(s, slots, tg), slots)
      && end == pos + LenS(s)
    ensures Tabled(code, pos, end, TableS(s, pos))
    decreases s, 0
  {
    hide Seg, Tabled, Encode, CodeS, CodeE, CodeB, CodeArms, LenB, GoodClauses, AllUntouched, FunsB, FunsClauses,
      GoodB, TableArms, TableB;
    var If(cs, els) := s;
    var mid := if els.Else? then pos + LenArms(cs) else end;
    IfCode(s, slots, tg);
    AllAppend(FunsClauses(cs), if els.Else? then FunsB(els.blk) else []);
    SegSplit(code, pos, CodeClauses(cs, slots, tg, Some(LenS(s)), els.Else?),
      CodeElse(els, slots, tg.Shift(LenArms(cs))), slots, mid);
    if els.Else? {
      TabledArms(code, pos, cs, loop, slots, tg, Some(LenS(s)), mid);
      TabledB(code, mid, els.blk, loop, slots, tg.Shift(LenArms(cs)), end);
      TabledAppend(code, pos, mid, end, TableArms(cs, pos), TableB(els.blk, mid));
    } else {
      TabledClauses(code, pos, cs, loop, slots, tg, Some(LenS(s)), end);
      assert TableArms(cs, pos) + map[] == TableArms(cs, pos);
    }
  }

  /** Code without functions around code with them. */
  lemma {:induction false} TabledInside(
      code: Code, pos: int, pre: seq<Instr>, a: seq<Instr>, post: seq<Instr>, slots: seq<string>, t: Table, from: int,
      to: int, end: int)
    requires from == pos + |pre| && to == from + |a| && end == to + |post|
    requires Seg(code, pos, pre, slots) && Plain(pre) && Seg(code, to, post, slots) && Plain(post)
      && Tabled(code, from, to, t)
    ensures Tabled(code, pos, end, t)
  {
    TabledPlain(code, pos, pre, slots, from);
    TabledPlain(code, to, post, slots, end);
    TabledAppend(code, pos, from, to, map[], t);
    TabledAppend(code, pos, to, end, map[] + t, map[]);
    assert map[] + t + map[] == t;
  }

  lemma {:induction false} TabledWhile(code: Code, pos: int, c: Expr, b: seq<Stmt>, slots: seq<string>, end: int)
    requires AllUntouched(FunsB(b)) && GoodB(b, true) && Seg(code, pos, CodeWhile(c, b, slots), slots)
      && end == pos + |CodeE(c)| + 1 + LenB(b) + 1
    ensures Tabled(code, pos, end, TableB(b, pos + |CodeE(c)| + 1))
    decreases b, 3
  {
    hide CodeB, CodeE, LenB, Seg, Tabled, Encode;
    var tg := Targets(Some(LenB(b) + 1), Some(-(|CodeE(c)| + 1)));
    var (from, to) := (pos + |CodeE(c)| + 1, pos + |CodeE(c)| + 1 + LenB(b));
    var (pre, body, post) :=
      (CodeE(c) + [JumpUnless(Encode(LenB(b) + 2))], CodeB(b, slots, tg), [Jump(Encode(-(|CodeE(c)| + 1 + LenB(b))))]);
    SegSplit(code, pos, pre + body, post, slots, to);
    SegSplit(code, pos, pre, body, slots, from);
    PlainE(c);
    TabledB(code, from, b, true, slots, tg, to);
    TabledInside(code, pos, pre, body, post, slots, TableB(b, from), from, to, end);
  }

  lemma {:induction false} TabledFor(
      code: Code, pos: int, i: Option<Simple>, c: Option<Expr>, p: Option<Simple>, b: seq<Stmt>, slots: seq<string>,
      end: int)
    requires AllUntouched(FunsB(b)) && GoodB(b, true)
      && Seg(code, pos, CodeOptSimple(i, slots) + CodeFor(c, p, b, slots), slots)
    requires end == pos + LenOpt(i) + LenTest(c) + LenB(b) + LenOpt(p) + 1
    ensures Tabled(code, pos, end, TableB(b, pos + LenOpt(i) + LenTest(c)))
    decreases b, 3
  {
    hide CodeB, CodeE, LenB, Seg, Tabled, Encode, CodeTest, CodeOptSimple, LenOpt, LenTest;
    var tg := Targets(Some(LenB(b) + LenOpt(p) + 1), Some(LenB(b)));
    var (from, to) := (pos + LenOpt(i) + LenTest(c), pos + LenOpt(i) + LenTest(c) + LenB(b));
    var (x, test) := (CodeOptSimple(i, slots), CodeTest(c, LenB(b) + LenOpt(p) + 2));
    var (body, post) := (CodeB(b, slots, tg),
      CodeOptSimple(p, slots) + [Jump(Encode(-(LenTest(c) + LenB(b) + LenOpt(p))))]);
    PlainOpt(i, slots);
    PlainTest(c, LenB(b) + LenOpt(p) + 2);
    PlainOpt(p, slots);
    assert x + CodeFor(c, p, b, slots) == (x + test) + body + post;
    SegSplit(code, pos, x + test + body, post, slots, to);
    SegSplit(code, pos, x + test, body, slots, from);
    TabledB(code, from, b, true, slots, tg, to);
    TabledInside(code, pos, x + test, body, post, slots, TableB(b, from), from, to, end);
  }

  lemma {:induction false} TabledClause(
      code: Code, pos: int, c: Clause, loop: bool, slots: seq<string>, tg: Targets, skip: int, end: int)
    requires AllUntouched(FunsB(c.blk)) && GoodClause(c, loop)
      && Seg(code, pos, CodeClause(c, slots, tg, skip), slots) && end == pos + LenClause(c)
    ensures Tabled(code, pos, end, TableClause(c, pos))
    decreases c, 1
  {
    hide CodeB, CodeE, LenB, Seg, Tabled, Encode;
    var from := pos + |CodeE(c.cond)| + 1;
    var (pre, body) := (CodeE(c.cond) + [JumpUnless(Encode(skip))], CodeB(c.blk, slots, tg.Shift(|CodeE(c.cond)| + 1)));
    SegSplit(code, pos, pre, body, slots, from);
    PlainE(c.cond);
    TabledPlain(code, pos, pre, slots, from);
    TabledB(code, from, c.blk, loop, slots, tg.Shift(|CodeE(c.cond)| + 1), end);
    TabledAppend(code, pos, from, end, map[], TableB(c.blk, from));
    assert map[] + TableB(c.blk, from) == TableB(c.blk, from);
  }

  lemma {:induction false} TabledArms(
      code: Code, pos: int, cs: seq<Clause>, loop: bool, slots: seq<string>, tg: Targets, end: Option<int>, to: int)
    requires AllUntouched(FunsClauses(cs)) && GoodClauses(cs, loop)
      && Seg(code, pos, CodeArms(cs, slots, tg, end), slots) && to == pos + LenArms(cs)
    ensures Tabled(code, pos, to, TableArms(cs, pos))
    decreases cs, 0
  {
    hide Seg, Tabled, Encode, CodeB, CodeE, LenB, CodeClause;
    if cs == [] {
      TabledPlain(code, pos, [], slots, to);
    } else {
      var (init, c) := (cs[..|cs| - 1], cs[|cs| - 1]);
      var n := LenArms(init);
      var jump := [JumpTo(Shifted(end, n + LenClause(c)))];
      SegSplit(code, pos, CodeInit(cs, slots, tg, end, LenB(c.blk) + 2), jump, slots, to - 1);
      TabledPlain(code, to - 1, jump, slots, to);
      TabledLast(code, pos, cs, loop, slots, tg, end, LenB(c.blk) + 2, to - 1);
      TabledAppend(code, pos, to - 1, to, TableArms(cs, pos), map[]);
      assert TableArms(cs, pos) + map[] == TableArms(cs, pos);
    }
  }

  lemma {:induction false} TabledLast(
      code: Code, pos: int, cs: seq<Clause>, loop: bool, slots: seq<string>, tg: Targets, end: Option<int>, skip: int,
      to: int)
    requires cs != [] && AllUntouched(FunsClauses(cs)) && GoodClauses(cs, loop)
    requires Seg(code, pos, CodeInit(cs, slots, tg, end, skip), slots) && to == pos + LenClauses(cs)
    ensures Tabled(code, pos, to, TableArms(cs, pos))
    decreases cs, 0, 0
  {
    hide Seg, Tabled, Encode, CodeB, CodeE, LenB, CodeClause, AllUntouched, FunsB;
    var (init, c) := (cs[..|cs| - 1], cs[|cs| - 1]);
    AllAppend(FunsClauses(init), FunsB(c.blk));
    var mid := pos + LenArms(init);
    SegSplit(code, pos, CodeArms(init, slots, tg, end), CodeClause(c, slots, tg.Shift(LenArms(init)), skip), slots,
      mid);
    TabledArms(code, pos, init, loop, slots, tg, end, mid);
    TabledClause(code, mid, c, loop, slots, tg.Shift(LenArms(init)), skip, to);
    TabledAppend(code, pos, mid, to, TableArms(init, pos), TableClause(c, mid));
  }

  lemma {:induction false} TabledClauses(
      code: Code, pos: int, cs: seq<Clause>, loop: bool, slots: seq<string>, tg: Targets, end: Option<int>, to: int)
    requires AllUntouched(FunsClauses(cs)) && GoodClauses(cs, loop)
      && Seg(code, pos, CodeClauses(cs, slots, tg, end, false), slots)
    requires to == pos + LenClauses(cs)
    ensures Tabled(code, pos, to, TableArms(cs, pos))
    decreases cs, 1
  {
    if cs == [] {
      TabledPlain(code, pos, [], slots, to);
    } else {
      TabledLast(code, pos, cs, loop, slots, tg, end, LenB(cs[|cs| - 1].blk) + 1, to);
    }
  }

  lemma {:induction false} TabledB(code: Code, pos: int, b: seq<Stmt>, loop: bool, slots: seq<string>, tg: Targets,
      end: int)
    requires AllUntouched(FunsB(b)) && GoodB(b, loop) && Seg(code, pos, CodeB(b, slots, tg), slots)
      && end == pos + LenB(b)
    ensures Tabled(code, pos, end, TableB(b, pos))
    decreases b, 0
  {
    hide Seg, Tabled, Encode, CodeS, CodeE, LenS, TableS, FunsS, AllUntouched, GoodS;
    if b == [] {
      TabledPlain(code, pos, [], slots, end);
    } else {
      var (init, s) := (b[..|b| - 1], b[|b| - 1]);
      var mid := pos + LenB(init);
      AllAppend(FunsB(init), FunsS(s));
      SegSplit(code, pos, CodeB(init, slots, tg), CodeS(s, slots, tg.Shift(LenB(init))), slots, mid);
      TabledB(code, pos, init, loop, slots, tg, mid);
      TabledS(code, mid, s, loop, slots, tg.Shift(LenB(init)), end);
      TabledAppend(code, pos, mid, end, TableB(init, pos), TableS(s, mid));
    }
  }

  /** Resolving a resolved name changes nothing. */
  lemma {:induction false} SegResolved(code: Code, pos: int, raw: seq<Instr>, inner: seq<string>, outer: seq<string>)
    requires Seg(code, pos, Resolved(raw, inner), outer)
    ensures Seg(code, pos, raw, inner)
  {
    forall k | 0 <= k < |raw| ensures code[pos + k] == Resolve(raw[k], inner) {
      assert Resolved(raw, inner)[k] == Resolve(raw[k], inner);
    }
  }

  lemma {:induction false} TabledBody(code: Code, at: int, ps: seq<string>, b: seq<Stmt>, outer: seq<string>, end: int)
    requires Settled(b) && GoodB(b, false) && NoDup(ps) && FunFits(ps, b)
    requires Seg(code, at, FunCode(ps, b), outer) && end == at + LenB(b) + 3
    ensures Tabled(code, at, end, map[at := Fun(ps, b)] + TableB(b, at + 1))
    decreases b, 3
  {
    var slots := SlotsB(ps, b);
    var (code', ret) := (CodeB(b, slots, NO_TARGETS), [LoadConst(Nil), Return]);
    BodyResolved(ps, b);
    hide FunCode, FunShape, CodeB, SlotsB, LenB, Seg, Tabled, Untouched, AllUntouched, FunsB, GoodB, TableB;
    SegSplit(code, at, [Function(FunShape(ps, b))], Resolved(RawBody(b, slots), slots), outer, at + 1);
    SegOne(code, at, Function(FunShape(ps, b)), outer);
    SegResolved(code, at + 1, RawBody(b, slots), slots, outer);
    SegSplit(code, at + 1, code', ret, slots, end - 2);
    TabledB(code, at + 1, b, false, slots, NO_TARGETS, end - 2);
    TabledPlain(code, end - 2, ret, slots, end);
    TabledAppend(code, at + 1, end - 2, end, TableB(b, at + 1), map[]);
    assert TableB(b, at + 1) + map[] == TableB(b, at + 1);
    TabledHead(code, at, Fun(ps, b));
    TabledAppend(code, at, at + 1, end, map[at := Fun(ps, b)], TableB(b, at + 1));
  }

  lemma {:induction false} TabledHead(code: Code, at: int, f: Fun)
    requires FunAt(code, at, f)
    ensures Tabled(code, at, at + 1, map[at := f])
  {
    hide FunAt;
  }

  lemma {:induction false} TabledFun(code: Code, pos: int, x: string, ps: seq<string>, b: seq<Stmt>,
      slots: seq<string>, end: int)
    requires Settled(b) && GoodB(b, false) && NoDup(ps) && FunFits(ps, b)
    requires Seg(code, pos, FunCode(ps, b) + [StoreSymbolic(x)], slots) && end == pos + LenB(b) + 4
    ensures Tabled(code, pos, end, map[pos := Fun(ps, b)] + TableB(b, pos + 1))
    decreases b, 4
  {
    SegSplit(code, pos, FunCode(ps, b), [StoreSymbolic(x)], slots, end - 1);
    TabledBody(code, pos, ps, b, slots, end - 1);
    hide FunCode, LenB, Seg, Tabled, Untouched, AllUntouched, FunsB, GoodB, TableB;
    TabledPlain(code, end - 1, [StoreSymbolic(x)], slots, end);
    var t := map[pos := Fun(ps, b)] + TableB(b, pos + 1);
    TabledAppend(code, pos, end - 1, end, t, map[]);
    assert t + map[] == t;
  }

  /** The functions of a program, loaded at address 0. */
  function TableOf(b: seq<Stmt>): Table { map[0 := Fun([], b)] + TableB(b, 1) }

  /** A compiled program is a memory image with exactly the functions of its text. */
  lemma {:induction false} ProgramLoaded(b: seq<Stmt>)
    requires Settled(b) && GoodB(b, false) && FunFits([], b)
    ensures Loaded(FunCode([], b), TableOf(b)) && TableOf(b)[0] == Fun([], b)
  {
    var code := FunCode([], b);
    assert Seg(code, 0, code, []) by {
      BodyResolved([], b);
    }
    TabledBody(code, 0, [], b, [], |code|);
    assert 0 !in TableB(b, 1) by { BodyAbove(b, code); }
  }

  lemma {:induction false} BodyAbove(b: seq<Stmt>, code: Code)
    requires Settled(b) && GoodB(b, false) && code == FunCode([], b)
    ensures 0 !in TableB(b, 1)
  {
    var slots := SlotsB([], b);
    BodyResolved([], b);
    assert Seg(code, 1, RawBody(b, slots), slots);
    SegSplit(code, 1, CodeB(b, slots, NO_TARGETS), [LoadConst(Nil), Return], slots, 1 + LenB(b));
    TabledB(code, 1, b, false, slots, NO_TARGETS, 1 + LenB(b));
  }

}
