/** How many operands are on the stack before each instruction of a function. */
module StackDepth {
  import opened Common
  import opened Bytecode
  import opened Syntax
  import opened Codegen
  import opened Patching
  import opened Machine
  import opened Semantics
  import opened Resolution
  import opened Loading

  // ----- The depth before each instruction; HIDDEN inside of a nested function -----

  const HIDDEN := -1

  function DepthE(e: Expr, d: int): (r: seq<int>)
    ensures |r| == |CodeE(e)| && r[0] == d
    decreases e, 1
  {
    match e
    case Const(_) => [d]
    case Var(_) => [d]
    case Paren(i) => DepthE(i, d)
    case Unary(_, a) => DepthE(a, d) + [d + 1]
    case Binary(_, l, r) => DepthE(l, d) + DepthE(r, d + 1) + [d + 2]
    case Index(b, i) => DepthE(b, d) + DepthE(i, d + 1) + [d + 2]
    case Field(b, _) => DepthE(b, d) + [d + 1, d + 2]
    case Invoke(f, args) => DepthE(f, d) + DepthEs(args, d + 1) + [d + 1 + |args|]
    case ListLit(es) => DepthEs(es, d) + [d + |es|]
    case DictLit(ns) => DepthNs(ns, d) + [d + 2 * |ns|]
  }

  function DepthEs(es: seq<Expr>, d: int): (r: seq<int>)
    ensures |r| == |CodeEs(es)| && (r + [d + |es|])[0] == d
    decreases es, 0
  {
    if es == [] then [] else DepthEs(es[..|es| - 1], d) + DepthE(es[|es| - 1], d + |es| - 1)
  }

  function DepthN(n: Entry, d: int): (r: seq<int>)
    ensures |r| == |CodeN(n)| > 0 && r[0] == d
    decreases n, 1
  {
    DepthE(n.key, d) + DepthE(n.val, d + 1)
  }

  function DepthNs(ns: seq<Entry>, d: int): (r: seq<int>)
    ensures |r| == |CodeNs(ns)| && (r + [d + 2 * |ns|])[0] == d
    decreases ns, 0
  {
    if ns == [] then [] else DepthNs(ns[..|ns| - 1], d) + DepthN(ns[|ns| - 1], d + 2 * (|ns| - 1))
  }

  /** An assignment to an element leaves container and index on the stack while the right-hand side is computed. */
  function DepthSimple(m: Simple): (r: seq<int>)
    ensures |r| == LenSimple(m) > 0 && r[0] == 0
  {
    match m
    case PrintExpr(e) => DepthE(e, 0) + [1]
    case Assign(_, l, r) =>
      var n := |CodeE(l)| - 1;
      var d := DepthE(l, 0)[n];
      DepthE(l, 0)[..n] + DepthE(r, d) + [d + 1]
  }

  function DepthOpt(m: Option<Simple>): (r: seq<int>)
    ensures |r| == LenOpt(m) && (r + [0])[0] == 0
  {
    if m.None? then [] else DepthSimple(m.value)
  }

  function DepthTest(c: Option<Expr>): (r: seq<int>)
    ensures |r| == LenTest(c) && (r + [0])[0] == 0
  {
    if c.None? then [] else DepthE(c.value, 0) + [1]
  }

  function Hidden(n: nat): (r: seq<int>)
    ensures |r| == n
  {
    seq(n, _ => HIDDEN)
  }

  function DepthS(s: Stmt): (r: seq<int>)
    ensures |r| == LenS(s) && (r + [0])[0] == 0
    decreases s, 1
  {
    match s
    case Empty => []
    case Do(m) => DepthSimple(m)
    case If(cs, els) => if els.Else? then DepthArms(cs) + DepthB(els.blk) else DepthClauses(cs)
    case While(c, b) => DepthE(c, 0) + [1] + DepthB(b) + [0]
    case For(i, c, p, b) => DepthOpt(i) + DepthTest(c) + DepthB(b) + DepthOpt(p) + [0]
    case FunDecl(_, _, b) => [0] + Hidden(LenB(b) + 2) + [1]
    case ReturnNil => [0, 1]
    case ReturnVal(e) => DepthE(e, 0) + [1]
    case Break => [0]
    case Continue => [0]
  }

  function DepthClause(c: Clause): (r: seq<int>)
    ensures |r| == LenClause(c) > 0 && r[0] == 0
    decreases c, 1
  {
    DepthE(c.cond, 0) + [1] + DepthB(c.blk)
  }

  function DepthClauses(cs: seq<Clause>): (r: seq<int>)
    ensures |r| == LenClauses(cs) && (r + [0])[0] == 0
    decreases cs, 0
  {
    if cs == [] then [] else DepthArms(cs[..|cs| - 1]) + DepthClause(cs[|cs| - 1])
  }

  function DepthArms(cs: seq<Clause>): (r: seq<int>)
    ensures |r| == LenArms(cs) && (r + [0])[0] == 0
    decreases cs, 0
  {
    if cs == [] then [] else DepthArms(cs[..|cs| - 1]) + DepthClause(cs[|cs| - 1]) + [0]
  }

  function DepthB(b: seq<Stmt>): (r: seq<int>)
    ensures |r| == LenB(b) && (r + [0])[0] == 0
    decreases b, 0
  {
    if b == [] then [] else DepthB(b[..|b| - 1]) + DepthS(b[|b| - 1])
  }

  /** Between two statements there are no operands. */
  lemma {:induction false} StatementBoundary(b: seq<Stmt>, i: nat)
    requires i <= |b|
    ensures LenB(b[..i]) <= LenB(b) && (DepthB(b) + [0])[LenB(b[..i])] == 0
    decreases |b|
  {
    if i == |b| {
      assert b[..i] == b;
    } else {
      var (init, s) := (b[..|b| - 1], b[|b| - 1]);
      StatementBoundary(init, i);
      assert init[..i] == b[..i];
      assert DepthB(b) + [0] == DepthB(init) + (DepthS(s) + [0]);
    }
  }

  /** The depths of a whole body, and 0 behind it. */
  function Depths(b: seq<Stmt>): (r: seq<int>)
    ensures |r| == LenB(b) + 3
  {
    DepthB(b) + [0, 1, 0]
  }

  // ----- The depths fit the code -----

  /** A function: its code before the names are resolved, the depths before its instructions and behind the last
      one, and the number of its locals. */
  datatype Body = Body(raw: seq<Instr>, ds: seq<int>, nlocals: nat)

  function BodyOf(f: Fun): Body {
    var slots := SlotsB(f.params, f.body);
    Body(RawBody(f.body, slots), Depths(f.body), |slots|)
  }

  /** The instruction that follows k in the text of the function: behind the nested function, if one begins at k. */
  function Following(raw: seq<Instr>, k: int): int
    requires 0 <= k < |raw|
  {
    if raw[k].Function? then k + raw[k].shape.offset else k + 1
  }

  predicate SlotOk(i: Instr, n: nat) { i.LoadLocal? || i.StoreLocal? || i.ModifyLocal? ==> i.slot < n }

  /** Position k is inside of the function, and the depth there is d. */
  predicate LeadsTo(ds: seq<int>, k: int, d: int) { 0 <= k < |ds| - 1 && ds[k] == d && d >= 0 }

  /** Instruction k finds its operands, and leaves the depth that its successors expect. */
  ghost predicate Fine(fn: Body, k: int)
    requires 0 <= k < |fn.raw| < |fn.ds|
  {
    fn.ds[k] == HIDDEN || (
      && Pops(fn.raw[k]) <= fn.ds[k] && SlotOk(fn.raw[k], fn.nlocals)
      && (fn.raw[k].Return? ==> fn.ds[k] == 1)
      && ((fn.raw[k].Return? && k + 1 == |fn.raw|)
        || LeadsTo(fn.ds, Following(fn.raw, k), fn.ds[k] + Effect(fn.raw[k])))
      && (forall q :: k < q < Following(fn.raw, k) ==> fn.ds[q] == HIDDEN)
      && (fn.raw[k].Jump? || fn.raw[k].JumpUnless? ==>
        LeadsTo(fn.ds, k + Decode(fn.raw[k].c), fn.ds[k] + Effect(fn.raw[k]))))
  }

  /** The code and the depths of a piece of a function, at p. */
  ghost predicate Piece(fn: Body, p: int, code: seq<Instr>, depths: seq<int>) {
    && |fn.ds| == |fn.raw| + 1 && 0 <= p && p + |code| <= |fn.raw| && |code| == |depths|
    && (forall k {:trigger code[k]} :: 0 <= k < |code| ==> fn.raw[p + k] == code[k])
    && (forall k {:trigger depths[k]} :: 0 <= k < |depths| ==> fn.ds[p + k] == depths[k])
  }

  ghost predicate AllFine(fn: Body, p: int, q: int) {
    |fn.raw| < |fn.ds| && 0 <= p && q <= |fn.raw| && forall k :: p <= k < q ==> Fine(fn, k)
  }

  lemma {:induction false} PieceSplit(
      fn: Body, p: int, a: seq<Instr>, da: seq<int>, b: seq<Instr>, db: seq<int>, mid: int)
    requires Piece(fn, p, a + b, da + db) && |a| == |da| && mid == p + |a|
    ensures Piece(fn, p, a, da) && Piece(fn, mid, b, db)
  {
    forall k | 0 <= k < |a| ensures fn.raw[p + k] == a[k] && fn.ds[p + k] == da[k] {
      assert (a + b)[k] == a[k] && (da + db)[k] == da[k];
    }
    forall k | 0 <= k < |b| ensures fn.raw[mid + k] == b[k] && fn.ds[mid + k] == db[k] {
      assert (a + b)[|a| + k] == b[k] && (da + db)[|a| + k] == db[k];
    }
  }

  lemma {:induction false} PieceOne(fn: Body, p: int, i: Instr, d: int)
    requires Piece(fn, p, [i], [d])
    ensures 0 <= p < |fn.raw| && |fn.ds| == |fn.raw| + 1 && fn.raw[p] == i && fn.ds[p] == d
  {
    assert [i][0] == i && [d][0] == d;
  }

  lemma {:induction false} FineAppend(fn: Body, p: int, mid: int, q: int)
    requires AllFine(fn, p, mid) && AllFine(fn, mid, q) && p <= mid <= q
    ensures AllFine(fn, p, q)
  {
    hide Fine;
  }

  lemma {:induction false} FineOne(fn: Body, p: int)
    requires 0 <= p < |fn.raw| < |fn.ds| && Fine(fn, p)
    ensures AllFine(fn, p, p + 1)
  {
    hide Fine;
  }

  /** One instruction that neither jumps nor declares a function. */
  lemma {:induction false} FinePlain(fn: Body, p: int, i: Instr, d: int)
    requires SlotOk(i, fn.nlocals)
    requires Piece(fn, p, [i], [d]) && Pops(i) <= d && (i.Return? ==> d == 1)
    requires !i.Function? && !i.Jump? && !i.JumpUnless? && LeadsTo(fn.ds, p + 1, d + Effect(i))
    ensures AllFine(fn, p, p + 1)
  {
    PieceOne(fn, p, i, d);
    FineOne(fn, p);
  }

  /** A jump by `n` instructions. */
  lemma {:induction false} FineJump(fn: Body, p: int, i: Instr, d: int, n: int)
    requires Piece(fn, p, [i], [d]) && (i == Jump(Encode(n)) || i == JumpUnless(Encode(n))) && Pops(i) <= d
    requires -INT32_MAX <= n <= INT32_MAX && LeadsTo(fn.ds, p + 1, d + Effect(i))
      && LeadsTo(fn.ds, p + n, d + Effect(i))
    ensures AllFine(fn, p, p + 1)
  {
    hide Encode, Decode;
    PieceOne(fn, p, i, d);
    assert Decode(Encode(n)) == n;
    FineOne(fn, p);
  }

  lemma {:induction false} PieceHead(fn: Body, p: int, code: seq<Instr>, depths: seq<int>, d: int, end: int)
    requires Piece(fn, p, code, depths) && end == p + |code| && LeadsTo(fn.ds, end, 0) && (depths + [0])[0] == 0
      && d == 0
    ensures LeadsTo(fn.ds, p, d)
  {
    if code != [] { assert depths[0] == (depths + [0])[0]; }
  }

  lemma {:induction false} FineE(fn: Body, p: int, e: Expr, d: int, end: int)
    requires Piece(fn, p, CodeE(e), DepthE(e, d)) && end == p + |CodeE(e)| && d >= 0 && LeadsTo(fn.ds, end, d + 1)
    ensures AllFine(fn, p, end) && LeadsTo(fn.ds, p, d)
    decreases e, 1
  {
    if e.Paren? {
      FineE(fn, p, e.inner, d, end);
    } else {
      FineNode(fn, p, e, d, end);
      FirstDepth(fn, p, CodeE(e), DepthE(e, d));
    }
    hide Piece, AllFine;
  }

  lemma {:induction false} FirstDepth(fn: Body, p: int, code: seq<Instr>, depths: seq<int>)
    requires Piece(fn, p, code, depths) && depths != []
    ensures 0 <= p < |fn.ds| - 1 && fn.ds[p] == depths[0]
  {
  }

  lemma {:induction false} FineNode(fn: Body, p: int, e: Expr, d: int, end: int)
    requires !e.Paren? && Piece(fn, p, CodeE(e), DepthE(e, d)) && end == p + |CodeE(e)| && d >= 0
      && LeadsTo(fn.ds, end, d + 1)
    ensures AllFine(fn, p, end)
    decreases e, 0
  {
    hide Piece, AllFine, LeadsTo, CodeEs, CodeNs, DepthEs, DepthNs;
    var last := end - 1;
    match e
    case Const(v) => FinePlain(fn, p, LoadConst(v), d);
    case Var(x) => FinePlain(fn, p, LoadSymbolic(x), d);
    case Unary(o, a) =>
      PieceSplit(fn, p, CodeE(a), DepthE(a, d), [UnInstr(o)], [d + 1], last);
      FineThen(fn, p, a, d, last, UnInstr(o), end);
    case Binary(o, l, r) =>
      PieceSplit(fn, p, CodeE(l) + CodeE(r), DepthE(l, d) + DepthE(r, d + 1), [BinInstr(o)], [d + 2], last);
      FineTwo(fn, p, e, l, r, d, last, BinInstr(o), end);
    case Index(b, i) =>
      PieceSplit(fn, p, CodeE(b) + CodeE(i), DepthE(b, d) + DepthE(i, d + 1), [LoadAt], [d + 2], last);
      FineTwo(fn, p, e, b, i, d, last, LoadAt, end);
    case Field(b, f) =>
      FineField(fn, p, e, d, end);
    case Invoke(f, args) =>
      FineInvoke(fn, p, e, d, end);
    case ListLit(es) =>
      FineLiteral(fn, p, e, d, end);
    case DictLit(ns) =>
      FineLiteral(fn, p, e, d, end);
  }

  lemma {:induction false} FineLiteral(fn: Body, p: int, e: Expr, d: int, end: int)
    requires (e.ListLit? || e.DictLit?) && Piece(fn, p, CodeE(e), DepthE(e, d)) && end == p + |CodeE(e)|
    requires d >= 0 && LeadsTo(fn.ds, end, d + 1)
    ensures AllFine(fn, p, end)
    decreases e, 0, 0
  {
    hide Piece, AllFine, LeadsTo, CodeEs, CodeNs, DepthEs, DepthNs;
    var last := end - 1;
    if e.ListLit? {
      var es := e.elems;
      PieceSplit(fn, p, CodeEs(es), DepthEs(es, d), [MakeList(|es|)], [d + |es|], last);
      AtLast(fn, last, MakeList(|es|), d + |es|, d + 1, end);
      FineEs(fn, p, es, d, last);
    } else {
      var ns := e.entries;
      PieceSplit(fn, p, CodeNs(ns), DepthNs(ns, d), [MakeDict(|ns|)], [d + 2 * |ns|], last);
      AtLast(fn, last, MakeDict(|ns|), d + 2 * |ns|, d + 1, end);
      FineNs(fn, p, ns, d, last);
    }
    FineAppend(fn, p, last, end);
  }

  /** The instruction that ends an expression. */
  lemma {:induction false} AtLast(fn: Body, p: int, i: Instr, d: int, d': int, end: int)
    requires SlotOk(i, fn.nlocals)
    requires Piece(fn, p, [i], [d]) && 0 <= Pops(i) <= d && d' == d + Effect(i) && end == p + 1
      && LeadsTo(fn.ds, end, d')
    requires !i.Function? && !i.Jump? && !i.JumpUnless? && !i.Return?
    ensures AllFine(fn, p, end) && LeadsTo(fn.ds, p, d)
  {
    PieceOne(fn, p, i, d);
    FinePlain(fn, p, i, d);
  }

  lemma {:induction false} FineThen(fn: Body, p: int, a: Expr, d: int, mid: int, i: Instr, end: int)
    requires SlotOk(i, fn.nlocals)
    requires Piece(fn, p, CodeE(a), DepthE(a, d)) && mid == p + |CodeE(a)| && d >= 0 && end == mid + 1
    requires Piece(fn, mid, [i], [d + 1]) && Pops(i) <= d + 1 && LeadsTo(fn.ds, end, d + 1 + Effect(i))
    requires !i.Function? && !i.Jump? && !i.JumpUnless? && !i.Return?
    ensures AllFine(fn, p, end)
    decreases a, 2
  {
    hide Piece, AllFine, LeadsTo, CodeE, DepthE;
    AtLast(fn, mid, i, d + 1, d + 1 + Effect(i), end);
    FineE(fn, p, a, d, mid);
    FineAppend(fn, p, mid, end);
  }

  lemma {:induction false} FineTwo(
      fn: Body, p: int, e: Expr, l: Expr, r: Expr, d: int, last: int, i: Instr, end: int)
    requires SlotOk(i, fn.nlocals)
    requires l < e && r < e && Piece(fn, p, CodeE(l) + CodeE(r), DepthE(l, d) + DepthE(r, d + 1)) && d >= 0
    requires last == p + |CodeE(l)| + |CodeE(r)| && end == last + 1 && Piece(fn, last, [i], [d + 2])
    requires Pops(i) == 2 && Effect(i) == -1 && LeadsTo(fn.ds, end, d + 1)
    requires !i.Function? && !i.Jump? && !i.JumpUnless? && !i.Return?
    ensures AllFine(fn, p, end)
    decreases e, 0, 0
  {
    hide Piece, AllFine, LeadsTo, CodeE, DepthE;
    var mid := p + |CodeE(l)|;
    PieceSplit(fn, p, CodeE(l), DepthE(l, d), CodeE(r), DepthE(r, d + 1), mid);
    AtLast(fn, last, i, d + 2, d + 1, end);
    FineE(fn, mid, r, d + 1, last);
    FineE(fn, p, l, d, mid);
    FineAppend(fn, p, mid, last);
    FineAppend(fn, p, last, end);
  }

  lemma {:induction false} FineField(fn: Body, p: int, e: Expr, d: int, end: int)
    requires e.Field? && Piece(fn, p, CodeE(e), DepthE(e, d)) && end == p + |CodeE(e)| && d >= 0
      && LeadsTo(fn.ds, end, d + 1)
    ensures AllFine(fn, p, end)
    decreases e, 0, 0
  {
    hide Piece, AllFine, LeadsTo;
    var (b, i, mid, last) := (e.base, LoadConst(Str(e.field)), end - 2, end - 1);
    assert CodeE(e) == CodeE(b) + [i] + [LoadAt] && DepthE(e, d) == DepthE(b, d) + [d + 1] + [d + 2];
    hide CodeE, DepthE;
    PieceSplit(fn, p, CodeE(b) + [i], DepthE(b, d) + [d + 1], [LoadAt], [d + 2], last);
    PieceSplit(fn, p, CodeE(b), DepthE(b, d), [i], [d + 1], mid);
    AtLast(fn, last, LoadAt, d + 2, d + 1, end);
    AtLast(fn, mid, i, d + 1, d + 2, last);
    FineE(fn, p, b, d, mid);
    FineAppend(fn, p, mid, last);
    FineAppend(fn, p, last, end);
  }

  lemma {:induction false} FineInvoke(fn: Body, p: int, e: Expr, d: int, end: int)
    requires e.Invoke? && Piece(fn, p, CodeE(e), DepthE(e, d)) && end == p + |CodeE(e)| && d >= 0
      && LeadsTo(fn.ds, end, d + 1)
    ensures AllFine(fn, p, end)
    decreases e, 0, 0
  {
    hide Piece, AllFine, LeadsTo, CodeEs, DepthEs;
    var Invoke(f, args) := e;
    var (i, n, mid, last) := (Call(|args|), |args|, p + |CodeE(f)|, end - 1);
    assert CodeE(e) == CodeE(f) + CodeEs(args) + [i]
      && DepthE(e, d) == DepthE(f, d) + DepthEs(args, d + 1) + [d + 1 + n];
    hide CodeE, DepthE;
    PieceSplit(fn, p, CodeE(f) + CodeEs(args), DepthE(f, d) + DepthEs(args, d + 1), [i], [d + 1 + n], last);
    PieceSplit(fn, p, CodeE(f), DepthE(f, d), CodeEs(args), DepthEs(args, d + 1), mid);
    AtLast(fn, last, i, d + 1 + n, d + 1, end);
    FineEs(fn, mid, args, d + 1, last);
    FineE(fn, p, f, d, mid);
    FineAppend(fn, p, mid, last);
    FineAppend(fn, p, last, end);
  }

  lemma {:induction false} FineEs(fn: Body, p: int, es: seq<Expr>, d: int, end: int)
    requires Piece(fn, p, CodeEs(es), DepthEs(es, d)) && end == p + |CodeEs(es)| && d >= 0
      && LeadsTo(fn.ds, end, d + |es|)
    ensures AllFine(fn, p, end) && LeadsTo(fn.ds, p, d)
    decreases es, 0
  {
    hide AllFine, CodeE, DepthE, Fine;
    if es == [] {
      Nowhere(fn, p);
    } else {
      var (init, e) := (es[..|es| - 1], es[|es| - 1]);
      var mid := p + |CodeEs(init)|;
      PieceSplit(fn, p, CodeEs(init), DepthEs(init, d), CodeE(e), DepthE(e, d + |es| - 1), mid);
      FineE(fn, mid, e, d + |es| - 1, end);
      FineEs(fn, p, init, d, mid);
      FineAppend(fn, p, mid, end);
    }
  }

  lemma {:induction false} Nowhere(fn: Body, p: int)
    requires 0 <= p <= |fn.raw| < |fn.ds|
    ensures AllFine(fn, p, p)
  {
  }

  lemma {:induction false} FineN(fn: Body, p: int, n: Entry, d: int, end: int)
    requires Piece(fn, p, CodeN(n), DepthN(n, d)) && end == p + |CodeN(n)| && d >= 0 && LeadsTo(fn.ds, end, d + 2)
    ensures AllFine(fn, p, end) && LeadsTo(fn.ds, p, d)
    decreases n, 1
  {
    hide Piece, AllFine, LeadsTo, CodeE, DepthE;
    var mid := p + |CodeE(n.key)|;
    PieceSplit(fn, p, CodeE(n.key), DepthE(n.key, d), CodeE(n.val), DepthE(n.val, d + 1), mid);
    FineE(fn, mid, n.val, d + 1, end);
    FineE(fn, p, n.key, d, mid);
    FineAppend(fn, p, mid, end);
  }

  lemma {:induction false} FineNs(fn: Body, p: int, ns: seq<Entry>, d: int, end: int)
    requires Piece(fn, p, CodeNs(ns), DepthNs(ns, d)) && end == p + |CodeNs(ns)| && d >= 0
      && LeadsTo(fn.ds, end, d + 2 * |ns|)
    ensures AllFine(fn, p, end) && LeadsTo(fn.ds, p, d)
    decreases ns, 0
  {
    hide AllFine, CodeN, DepthN, Fine;
    if ns == [] {
      Nowhere(fn, p);
    } else {
      var (init, n) := (ns[..|ns| - 1], ns[|ns| - 1]);
      var mid := p + |CodeNs(init)|;
      PieceSplit(fn, p, CodeNs(init), DepthNs(init, d), CodeN(n), DepthN(n, d + 2 * (|ns| - 1)), mid);
      FineN(fn, mid, n, d + 2 * (|ns| - 1), end);
      FineNs(fn, p, init, d, mid);
      FineAppend(fn, p, mid, end);
    }
  }

  // ----- Statements begin and end with no operands -----

  lemma {:induction false} AssignDepths(m: Simple)
    requires m.Assign? && GoodSimple(m)
    ensures var place := Bare(m.lhs);
      && (place.Var? ==> DepthSimple(m) == DepthE(m.rhs, 0) + [1])
      && (place.Index? ==> DepthSimple(m) == DepthE(place.base, 0) + DepthE(place.index, 1) + DepthE(m.rhs, 2) + [3])
      && (place.Field? ==> DepthSimple(m) == DepthE(place.base, 0) + [1] + DepthE(m.rhs, 2) + [3])
  {
    var (place, dl) := (Bare(m.lhs), DepthE(m.lhs, 0));
    BareDepth(m.lhs, 0);
    var n := |CodeE(m.lhs)| - 1;
    if place.Var? {
      assert dl == [0] && dl[..n] == [];
      assert [] + DepthE(m.rhs, 0) == DepthE(m.rhs, 0);
    } else if place.Index? {
      assert dl[..n] == DepthE(place.base, 0) + DepthE(place.index, 1) && dl[n] == 2;
    } else if place.Field? {
      assert dl[..n] == DepthE(place.base, 0) + [1] && dl[n] == 2;
    }
  }

  lemma {:induction false} BareDepth(e: Expr, d: int)
    ensures DepthE(Bare(e), d) == DepthE(e, d)
    decreases e
  {
    if e.Paren? { BareDepth(e.inner, d); }
  }

  lemma {:induction false} FineSimple(fn: Body, p: int, m: Simple, slots: seq<string>, end: int)
    requires Local(fn, slots, TargetsSimple(m))
    requires GoodSimple(m) && Piece(fn, p, CodeSimple(m, slots), DepthSimple(m)) && end == p + LenSimple(m)
      && LeadsTo(fn.ds, end, 0)
    ensures AllFine(fn, p, end)
  {
    hide Piece, AllFine, LeadsTo, CodeE, DepthE, Bare, StoreInstr;
    if m.PrintExpr? {
      PieceSplit(fn, p, CodeE(m.e), DepthE(m.e, 0), [PrintTop], [1], end - 1);
      FineThen(fn, p, m.e, 0, end - 1, PrintTop, end);
    } else {
      AssignCode(m, slots);
      AssignDepths(m);
      hide CodeSimple, DepthSimple;
      if Bare(m.lhs).Var? {
        FineStore(fn, p, m.rhs, Bare(m.lhs).name, m.kind, slots, end);
      } else {
        FineStoreAt(fn, p, Bare(m.lhs), m.rhs, if m.kind.Modify? then ModifyAt(m.kind.aop) else StoreAt, end);
      }
    }
  }

  lemma {:induction false} FineStore(fn: Body, p: int, r: Expr, x: string, k: Kind, slots: seq<string>, end: int)
    requires |slots| == fn.nlocals && (k == StoreHere ==> x in slots)
    requires Piece(fn, p, CodeE(r) + [StoreInstr(LoadSymbolic(x), k, slots)], DepthE(r, 0) + [1])
    requires end == p + |CodeE(r)| + 1 && LeadsTo(fn.ds, end, 0)
    ensures AllFine(fn, p, end)
  {
    var i := StoreInstr(LoadSymbolic(x), k, slots);
    assert Pops(i) == 0 || (Pops(i) == 1 && Effect(i) == -1);
    assert !i.Function? && !i.Jump? && !i.JumpUnless? && !i.Return? && Effect(i) == -1;
    hide Piece, AllFine, LeadsTo, CodeE, DepthE, StoreInstr;
    PieceSplit(fn, p, CodeE(r), DepthE(r, 0), [i], [1], end - 1);
    FineThen(fn, p, r, 0, end - 1, i, end);
  }

  lemma {:induction false} FineStoreAt(fn: Body, p: int, place: Expr, r: Expr, i: Instr, end: int)
    requires (place.Index? || place.Field?) && (i.ModifyAt? || i.StoreAt?)
      && end == p + |CodePlace(place)| + |CodeE(r)| + 1
    requires LeadsTo(fn.ds, end, 0)
    requires Piece(fn, p, CodePlace(place) + CodeE(r) + [i],
      DepthE(place.base, 0) + (if place.Index? then DepthE(place.index, 1) else [1]) + DepthE(r, 2) + [3])
    ensures AllFine(fn, p, end)
  {
    hide Piece, AllFine, LeadsTo, CodeE, DepthE;
    var last := end - 1;
    var mid := last - |CodeE(r)|;
    var from := p + |CodeE(place.base)|;
    var second := if place.Index? then CodeE(place.index) else [LoadConst(Str(place.field))];
    var ds2 := if place.Index? then DepthE(place.index, 1) else [1];
    PieceSplit(fn, p, CodePlace(place) + CodeE(r), DepthE(place.base, 0) + ds2 + DepthE(r, 2), [i], [3], last);
    PieceSplit(fn, p, CodePlace(place), DepthE(place.base, 0) + ds2, CodeE(r), DepthE(r, 2), mid);
    PieceSplit(fn, p, CodeE(place.base), DepthE(place.base, 0), second, ds2, from);
    AtLast(fn, last, i, 3, 0, end);
    FineE(fn, mid, r, 2, last);
    if place.Index? {
      FineE(fn, from, place.index, 1, mid);
    } else {
      AtLast(fn, from, LoadConst(Str(place.field)), 1, 2, mid);
    }
    FineE(fn, p, place.base, 0, from);
    FineAppend(fn, p, from, mid);
    FineAppend(fn, p, mid, last);
    FineAppend(fn, p, last, end);
  }

  /** The names are locals of the function. */
  ghost predicate Local(fn: Body, slots: seq<string>, names: set<string>) { |slots| == fn.nlocals && Has(slots, names) }

  /** Where break and continue lead, nothing is on the stack. */
  ghost predicate Exits(ds: seq<int>, ex: Targets, loop: bool) {
    && (ex.brk.Some? ==> LeadsTo(ds, ex.brk.value, 0)) && (ex.cnt.Some? ==> LeadsTo(ds, ex.cnt.value, 0))
    && (loop ==> ex.brk.Some? && ex.cnt.Some?)
  }

  ghost predicate Short(fn: Body) { |fn.raw| <= INT32_MAX && |fn.ds| == |fn.raw| + 1 }

  lemma {:induction false} FineS(
      fn: Body, p: int, s: Stmt, slots: seq<string>, ex: Targets, loop: bool, end: int)
    requires Local(fn, slots, TargetsS(s))
    requires Short(fn) && GoodS(s, loop) && Exits(fn.ds, ex, loop) && LeadsTo(fn.ds, end, 0) && end == p + LenS(s)
    requires Piece(fn, p, CodeS(s, slots, ex.Shift(p)), DepthS(s))
    ensures AllFine(fn, p, end) && LeadsTo(fn.ds, p, 0)
    decreases s, 1
  {
    PieceHead(fn, p, CodeS(s, slots, ex.Shift(p)), DepthS(s), 0, end);
    FineStmt(fn, p, s, slots, ex, loop, end);
    hide Piece, AllFine, CodeS, DepthS, LenS, GoodS;
  }

  lemma {:induction false} FineStmt(
      fn: Body, p: int, s: Stmt, slots: seq<string>, ex: Targets, loop: bool, end: int)
    requires Local(fn, slots, TargetsS(s))
    requires Short(fn) && GoodS(s, loop) && Exits(fn.ds, ex, loop) && LeadsTo(fn.ds, end, 0) && end == p + LenS(s)
    requires Piece(fn, p, CodeS(s, slots, ex.Shift(p)), DepthS(s))
    ensures AllFine(fn, p, end)
    decreases s, 0, 9
  {
    hide Piece, AllFine, LeadsTo, CodeE, DepthE, CodeB, DepthB, LenB, CodeFor, CodeWhile, CodeSimple, DepthSimple,
      LenSimple;
    hide LenOpt, LenTest, CodeOptSimple, DepthOpt, DepthTest, GoodB, GoodSimple, Exits, Short;
    if s.Empty? {
      PieceNowhere(fn, p);
    } else if s.Do? {
      FineSimple(fn, p, s.simple, slots, end);
    } else if s.If? {
      FineIf(fn, p, s, slots, ex, loop, end);
    } else if s.While? {
      FineWhile(fn, p, s, slots, end);
    } else if s.For? {
      FineFor(fn, p, s, slots, end);
    } else if s.FunDecl? {
      FineFun(fn, p, s, end);
    } else if s.ReturnNil? || s.ReturnVal? {
      FineReturn(fn, p, s, slots, end);
    } else {
      FineExit(fn, p, s, slots, ex, end);
    }
  }

  lemma {:induction false} PieceNowhere(fn: Body, p: int)
    requires Piece(fn, p, [], [])
    ensures AllFine(fn, p, p)
  {
  }

  lemma {:induction false} FineExit(fn: Body, p: int, s: Stmt, slots: seq<string>, ex: Targets, end: int)
    requires Short(fn) && (s.Break? || s.Continue?) && Exits(fn.ds, ex, true) && LeadsTo(fn.ds, end, 0) && end == p + 1
    requires Piece(fn, p, CodeS(s, slots, ex.Shift(p)), DepthS(s))
    ensures AllFine(fn, p, end)
  {
    var n := (if s.Break? then ex.brk.value else ex.cnt.value) - p;
    assert -INT32_MAX <= n <= INT32_MAX;
    hide Encode;
    FineJump(fn, p, Jump(Encode(n)), 0, n);
  }

  lemma {:induction false} FineReturn(fn: Body, p: int, s: Stmt, slots: seq<string>, end: int)
    requires (s.ReturnNil? || s.ReturnVal?) && LeadsTo(fn.ds, end, 0) && end == p + LenS(s)
    requires Piece(fn, p, CodeS(s, slots, NO_TARGETS), DepthS(s))
    ensures AllFine(fn, p, end)
  {
    hide Piece, AllFine, LeadsTo, CodeE, DepthE;
    var e := if s.ReturnNil? then Const(Nil) else s.e;
    assert CodeS(s, slots, NO_TARGETS) == CodeE(e) + [Return] && DepthS(s) == DepthE(e, 0) + [1] by {
      if s.ReturnNil? { NilCode(); }
    }
    PieceSplit(fn, p, CodeE(e), DepthE(e, 0), [Return], [1], end - 1);
    ReturnFine(fn, end - 1, end);
    FineE(fn, p, e, 0, end - 1);
    FineAppend(fn, p, end - 1, end);
  }

  lemma {:induction false} NilCode()
    ensures CodeE(Const(Nil)) + [Return] == [LoadConst(Nil), Return] && DepthE(Const(Nil), 0) + [1] == [0, 1]
  {
  }

  lemma {:induction false} ReturnFine(fn: Body, p: int, end: int)
    requires Piece(fn, p, [Return], [1]) && LeadsTo(fn.ds, end, 0) && end == p + 1
    ensures AllFine(fn, p, end) && LeadsTo(fn.ds, p, 1)
  {
    PieceOne(fn, p, Return, 1);
    FinePlain(fn, p, Return, 1);
  }

  lemma {:induction false} FineFun(fn: Body, p: int, s: Stmt, end: int)
    requires s.FunDecl? && LeadsTo(fn.ds, end, 0) && end == p + LenB(s.body) + 4
    requires Piece(fn, p, FunCode(s.params, s.body) + [StoreSymbolic(s.name)], [0] + Hidden(LenB(s.body) + 2) + [1])
    ensures AllFine(fn, p, end)
  {
    var (code, shape, last, n) := (FunCode(s.params, s.body), FunShape(s.params, s.body), end - 1, LenB(s.body) + 2);
    assert code == [Function(shape)] + code[1..] && shape.offset == n + 1;
    hide FunCode, FunShape, LenB;
    PieceSplit(fn, p, code, [0] + Hidden(n), [StoreSymbolic(s.name)], [1], last);
    PieceSplit(fn, p, [Function(shape)], [0], code[1..], Hidden(n), p + 1);
    PieceOne(fn, p, Function(shape), 0);
    AtLast(fn, last, StoreSymbolic(s.name), 1, 0, end);
    forall q | p < q < last ensures fn.ds[q] == HIDDEN {
      assert fn.ds[p + 1 + (q - p - 1)] == Hidden(n)[q - p - 1];
    }
    forall k | p <= k < last ensures Fine(fn, k) {
    }
    FineAppend(fn, p, last, end);
  }

  lemma {:induction false} FineIf(
      fn: Body, p: int, s: Stmt, slots: seq<string>, ex: Targets, loop: bool, end: int)
    requires Local(fn, slots, TargetsS(s))
    requires s.If? && Short(fn) && GoodS(s, loop) && Exits(fn.ds, ex, loop) && LeadsTo(fn.ds, end, 0)
      && end == p + LenS(s)
    requires Piece(fn, p, CodeS(s, slots, ex.Shift(p)), DepthS(s))
    ensures AllFine(fn, p, end)
    decreases s, 0, 0
  {
    hide Piece, AllFine, LeadsTo, CodeB, DepthB, LenB, CodeArms, DepthArms, LenArms, CodeClauses, DepthClauses,
      LenClauses, GoodB, GoodClauses;
    hide CodeS, Exits, Short;
    var (cs, els, tg) := (s.clauses, s.els, ex.Shift(p));
    IfCode(s, slots, tg);
    if els.Else? {
      var mid := p + LenArms(cs);
      IfElseCode(s, slots, ex, p, mid, end);
      PieceSplit(fn, p, CodeArms(cs, slots, tg, Some(end - p)), DepthArms(cs), CodeB(els.blk, slots, ex.Shift(mid)),
        DepthB(els.blk), mid);
      FineB(fn, mid, els.blk, slots, ex, loop, end);
      FineArms(fn, p, cs, slots, ex, loop, end, mid);
      FineAppend(fn, p, mid, end);
    } else {
      var code := CodeClauses(cs, slots, tg, Some(end - p), false);
      assert code + [] == code;
      FineClauses(fn, p, cs, slots, ex, loop, end);
    }
  }

  lemma {:induction false} IfElseCode(s: Stmt, slots: seq<string>, ex: Targets, p: int, mid: int, end: int)
    requires s.If? && s.els.Else? && end == p + LenS(s) && mid == p + LenArms(s.clauses)
    ensures CodeS(s, slots, ex.Shift(p)) == CodeArms(s.clauses, slots, ex.Shift(p), Some(end - p))
      + CodeB(s.els.blk, slots, ex.Shift(mid))
  {
    IfCode(s, slots, ex.Shift(p));
    assert ex.Shift(p).Shift(LenArms(s.clauses)) == ex.Shift(mid);
    hide CodeS, CodeArms, CodeB, LenS, LenArms;
  }

  /** One arm; its conditional jump leads to `next`. */
  lemma {:induction false} FineClause(
      fn: Body, p: int, c: Clause, slots: seq<string>, ex: Targets, loop: bool, skip: int, next: int, end: int)
    requires Local(fn, slots, TargetsClause(c))
    requires Short(fn) && GoodClause(c, loop) && Exits(fn.ds, ex, loop) && LeadsTo(fn.ds, end, 0)
      && end == p + LenClause(c)
    requires LeadsTo(fn.ds, next, 0) && next == p + |CodeE(c.cond)| + skip
    requires Piece(fn, p, CodeClause(c, slots, ex.Shift(p), skip), DepthClause(c))
    ensures AllFine(fn, p, end) && LeadsTo(fn.ds, p, 0)
    decreases c, 1
  {
    hide Piece, AllFine, CodeE, DepthE, CodeB, DepthB, LenB, GoodB, Exits, Encode;
    var (e, b, at) := (c.cond, c.blk, p + |CodeE(c.cond)|);
    assert ex.Shift(p).Shift(|CodeE(e)| + 1) == ex.Shift(at + 1);
    var j := JumpUnless(Encode(skip));
    PieceSplit(fn, p, CodeE(e) + [j], DepthE(e, 0) + [1], CodeB(b, slots, ex.Shift(at + 1)), DepthB(b), at + 1);
    PieceSplit(fn, p, CodeE(e), DepthE(e, 0), [j], [1], at);
    FineB(fn, at + 1, b, slots, ex, loop, end);
    FineCond(fn, p, e, at, skip);
    FineAppend(fn, p, at + 1, end);
  }

  /** A condition and its jump. */
  lemma {:induction false} FineCond(fn: Body, p: int, e: Expr, at: int, n: int)
    requires Short(fn) && Piece(fn, p, CodeE(e), DepthE(e, 0)) && at == p + |CodeE(e)|
    requires Piece(fn, at, [JumpUnless(Encode(n))], [1]) && LeadsTo(fn.ds, at + 1, 0) && LeadsTo(fn.ds, at + n, 0)
    ensures AllFine(fn, p, at + 1) && LeadsTo(fn.ds, p, 0)
  {
    hide CodeE, DepthE, Encode;
    PieceOne(fn, at, JumpUnless(Encode(n)), 1);
    FineJump(fn, at, JumpUnless(Encode(n)), 1, n);
    FineE(fn, p, e, 0, at);
    FineAppend(fn, p, at, at + 1);
  }

  lemma {:induction false} FineArms(
      fn: Body, p: int, cs: seq<Clause>, slots: seq<string>, ex: Targets, loop: bool, done: int, end: int)
    requires Local(fn, slots, TargetsClauses(cs))
    requires Short(fn) && GoodClauses(cs, loop) && Exits(fn.ds, ex, loop) && LeadsTo(fn.ds, end, 0)
      && end == p + LenArms(cs)
    requires LeadsTo(fn.ds, done, 0) && Piece(fn, p, CodeArms(cs, slots, ex.Shift(p), Some(done - p)), DepthArms(cs))
    ensures AllFine(fn, p, end) && LeadsTo(fn.ds, p, 0)
    decreases cs, 0
  {
    hide AllFine, CodeClause, DepthClause, LenClause, GoodClause, Exits, Encode, Fine;
    if cs == [] {
      Nowhere(fn, p);
    } else {
      var (init, c) := (cs[..|cs| - 1], cs[|cs| - 1]);
      var (mid, at) := (p + LenArms(init), end - 1);
      assert ex.Shift(p).Shift(LenArms(init)) == ex.Shift(mid);
      var arm := CodeClause(c, slots, ex.Shift(mid), LenB(c.blk) + 2);
      var j := Jump(Encode(done - at));
      PieceSplit(fn, p, CodeArms(init, slots, ex.Shift(p), Some(done - p)) + arm, DepthArms(init) + DepthClause(c),
        [j], [0], at);
      PieceSplit(fn, p, CodeArms(init, slots, ex.Shift(p), Some(done - p)), DepthArms(init), arm, DepthClause(c), mid);
      hide Piece, CodeArms, DepthArms;
      JumpFine(fn, at, done, end);
      ClauseLength(c);
      FineClause(fn, mid, c, slots, ex, loop, LenB(c.blk) + 2, end, at);
      FineArms(fn, p, init, slots, ex, loop, done, mid);
      FineAppend(fn, p, mid, at);
      FineAppend(fn, p, at, end);
    }
  }

  lemma {:induction false} ClauseLength(c: Clause)
    ensures LenClause(c) == |CodeE(c.cond)| + 1 + LenB(c.blk)
  {
    hide LenB;
  }

  lemma {:induction false} JumpFine(fn: Body, p: int, to: int, end: int)
    requires Short(fn) && Piece(fn, p, [Jump(Encode(to - p))], [0]) && LeadsTo(fn.ds, to, 0) && LeadsTo(fn.ds, end, 0)
      && end == p + 1
    ensures AllFine(fn, p, end) && LeadsTo(fn.ds, p, 0)
  {
    hide Encode;
    PieceOne(fn, p, Jump(Encode(to - p)), 0);
    FineJump(fn, p, Jump(Encode(to - p)), 0, to - p);
  }

  lemma {:induction false} FineClauses(
      fn: Body, p: int, cs: seq<Clause>, slots: seq<string>, ex: Targets, loop: bool, end: int)
    requires Local(fn, slots, TargetsClauses(cs))
    requires Short(fn) && GoodClauses(cs, loop) && Exits(fn.ds, ex, loop) && LeadsTo(fn.ds, end, 0)
      && end == p + LenClauses(cs)
    requires Piece(fn, p, CodeClauses(cs, slots, ex.Shift(p), Some(end - p), false), DepthClauses(cs))
    ensures AllFine(fn, p, end)
    decreases cs, 1
  {
    hide AllFine, CodeClause, DepthClause, LenClause, GoodClause, Exits, Encode, Fine;
    if cs == [] {
      Nowhere(fn, p);
    } else {
      var (init, c) := (cs[..|cs| - 1], cs[|cs| - 1]);
      var mid := p + LenArms(init);
      assert ex.Shift(p).Shift(LenArms(init)) == ex.Shift(mid);
      var arm := CodeClause(c, slots, ex.Shift(mid), LenB(c.blk) + 1);
      PieceSplit(fn, p, CodeArms(init, slots, ex.Shift(p), Some(end - p)), DepthArms(init), arm, DepthClause(c), mid);
      hide Piece, CodeArms, DepthArms, CodeClauses, DepthClauses;
      ClauseLength(c);
      FineClause(fn, mid, c, slots, ex, loop, LenB(c.blk) + 1, end, end);
      FineArms(fn, p, init, slots, ex, loop, end, mid);
      FineAppend(fn, p, mid, end);
    }
  }

  lemma {:induction false} FineWhile(fn: Body, p: int, s: Stmt, slots: seq<string>, end: int)
    requires s.While? && Short(fn) && GoodB(s.body, true) && LeadsTo(fn.ds, end, 0)
      && end == p + |CodeE(s.cond)| + 1 + LenB(s.body) + 1
    requires Local(fn, slots, TargetsB(s.body))
    requires Piece(fn, p, CodeWhile(s.cond, s.body, slots), DepthE(s.cond, 0) + [1] + DepthB(s.body) + [0])
    ensures AllFine(fn, p, end)
    decreases s, 0, 0
  {
    hide Piece, AllFine, CodeE, DepthE, CodeB, DepthB, LenB, GoodB, Encode;
    var (e, b, at, from, back) := (s.cond, s.body, p + |CodeE(s.cond)|, p + |CodeE(s.cond)| + 1, end - 1);
    var (ex, tg) := (Targets(Some(end), Some(p)), Targets(Some(LenB(b) + 1), Some(-(|CodeE(e)| + 1))));
    assert ex.Shift(from) == tg;
    var (j, k, code) := (JumpUnless(Encode(LenB(b) + 2)), Jump(Encode(p - back)), CodeB(b, slots, tg));
    assert CodeWhile(e, b, slots) == CodeE(e) + [j] + code + [k];
    PieceSplit(fn, p, CodeE(e) + [j] + code, DepthE(e, 0) + [1] + DepthB(b), [k], [0], back);
    PieceSplit(fn, p, CodeE(e) + [j], DepthE(e, 0) + [1], code, DepthB(b), from);
    PieceSplit(fn, p, CodeE(e), DepthE(e, 0), [j], [1], at);
    FirstDepth(fn, p, CodeE(e), DepthE(e, 0));
    JumpFine(fn, back, p, end);
    FineB(fn, from, b, slots, ex, true, back);
    FineCond(fn, p, e, at, LenB(b) + 2);
    FineAppend(fn, p, from, back);
    FineAppend(fn, p, back, end);
  }

  lemma {:induction false} FineFor(fn: Body, p: int, s: Stmt, slots: seq<string>, end: int)
    requires Local(fn, slots, TargetsS(s))
    requires s.For? && Short(fn) && GoodS(s, false) && LeadsTo(fn.ds, end, 0) && end == p + LenS(s)
    requires Piece(fn, p, CodeOptSimple(s.init, slots) + CodeFor(s.test, s.post, s.body, slots), DepthS(s))
    ensures AllFine(fn, p, end)
    decreases s, 0, 0
  {
    hide Piece, AllFine, CodeE, DepthE, CodeB, DepthB, LenB, GoodB, Encode, LenOpt, LenTest, CodeOptSimple, DepthOpt,
      CodeTest, DepthTest;
    hide GoodOpt, Plain, CodeFor, Short, LeadsTo;
    var (b, begin, from) := (s.body, p + LenOpt(s.init), p + LenOpt(s.init) + LenTest(s.test));
    var (post, back) := (from + LenB(b), end - 1);
    ForCode(s, slots, begin, from, post, back, end);
    var (d, tg) := (end - from + 1, Targets(Some(end), Some(post)).Shift(from));
    PlainOpt(s.init, slots);
    PlainOpt(s.post, slots);
    PlainTest(s.test, d);
    SplitFive(fn, p, CodeOptSimple(s.init, slots) + CodeFor(s.test, s.post, b, slots), DepthS(s),
      CodeOptSimple(s.init, slots), DepthOpt(s.init), CodeTest(s.test, d), DepthTest(s.test), CodeB(b, slots, tg),
      DepthB(b),
      CodeOptSimple(s.post, slots), DepthOpt(s.post), Jump(Encode(begin - back)), begin, from, post, back);
    FineForPieces(fn, p, s, slots, d, begin, from, post, back, end);
  }

  lemma {:induction false} SplitFive(
      fn: Body, p: int, code: seq<Instr>, depths: seq<int>,
      a: seq<Instr>, da: seq<int>, b: seq<Instr>, db: seq<int>, c: seq<Instr>, dc: seq<int>, x: seq<Instr>,
      dx: seq<int>, k: Instr,
      p1: int, p2: int, p3: int, p4: int)
    requires Piece(fn, p, code, depths) && code == a + (b + c + x + [k]) && depths == da + db + dc + dx + [0]
    requires |a| == |da| && |b| == |db| && |c| == |dc| && |x| == |dx|
    requires p1 == p + |a| && p2 == p1 + |b| && p3 == p2 + |c| && p4 == p3 + |x|
    ensures Piece(fn, p, a, da) && Piece(fn, p1, b, db) && Piece(fn, p2, c, dc)
    ensures Piece(fn, p3, x, dx) && Piece(fn, p4, [k], [0])
  {
    hide Piece;
    ForCat(a, b, c, x, [k]);
    PieceSplit(fn, p, a + b + c + x, da + db + dc + dx, [k], [0], p4);
    PieceSplit(fn, p, a + b + c, da + db + dc, x, dx, p3);
    PieceSplit(fn, p, a + b, da + db, c, dc, p2);
    PieceSplit(fn, p, a, da, b, db, p1);
  }

  lemma {:induction false} FineForPieces(
      fn: Body, p: int, s: Stmt, slots: seq<string>, d: int, begin: int, from: int, post: int, back: int, end: int)
    requires s.For? && Short(fn) && GoodOpt(s.init) && GoodOpt(s.post) && GoodB(s.body, true) && LeadsTo(fn.ds, end, 0)
    requires begin == p + LenOpt(s.init) && from == begin + LenTest(s.test) && post == from + LenB(s.body)
      && back == post + LenOpt(s.post)
    requires end == back + 1 && d == end - from + 1
    requires Local(fn, slots, TargetsOpt(s.init)) && Local(fn, slots, TargetsOpt(s.post))
      && Local(fn, slots, TargetsB(s.body))
    requires Piece(fn, p, CodeOptSimple(s.init, slots), DepthOpt(s.init))
    requires Piece(fn, begin, CodeTest(s.test, d), DepthTest(s.test))
    requires Piece(fn, from, CodeB(s.body, slots, Targets(Some(end), Some(post)).Shift(from)), DepthB(s.body))
    requires Piece(fn, post, CodeOptSimple(s.post, slots), DepthOpt(s.post))
    requires Piece(fn, back, [Jump(Encode(begin - back))], [0])
    ensures AllFine(fn, p, end)
    decreases s.body, 9
  {
    hide Piece, AllFine, CodeB, DepthB, LenB, GoodB, Encode, LenOpt, LenTest, CodeOptSimple, DepthOpt, CodeTest,
      DepthTest, GoodOpt, Short;
    AtBack(fn, back, begin - back);
    FineOpt(fn, post, s.post, slots, back);
    FineB(fn, from, s.body, slots, Targets(Some(end), Some(post)), true, post);
    FineTest(fn, begin, s.test, d, from, end);
    JumpFine(fn, back, begin, end);
    FineOpt(fn, p, s.init, slots, begin);
    FineAppend(fn, p, begin, from);
    FineAppend(fn, p, from, post);
    FineAppend(fn, p, post, back);
    FineAppend(fn, p, back, end);
  }

  lemma {:induction false} AtBack(fn: Body, back: int, n: int)
    requires Piece(fn, back, [Jump(Encode(n))], [0])
    ensures LeadsTo(fn.ds, back, 0)
  {
    PieceOne(fn, back, Jump(Encode(n)), 0);
  }

  lemma {:induction false} ForCat(i: seq<Instr>, test: seq<Instr>, code: seq<Instr>, x: seq<Instr>, k: seq<Instr>)
    ensures i + (test + code + x + k) == i + test + code + x + k
  {
  }

  lemma {:induction false} FineOpt(fn: Body, p: int, m: Option<Simple>, slots: seq<string>, end: int)
    requires Local(fn, slots, TargetsOpt(m))
    requires GoodOpt(m) && Piece(fn, p, CodeOptSimple(m, slots), DepthOpt(m)) && end == p + LenOpt(m)
      && LeadsTo(fn.ds, end, 0)
    ensures AllFine(fn, p, end) && LeadsTo(fn.ds, p, 0)
  {
    if m.None? {
      PieceNowhere(fn, p);
    } else {
      FineSimple(fn, p, m.value, slots, end);
      FirstDepth(fn, p, CodeSimple(m.value, slots), DepthSimple(m.value));
    }
    hide Piece, AllFine, CodeSimple, DepthSimple;
  }

  lemma {:induction false} FineTest(fn: Body, p: int, c: Option<Expr>, d: int, from: int, end: int)
    requires Short(fn) && Piece(fn, p, CodeTest(c, d), DepthTest(c)) && from == p + LenTest(c)
    requires LeadsTo(fn.ds, from, 0) && LeadsTo(fn.ds, end, 0) && end == from - 1 + d
    ensures AllFine(fn, p, from) && LeadsTo(fn.ds, p, 0)
  {
    hide CodeE, DepthE, Encode, AllFine;
    if c.None? {
      PieceNowhere(fn, p);
    } else {
      PieceSplit(fn, p, CodeE(c.value), DepthE(c.value, 0), [JumpUnless(Encode(d))], [1], from - 1);
      FineCond(fn, p, c.value, from - 1, d);
    }
  }

  lemma {:induction false} FineB(
      fn: Body, p: int, b: seq<Stmt>, slots: seq<string>, ex: Targets, loop: bool, end: int)
    requires Local(fn, slots, TargetsB(b))
    requires Short(fn) && GoodB(b, loop) && Exits(fn.ds, ex, loop) && LeadsTo(fn.ds, end, 0) && end == p + LenB(b)
    requires Piece(fn, p, CodeB(b, slots, ex.Shift(p)), DepthB(b))
    ensures AllFine(fn, p, end) && LeadsTo(fn.ds, p, 0)
    decreases b, 0
  {
    hide AllFine, CodeS, DepthS, LenS, GoodS, Exits, Fine;
    if b == [] {
      Nowhere(fn, p);
    } else {
      var (init, s) := (b[..|b| - 1], b[|b| - 1]);
      var mid := p + LenB(init);
      assert ex.Shift(p).Shift(LenB(init)) == ex.Shift(mid);
      PieceSplit(fn, p, CodeB(init, slots, ex.Shift(p)), DepthB(init), CodeS(s, slots, ex.Shift(mid)), DepthS(s), mid);
      hide Piece, CodeB, DepthB;
      FineS(fn, mid, s, slots, ex, loop, end);
      FineB(fn, p, init, slots, ex, loop, mid);
      FineAppend(fn, p, mid, end);
    }
  }

  /** The operand depths of a whole function fit its code. */
  lemma {:induction false} BodyFine(f: Fun)
    requires NoDup(f.params) && GoodB(f.body, false) && LenB(f.body) + 2 <= INT32_MAX
    ensures var fn := BodyOf(f);
      && |fn.raw| == LenB(f.body) + 2 && Short(fn) && AllFine(fn, 0, |fn.raw|) && LeadsTo(fn.ds, 0, 0)
        && fn.ds[|fn.raw|] == 0
      && fn.raw[|fn.raw| - 1] == Return
  {
    var slots := SlotsB(f.params, f.body);
    SlotNamesB(f.params, (set x | x in f.params), f.body);
    hide CodeB, DepthB, LenB, GoodB, SlotsB, TargetsB;
    var (fn, n, tail) := (BodyOf(f), LenB(f.body), [LoadConst(Nil), Return]);
    assert Piece(fn, 0, CodeB(f.body, slots, NO_TARGETS) + tail, DepthB(f.body) + [0, 1]);
    PieceSplit(fn, 0, CodeB(f.body, slots, NO_TARGETS), DepthB(f.body), tail, [0, 1], n);
    FineTail(fn, n);
    assert NO_TARGETS.Shift(0) == NO_TARGETS;
    FineB(fn, 0, f.body, slots, NO_TARGETS, false, n);
    FineAppend(fn, 0, n, n + 2);
  }

  lemma {:induction false} FineTail(fn: Body, n: int)
    requires Piece(fn, n, [LoadConst(Nil), Return], [0, 1]) && |fn.raw| == n + 2
    ensures AllFine(fn, n, n + 2) && LeadsTo(fn.ds, n, 0)
  {
    assert [LoadConst(Nil)] + [Return] == [LoadConst(Nil), Return] && [0] + [1] == [0, 1];
    PieceSplit(fn, n, [LoadConst(Nil)], [0], [Return], [1], n + 1);
    PieceOne(fn, n + 1, Return, 1);
    FineOne(fn, n + 1);
    AtLast(fn, n, LoadConst(Nil), 0, 1, n + 1);
    FineAppend(fn, n, n + 1, n + 2);
  }
}
