/** The operators, written out: how they bind, what instruction each is, and what value it gives. */
module Operators {
  import opened Common
  import opened Bytecode
  import opened Syntax
  import opened Codegen
  import opened Grammar
  import opened ExprGrammar
  import opened Machine
  import opened Semantics

  // ----- How operators bind -----

  /** The binary operators in groups; those of a later group bind closer. */
  const LEVELS: seq<seq<BinOp>> := [
    [TildeOp], [OrOrOp], [AndAndOp], [OrOp], [HatOp], [AndOp], [BangEqOp, EqEqOp],
    [GreaterEqOp, GreaterOp, LessEqOp, LessOp], [GreaterGreaterOp, LessLessOp], [MinusOp, PlusOp],
    [PercentOp, SlashOp, SlashSlashOp, StarOp], [StarStarOp]]

  ghost predicate Later(o1: BinOp, o2: BinOp) { LaterIn(LEVELS, o1, o2) }

  ghost predicate LaterIn(levels: seq<seq<BinOp>>, o1: BinOp, o2: BinOp) {
    exists i, j :: 0 <= i < j < |levels| && o1 in levels[i] && o2 in levels[j]
  }

  lemma LevelIs(o: BinOp, i: nat)
    requires i < |LEVELS|
    ensures o in LEVELS[i] <==> Priority(o) == 10 + i
  {
    if i < 6 {
      assert LEVELS[i] == [[TildeOp], [OrOrOp], [AndAndOp], [OrOp], [HatOp], [AndOp]][i];
    } else if i == 6 {
      assert LEVELS[6] == [BangEqOp, EqEqOp];
    } else if i == 7 {
      assert LEVELS[7] == [GreaterEqOp, GreaterOp, LessEqOp, LessOp];
    } else if i == 8 {
      assert LEVELS[8] == [GreaterGreaterOp, LessLessOp];
    } else if i == 9 {
      assert LEVELS[9] == [MinusOp, PlusOp];
    } else if i == 10 {
      assert LEVELS[10] == [PercentOp, SlashOp, SlashSlashOp, StarOp];
    } else {
      assert LEVELS[11] == [StarStarOp];
    }
  }

  lemma LaterIs(o1: BinOp, o2: BinOp)
    ensures Later(o1, o2) <==> Priority(o1) < Priority(o2)
  {
    hide Priority, LaterIn;
    Twelve(o1);
    Twelve(o2);
    forall i: nat | i < |LEVELS|
      ensures (o1 in LEVELS[i] <==> i == Priority(o1) - 10) && (o2 in LEVELS[i] <==> i == Priority(o2) - 10) {
      LevelIs(o1, i);
      LevelIs(o2, i);
    }
    Positions(LEVELS, o1, o2, Priority(o1) - 10, Priority(o2) - 10);
  }

  lemma Positions(levels: seq<seq<BinOp>>, o1: BinOp, o2: BinOp, i: nat, j: nat)
    requires i < |levels| && j < |levels|
    requires forall k: nat {:trigger levels[k]} :: k < |levels| ==>
      (o1 in levels[k] <==> k == i) && (o2 in levels[k] <==> k == j)
    ensures LaterIn(levels, o1, o2) <==> i < j
  {
    if i < j { assert o1 in levels[i] && o2 in levels[j]; }
  }

  lemma Twelve(o: BinOp)
    ensures 10 <= Priority(o) < 22 && |LEVELS| == 12
  {
  }

  /** A literal or a name. */
  predicate IsAtom(e: Expr) { e.Const? || e.Var? }

  function AtomToken(e: Expr): Token
    requires IsAtom(e)
  {
    if e.Const? then Literal(e.v) else Ident(e.name)
  }

  lemma AtomText(e: Expr)
    requires IsAtom(e)
    ensures TextE(e) == [AtomToken(e)] && forall min :: Fits(e, min)
  {
  }

  /** Of two operators the one of the later group binds closer; of the same group, the left one, except for `**`. */
  lemma TwoOperators(a: Expr, o1: BinOp, b: Expr, o2: BinOp, c: Expr)
    requires IsAtom(a) && IsAtom(b) && IsAtom(c)
    ensures ParseE([AtomToken(a), Operator(o1), AtomToken(b), Operator(o2), AtomToken(c), Semicolon], -1) ==
      Some((if Later(o1, o2) || (o1 == StarStarOp && o2 == StarStarOp) then Binary(o1, a, Binary(o2, b, c))
            else Binary(o2, Binary(o1, a, b), c), [Semicolon]))
  {
    LaterIs(o1, o2);
    hide Climb, Later, Fits, TextE;
    if Later(o1, o2) || (o1 == StarStarOp && o2 == StarStarOp) {
      RightTree(a, o1, b, o2, c);
    } else {
      SameLevel(o1, o2);
      LeftTree(a, o1, b, o2, c);
    }
  }

  lemma SameLevel(o1: BinOp, o2: BinOp)
    ensures Priority(o1) == Priority(o2) ==> (o1 == StarStarOp <==> o2 == StarStarOp)
  {
  }

  lemma RightTree(a: Expr, o1: BinOp, b: Expr, o2: BinOp, c: Expr)
    requires IsAtom(a) && IsAtom(b) && IsAtom(c) && Priority(o2) >= RightMin(o1)
    ensures ParseE([AtomToken(a), Operator(o1), AtomToken(b), Operator(o2), AtomToken(c), Semicolon], -1) ==
      Some((Binary(o1, a, Binary(o2, b, c)), [Semicolon]))
  {
    hide Climb, IsLeftAssoc;
    Twelve(o1);
    Twelve(o2);
    hide Priority;
    AtomText(a);
    AtomText(b);
    AtomText(c);
    var e := Binary(o1, a, Binary(o2, b, c));
    assert TextE(e) == [AtomToken(a)] + [Operator(o1)] + ([AtomToken(b)] + [Operator(o2)] + [AtomToken(c)]);
    assert TextE(e) + [Semicolon] ==
      [AtomToken(a), Operator(o1), AtomToken(b), Operator(o2), AtomToken(c), Semicolon];
    ReadsWhole(e, -1, [Semicolon]);
  }

  lemma LeftTree(a: Expr, o1: BinOp, b: Expr, o2: BinOp, c: Expr)
    requires IsAtom(a) && IsAtom(b) && IsAtom(c) && Priority(o1) >= LeftMin(o2)
    ensures ParseE([AtomToken(a), Operator(o1), AtomToken(b), Operator(o2), AtomToken(c), Semicolon], -1) ==
      Some((Binary(o2, Binary(o1, a, b), c), [Semicolon]))
  {
    hide Climb, IsLeftAssoc;
    Twelve(o1);
    Twelve(o2);
    hide Priority;
    AtomText(a);
    AtomText(b);
    AtomText(c);
    var e := Binary(o2, Binary(o1, a, b), c);
    assert TextE(e) == [AtomToken(a)] + [Operator(o1)] + [AtomToken(b)] + [Operator(o2)] + [AtomToken(c)];
    assert TextE(e) + [Semicolon] ==
      [AtomToken(a), Operator(o1), AtomToken(b), Operator(o2), AtomToken(c), Semicolon];
    ReadsWhole(e, -1, [Semicolon]);
  }

  function PrefixToken(u: UnOp): Token {
    match u case NegOp => Operator(MinusOp) case NotOp => Bang case LenOp => At
  }

  /** A prefix operator binds closer than every binary one, an index closer than a prefix operator. */
  lemma PrefixAndPostfix(u: UnOp, a: Expr, o: BinOp, b: Expr)
    requires IsAtom(a) && IsAtom(b)
    ensures ParseE([PrefixToken(u), AtomToken(a), Operator(o), AtomToken(b), Semicolon], -1) ==
      Some((Binary(o, Unary(u, a), b), [Semicolon]))
    ensures ParseE([AtomToken(a), Operator(o), PrefixToken(u), AtomToken(b), Semicolon], -1) ==
      Some((Binary(o, a, Unary(u, b)), [Semicolon]))
    ensures ParseE([PrefixToken(u), AtomToken(a), LBracket, AtomToken(b), RBracket, Semicolon], -1) ==
      Some((Unary(u, Index(a, b)), [Semicolon]))
  {
    hide Climb;
    AtomText(a);
    AtomText(b);
    Twelve(o);
    var (left, right, index) := (Binary(o, Unary(u, a), b), Binary(o, a, Unary(u, b)), Unary(u, Index(a, b)));
    assert TextE(left) == [PrefixToken(u)] + [AtomToken(a)] + [Operator(o)] + [AtomToken(b)];
    assert TextE(left) + [Semicolon] == [PrefixToken(u), AtomToken(a), Operator(o), AtomToken(b), Semicolon];
    ReadsWhole(left, -1, [Semicolon]);
    assert TextE(right) == [AtomToken(a)] + [Operator(o)] + ([PrefixToken(u)] + [AtomToken(b)]);
    assert TextE(right) + [Semicolon] == [AtomToken(a), Operator(o), PrefixToken(u), AtomToken(b), Semicolon];
    ReadsWhole(right, -1, [Semicolon]);
    assert TextE(index) == [PrefixToken(u)] + ([AtomToken(a)] + [LBracket] + [AtomToken(b)] + [RBracket]);
    assert TextE(index) + [Semicolon] ==
      [PrefixToken(u), AtomToken(a), LBracket, AtomToken(b), RBracket, Semicolon];
    ReadsWhole(index, -1, [Semicolon]);
  }

  // ----- What operators do -----

  /** The operators that are primitive operations on two values. */
  const ARITHMETIC: seq<(BinOp, Aop)> := [
    (TildeOp, Concat), (OrOp, BitOr), (HatOp, BitXor), (AndOp, BitAnd), (GreaterGreaterOp, RShift),
      (LessLessOp, LShift),
    (MinusOp, Sub), (PlusOp, Add), (PercentOp, Mod), (SlashOp, Div), (SlashSlashOp, IDiv), (StarOp, Mul),
    (StarStarOp, Pow)]

  /** Their left operand is the left one. */
  lemma Arithmetic(i: nat, t: Table, ops: Ops, l: Value, r: Value, env: Env, w: World, fuel: nat)
    requires i < |ARITHMETIC|
    ensures var ((o, a), e) := (ARITHMETIC[i], ops.arith(ARITHMETIC[i].1, l, r, w.heap));
      && BinInstr(o) == Arith(a)
      && EvalE(t, ops, Binary(o, Const(l), Const(r)), env, w, fuel) ==
         if e.None? then Fault(w) else Got(e.value.0, w.(heap := e.value.1))
  {
    Literals(t, ops, ARITHMETIC[i].0, l, r, env, w, fuel);
    hide EvalE;
  }

  lemma Literals(t: Table, ops: Ops, o: BinOp, l: Value, r: Value, env: Env, w: World, fuel: nat)
    ensures EvalE(t, ops, Binary(o, Const(l), Const(r)), env, w, fuel) == Yield(Binary2(ops, o, l, r, w), w)
  {
    hide Binary2;
  }

  /** The comparisons, with what they ask for: 1 for less, 2 for equal, 4 for greater. */
  const COMPARISONS: seq<(BinOp, nat)> := [(LessOp, 1), (LessEqOp, 3), (GreaterOp, 4), (GreaterEqOp, 6)]

  lemma Comparison(i: nat, t: Table, ops: Ops, l: Value, r: Value, env: Env, w: World, fuel: nat)
    requires i < |COMPARISONS|
    ensures var ((o, mask), e) := (COMPARISONS[i], ops.compare(COMPARISONS[i].1, l, r, w.heap));
      && BinInstr(o) == Cmp3Way(mask)
      && EvalE(t, ops, Binary(o, Const(l), Const(r)), env, w, fuel) == if e.None? then Fault(w) else Got(e.value, w)
  {
    Literals(t, ops, COMPARISONS[i].0, l, r, env, w, fuel);
    hide EvalE;
  }

  /** The other operators.  `&&` and `||` choose one of their operands; only nil and false are not true. */
  lemma Logic(t: Table, ops: Ops, l: Value, r: Value, env: Env, w: World, fuel: nat)
    ensures var equal := ops.equal(l, r, w.heap);
      && EvalE(t, ops, Binary(EqEqOp, Const(l), Const(r)), env, w, fuel) == Got(Flag(equal), w)
      && EvalE(t, ops, Binary(BangEqOp, Const(l), Const(r)), env, w, fuel) == Got(Flag(!equal), w)
    ensures BinInstr(EqEqOp) == Cmp2Way(true) && BinInstr(BangEqOp) == Cmp2Way(false)
    ensures var false' := l == Nil || l == Flag(false);
      && EvalE(t, ops, Binary(AndAndOp, Const(l), Const(r)), env, w, fuel) == Got(if false' then l else r, w)
      && EvalE(t, ops, Binary(OrOrOp, Const(l), Const(r)), env, w, fuel) == Got(if false' then r else l, w)
      && EvalE(t, ops, Unary(NotOp, Const(l)), env, w, fuel) == Got(Flag(false'), w)
  {
    Literals(t, ops, EqEqOp, l, r, env, w, fuel);
    Literals(t, ops, BangEqOp, l, r, env, w, fuel);
    Literals(t, ops, AndAndOp, l, r, env, w, fuel);
    Literals(t, ops, OrOrOp, l, r, env, w, fuel);
  }

  /** `-` and `@` before an operand. */
  lemma Prefixes(t: Table, ops: Ops, v: Value, env: Env, w: World, fuel: nat)
    ensures var e := ops.negate(v, w.heap);
      EvalE(t, ops, Unary(NegOp, Const(v)), env, w, fuel) ==
        if e.None? then Fault(w) else Got(e.value.0, w.(heap := e.value.1))
    ensures var e := ops.length(v, w.heap);
      EvalE(t, ops, Unary(LenOp, Const(v)), env, w, fuel) ==
        if e.None? then Fault(w) else Got(e.value.0, w.(heap := e.value.1))
  {
  }

  /** Operands are computed from left to right. */
  lemma LeftFirst(t: Table, ops: Ops, o: BinOp, l: Expr, r: Expr, env: Env, w: World, fuel: nat)
    ensures var x := EvalE(t, ops, l, env, w, fuel);
      EvalE(t, ops, Binary(o, l, r), env, w, fuel) ==
        if !x.Got? then x else
        var y := EvalE(t, ops, r, env, x.w, fuel);
        if !y.Got? then y else EvalE(t, ops, Binary(o, Const(x.v), Const(y.v)), env, y.w, fuel)
  {
    hide Binary2;
  }

  // ----- Elements, lists and calls -----

  /** An element is asked for with the container before the index, a field with its name. */
  lemma Elements(t: Table, ops: Ops, c: Value, i: Value, f: string, env: Env, w: World, fuel: nat)
    ensures var e := ops.at(c, i, w.heap);
      EvalE(t, ops, Index(Const(c), Const(i)), env, w, fuel) ==
        if e.None? then Fault(w) else Got(e.value.0, w.(heap := e.value.1))
    ensures EvalE(t, ops, Field(Const(c), f), env, w, fuel) ==
      EvalE(t, ops, Index(Const(c), Const(Str(f))), env, w, fuel)
  {
  }

  lemma TwoValues(t: Table, ops: Ops, a: Value, b: Value, env: Env, w: World, fuel: nat)
    ensures EvalEs(t, ops, [Const(a), Const(b)], env, w, fuel) == Got([a, b], w)
    ensures EvalNs(t, ops, [Entry(Const(a), Const(b))], env, w, fuel) == Got([a, b], w)
  {
    var (es, ns) := ([Const(a), Const(b)], [Entry(Const(a), Const(b))]);
    assert es[..1] == [Const(a)] && es[..1][..0] == [] && ns[..0] == [];
    assert EvalE(t, ops, Const(a), env, w, fuel) == Got(a, w) && EvalE(t, ops, Const(b), env, w, fuel) == Got(b, w);
    assert EvalEs(t, ops, [], env, w, fuel) == Got([], w) && EvalNs(t, ops, [], env, w, fuel) == Got([], w);
    assert EvalEs(t, ops, es[..1], env, w, fuel) == Got([] + [a], w);
    assert EvalN(t, ops, ns[0], env, w, fuel) == Got([a, b], w);
    assert [] + [a] == [a] && [a] + [b] == [a, b] && [] + [a, b] == [a, b];
    assert es[..|es| - 1] == es[..1] && ns[..|ns| - 1] == ns[..0];
  }

  /** The elements of a list, the keys and values of a dictionary and the arguments of a call keep their order. */
  lemma Collected(t: Table, ops: Ops, a: Value, b: Value, id: nat, env: Env, w: World, fuel: nat)
    ensures var r := ops.list([a, b], w.heap);
      EvalE(t, ops, ListLit([Const(a), Const(b)]), env, w, fuel) == Got(r.0, w.(heap := r.1))
    ensures var r := ops.dict([a, b], w.heap);
      EvalE(t, ops, DictLit([Entry(Const(a), Const(b))]), env, w, fuel) ==
        if r.None? then Fault(w) else Got(r.value.0, w.(heap := r.value.1))
    ensures var r := ops.native(id, [a, b], w);
      EvalE(t, ops, Invoke(Const(Native(id)), [Const(a), Const(b)]), env, w, fuel) ==
        if r.None? then Fault(w) else Got(r.value.0, r.value.1)
  {
    TwoValues(t, ops, a, b, env, w, fuel);
    hide EvalEs, EvalNs, ExecB;
  }

  /** A function gets its arguments in order; a wrong number of them, or something else than a function, is an error. */
  lemma Called(t: Table, ops: Ops, p: int, x: string, y: string, a: Value, b: Value, env: Env, w: World, fuel: nat)
    requires p in t && t[p] == Fun([x, y], [ReturnVal(Var(x))]) && x != y && fuel > 0
    ensures EvalE(t, ops, Invoke(Const(Closure(p)), [Const(a), Const(b)]), env, w, fuel) == Got(a, w)
    ensures EvalE(t, ops, Invoke(Const(Closure(p)), []), env, w, fuel) == Fault(w)
    ensures EvalE(t, ops, Invoke(Const(Str(x)), [Const(a), Const(b)]), env, w, fuel) == Fault(w)
  {
    TwoValues(t, ops, a, b, env, w, fuel);
    assert EvalEs(t, ops, [], env, w, fuel) == Got([], w);
    var f := t[p];
    var inner := InitialEnv(f, [a, b]);
    assert f.params[0] == x && f.params[1] == y;
    assert inner[x] == a by { FirstParam(x, y); }
    OneReturn(t, ops, f.body, x, p + 1, inner, w, fuel - 1);
    hide EvalEs, ExecB, InitialEnv;
  }

  lemma FirstParam(x: string, y: string)
    ensures SlotOf([x, y], x) == 0
  {
  }

  lemma OneReturn(t: Table, ops: Ops, b: seq<Stmt>, x: string, pos: int, env: Env, w: World, fuel: nat)
    requires b == [ReturnVal(Var(x))] && x in env
    ensures ExecB(t, ops, b, pos, env, w, fuel) == Returned(env[x], w)
  {
    assert b[..0] == [] && LenB([]) == 0;
    assert ExecB(t, ops, [], pos, env, w, fuel) == Normal(env, w);
    assert EvalE(t, ops, Var(x), env, w, fuel) == Got(env[x], w);
    assert ExecS(t, ops, b[0], pos, env, w, fuel) == Returned(env[x], w);
  }
}
