/** What a program means: a structured, big-step semantics of the syntax trees.

    The only thing it knows about the code is where a function stands, because that is how function values are named:
    `pos` is the address of the code of a statement.  `fuel` bounds the depth of calls and the rounds of a loop. */
module Semantics {
  import opened Common
  import opened Bytecode
  import opened Syntax
  import opened Codegen
  import opened Machine

  datatype Fun = Fun(params: seq<string>, body: seq<Stmt>)

  /** The functions of all loaded programs by their addresses. */
  type Table = map<int, Fun>

  /** The local variables of a function. */
  type Env = map<string, Value>

  // ----- Which names are local: the targets of `:=` anywhere in the function, but not in nested functions -----

  function TargetsSimple(m: Simple): set<string> {
    if m.Assign? && m.kind == StoreHere && TargetVar(m.lhs).Some? then {TargetVar(m.lhs).value} else {}
  }

  function TargetsOpt(m: Option<Simple>): set<string> {
    if m.None? then {} else TargetsSimple(m.value)
  }

  function TargetsS(s: Stmt): set<string>
    decreases s, 1
  {
    match s
    case Do(m) => TargetsSimple(m)
    case If(cs, els) => TargetsClauses(cs) + (if els.Else? then TargetsB(els.blk) else {})
    case While(_, b) => TargetsB(b)
    case For(i, _, p, b) => TargetsOpt(i) + TargetsOpt(p) + TargetsB(b)
    case _ => {}
  }

  function TargetsClause(c: Clause): set<string>
    decreases c, 1
  {
    TargetsB(c.blk)
  }

  function TargetsClauses(cs: seq<Clause>): set<string>
    decreases cs, 0
  {
    if cs == [] then {} else TargetsClauses(cs[..|cs| - 1]) + TargetsClause(cs[|cs| - 1])
  }

  function TargetsB(b: seq<Stmt>): set<string>
    decreases b, 0
  {
    if b == [] then {} else TargetsB(b[..|b| - 1]) + TargetsS(b[|b| - 1])
  }

  function LocalsOf(f: Fun): set<string> {
    (set x | x in f.params) + TargetsB(f.body)
  }

  /** At the call of a function every local variable exists, those that are not parameters being nil. */
  function InitialEnv(f: Fun, args: seq<Value>): Env
    requires |args| == |f.params|
  {
    map x | x in LocalsOf(f) :: if x in f.params then args[SlotOf(f.params, x)] else Nil
  }

  // ----- Results -----

  datatype Eval<T> = Got(v: T, w: World) | Fault(w: World) | NoFuel

  datatype Outcome =
    | Normal(env: Env, w: World) | Broke(env: Env, w: World) | Continued(env: Env, w: World)
    | Returned(v: Value, w: World) | Error(w: World) | OutOfFuel

  function Yield(r: Computed, w: World): Eval<Value> {
    if r.None? then Fault(w) else Got(r.value.0, r.value.1)
  }

  function Unary1(ops: Ops, o: UnOp, v: Value, w: World): Computed {
    match o
    case NegOp => Lift(ops.negate(v, w.heap), w)
    case NotOp => Some((Flag(!IsTruthy(v)), w))
    case LenOp => Lift(ops.length(v, w.heap), w)
  }

  function Binary2(ops: Ops, o: BinOp, l: Value, r: Value, w: World): Computed {
    match o
    case AndAndOp => Some((if IsTruthy(l) then r else l, w))
    case OrOrOp => Some((if IsTruthy(l) then l else r, w))
    case EqEqOp => Some((Flag(ops.equal(l, r, w.heap)), w))
    case BangEqOp => Some((Flag(!ops.equal(l, r, w.heap)), w))
    case LessOp => Compare(ops, 1, l, r, w)
    case LessEqOp => Compare(ops, 1 + 2, l, r, w)
    case GreaterOp => Compare(ops, 4, l, r, w)
    case GreaterEqOp => Compare(ops, 4 + 2, l, r, w)
    case TildeOp => Lift(ops.arith(Concat, l, r, w.heap), w)
    case OrOp => Lift(ops.arith(BitOr, l, r, w.heap), w)
    case HatOp => Lift(ops.arith(BitXor, l, r, w.heap), w)
    case AndOp => Lift(ops.arith(BitAnd, l, r, w.heap), w)
    case GreaterGreaterOp => Lift(ops.arith(RShift, l, r, w.heap), w)
    case LessLessOp => Lift(ops.arith(LShift, l, r, w.heap), w)
    case MinusOp => Lift(ops.arith(Sub, l, r, w.heap), w)
    case PlusOp => Lift(ops.arith(Add, l, r, w.heap), w)
    case PercentOp => Lift(ops.arith(Mod, l, r, w.heap), w)
    case SlashOp => Lift(ops.arith(Div, l, r, w.heap), w)
    case SlashSlashOp => Lift(ops.arith(IDiv, l, r, w.heap), w)
    case StarOp => Lift(ops.arith(Mul, l, r, w.heap), w)
    case StarStarOp => Lift(ops.arith(Pow, l, r, w.heap), w)
  }

  function ReadVar(x: string, env: Env, w: World): Option<Value> {
    if x in env then Some(env[x]) else if x in w.globals then Some(w.globals[x]) else None
  }

  function WriteVar(x: string, v: Value, env: Env, w: World): Outcome {
    if x in env then Normal(env[x := v], w) else Normal(env, w.(globals := w.globals[x := v]))
  }

  function UpdateVar(ops: Ops, a: Aop, x: string, v: Value, env: Env, w: World): Outcome {
    var cur := ReadVar(x, env, w);
    if cur.None? then Error(w) else
    var r := Perform(ops, a, cur.value, v, w);
    if r.None? then Error(w) else WriteVar(x, r.value.0, env, r.value.1)
  }

  function AssignVar(ops: Ops, k: Kind, x: string, v: Value, env: Env, w: World): Outcome {
    match k
    case Store => WriteVar(x, v, env, w)
    case StoreHere => Normal(env[x := v], w)
    case Modify(a) => UpdateVar(ops, a, x, v, env, w)
  }

  function AssignAt(ops: Ops, k: Kind, c: Value, i: Value, v: Value, env: Env, w: World): Outcome {
    var r := if k.Modify? then UpdateAt(ops, k.aop, c, i, v, w) else WriteAt(ops, c, i, v, w);
    if r.Broken? then Error(r.w) else Normal(env, r.w)
  }

  /** What a call does: run a function, call a native one, or fail. */
  datatype Callee = Run(at: int, f: Fun) | CallNative(id: nat) | Wrong

  function CalleeOf(t: Table, v: Value, n: nat): Callee {
    match v
    case Closure(f) => if f in t && |t[f].params| == n then Run(f, t[f]) else Wrong
    case Native(id) => CallNative(id)
    case _ => Wrong
  }

  /** The value of a call, from the outcome of the body. */
  function CallResult(o: Outcome): Eval<Value> {
    match o
    case Returned(v, w) => Got(v, w)
    case Normal(_, w) => Got(Nil, w)
    case OutOfFuel => NoFuel
    case _ => Fault(o.w)
  }

  function Bare(e: Expr): (r: Expr)
    ensures r == e || r < e
    ensures !r.Paren? && CodeE(r) == CodeE(e) && TargetVar(r) == TargetVar(e) && IsTargetAt(r) == IsTargetAt(e)
  {
    match e
    case Paren(i) => Bare(i)
    case _ => e
  }

  // ----- Expressions -----

  function EvalE(t: Table, ops: Ops, e: Expr, env: Env, w: World, fuel: nat): Eval<Value>
    decreases fuel, e, 1
  {
    match e
    case Const(v) => Got(v, w)
    case Var(x) =>
      var v := ReadVar(x, env, w);
      if v.None? then Fault(w) else Got(v.value, w)
    case Paren(i) => EvalE(t, ops, i, env, w, fuel)
    case Unary(o, a) =>
      var x := EvalE(t, ops, a, env, w, fuel);
      if x.Got? then Yield(Unary1(ops, o, x.v, x.w), x.w) else x
    case Binary(o, l, r) =>
      var x := EvalE(t, ops, l, env, w, fuel);
      if !x.Got? then x else
      var y := EvalE(t, ops, r, env, x.w, fuel);
      if y.Got? then Yield(Binary2(ops, o, x.v, y.v, y.w), y.w) else y
    case Index(b, i) =>
      var x := EvalE(t, ops, b, env, w, fuel);
      if !x.Got? then x else
      var y := EvalE(t, ops, i, env, x.w, fuel);
      if y.Got? then Yield(Lift(ops.at(x.v, y.v, y.w.heap), y.w), y.w) else y
    case Field(b, f) =>
      var x := EvalE(t, ops, b, env, w, fuel);
      if x.Got? then Yield(Lift(ops.at(x.v, Str(f), x.w.heap), x.w), x.w) else x
    case Invoke(f, args) =>
      var x := EvalE(t, ops, f, env, w, fuel);
      if !x.Got? then x else
      var y := EvalEs(t, ops, args, env, x.w, fuel);
      if y.NoFuel? then NoFuel else if y.Fault? then Fault(y.w) else
      var callee := CalleeOf(t, x.v, |args|);
      if callee.Wrong? then Fault(y.w)
      else if callee.CallNative? then Yield(ops.native(callee.id, y.v, y.w), y.w)
      else if fuel == 0 then NoFuel
      else CallResult(ExecB(t, ops, callee.f.body, callee.at + 1, InitialEnv(callee.f, y.v), y.w, fuel - 1))
    case ListLit(es) =>
      var x := EvalEs(t, ops, es, env, w, fuel);
      if x.NoFuel? then NoFuel else if x.Fault? then Fault(x.w) else
      var r := ops.list(x.v, x.w.heap);
      Got(r.0, x.w.(heap := r.1))
    case DictLit(ns) =>
      var x := EvalNs(t, ops, ns, env, w, fuel);
      if x.NoFuel? then NoFuel else if x.Fault? then Fault(x.w) else
      Yield(Lift(ops.dict(x.v, x.w.heap), x.w), x.w)
  }

  /** From left to right. */
  function EvalEs(t: Table, ops: Ops, es: seq<Expr>, env: Env, w: World, fuel: nat): (r: Eval<seq<Value>>)
    ensures r.Got? ==> |r.v| == |es|
    decreases fuel, es, 0
  {
    if es == [] then Got([], w) else
    var xs := EvalEs(t, ops, es[..|es| - 1], env, w, fuel);
    if !xs.Got? then xs else
    var x := EvalE(t, ops, es[|es| - 1], env, xs.w, fuel);
    if x.NoFuel? then NoFuel else if x.Fault? then Fault(x.w) else Got(xs.v + [x.v], x.w)
  }

  /** Keys and values alternate. */
  function EvalNs(t: Table, ops: Ops, ns: seq<Entry>, env: Env, w: World, fuel: nat): Eval<seq<Value>>
    decreases fuel, ns, 0
  {
    if ns == [] then Got([], w) else
    var xs := EvalNs(t, ops, ns[..|ns| - 1], env, w, fuel);
    if !xs.Got? then xs else
    var x := EvalN(t, ops, ns[|ns| - 1], env, xs.w, fuel);
    if x.Got? then Got(xs.v + x.v, x.w) else x
  }

  function EvalN(t: Table, ops: Ops, n: Entry, env: Env, w: World, fuel: nat): Eval<seq<Value>>
    decreases fuel, n, 1
  {
    var k := EvalE(t, ops, n.key, env, w, fuel);
    if k.NoFuel? then NoFuel else if k.Fault? then Fault(k.w) else
    var x := EvalE(t, ops, n.val, env, k.w, fuel);
    if x.NoFuel? then NoFuel else if x.Fault? then Fault(x.w) else Got([k.v, x.v], x.w)
  }

  function Stop(x: Eval<Value>): Outcome
    requires !x.Got?
  {
    if x.NoFuel? then OutOfFuel else Error(x.w)
  }

  // ----- Statements -----

  function ExecSimple(t: Table, ops: Ops, m: Simple, env: Env, w: World, fuel: nat): Outcome
    decreases fuel, m, 1
  {
    match m
    case PrintExpr(e) =>
      var x := EvalE(t, ops, e, env, w, fuel);
      if x.Got? then Normal(env, x.w.(out := x.w.out + ops.repr(x.v, x.w.heap))) else Stop(x)
    case Assign(k, l, r) =>
      var place := Bare(l);
      if place.Var? then
        var v := EvalE(t, ops, r, env, w, fuel);
        if v.Got? then AssignVar(ops, k, place.name, v.v, env, v.w) else Stop(v)
      else if place.Index? || place.Field? then
        var c := EvalE(t, ops, place.base, env, w, fuel);
        if !c.Got? then Stop(c) else
        var i := if place.Field? then Got(Str(place.field), c.w) else EvalE(t, ops, place.index, env, c.w, fuel);
        if !i.Got? then Stop(i) else
        var v := EvalE(t, ops, r, env, i.w, fuel);
        if v.Got? then AssignAt(ops, k, c.v, i.v, v.v, env, v.w) else Stop(v)
      else Error(w)
  }

  function ExecOpt(t: Table, ops: Ops, m: Option<Simple>, env: Env, w: World, fuel: nat): Outcome
    decreases fuel, m, 1
  {
    if m.None? then Normal(env, w) else ExecSimple(t, ops, m.value, env, w, fuel)
  }

  function ExecS(t: Table, ops: Ops, s: Stmt, pos: int, env: Env, w: World, fuel: nat): Outcome
    decreases fuel, s, 1
  {
    match s
    case Empty => Normal(env, w)
    case Do(m) => ExecSimple(t, ops, m, env, w, fuel)
    case If(cs, els) =>
      var a := ExecArms(t, ops, cs, pos, env, w, fuel);
      if a.Taken? then a.o
      else if els.Else? then ExecB(t, ops, els.blk, pos + LenArms(cs), env, a.w, fuel)
      else Normal(env, a.w)
    case While(_, _) => ExecWhile(t, ops, s, pos, env, w, fuel)
    case For(i, _, _, _) =>
      var o := ExecOpt(t, ops, i, env, w, fuel);
      if o.Normal? then ExecFor(t, ops, s, pos + LenOpt(i), o.env, o.w, fuel) else o
    case FunDecl(x, _, _) => WriteVar(x, Closure(pos), env, w)
    case ReturnNil => Returned(Nil, w)
    case ReturnVal(e) =>
      var x := EvalE(t, ops, e, env, w, fuel);
      if x.Got? then Returned(x.v, x.w) else Stop(x)
    case Break => Broke(env, w)
    case Continue => Continued(env, w)
  }

  /** The first arm whose condition holds. */
  datatype Arms = Untaken(w: World) | Taken(o: Outcome)

  function ExecArms(t: Table, ops: Ops, cs: seq<Clause>, pos: int, env: Env, w: World, fuel: nat): Arms
    decreases fuel, cs, 0
  {
    if cs == [] then Untaken(w) else
    var (init, c) := (cs[..|cs| - 1], cs[|cs| - 1]);
    var a := ExecArms(t, ops, init, pos, env, w, fuel);
    if a.Taken? then a else ExecClause(t, ops, c, pos + LenArms(init), env, a.w, fuel)
  }

  function ExecClause(t: Table, ops: Ops, c: Clause, pos: int, env: Env, w: World, fuel: nat): Arms
    decreases fuel, c, 1
  {
    var x := EvalE(t, ops, c.cond, env, w, fuel);
    if !x.Got? then Taken(Stop(x))
    else if IsTruthy(x.v) then Taken(ExecB(t, ops, c.blk, pos + |CodeE(c.cond)| + 1, env, x.w, fuel))
    else Untaken(x.w)
  }

  function ExecWhile(t: Table, ops: Ops, s: Stmt, pos: int, env: Env, w: World, fuel: nat): Outcome
    requires s.While?
    decreases fuel, s, 0
  {
    if fuel == 0 then OutOfFuel else
    var x := EvalE(t, ops, s.cond, env, w, fuel);
    if !x.Got? then Stop(x)
    else if !IsTruthy(x.v) then Normal(env, x.w)
    else
      var o := ExecB(t, ops, s.body, pos + |CodeE(s.cond)| + 1, env, x.w, fuel);
      if o.Broke? then Normal(o.env, o.w)
      else if o.Normal? || o.Continued? then ExecWhile(t, ops, s, pos, o.env, o.w, fuel - 1)
      else o
  }

  /** The value of the condition of a `for`; without a condition it holds. */
  function EvalTest(t: Table, ops: Ops, c: Option<Expr>, env: Env, w: World, fuel: nat): Eval<Value>
    decreases fuel, c, 1
  {
    if c.None? then Got(Flag(true), w) else EvalE(t, ops, c.value, env, w, fuel)
  }

  /** A `for` after its initialization; `continue` goes on with the post clause. */
  function ExecFor(t: Table, ops: Ops, s: Stmt, pos: int, env: Env, w: World, fuel: nat): Outcome
    requires s.For?
    decreases fuel, s, 0
  {
    if fuel == 0 then OutOfFuel else
    var x := EvalTest(t, ops, s.test, env, w, fuel);
    if !x.Got? then Stop(x)
    else if !IsTruthy(x.v) then Normal(env, x.w)
    else
      var o := ExecB(t, ops, s.body, pos + LenTest(s.test), env, x.w, fuel);
      if o.Broke? then Normal(o.env, o.w)
      else if o.Normal? || o.Continued? then
        var p := ExecOpt(t, ops, s.post, o.env, o.w, fuel);
        if p.Normal? then ExecFor(t, ops, s, pos, p.env, p.w, fuel - 1) else p
      else o
  }

  function ExecB(t: Table, ops: Ops, b: seq<Stmt>, pos: int, env: Env, w: World, fuel: nat): Outcome
    decreases fuel, b, 0
  {
    if b == [] then Normal(env, w) else
    var init := b[..|b| - 1];
    var o := ExecB(t, ops, init, pos, env, w, fuel);
    if o.Normal? then ExecS(t, ops, b[|b| - 1], pos + LenB(init), o.env, o.w, fuel) else o
  }
}
