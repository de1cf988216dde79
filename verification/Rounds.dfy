/** What single rounds of the dispatch loop do in a frame. */
module Rounds {
  import opened Common
  import opened Bytecode
  import opened Syntax
  import opened Codegen
  import opened Machine
  import opened Semantics
  import opened Resolution
  import opened Loading
  import opened Frames

  function Round(fr: Frame, c: Config): Config
    requires c.Running?
  {
    Step(fr.code, fr.ops, c)
  }

  ghost predicate Holds(fr: Frame, pos: int, i: Instr) {
    0 <= pos < |fr.code| && fr.code[pos] == i
  }

  // ----- Operations on the topmost operands -----

  lemma {:induction false} RoundConst(fr: Frame, pos: int, env: Env, opd: seq<Value>, w: World, v: Value)
    requires Holds(fr, pos, LoadConst(v))
    ensures Round(fr, fr.At(pos, env, opd, w)) == fr.At(pos + 1, env, opd + [v], w)
  {
    Cat3(fr.below + Image(fr.slots, env), opd, [v]);
  }

  lemma {:induction false} RoundVar(fr: Frame, pos: int, env: Env, opd: seq<Value>, w: World, x: string)
    requires Holds(fr, pos, Resolve(LoadSymbolic(x), fr.slots)) && EnvOk(fr.slots, env)
    ensures var r := ReadVar(x, env, w);
      Round(fr, fr.At(pos, env, opd, w)) == if r.None? then Failed(w) else fr.At(pos + 1, env, opd + [r.value], w)
  {
    var c := fr.At(pos, env, opd, w);
    if x in fr.slots {
      ImageRead(fr.slots, env, x);
      var k := SlotOf(fr.slots, x);
      assert c.stack[c.base + k] == Image(fr.slots, env)[k] == env[x];
      Cat3(fr.below + Image(fr.slots, env), opd, [env[x]]);
    } else if x in w.globals {
      Cat3(fr.below + Image(fr.slots, env), opd, [w.globals[x]]);
    }
  }

  /** The topmost operands of a stack. */
  lemma {:induction false} Tops(s: seq<Value>, vs: seq<Value>, stack: seq<Value>)
    requires stack == s + vs
    ensures stack[..|stack| - |vs|] == s && stack[|stack| - |vs|..] == vs
    ensures forall i {:trigger vs[i]} :: 0 <= i < |vs| ==> stack[|stack| - |vs| + i] == vs[i]
  {
  }

  lemma {:induction false} RoundUnary(fr: Frame, pos: int, env: Env, opd: seq<Value>, w: World, o: UnOp, v: Value)
    requires Holds(fr, pos, UnInstr(o))
    ensures var d := fr.At(pos, env, opd + [v], w);
      Round(fr, d) == Push(d, Base(fr, env, opd), Unary1(fr.ops, o, v, w))
  {
    hide Exec, Unary1, Image, Frame.At, Base;
    var d := fr.At(pos, env, opd + [v], w);
    OneTop(fr, pos, env, opd, w, v);
    UnaryExec(fr.code, fr.ops, o, d);
  }

  lemma {:induction false} OneTop(fr: Frame, pos: int, env: Env, opd: seq<Value>, w: World, v: Value)
    ensures var d := fr.At(pos, env, opd + [v], w);
      && d.Running? && d.ip == pos && d.w == w
      && |d.stack| >= 1 && d.stack[|d.stack| - 1] == v && d.stack[..|d.stack| - 1] == Base(fr, env, opd)
  {
    var d := fr.At(pos, env, opd + [v], w);
    Cat3(fr.below + Image(fr.slots, env), opd, [v]);
    Tops(Base(fr, env, opd), [v], d.stack);
    assert d.stack[|d.stack| - 1] == [v][0];
  }

  lemma {:induction false} UnaryExec(code: Code, ops: Ops, o: UnOp, c: Config)
    requires c.Running? && |c.stack| >= 1
    ensures Pops(UnInstr(o)) == 1
    ensures Exec(code, ops, UnInstr(o), c) == Push(c, c.stack[..|c.stack| - 1],
      Unary1(ops, o, c.stack[|c.stack| - 1], c.w))
  {
  }

  lemma {:induction false} TwoTops(fr: Frame, pos: int, env: Env, opd: seq<Value>, w: World, x: Value, y: Value)
    ensures var d := fr.At(pos, env, opd + [x, y], w);
      && d.Running? && d.ip == pos && d.w == w
      && var s := d.stack;
         |s| >= 2 && s[|s| - 2] == x && s[|s| - 1] == y && s[..|s| - 2] == Base(fr, env, opd)
  {
    var s := fr.At(pos, env, opd + [x, y], w).stack;
    Cat3(fr.below + Image(fr.slots, env), opd, [x, y]);
    Tops(Base(fr, env, opd), [x, y], s);
    assert s[|s| - 2] == [x, y][0] && s[|s| - 1] == [x, y][1];
  }

  lemma {:induction false} RoundBinary(fr: Frame, pos: int, env: Env, opd: seq<Value>, w: World, o: BinOp, x: Value,
      y: Value)
    requires Holds(fr, pos, BinInstr(o))
    ensures var d := fr.At(pos, env, opd + [x, y], w);
      Round(fr, d) == Push(d, Base(fr, env, opd), Binary2(fr.ops, o, x, y, w))
  {
    hide Exec, Frame.At, Binary2, Base;
    TwoTops(fr, pos, env, opd, w, x, y);
    BinaryExec(fr.code, fr.ops, o, fr.At(pos, env, opd + [x, y], w));
  }

  lemma {:induction false} BinaryExec(code: Code, ops: Ops, o: BinOp, c: Config)
    requires c.Running? && |c.stack| >= 2
    ensures Pops(BinInstr(o)) == 2
    ensures Exec(code, ops, BinInstr(o), c)
         == Push(c, c.stack[..|c.stack| - 2], Binary2(ops, o, c.stack[|c.stack| - 2], c.stack[|c.stack| - 1], c.w))
  {
    var i := BinInstr(o);
    if i.Arith? {
      ArithExec(code, ops, i.aop, c);
    } else if i.Cmp2Way? {
      Cmp2WayExec(code, ops, i.equal, c);
    } else {
      Cmp3WayExec(code, ops, i.mask, c);
    }
    hide Exec;
  }

  lemma {:induction false} ArithExec(code: Code, ops: Ops, a: Aop, c: Config)
    requires c.Running? && |c.stack| >= 2
    ensures Exec(code, ops, Arith(a), c)
         == Push(c, c.stack[..|c.stack| - 2], Perform(ops, a, c.stack[|c.stack| - 2], c.stack[|c.stack| - 1], c.w))
  {
    hide Perform;
  }

  lemma {:induction false} Cmp2WayExec(code: Code, ops: Ops, equal: bool, c: Config)
    requires c.Running? && |c.stack| >= 2
    ensures Exec(code, ops, Cmp2Way(equal), c) == Push(c, c.stack[..|c.stack| - 2],
      Some((Flag(ops.equal(c.stack[|c.stack| - 2], c.stack[|c.stack| - 1], c.w.heap) == equal), c.w)))
  {
  }

  lemma {:induction false} Cmp3WayExec(code: Code, ops: Ops, mask: nat, c: Config)
    requires c.Running? && |c.stack| >= 2
    ensures Exec(code, ops, Cmp3Way(mask), c)
         == Push(c, c.stack[..|c.stack| - 2], Compare(ops, mask, c.stack[|c.stack| - 2], c.stack[|c.stack| - 1], c.w))
  {
    hide Compare;
  }

  lemma {:induction false} RoundIndex(fr: Frame, pos: int, env: Env, opd: seq<Value>, w: World, x: Value, y: Value)
    requires Holds(fr, pos, LoadAt)
    ensures var d := fr.At(pos, env, opd + [x, y], w);
      Round(fr, d) == Push(d, Base(fr, env, opd), Lift(fr.ops.at(x, y, w.heap), w))
  {
    TwoTops(fr, pos, env, opd, w, x, y);
  }

  lemma {:induction false} RoundList(fr: Frame, pos: int, env: Env, opd: seq<Value>, w: World, vs: seq<Value>)
    requires Holds(fr, pos, MakeList(|vs|))
    ensures var d := fr.At(pos, env, opd + vs, w);
      Round(fr, d) == Push(d, Base(fr, env, opd), Lift(Some(fr.ops.list(vs, w.heap)), w))
  {
    var d := fr.At(pos, env, opd + vs, w);
    Cat3(fr.below + Image(fr.slots, env), opd, vs);
    Tops(Base(fr, env, opd), vs, d.stack);
  }

  lemma {:induction false} RoundDict(fr: Frame, pos: int, env: Env, opd: seq<Value>, w: World, n: nat, vs: seq<Value>)
    requires Holds(fr, pos, MakeDict(n)) && |vs| == 2 * n
    ensures var d := fr.At(pos, env, opd + vs, w);
      Round(fr, d) == Push(d, Base(fr, env, opd), Lift(fr.ops.dict(vs, w.heap), w))
  {
    var d := fr.At(pos, env, opd + vs, w);
    Cat3(fr.below + Image(fr.slots, env), opd, vs);
    Tops(Base(fr, env, opd), vs, d.stack);
  }

  // ----- Calls -----

  lemma {:induction false} CallTops(fr: Frame, pos: int, env: Env, opd: seq<Value>, w: World, v: Value,
      args: seq<Value>)
    ensures var s := fr.At(pos, env, opd + ([v] + args), w).stack;
      var at := |s| - |args| - 1;
      && at >= 0 && at == |Base(fr, env, opd)| && s[at] == v && s[at + 1..] == args && s[..at] == Base(fr, env, opd)
      && s == Base(fr, env, opd) + [v] + args
  {
    var s := fr.At(pos, env, opd + ([v] + args), w).stack;
    Cat3(fr.below + Image(fr.slots, env), opd, [v] + args);
    Cat3(Base(fr, env, opd), [v], args);
    Tops(Base(fr, env, opd) + [v], args, s);
  }

  /** Calls that do not enter a function. */
  lemma {:induction false} CallOther(code: Code, t: Table, ops: Ops, c: Config, v: Value, args: seq<Value>, at: nat)
    requires Loaded(code, t) && c.Running? && |c.stack| == at + 1 + |args| && c.stack[at] == v
      && c.stack[at + 1..] == args
    requires !CalleeOf(t, v, |args|).Run?
    ensures var callee := CalleeOf(t, v, |args|);
      StepCall(code, ops, c, |args|) == Push(c, c.stack[..at], if callee.Wrong? then None
        else ops.native(callee.id, args, c.w))
  {
    hide FunFits, GoodB, SlotsB, RawBody, Seg, MaxStack;
    if v.Closure? && v.ip in t {
      assert FunAt(code, v.ip, t[v.ip]);
    }
  }

  lemma {:induction false} RoundCallOther(fr: Frame, pos: int, env: Env, opd: seq<Value>, w: World, v: Value,
      args: seq<Value>)
    requires fr.Ok() && Holds(fr, pos, Call(|args|)) && !CalleeOf(fr.t, v, |args|).Run?
    ensures var d := fr.At(pos, env, opd + ([v] + args), w);
      var callee := CalleeOf(fr.t, v, |args|);
      Round(fr, d) == Push(d, Base(fr, env, opd), if callee.Wrong? then None else fr.ops.native(callee.id, args, w))
  {
    CallTops(fr, pos, env, opd, w, v, args);
    var d := fr.At(pos, env, opd + ([v] + args), w);
    CallOther(fr.code, fr.t, fr.ops, d, v, args, |d.stack| - |args| - 1);
    hide Base, StepCall, Loaded, CalleeOf;
  }

  /** The frame of the function that is called. */
  function Inner(fr: Frame, pos: int, env: Env, opd: seq<Value>, v: Value, f: Fun, at: int): Frame {
    Frame(fr.code, fr.t, fr.ops, SlotsB(f.params, f.body), Base(fr, env, opd) + [v],
      fr.calls + [CallSite(Some(pos), at, |fr.below|)])
  }

  lemma {:induction false} InnerOk(fr: Frame, pos: int, env: Env, opd: seq<Value>, v: Value, args: seq<Value>)
    requires fr.Ok() && CalleeOf(fr.t, v, |args|).Run?
    ensures var Run(at, f) := CalleeOf(fr.t, v, |args|);
      var inner := Inner(fr, pos, env, opd, v, f, at);
      && FunAt(fr.code, at, f) && inner.Ok() && inner.Site() == CallSite(Some(pos), at, |fr.below|)
      && inner.calls[..|inner.calls| - 1] == fr.calls && |args| == |f.params|
  {
    var Run(at, f) := CalleeOf(fr.t, v, |args|);
    assert FunAt(fr.code, at, f);
    hide FunFits, GoodB, SlotsB, RawBody, Seg;
    assert FunFits(f.params, f.body) && NoDup(f.params);
    SlotNamesB(f.params, (set x | x in f.params), f.body);
    ShapeOf(f);
  }

  lemma {:induction false} ShapeOf(f: Fun)
    requires FunFits(f.params, f.body)
    ensures var shape := FunShape(f.params, f.body);
      && shape.nargs == |f.params| && shape.nlocals == |SlotsB(f.params, f.body)|
      && shape.offset == LenB(f.body) + 3 <= INT32_MAX
  {
    hide MaxStack, SlotsB, CodeB, LenB;
  }

  lemma {:induction false} CallEnter(code: Code, t: Table, ops: Ops, c: Config, v: Value, args: seq<Value>, at: nat)
    requires Loaded(code, t) && c.Running? && |c.stack| == at + 1 + |args| && c.stack[at] == v
      && c.stack[at + 1..] == args
    requires CalleeOf(t, v, |args|).Run?
    ensures var Run(a, f) := CalleeOf(t, v, |args|);
      && |args| == |f.params| <= |SlotsB(f.params, f.body)| && NoDup(f.params)
      && StepCall(code, ops, c, |args|) == Running(a + 1, c.stack + Nils(|SlotsB(f.params, f.body)| - |args|), at + 1,
           c.calls + [CallSite(Some(c.ip), a, c.base)], c.w)
  {
    var Run(a, f) := CalleeOf(t, v, |args|);
    assert FunAt(code, a, f);
    assert |args| == |f.params| && NoDup(f.params);
    assert code[a].shape == FunShape(f.params, f.body);
    ShapeOf(f);
    InitialImage(f, args);
    hide FunFits, GoodB, SlotsB, RawBody, Seg, MaxStack, FunShape, FunAt, Loaded, InitialEnv, Image;
  }

  lemma {:induction false} LoadedOf(fr: Frame)
    requires fr.Ok()
    ensures Loaded(fr.code, fr.t)
  {
  }

  lemma {:induction false} AtFields(fr: Frame, pos: int, env: Env, opd: seq<Value>, w: World)
    ensures var d := fr.At(pos, env, opd, w);
      d.Running? && d.ip == pos && d.base == |fr.below| && d.calls == fr.calls && d.w == w
  {
  }

  lemma {:induction false} CallIs(code: Code, ops: Ops, c: Config, n: nat)
    requires c.Running? && 0 <= c.ip < |code| && code[c.ip] == Call(n) && n < |c.stack|
    ensures Step(code, ops, c) == StepCall(code, ops, c, n)
  {
    hide StepCall;
  }

  lemma {:induction false} Entered(
      fr: Frame, pos: int, env: Env, opd: seq<Value>, v: Value, args: seq<Value>, f: Fun, at: int, d: Config, w: World)
    requires d.Running? && d.stack == Base(fr, env, opd) + [v] + args && d.calls == fr.calls && |args| == |f.params|
    requires var slots := SlotsB(f.params, f.body);
      |args| <= |slots| && Image(slots, InitialEnv(f, args)) == args + Nils(|slots| - |args|)
    ensures Running(at + 1, d.stack + Nils(|SlotsB(f.params, f.body)| - |args|), |d.stack| - |args|,
      d.calls + [CallSite(Some(pos), at, |fr.below|)], w)
      == Inner(fr, pos, env, opd, v, f, at).At(at + 1, InitialEnv(f, args), [], w)
  {
    hide Base, SlotsB, Image, InitialEnv;
    var slots := SlotsB(f.params, f.body);
    var (s, image) := (Base(fr, env, opd) + [v], Image(slots, InitialEnv(f, args)));
    Cat3(s, args, Nils(|slots| - |args|));
    assert s + image + [] == s + image;
  }

  /** The callee starts behind its OP_FUNCTION with its parameters bound to the arguments. */
  lemma {:induction false} RoundEnter(fr: Frame, pos: int, env: Env, opd: seq<Value>, w: World, v: Value,
      args: seq<Value>)
    requires fr.Ok() && Holds(fr, pos, Call(|args|)) && CalleeOf(fr.t, v, |args|).Run?
    ensures var Run(at, f) := CalleeOf(fr.t, v, |args|);
      && |args| == |f.params|
      && Round(fr, fr.At(pos, env, opd + ([v] + args), w))
         == Inner(fr, pos, env, opd, v, f, at).At(at + 1, InitialEnv(f, args), [], w)
  {
    hide Base, FunFits, GoodB, SlotsB, RawBody, Seg, FunShape, Loaded, Image, InitialEnv, StepCall, CalleeOf,
      Frame.Ok, Frame.At, Exec, Step;
    var Run(at, f) := CalleeOf(fr.t, v, |args|);
    CallTops(fr, pos, env, opd, w, v, args);
    var d := fr.At(pos, env, opd + ([v] + args), w);
    LoadedOf(fr);
    AtFields(fr, pos, env, opd + ([v] + args), w);
    CallEnter(fr.code, fr.t, fr.ops, d, v, args, |d.stack| - |args| - 1);
    CallIs(fr.code, fr.ops, d, |args|);
    InitialImage(f, args);
    Entered(fr, pos, env, opd, v, args, f, at, d, w);
  }

  /** After the return the caller goes on with the result in place of callee and arguments. */
  lemma {:induction false} ExitInner(fr: Frame, pos: int, env: Env, opd: seq<Value>, v: Value, args: seq<Value>,
      r: Value, w: World)
    requires fr.Ok() && CalleeOf(fr.t, v, |args|).Run?
    ensures var Run(at, f) := CalleeOf(fr.t, v, |args|);
      var inner := Inner(fr, pos, env, opd, v, f, at);
      inner.Ok() && inner.Exit(r, w) == fr.At(pos + 1, env, opd + [r], w)
  {
    hide Loaded, Frame.Ok, CalleeOf, FunAt, Image, SlotsB;
    var Run(at, f) := CalleeOf(fr.t, v, |args|);
    InnerOk(fr, pos, env, opd, v, args);
    var inner := Inner(fr, pos, env, opd, v, f, at);
    assert inner.below[..|inner.below| - 1] == Base(fr, env, opd);
    Cat3(fr.below + Image(fr.slots, env), opd, [r]);
  }

  lemma {:induction false} RoundReturn(fr: Frame, pos: int, env: Env, w: World, v: Value)
    requires fr.Ok() && Holds(fr, pos, Return)
    ensures Round(fr, fr.At(pos, env, [v], w)) == fr.Exit(v, w)
  {
    var c := fr.At(pos, env, [v], w);
    Tops(fr.below + Image(fr.slots, env), [v], c.stack);
    assert c.stack[|c.stack| - 1] == [v][0];
    var rest := |c.stack| - 1 - (|fr.slots| + 1);
    assert c.stack[..rest] == fr.below[..|fr.below| - 1];
  }

  // ----- Jumps -----

  lemma {:induction false} RoundJump(fr: Frame, pos: int, env: Env, opd: seq<Value>, w: World, d: int)
    requires Holds(fr, pos, Jump(Encode(d))) && -INT32_MAX <= d <= INT32_MAX
    ensures Round(fr, fr.At(pos, env, opd, w)) == fr.At(pos + d, env, opd, w)
  {
  }

  lemma {:induction false} RoundJumpUnless(fr: Frame, pos: int, env: Env, w: World, d: int, v: Value)
    requires Holds(fr, pos, JumpUnless(Encode(d))) && -INT32_MAX <= d <= INT32_MAX
    ensures Round(fr, fr.At(pos, env, [v], w)) == fr.At(if IsTruthy(v) then pos + 1 else pos + d, env, [], w)
  {
    var c := fr.At(pos, env, [v], w);
    Tops(fr.below + Image(fr.slots, env), [v], c.stack);
    assert c.stack[|c.stack| - 1] == [v][0];
    assert fr.below + Image(fr.slots, env) + [] == fr.below + Image(fr.slots, env);
  }

  // ----- Effects -----

  /** A round that ends an effect: it goes on behind the instruction or fails. */
  ghost predicate Effects(fr: Frame, c: Config, o: Outcome, end: int)
    requires c.Running?
  {
    match o
    case Normal(env, w) => EnvOk(fr.slots, env) && Round(fr, c) == fr.At(end, env, [], w)
    case Error(w) => Round(fr, c) == Failed(w)
    case _ => false
  }

  lemma {:induction false} RoundPrint(fr: Frame, pos: int, env: Env, w: World, v: Value)
    requires Holds(fr, pos, PrintTop)
    ensures Round(fr, fr.At(pos, env, [v], w)) == fr.At(pos + 1, env, [], w.(out := w.out + fr.ops.repr(v, w.heap)))
  {
    var c := fr.At(pos, env, [v], w);
    Tops(fr.below + Image(fr.slots, env), [v], c.stack);
    assert c.stack[|c.stack| - 1] == [v][0];
    assert fr.below + Image(fr.slots, env) + [] == fr.below + Image(fr.slots, env);
  }

  lemma {:induction false} StoreTop(fr: Frame, env: Env, v: Value, k: nat, stack: seq<Value>, x: Value)
    requires stack == fr.below + Image(fr.slots, env) + [v] && k < |fr.slots|
    ensures stack[|fr.below| + k := x][..|stack| - 1] == fr.below + Image(fr.slots, env)[k := x] + []
    ensures stack[..|stack| - 1] == fr.below + Image(fr.slots, env) + []
    ensures stack[|stack| - 1] == v && stack[|fr.below| + k] == Image(fr.slots, env)[k]
  {
  }

  lemma {:induction false} GlobalTop(fr: Frame, env: Env, v: Value, stack: seq<Value>)
    requires stack == fr.below + Image(fr.slots, env) + [v]
    ensures stack[..|stack| - 1] == fr.below + Image(fr.slots, env) + [] && stack[|stack| - 1] == v
  {
  }

  lemma {:induction false} RoundAssign(fr: Frame, pos: int, env: Env, w: World, k: Kind, x: string, v: Value)
    requires fr.Ok() && EnvOk(fr.slots, env) && (k == StoreHere ==> x in fr.slots)
    requires Holds(fr, pos, Resolve(StoreInstr(LoadSymbolic(x), k, fr.slots), fr.slots))
    ensures Effects(fr, fr.At(pos, env, [v], w), AssignVar(fr.ops, k, x, v, env, w), pos + 1)
  {
    hide Frame.Ok, Exec, EnvOk, Effects, Frame.At, AssignVar, StoreInstr;
    if x in fr.slots {
      AssignLocal(fr, pos, env, w, k, x, v);
    } else {
      AssignGlobal(fr, pos, env, w, k, x, v);
    }
  }

  lemma {:induction false} AssignGlobal(fr: Frame, pos: int, env: Env, w: World, k: Kind, x: string, v: Value)
    requires EnvOk(fr.slots, env) && k != StoreHere && x !in fr.slots
    requires Holds(fr, pos, Resolve(StoreInstr(LoadSymbolic(x), k, fr.slots), fr.slots))
    ensures Effects(fr, fr.At(pos, env, [v], w), AssignVar(fr.ops, k, x, v, env, w), pos + 1)
  {
    assert x !in env;
    hide Image, EnvOk, Perform;
    GlobalTop(fr, env, v, fr.At(pos, env, [v], w).stack);
  }

  lemma {:induction false} AssignLocal(fr: Frame, pos: int, env: Env, w: World, k: Kind, x: string, v: Value)
    requires fr.Ok() && EnvOk(fr.slots, env) && x in fr.slots
    requires Holds(fr, pos, Resolve(StoreInstr(LoadSymbolic(x), k, fr.slots), fr.slots))
    ensures Effects(fr, fr.At(pos, env, [v], w), AssignVar(fr.ops, k, x, v, env, w), pos + 1)
  {
    assert NoDup(fr.slots) && x in env;
    if k.Modify? {
      UpdateLocal(fr, pos, env, w, k.aop, x, v, SlotOf(fr.slots, x));
    } else {
      WriteLocal(fr, pos, env, w, x, v, SlotOf(fr.slots, x));
    }
    hide Frame.Ok, EnvOk, Effects, UpdateVar;
  }

  lemma {:induction false} WriteLocal(fr: Frame, pos: int, env: Env, w: World, x: string, v: Value, slot: nat)
    requires NoDup(fr.slots) && EnvOk(fr.slots, env) && x in fr.slots && slot == SlotOf(fr.slots, x)
    requires Holds(fr, pos, StoreLocal(slot))
    ensures Effects(fr, fr.At(pos, env, [v], w), Normal(env[x := v], w), pos + 1)
  {
    hide Image, EnvOk, SlotOf;
    ImageRead(fr.slots, env, x);
    StoreTop(fr, env, v, slot, fr.At(pos, env, [v], w).stack, v);
    ImageWrite(fr.slots, env, x, v);
  }

  lemma {:induction false} UpdateLocal(fr: Frame, pos: int, env: Env, w: World, a: Aop, x: string, v: Value, slot: nat)
    requires NoDup(fr.slots) && EnvOk(fr.slots, env) && x in fr.slots && x in env && slot == SlotOf(fr.slots, x)
    requires Holds(fr, pos, ModifyLocal(a, slot))
    ensures Effects(fr, fr.At(pos, env, [v], w), UpdateVar(fr.ops, a, x, v, env, w), pos + 1)
  {
    hide Perform, Image, EnvOk, SlotOf;
    var c := fr.At(pos, env, [v], w);
    var r := Perform(fr.ops, a, env[x], v, w);
    ImageRead(fr.slots, env, x);
    StoreTop(fr, env, v, slot, c.stack, if r.None? then Nil else r.value.0);
    if r.Some? { ImageWrite(fr.slots, env, x, r.value.0); }
  }

  lemma {:induction false} ThreeTops(fr: Frame, pos: int, env: Env, w: World, a: Value, i: Value, v: Value)
    ensures var c := fr.At(pos, env, [a, i, v], w);
      && c.Running? && c.ip == pos && c.w == w && |c.stack| >= 3
      && c.stack[|c.stack| - 3] == a && c.stack[|c.stack| - 2] == i && c.stack[|c.stack| - 1] == v
      && Next(c, c.stack[..|c.stack| - 3], w) == fr.At(pos + 1, env, [], w)
  {
    var c := fr.At(pos, env, [a, i, v], w);
    var s := fr.below + Image(fr.slots, env);
    Tops(s, [a, i, v], c.stack);
    assert c.stack[|c.stack| - 3] == [a, i, v][0] && c.stack[|c.stack| - 2] == [a, i, v][1]
      && c.stack[|c.stack| - 1] == [a, i, v][2];
    assert s + [] == s;
  }

  /** The world is not part of the frame. */
  lemma {:induction false} AtEnd(fr: Frame, pos: int, env: Env, w: World)
    ensures forall w': World {:trigger fr.At(pos + 1, env, [], w')} ::
      fr.At(pos + 1, env, [], w') == fr.At(pos + 1, env, [], w).(w := w')
  {
  }

  lemma {:induction false} StoreAtExec(code: Code, ops: Ops, c: Config)
    requires c.Running? && |c.stack| >= 3
    ensures Exec(code, ops, StoreAt, c) == After(c, c.stack[..|c.stack| - 3],
      WriteAt(ops, c.stack[|c.stack| - 3], c.stack[|c.stack| - 2], c.stack[|c.stack| - 1], c.w))
  {
    hide WriteAt;
  }

  lemma {:induction false} ModifyAtExec(code: Code, ops: Ops, a: Aop, c: Config)
    requires c.Running? && |c.stack| >= 3
    ensures Exec(code, ops, ModifyAt(a), c) == After(c, c.stack[..|c.stack| - 3],
      UpdateAt(ops, a, c.stack[|c.stack| - 3], c.stack[|c.stack| - 2], c.stack[|c.stack| - 1], c.w))
  {
    hide UpdateAt;
  }

  lemma {:induction false} RoundAssignAt(fr: Frame, pos: int, env: Env, w: World, k: Kind, a: Value, i: Value, v: Value)
    requires EnvOk(fr.slots, env) && k != StoreHere
    requires Holds(fr, pos, if k.Modify? then ModifyAt(k.aop) else StoreAt)
    ensures Effects(fr, fr.At(pos, env, [a, i, v], w), AssignAt(fr.ops, k, a, i, v, env, w), pos + 1)
  {
    hide WriteAt, UpdateAt, EnvOk, Perform, Image, Exec, Frame.At;
    var c := fr.At(pos, env, [a, i, v], w);
    var s := fr.below + Image(fr.slots, env);
    ThreeTops(fr, pos, env, w, a, i, v);
    if k.Modify? { ModifyAtExec(fr.code, fr.ops, k.aop, c); } else { StoreAtExec(fr.code, fr.ops, c); }
    AtEnd(fr, pos, env, w);
  }

  /** A function declaration is jumped over. */
  lemma {:induction false} RoundFunction(fr: Frame, pos: int, env: Env, w: World, shape: Shape)
    requires Holds(fr, pos, Function(shape))
    ensures Round(fr, fr.At(pos, env, [], w)) == fr.At(pos + shape.offset, env, [Closure(pos)], w)
  {
    var s := fr.below + Image(fr.slots, env);
    assert s + [] == s;
  }
}
