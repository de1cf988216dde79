/** The machine, running the code of a tree, does what the tree means.

    Every lemma returns the number of rounds that the machine takes. */
module Simulation {
  import opened Common
  import opened Bytecode
  import opened Syntax
  import opened Codegen
  import opened Patching
  import opened Machine
  import opened Semantics
  import opened Resolution
  import opened Loading
  import opened Frames
  import opened Rounds

  // ----- Expressions -----

  lemma {:induction false} SimE(fr: Frame, pos: int, e: Expr, env: Env, opd: seq<Value>, w: World, fuel: nat,
      end: int) returns (n: nat)
    requires fr.Ok() && EnvOk(fr.slots, env) && Seg(fr.code, pos, CodeE(e), fr.slots) && end == pos + |CodeE(e)|
    ensures Pushes(fr, fr.At(pos, env, opd, w), end, env, opd, One(EvalE(fr.t, fr.ops, e, env, w, fuel)), fuel, n)
    decreases fuel, e, 1
  {
    if e.Const? || e.Var? {
      n := SimLeaf(fr, pos, e, env, opd, w, fuel, end);
    } else if e.Paren? {
      n := SimE(fr, pos, e.inner, env, opd, w, fuel, end);
    } else if e.Unary? {
      n := SimUnary(fr, pos, e, env, opd, w, fuel, end);
    } else if e.Binary? {
      n := SimBinary(fr, pos, e, env, opd, w, fuel, end);
    } else if e.Index? {
      n := SimIndex(fr, pos, e, env, opd, w, fuel, end);
    } else if e.Field? {
      n := SimField(fr, pos, e, env, opd, w, fuel, end);
    } else if e.Invoke? {
      n := SimInvoke(fr, pos, e, env, opd, w, fuel, end);
    } else {
      n := SimLiteral(fr, pos, e, env, opd, w, fuel, end);
    }
    hide Seg, Frame.Ok, EnvOk, Pushes;
  }

  lemma {:induction false} SimLeaf(fr: Frame, pos: int, e: Expr, env: Env, opd: seq<Value>, w: World, fuel: nat,
      end: int) returns (n: nat)
    requires (e.Const? || e.Var?) && EnvOk(fr.slots, env) && Seg(fr.code, pos, CodeE(e), fr.slots) && end == pos + 1
    ensures Pushes(fr, fr.At(pos, env, opd, w), end, env, opd, One(EvalE(fr.t, fr.ops, e, env, w, fuel)), fuel, n)
  {
    var c := fr.At(pos, env, opd, w);
    n := 1;
    OneMore(fr, c, 0, c);
    if e.Const? {
      SegOne(fr.code, pos, LoadConst(e.v), fr.slots);
      RoundConst(fr, pos, env, opd, w, e.v);
    } else {
      SegOne(fr.code, pos, LoadSymbolic(e.name), fr.slots);
      RoundVar(fr, pos, env, opd, w, e.name);
    }
    hide Seg, Frame.At, EnvOk, Step, ReadVar, Resolve;
  }

  lemma {:induction false} SimUnary(fr: Frame, pos: int, e: Expr, env: Env, opd: seq<Value>, w: World, fuel: nat,
      end: int) returns (n: nat)
    requires e.Unary? && fr.Ok() && EnvOk(fr.slots, env) && Seg(fr.code, pos, CodeE(e), fr.slots)
      && end == pos + |CodeE(e)|
    ensures Pushes(fr, fr.At(pos, env, opd, w), end, env, opd, One(EvalE(fr.t, fr.ops, e, env, w, fuel)), fuel, n)
    decreases fuel, e, 0
  {
    hide Seg, Frame.Ok, EnvOk, Pushes, Unary1, Base, Step, Frame.At;
    var Unary(o, a) := e;
    var (c, mid) := (fr.At(pos, env, opd, w), end - 1);
    SegSplit(fr.code, pos, CodeE(a), [UnInstr(o)], fr.slots, mid);
    SegOne(fr.code, mid, UnInstr(o), fr.slots);
    n := SimE(fr, pos, a, env, opd, w, fuel, mid);
    var x := EvalE(fr.t, fr.ops, a, env, w, fuel);
    if x.Got? {
      RoundUnary(fr, mid, env, opd, x.w, o, x.v);
      Operates(fr, c, mid, env, opd, [x.v], x.w, Unary1(fr.ops, o, x.v, x.w), fuel, n, end);
      n := n + 1;
    } else {
      Stopped(fr, c, mid, end, env, opd, One(x), fuel, n);
    }
  }

  /** Where a failed evaluation would have ended does not matter. */
  lemma {:induction false} Stopped(
      fr: Frame, c: Config, mid: int, end: int, env: Env, opd: seq<Value>, r: Eval<seq<Value>>, fuel: nat, n: nat)
    requires Pushes(fr, c, mid, env, opd, r, fuel, n) && !r.Got?
    ensures Pushes(fr, c, end, env, opd, r, fuel, n)
  {
  }

  function EvalTwo(t: Table, ops: Ops, l: Expr, r: Expr, env: Env, w: World, fuel: nat): Eval<seq<Value>> {
    var x := EvalE(t, ops, l, env, w, fuel);
    if !x.Got? then One(x) else
    var y := EvalE(t, ops, r, env, x.w, fuel);
    if y.Got? then Got([x.v, y.v], y.w) else One(y)
  }

  lemma {:induction false} SimTwo(
      fr: Frame, pos: int, e: Expr, l: Expr, r: Expr, env: Env, opd: seq<Value>, w: World, fuel: nat, end: int)
      returns (n: nat)
    requires l < e && r < e && fr.Ok() && EnvOk(fr.slots, env)
    requires Seg(fr.code, pos, CodeE(l) + CodeE(r), fr.slots) && end == pos + |CodeE(l)| + |CodeE(r)|
    ensures Pushes(fr, fr.At(pos, env, opd, w), end, env, opd, EvalTwo(fr.t, fr.ops, l, r, env, w, fuel), fuel, n)
    decreases fuel, e, 0, 0
  {
    hide Seg, Frame.Ok, EnvOk, Pushes, CodeE, EvalE, Frame.At;
    var (c, mid) := (fr.At(pos, env, opd, w), pos + |CodeE(l)|);
    SegSplit(fr.code, pos, CodeE(l), CodeE(r), fr.slots, mid);
    n := SimE(fr, pos, l, env, opd, w, fuel, mid);
    var x := EvalE(fr.t, fr.ops, l, env, w, fuel);
    if x.Got? {
      var m := SimE(fr, mid, r, env, opd + [x.v], x.w, fuel, end);
      var y := EvalE(fr.t, fr.ops, r, env, x.w, fuel);
      PushesBoth(fr, c, mid, end, env, opd, [x.v], x.w, One(y), fuel, n, m);
      if y.Got? { assert [x.v] + [y.v] == [x.v, y.v]; }
      n := n + m;
    } else {
      Stopped(fr, c, mid, end, env, opd, One(x), fuel, n);
    }
  }

  lemma {:induction false} SimBinary(fr: Frame, pos: int, e: Expr, env: Env, opd: seq<Value>, w: World, fuel: nat,
      end: int) returns (n: nat)
    requires e.Binary? && fr.Ok() && EnvOk(fr.slots, env) && Seg(fr.code, pos, CodeE(e), fr.slots)
      && end == pos + |CodeE(e)|
    ensures Pushes(fr, fr.At(pos, env, opd, w), end, env, opd, One(EvalE(fr.t, fr.ops, e, env, w, fuel)), fuel, n)
    decreases fuel, e, 0
  {
    hide Seg, Frame.Ok, EnvOk, Pushes, Binary2, Base, Step, Frame.At;
    var Binary(o, l, r) := e;
    var (c, mid) := (fr.At(pos, env, opd, w), end - 1);
    SegSplit(fr.code, pos, CodeE(l) + CodeE(r), [BinInstr(o)], fr.slots, mid);
    SegOne(fr.code, mid, BinInstr(o), fr.slots);
    n := SimTwo(fr, pos, e, l, r, env, opd, w, fuel, mid);
    var x := EvalTwo(fr.t, fr.ops, l, r, env, w, fuel);
    if x.Got? {
      RoundBinary(fr, mid, env, opd, x.w, o, x.v[0], x.v[1]);
      Operates(fr, c, mid, env, opd, x.v, x.w, Binary2(fr.ops, o, x.v[0], x.v[1], x.w), fuel, n, end);
      n := n + 1;
    } else {
      Stopped(fr, c, mid, end, env, opd, x, fuel, n);
    }
  }

  lemma {:induction false} SimIndex(fr: Frame, pos: int, e: Expr, env: Env, opd: seq<Value>, w: World, fuel: nat,
      end: int) returns (n: nat)
    requires e.Index? && fr.Ok() && EnvOk(fr.slots, env) && Seg(fr.code, pos, CodeE(e), fr.slots)
      && end == pos + |CodeE(e)|
    ensures Pushes(fr, fr.At(pos, env, opd, w), end, env, opd, One(EvalE(fr.t, fr.ops, e, env, w, fuel)), fuel, n)
    decreases fuel, e, 0
  {
    var Index(b, i) := e;
    var (c, mid) := (fr.At(pos, env, opd, w), end - 1);
    SegSplit(fr.code, pos, CodeE(b) + CodeE(i), [LoadAt], fr.slots, mid);
    SegOne(fr.code, mid, LoadAt, fr.slots);
    n := SimTwo(fr, pos, e, b, i, env, opd, w, fuel, mid);
    var x := EvalTwo(fr.t, fr.ops, b, i, env, w, fuel);
    hide Seg, Frame.Ok, EnvOk, Pushes, Base, Step, CodeE, Frame.At;
    if x.Got? {
      RoundIndex(fr, mid, env, opd, x.w, x.v[0], x.v[1]);
      Operates(fr, c, mid, env, opd, x.v, x.w, Lift(fr.ops.at(x.v[0], x.v[1], x.w.heap), x.w), fuel, n, end);
      n := n + 1;
    } else {
      Stopped(fr, c, mid, end, env, opd, x, fuel, n);
    }
  }

  /** The container and the index of an element that is read or written. */
  function EvalPlace(t: Table, ops: Ops, e: Expr, env: Env, w: World, fuel: nat): Eval<seq<Value>>
    requires e.Index? || e.Field?
  {
    if e.Index? then EvalTwo(t, ops, e.base, e.index, env, w, fuel) else
    var x := EvalE(t, ops, e.base, env, w, fuel);
    if x.Got? then Got([x.v, Str(e.field)], x.w) else One(x)
  }

  lemma {:induction false} SimPlace(fr: Frame, pos: int, e: Expr, env: Env, opd: seq<Value>, w: World, fuel: nat,
      end: int) returns (n: nat)
    requires (e.Index? || e.Field?) && fr.Ok() && EnvOk(fr.slots, env)
    requires Seg(fr.code, pos, CodePlace(e), fr.slots) && end == pos + |CodePlace(e)|
    ensures Pushes(fr, fr.At(pos, env, opd, w), end, env, opd, EvalPlace(fr.t, fr.ops, e, env, w, fuel), fuel, n)
    decreases fuel, e, 0, 1
  {
    hide Seg, Frame.Ok, EnvOk, CodeE, EvalE, EvalTwo;
    if e.Index? {
      n := SimTwo(fr, pos, e, e.base, e.index, env, opd, w, fuel, end);
    } else {
      var (c, mid) := (fr.At(pos, env, opd, w), end - 1);
      SegSplit(fr.code, pos, CodeE(e.base), [LoadConst(Str(e.field))], fr.slots, mid);
      SegOne(fr.code, mid, LoadConst(Str(e.field)), fr.slots);
      n := SimE(fr, pos, e.base, env, opd, w, fuel, mid);
      var x := EvalE(fr.t, fr.ops, e.base, env, w, fuel);
      if x.Got? {
        RoundConst(fr, mid, env, opd + [x.v], x.w, Str(e.field));
        OneMore(fr, c, n, fr.At(mid, env, opd + [x.v], x.w));
        assert opd + [x.v] + [Str(e.field)] == opd + [x.v, Str(e.field)];
        n := n + 1;
      } else {
        Stopped(fr, c, mid, end, env, opd, One(x), fuel, n);
      }
    }
  }

  lemma {:induction false} SimField(fr: Frame, pos: int, e: Expr, env: Env, opd: seq<Value>, w: World, fuel: nat,
      end: int) returns (n: nat)
    requires e.Field? && fr.Ok() && EnvOk(fr.slots, env) && Seg(fr.code, pos, CodeE(e), fr.slots)
      && end == pos + |CodeE(e)|
    ensures Pushes(fr, fr.At(pos, env, opd, w), end, env, opd, One(EvalE(fr.t, fr.ops, e, env, w, fuel)), fuel, n)
    decreases fuel, e, 0, 2
  {
    var (c, mid) := (fr.At(pos, env, opd, w), end - 1);
    assert CodeE(e) == CodePlace(e) + [LoadAt];
    SegSplit(fr.code, pos, CodePlace(e), [LoadAt], fr.slots, mid);
    SegOne(fr.code, mid, LoadAt, fr.slots);
    n := SimPlace(fr, pos, e, env, opd, w, fuel, mid);
    var x := EvalPlace(fr.t, fr.ops, e, env, w, fuel);
    hide Seg, Frame.Ok, EnvOk, Pushes, Base, Step, CodeE, CodePlace, Frame.At;
    if x.Got? {
      RoundIndex(fr, mid, env, opd, x.w, x.v[0], x.v[1]);
      Operates(fr, c, mid, env, opd, x.v, x.w, Lift(fr.ops.at(x.v[0], x.v[1], x.w.heap), x.w), fuel, n, end);
      n := n + 1;
    } else {
      Stopped(fr, c, mid, end, env, opd, x, fuel, n);
    }
  }

  lemma {:induction false} SimEs(fr: Frame, pos: int, es: seq<Expr>, env: Env, opd: seq<Value>, w: World, fuel: nat,
      end: int) returns (n: nat)
    requires fr.Ok() && EnvOk(fr.slots, env) && Seg(fr.code, pos, CodeEs(es), fr.slots) && end == pos + |CodeEs(es)|
    ensures Pushes(fr, fr.At(pos, env, opd, w), end, env, opd, EvalEs(fr.t, fr.ops, es, env, w, fuel), fuel, n)
    decreases fuel, es, 0
  {
    var c := fr.At(pos, env, opd, w);
    hide Seg, Frame.Ok, EnvOk, CodeE, EvalE;
    if es == [] {
      n := 0;
      assert opd + [] == opd;
    } else {
      var (init, e) := (es[..|es| - 1], es[|es| - 1]);
      var mid := pos + |CodeEs(init)|;
      SegSplit(fr.code, pos, CodeEs(init), CodeE(e), fr.slots, mid);
      n := SimEs(fr, pos, init, env, opd, w, fuel, mid);
      var xs := EvalEs(fr.t, fr.ops, init, env, w, fuel);
      if xs.Got? {
        var m := SimE(fr, mid, e, env, opd + xs.v, xs.w, fuel, end);
        PushesBoth(fr, c, mid, end, env, opd, xs.v, xs.w, One(EvalE(fr.t, fr.ops, e, env, xs.w, fuel)), fuel, n, m);
        n := n + m;
      } else {
        Stopped(fr, c, mid, end, env, opd, xs, fuel, n);
      }
    }
  }

  lemma {:induction false} SimN(fr: Frame, pos: int, e: Entry, env: Env, opd: seq<Value>, w: World, fuel: nat,
      end: int) returns (n: nat)
    requires fr.Ok() && EnvOk(fr.slots, env) && Seg(fr.code, pos, CodeN(e), fr.slots) && end == pos + |CodeN(e)|
    ensures Pushes(fr, fr.At(pos, env, opd, w), end, env, opd, EvalN(fr.t, fr.ops, e, env, w, fuel), fuel, n)
    decreases fuel, e, 1
  {
    hide Seg, Frame.Ok, EnvOk, Pushes, CodeE, EvalE, Frame.At;
    var (c, mid) := (fr.At(pos, env, opd, w), pos + |CodeE(e.key)|);
    SegSplit(fr.code, pos, CodeE(e.key), CodeE(e.val), fr.slots, mid);
    n := SimE(fr, pos, e.key, env, opd, w, fuel, mid);
    var x := EvalE(fr.t, fr.ops, e.key, env, w, fuel);
    if x.Got? {
      var m := SimE(fr, mid, e.val, env, opd + [x.v], x.w, fuel, end);
      var y := EvalE(fr.t, fr.ops, e.val, env, x.w, fuel);
      PushesBoth(fr, c, mid, end, env, opd, [x.v], x.w, One(y), fuel, n, m);
      if y.Got? { assert [x.v] + [y.v] == [x.v, y.v]; }
      n := n + m;
    } else {
      Stopped(fr, c, mid, end, env, opd, One(x), fuel, n);
    }
  }

  lemma {:induction false} SimNs(fr: Frame, pos: int, ns: seq<Entry>, env: Env, opd: seq<Value>, w: World, fuel: nat,
      end: int) returns (n: nat)
    requires fr.Ok() && EnvOk(fr.slots, env) && Seg(fr.code, pos, CodeNs(ns), fr.slots) && end == pos + |CodeNs(ns)|
    ensures Pushes(fr, fr.At(pos, env, opd, w), end, env, opd, EvalNs(fr.t, fr.ops, ns, env, w, fuel), fuel, n)
    ensures var r := EvalNs(fr.t, fr.ops, ns, env, w, fuel); r.Got? ==> |r.v| == 2 * |ns|
    decreases fuel, ns, 0
  {
    var c := fr.At(pos, env, opd, w);
    hide Seg, Frame.Ok, EnvOk, CodeN;
    if ns == [] {
      n := 0;
      assert opd + [] == opd;
    } else {
      var (init, e) := (ns[..|ns| - 1], ns[|ns| - 1]);
      var mid := pos + |CodeNs(init)|;
      SegSplit(fr.code, pos, CodeNs(init), CodeN(e), fr.slots, mid);
      n := SimNs(fr, pos, init, env, opd, w, fuel, mid);
      var xs := EvalNs(fr.t, fr.ops, init, env, w, fuel);
      if xs.Got? {
        var m := SimN(fr, mid, e, env, opd + xs.v, xs.w, fuel, end);
        PushesBoth(fr, c, mid, end, env, opd, xs.v, xs.w, EvalN(fr.t, fr.ops, e, env, xs.w, fuel), fuel, n, m);
        n := n + m;
      } else {
        Stopped(fr, c, mid, end, env, opd, xs, fuel, n);
      }
    }
  }

  lemma {:induction false} SimLiteral(fr: Frame, pos: int, e: Expr, env: Env, opd: seq<Value>, w: World, fuel: nat,
      end: int) returns (n: nat)
    requires (e.ListLit? || e.DictLit?) && fr.Ok() && EnvOk(fr.slots, env)
    requires Seg(fr.code, pos, CodeE(e), fr.slots) && end == pos + |CodeE(e)|
    ensures Pushes(fr, fr.At(pos, env, opd, w), end, env, opd, One(EvalE(fr.t, fr.ops, e, env, w, fuel)), fuel, n)
    decreases fuel, e, 0
  {
    var (c, mid) := (fr.At(pos, env, opd, w), end - 1);
    hide Seg, Frame.Ok, EnvOk, Pushes, Base, Step, CodeEs, CodeNs, EvalEs, EvalNs, Frame.At;
    if e.ListLit? {
      SegSplit(fr.code, pos, CodeEs(e.elems), [MakeList(|e.elems|)], fr.slots, mid);
      SegOne(fr.code, mid, MakeList(|e.elems|), fr.slots);
      n := SimEs(fr, pos, e.elems, env, opd, w, fuel, mid);
      var x := EvalEs(fr.t, fr.ops, e.elems, env, w, fuel);
      if x.Got? {
        RoundList(fr, mid, env, opd, x.w, x.v);
        Operates(fr, c, mid, env, opd, x.v, x.w, Lift(Some(fr.ops.list(x.v, x.w.heap)), x.w), fuel, n, end);
        n := n + 1;
      } else {
        Stopped(fr, c, mid, end, env, opd, x, fuel, n);
      }
    } else {
      SegSplit(fr.code, pos, CodeNs(e.entries), [MakeDict(|e.entries|)], fr.slots, mid);
      SegOne(fr.code, mid, MakeDict(|e.entries|), fr.slots);
      n := SimNs(fr, pos, e.entries, env, opd, w, fuel, mid);
      var x := EvalNs(fr.t, fr.ops, e.entries, env, w, fuel);
      if x.Got? {
        RoundDict(fr, mid, env, opd, x.w, |e.entries|, x.v);
        Operates(fr, c, mid, env, opd, x.v, x.w, Lift(fr.ops.dict(x.v, x.w.heap), x.w), fuel, n, end);
        n := n + 1;
      } else {
        Stopped(fr, c, mid, end, env, opd, x, fuel, n);
      }
    }
  }

  // ----- Calls -----

  /** The callee and its arguments. */
  function EvalCall(t: Table, ops: Ops, e: Expr, env: Env, w: World, fuel: nat): (r: Eval<seq<Value>>)
    requires e.Invoke?
    ensures r.Got? ==> |r.v| == |e.args| + 1
  {
    var x := EvalE(t, ops, e.callee, env, w, fuel);
    if !x.Got? then One(x) else
    var y := EvalEs(t, ops, e.args, env, x.w, fuel);
    if y.Got? then Got([x.v] + y.v, y.w) else y
  }

  lemma {:induction false} SimCall(fr: Frame, pos: int, e: Expr, env: Env, opd: seq<Value>, w: World, fuel: nat,
      end: int) returns (n: nat)
    requires e.Invoke? && fr.Ok() && EnvOk(fr.slots, env)
    requires Seg(fr.code, pos, CodeE(e.callee) + CodeEs(e.args), fr.slots)
      && end == pos + |CodeE(e.callee)| + |CodeEs(e.args)|
    ensures Pushes(fr, fr.At(pos, env, opd, w), end, env, opd, EvalCall(fr.t, fr.ops, e, env, w, fuel), fuel, n)
    decreases fuel, e, 0, 0
  {
    hide Seg, Frame.Ok, EnvOk, Pushes, CodeE, EvalE, CodeEs, EvalEs, Frame.At;
    var (c, mid) := (fr.At(pos, env, opd, w), pos + |CodeE(e.callee)|);
    SegSplit(fr.code, pos, CodeE(e.callee), CodeEs(e.args), fr.slots, mid);
    n := SimE(fr, pos, e.callee, env, opd, w, fuel, mid);
    var x := EvalE(fr.t, fr.ops, e.callee, env, w, fuel);
    if x.Got? {
      var m := SimEs(fr, mid, e.args, env, opd + [x.v], x.w, fuel, end);
      PushesBoth(fr, c, mid, end, env, opd, [x.v], x.w, EvalEs(fr.t, fr.ops, e.args, env, x.w, fuel), fuel, n, m);
      n := n + m;
    } else {
      Stopped(fr, c, mid, end, env, opd, One(x), fuel, n);
    }
  }

  lemma {:induction false} InvokeParts(t: Table, ops: Ops, e: Expr, env: Env, w: World, fuel: nat)
    requires e.Invoke?
    ensures CodeE(e) == CodeE(e.callee) + CodeEs(e.args) + [Call(|e.args|)]
    ensures var x := EvalCall(t, ops, e, env, w, fuel);
      One(EvalE(t, ops, e, env, w, fuel)) ==
        if !x.Got? then x else
        var (v, args) := (x.v[0], x.v[1..]);
        var callee := CalleeOf(t, v, |args|);
        if callee.Wrong? then Fault(x.w)
        else if callee.CallNative? then One(Yield(ops.native(callee.id, args, x.w), x.w))
        else if fuel == 0 then NoFuel
        else One(CallResult(ExecB(t, ops, callee.f.body, callee.at + 1, InitialEnv(callee.f, args), x.w, fuel - 1)))
  {
    hide ExecB, EvalEs, CodeEs;
    var x := EvalE(t, ops, e.callee, env, w, fuel);
    if x.Got? {
      var y := EvalEs(t, ops, e.args, env, x.w, fuel);
      if y.Got? {
        assert ([x.v] + y.v)[1..] == y.v;
      }
    }
  }

  lemma {:induction false} SimInvoke(fr: Frame, pos: int, e: Expr, env: Env, opd: seq<Value>, w: World, fuel: nat,
      end: int) returns (n: nat)
    requires e.Invoke? && fr.Ok() && EnvOk(fr.slots, env) && Seg(fr.code, pos, CodeE(e), fr.slots)
      && end == pos + |CodeE(e)|
    ensures Pushes(fr, fr.At(pos, env, opd, w), end, env, opd, One(EvalE(fr.t, fr.ops, e, env, w, fuel)), fuel, n)
    decreases fuel, e, 0, 1
  {
    hide Seg, Frame.Ok, EnvOk, Pushes, CodeE, EvalE, CodeEs, EvalEs, EvalCall, Frame.At, Base, Step, ExecB, CalleeOf,
      InitialEnv;
    var (c, mid) := (fr.At(pos, env, opd, w), end - 1);
    InvokeParts(fr.t, fr.ops, e, env, w, fuel);
    SegSplit(fr.code, pos, CodeE(e.callee) + CodeEs(e.args), [Call(|e.args|)], fr.slots, mid);
    SegOne(fr.code, mid, Call(|e.args|), fr.slots);
    n := SimCall(fr, pos, e, env, opd, w, fuel, mid);
    var x := EvalCall(fr.t, fr.ops, e, env, w, fuel);
    if !x.Got? {
      Stopped(fr, c, mid, end, env, opd, x, fuel, n);
    } else {
      var (v, args) := (x.v[0], x.v[1..]);
      assert x.v == [v] + args;
      var callee := CalleeOf(fr.t, v, |args|);
      if callee.Run? {
        n := SimEnter(fr, e, c, mid, env, opd, x.w, v, args, fuel, n, end);
      } else {
        RoundCallOther(fr, mid, env, opd, x.w, v, args);
        Operates(fr, c, mid, env, opd, x.v, x.w, if callee.Wrong? then None else fr.ops.native(callee.id, args, x.w),
          fuel, n, end);
        n := n + 1;
      }
    }
  }

  lemma {:induction false} SimEnter(
      fr: Frame, e: Expr, c: Config, mid: int, env: Env, opd: seq<Value>, w: World, v: Value, args: seq<Value>,
      fuel: nat, n: nat, end: int)
    returns (n': nat)
    requires fr.Ok() && Holds(fr, mid, Call(|args|)) && CalleeOf(fr.t, v, |args|).Run? && end == mid + 1
    requires Pushes(fr, c, mid, env, opd, Got([v] + args, w), fuel, n)
    ensures var Run(at, f) := CalleeOf(fr.t, v, |args|);
      Pushes(fr, c, end, env, opd,
        if fuel == 0 then NoFuel else One(CallResult(ExecB(fr.t, fr.ops, f.body, at + 1, InitialEnv(f, args), w,
        fuel - 1))), fuel, n')
    decreases fuel, e, 0, 0
  {
    hide Frame.Ok, Base, Step, ExecB, InitialEnv, Frame.At, FunAt, SlotsB, CalleeOf;
    var Run(at, f) := CalleeOf(fr.t, v, |args|);
    var d := fr.At(mid, env, opd + ([v] + args), w);
    if fuel == 0 {
      n' := n;
      AtRuns(fr, mid, env, opd + ([v] + args), w);
    } else {
      var inner := Inner(fr, mid, env, opd, v, f, at);
      InnerOk(fr, mid, env, opd, v, args);
      RoundEnter(fr, mid, env, opd, w, v, args);
      AtRuns(fr, mid, env, opd + ([v] + args), w);
      OneMore(fr, c, n, d);
      var start := inner.At(at + 1, InitialEnv(f, args), [], w);
      var k := SimBody(inner, at, f, args, w, fuel - 1);
      var o := ExecB(fr.t, fr.ops, f.body, at + 1, InitialEnv(f, args), w, fuel - 1);
      n' := n + 1 + k;
      StepsAdd(fr.code, fr.ops, c, n + 1, k);
      var r := CallResult(o);
      if r.Got? { ExitInner(fr, mid, env, opd, v, args, r.v, r.w); }
    }
  }

  lemma {:induction false} AtRuns(fr: Frame, pos: int, env: Env, opd: seq<Value>, w: World)
    ensures fr.At(pos, env, opd, w).Running?
  {
  }

  /** The body of a function runs until it returns. */
  ghost predicate Finishes(fr: Frame, c: Config, r: Eval<Value>, fuel: nat, n: nat)
  {
    match r
    case Got(v, w) => fr.Run(c, n) == fr.Exit(v, w)
    case Fault(w) => fr.Run(c, n) == Failed(w)
    case NoFuel => n >= fuel && fr.Run(c, n).Running?
  }

  lemma {:induction false} SimBody(fr: Frame, at: int, f: Fun, args: seq<Value>, w: World, fuel: nat) returns (n: nat)
    requires fr.Ok() && FunAt(fr.code, at, f) && fr.Site().callee == at && fr.slots == SlotsB(f.params, f.body)
      && |args| == |f.params|
    ensures Finishes(fr, fr.At(at + 1, InitialEnv(f, args), [], w),
      CallResult(ExecB(fr.t, fr.ops, f.body, at + 1, InitialEnv(f, args), w, fuel)), fuel, n)
    decreases fuel, f.body, 9
  {
    var env := InitialEnv(f, args);
    var (start, ret) := (fr.At(at + 1, env, [], w), at + 1 + LenB(f.body));
    InitialImage(f, args);
    ShapeOf(f);
    LocalTargets(f);
    hide CodeB, LenB, GoodB, SlotsB, TargetsB, InitialEnv, Image, FunFits, FunShape, Loaded, ExecB;
    var tail := [LoadConst(Nil), Return];
    SegSplit(fr.code, at + 1, CodeB(f.body, fr.slots, NO_TARGETS), tail, fr.slots, ret);
    assert NO_TARGETS.Shift(at + 1) == NO_TARGETS;
    n := SimB(fr, at + 1, f.body, env, w, fuel, NO_TARGETS, false, ret);
    var o := ExecB(fr.t, fr.ops, f.body, at + 1, env, w, fuel);
    hide Seg, Frame.Ok, Frame.At, Frame.Exit, EnvOk, FunAt;
    if o.Normal? {
      n := SimReturnNil(fr, start, ret, o.env, o.w, n);
    }
  }

  /** LOAD_CONST nil; RETURN */
  lemma {:induction false} SimReturnNil(fr: Frame, c: Config, pos: int, env: Env, w: World, n: nat) returns (n': nat)
    requires fr.Ok() && Seg(fr.code, pos, [LoadConst(Nil), Return], fr.slots) && fr.Run(c, n) == fr.At(pos, env, [], w)
    ensures fr.Run(c, n') == fr.Exit(Nil, w) && n' >= n
  {
    hide Frame.Ok, Image, Resolve;
    SegSplit(fr.code, pos, [LoadConst(Nil)], [Return], fr.slots, pos + 1) by {
      assert [LoadConst(Nil)] + [Return] == [LoadConst(Nil), Return];
    }
    SegOne(fr.code, pos, LoadConst(Nil), fr.slots);
    SegOne(fr.code, pos + 1, Return, fr.slots);
    ResolveFixed(fr.slots);
    RoundConst(fr, pos, env, [], w, Nil);
    OneMore(fr, c, n, fr.At(pos, env, [], w));
    assert [] + [Nil] == [Nil];
    RoundReturn(fr, pos + 1, env, w, Nil);
    OneMore(fr, c, n + 1, fr.At(pos + 1, env, [Nil], w));
    n' := n + 2;
  }

  lemma {:induction false} ResolveFixed(slots: seq<string>)
    ensures forall i: Instr {:trigger Resolve(i, slots)} :: !IsSymbolic(i) ==> Resolve(i, slots) == i
  {
  }

  lemma {:induction false} LocalTargets(f: Fun)
    requires NoDup(f.params)
    ensures forall x :: x in TargetsB(f.body) ==> x in SlotsB(f.params, f.body)
  {
    SlotNamesB(f.params, (set x | x in f.params), f.body);
  }

  // ----- Simple statements -----

  lemma {:induction false} SimSimple(fr: Frame, pos: int, m: Simple, env: Env, w: World, fuel: nat, end: int)
      returns (n: nat)
    requires fr.Ok() && EnvOk(fr.slots, env) && GoodSimple(m) && Has(fr.slots, TargetsSimple(m))
    requires Seg(fr.code, pos, CodeSimple(m, fr.slots), fr.slots) && end == pos + LenSimple(m)
    ensures Goes(fr, fr.At(pos, env, [], w), ExecSimple(fr.t, fr.ops, m, env, w, fuel), end, NO_TARGETS, fuel, n)
    decreases fuel, m, 1
  {
    if m.PrintExpr? {
      n := SimPrint(fr, pos, m, env, w, fuel, end);
    } else if Bare(m.lhs).Var? {
      n := SimAssignVar(fr, pos, m, env, w, fuel, end);
    } else {
      n := SimAssignAt(fr, pos, m, env, w, fuel, end);
    }
    hide Seg, Frame.Ok, EnvOk, Goes, ExecSimple, CodeSimple, LenSimple;
  }

  lemma {:induction false} SimPrint(fr: Frame, pos: int, m: Simple, env: Env, w: World, fuel: nat, end: int)
      returns (n: nat)
    requires m.PrintExpr? && fr.Ok() && EnvOk(fr.slots, env)
    requires Seg(fr.code, pos, CodeSimple(m, fr.slots), fr.slots) && end == pos + LenSimple(m)
    ensures Goes(fr, fr.At(pos, env, [], w), ExecSimple(fr.t, fr.ops, m, env, w, fuel), end, NO_TARGETS, fuel, n)
    decreases fuel, m, 0
  {
    hide Seg, Frame.Ok, EnvOk, CodeE, EvalE;
    var (c, mid) := (fr.At(pos, env, [], w), end - 1);
    SegSplit(fr.code, pos, CodeE(m.e), [PrintTop], fr.slots, mid);
    SegOne(fr.code, mid, PrintTop, fr.slots);
    n := SimE(fr, pos, m.e, env, [], w, fuel, mid);
    var x := EvalE(fr.t, fr.ops, m.e, env, w, fuel);
    if x.Got? {
      assert [] + [x.v] == [x.v];
      RoundPrint(fr, mid, env, x.w, x.v);
      OneMore(fr, c, n, fr.At(mid, env, [x.v], x.w));
      n := n + 1;
    }
  }

  lemma {:induction false} AssignNames(m: Simple, slots: seq<string>)
    requires m.Assign? && Bare(m.lhs).Var? && Has(slots, TargetsSimple(m))
    ensures m.kind == StoreHere ==> Bare(m.lhs).name in slots
  {
    if m.kind == StoreHere { assert Bare(m.lhs).name in TargetsSimple(m); }
  }

  lemma {:induction false} SimAssignVar(fr: Frame, pos: int, m: Simple, env: Env, w: World, fuel: nat, end: int)
      returns (n: nat)
    requires m.Assign? && Bare(m.lhs).Var? && fr.Ok() && EnvOk(fr.slots, env) && GoodSimple(m)
      && Has(fr.slots, TargetsSimple(m))
    requires Seg(fr.code, pos, CodeSimple(m, fr.slots), fr.slots) && end == pos + LenSimple(m)
    ensures Goes(fr, fr.At(pos, env, [], w), ExecSimple(fr.t, fr.ops, m, env, w, fuel), end, NO_TARGETS, fuel, n)
    decreases fuel, m, 0
  {
    hide Seg, Frame.Ok, CodeE, EvalE, EnvOk, Goes, Frame.At, Step, CodeSimple, Bare, StoreInstr, AssignVar, Resolve,
      Has, GoodSimple, TargetsSimple, LenSimple;
    var (c, mid, x, k) := (fr.At(pos, env, [], w), end - 1, Bare(m.lhs).name, m.kind);
    AssignCode(m, fr.slots);
    AssignNames(m, fr.slots);
    SegSplit(fr.code, pos, CodeE(m.rhs), [StoreInstr(LoadSymbolic(x), k, fr.slots)], fr.slots, mid);
    SegOne(fr.code, mid, StoreInstr(LoadSymbolic(x), k, fr.slots), fr.slots);
    n := SimE(fr, pos, m.rhs, env, [], w, fuel, mid);
    var v := EvalE(fr.t, fr.ops, m.rhs, env, w, fuel);
    if v.Got? {
      assert [] + [v.v] == [v.v];
      RoundAssign(fr, mid, env, v.w, k, x, v.v);
      AtRuns(fr, mid, env, [v.v], v.w);
      OneMore(fr, c, n, fr.At(mid, env, [v.v], v.w));
      EffectGoes(fr, c, n, fr.At(mid, env, [v.v], v.w), AssignVar(fr.ops, k, x, v.v, env, v.w), end, fuel);
      n := n + 1;
    } else {
      StopGoes(fr, c, mid, env, One(v), end, NO_TARGETS, fuel, n);
    }
  }

  lemma {:induction false} EffectGoes(fr: Frame, c: Config, m: nat, d: Config, o: Outcome, end: int, fuel: nat)
    requires fr.Ok() && d.Running? && fr.Run(c, m + 1) == Step(fr.code, fr.ops, d) && Effects(fr, d, o, end)
    ensures Goes(fr, c, o, end, NO_TARGETS, fuel, m + 1)
  {
    hide Step, Frame.Ok;
  }

  function StopOf(r: Eval<seq<Value>>): Outcome
    requires !r.Got?
  {
    if r.NoFuel? then OutOfFuel else Error(r.w)
  }

  lemma {:induction false} StopGoes(fr: Frame, c: Config, mid: int, env: Env, r: Eval<seq<Value>>, end: int,
      ex: Targets, fuel: nat, n: nat)
    requires Pushes(fr, c, mid, env, [], r, fuel, n) && !r.Got?
    ensures Goes(fr, c, StopOf(r), end, ex, fuel, n)
  {
  }

  lemma {:induction false} PlaceMeaning(t: Table, ops: Ops, m: Simple, env: Env, w: World, fuel: nat)
    requires m.Assign? && (Bare(m.lhs).Index? || Bare(m.lhs).Field?)
    ensures var p := EvalPlace(t, ops, Bare(m.lhs), env, w, fuel);
      && (p.Got? ==> |p.v| == 2)
      && ExecSimple(t, ops, m, env, w, fuel) ==
        if p.Fault? then Error(p.w) else if p.NoFuel? then OutOfFuel else
        var v := EvalE(t, ops, m.rhs, env, p.w, fuel);
        if v.Got? then AssignAt(ops, m.kind, p.v[0], p.v[1], v.v, env, v.w) else Stop(v)
  {
    hide AssignAt, Bare;
  }

  lemma {:induction false} SimAssignAt(fr: Frame, pos: int, m: Simple, env: Env, w: World, fuel: nat, end: int)
      returns (n: nat)
    requires m.Assign? && !Bare(m.lhs).Var? && fr.Ok() && EnvOk(fr.slots, env) && GoodSimple(m)
    requires Seg(fr.code, pos, CodeSimple(m, fr.slots), fr.slots) && end == pos + LenSimple(m)
    ensures Goes(fr, fr.At(pos, env, [], w), ExecSimple(fr.t, fr.ops, m, env, w, fuel), end, NO_TARGETS, fuel, n)
    decreases fuel, m, 0
  {
    hide Seg, Frame.Ok, CodeE, EvalE, EnvOk, Goes, Frame.At, Step, CodeSimple, Bare, AssignAt, Resolve, ExecSimple,
      CodePlace, EvalPlace, GoodSimple, LenSimple;
    var (c, place, k) := (fr.At(pos, env, [], w), Bare(m.lhs), m.kind);
    var i := if k.Modify? then ModifyAt(k.aop) else StoreAt;
    AssignCode(m, fr.slots);
    PlaceMeaning(fr.t, fr.ops, m, env, w, fuel);
    ResolveFixed(fr.slots);
    var (mid, last) := (pos + |CodePlace(place)|, end - 1);
    SegSplit(fr.code, pos, CodePlace(place) + CodeE(m.rhs), [i], fr.slots, last);
    SegSplit(fr.code, pos, CodePlace(place), CodeE(m.rhs), fr.slots, mid);
    SegOne(fr.code, last, i, fr.slots);
    n := SimPlace(fr, pos, place, env, [], w, fuel, mid);
    var p := EvalPlace(fr.t, fr.ops, place, env, w, fuel);
    if p.Got? {
      assert [] + p.v == p.v;
      var v := EvalE(fr.t, fr.ops, m.rhs, env, p.w, fuel);
      var n' := SimE(fr, mid, m.rhs, env, p.v, p.w, fuel, last);
      PushesBoth(fr, c, mid, last, env, [], p.v, p.w, One(v), fuel, n, n');
      n := n + n';
      if v.Got? {
        var vs := [p.v[0], p.v[1], v.v];
        assert p.v + [v.v] == vs;
        RoundAssignAt(fr, last, env, v.w, k, p.v[0], p.v[1], v.v);
        AtRuns(fr, last, env, vs, v.w);
        AtPushed(fr, c, last, env, p.v + [v.v], vs, v.w, fuel, n);
        OneMore(fr, c, n, fr.At(last, env, vs, v.w));
        EffectGoes(fr, c, n, fr.At(last, env, vs, v.w), AssignAt(fr.ops, k, p.v[0], p.v[1], v.v, env, v.w), end, fuel);
        n := n + 1;
      } else {
        StopGoes(fr, c, last, env, One(v), end, NO_TARGETS, fuel, n);
      }
    } else {
      StopGoes(fr, c, mid, env, p, end, NO_TARGETS, fuel, n);
    }
  }

  lemma {:induction false} AtPushed(fr: Frame, c: Config, pos: int, env: Env, vs: seq<Value>, vs': seq<Value>,
      w: World, fuel: nat, n: nat)
    requires Pushes(fr, c, pos, env, [], Got(vs, w), fuel, n) && vs == vs'
    ensures fr.Run(c, n) == fr.At(pos, env, vs', w)
  {
    assert [] + vs == vs;
  }

  lemma {:induction false} SimOpt(fr: Frame, pos: int, m: Option<Simple>, env: Env, w: World, fuel: nat, end: int)
      returns (n: nat)
    requires fr.Ok() && EnvOk(fr.slots, env) && GoodOpt(m) && Has(fr.slots, TargetsOpt(m))
    requires Seg(fr.code, pos, CodeOptSimple(m, fr.slots), fr.slots) && end == pos + LenOpt(m)
    ensures Goes(fr, fr.At(pos, env, [], w), ExecOpt(fr.t, fr.ops, m, env, w, fuel), end, NO_TARGETS, fuel, n)
    decreases fuel, m, 1
  {
    if m.None? {
      n := 0;
    } else {
      n := SimSimple(fr, pos, m.value, env, w, fuel, end);
    }
    hide Seg, Frame.Ok, ExecSimple, CodeSimple, LenSimple;
  }

  // ----- Statements -----

  /** The code from pos to end belongs to the function of the frame, and so do the addresses that break and
      continue lead to. */
  ghost predicate Place(fr: Frame, pos: int, end: int, ex: Targets, loop: bool) {
    && fr.Ok() && fr.Owns(pos) && fr.Owns(end) && pos <= end
    && (ex.brk.Some? ==> fr.Owns(ex.brk.value)) && (ex.cnt.Some? ==> fr.Owns(ex.cnt.value))
    && (loop ==> ex.brk.Some? && ex.cnt.Some?)
  }

  lemma {:induction false} SubPlace(fr: Frame, pos: int, end: int, ex: Targets, loop: bool, p: int, q: int)
    requires Place(fr, pos, end, ex, loop) && pos <= p <= q <= end
    ensures Place(fr, p, q, ex, loop)
  {
  }

  /** The distance between two addresses of a function fits a signed 32-bit displacement. */
  lemma {:induction false} Near(fr: Frame, p: int, q: int)
    requires fr.Ok() && fr.Owns(p) && fr.Owns(q)
    ensures -INT32_MAX <= q - p <= INT32_MAX
  {
  }

  lemma {:induction false} SimS(fr: Frame, pos: int, s: Stmt, env: Env, w: World, fuel: nat, ex: Targets, loop: bool,
      end: int) returns (n: nat)
    requires Place(fr, pos, end, ex, loop) && EnvOk(fr.slots, env) && GoodS(s, loop) && Has(fr.slots, TargetsS(s))
    requires Seg(fr.code, pos, CodeS(s, fr.slots, ex.Shift(pos)), fr.slots) && end == pos + LenS(s)
    ensures Goes(fr, fr.At(pos, env, [], w), ExecS(fr.t, fr.ops, s, pos, env, w, fuel), end, ex, fuel, n)
    decreases fuel, s, 1
  {
    if s.Empty? {
      n := 0;
    } else if s.Do? {
      n := SimSimple(fr, pos, s.simple, env, w, fuel, end);
      AnyTargets(fr, fr.At(pos, env, [], w), ExecSimple(fr.t, fr.ops, s.simple, env, w, fuel), end, ex, fuel, n);
    } else if s.If? {
      n := SimIf(fr, pos, s, env, w, fuel, ex, loop, end);
    } else if s.While? {
      n := SimWhile(fr, pos, s, env, w, fuel, end);
      AnyTargets(fr, fr.At(pos, env, [], w), ExecWhile(fr.t, fr.ops, s, pos, env, w, fuel), end, ex, fuel, n);
    } else if s.For? {
      n := SimForInit(fr, pos, s, env, w, fuel, end);
      AnyTargets(fr, fr.At(pos, env, [], w), ExecS(fr.t, fr.ops, s, pos, env, w, fuel), end, ex, fuel, n);
    } else if s.FunDecl? {
      n := SimFunDecl(fr, pos, s, env, w, fuel, end);
      AnyTargets(fr, fr.At(pos, env, [], w), ExecS(fr.t, fr.ops, s, pos, env, w, fuel), end, ex, fuel, n);
    } else if s.ReturnNil? || s.ReturnVal? {
      n := SimReturn(fr, pos, s, env, w, fuel, ex, end);
    } else {
      n := SimJump(fr, pos, s, env, w, fuel, ex, loop);
    }
    hide Frame.Ok, Seg, CodeS, LenS, GoodS, TargetsS, ExecSimple, ExecWhile, ExecFor, ExecArms, Has, Frame.Owns;
  }

  lemma {:induction false} AnyTargets(fr: Frame, c: Config, o: Outcome, end: int, ex: Targets, fuel: nat, n: nat)
    requires fr.Ok() && Goes(fr, c, o, end, NO_TARGETS, fuel, n)
    ensures Goes(fr, c, o, end, ex, fuel, n)
  {
    hide Frame.Ok;
  }

  lemma {:induction false} SimJump(fr: Frame, pos: int, s: Stmt, env: Env, w: World, fuel: nat, ex: Targets,
      loop: bool) returns (n: nat)
    requires (s.Break? || s.Continue?) && Place(fr, pos, pos + 1, ex, loop) && EnvOk(fr.slots, env) && loop
    requires Seg(fr.code, pos, CodeS(s, fr.slots, ex.Shift(pos)), fr.slots)
    ensures Goes(fr, fr.At(pos, env, [], w), if s.Break? then Broke(env, w) else Continued(env, w), pos + 1, ex, fuel,
      n)
  {
    hide Frame.Ok, Seg, EnvOk, Frame.Owns, Encode, Step, Place, CodeS, Frame.At;
    var to := JumpTarget(fr, pos, s, ex, loop);
    var c := fr.At(pos, env, [], w);
    JumpCode(fr, pos, s, ex, to);
    RoundJump(fr, pos, env, [], w, to - pos);
    AtRuns(fr, pos, env, [], w);
    OneMore(fr, c, 0, c);
    n := 1;
  }

  lemma {:induction false} JumpTarget(fr: Frame, pos: int, s: Stmt, ex: Targets, loop: bool) returns (to: int)
    requires (s.Break? || s.Continue?) && Place(fr, pos, pos + 1, ex, loop) && loop
    ensures ex.Get(if s.Break? then ToBreak else ToContinue) == Some(to) && -INT32_MAX <= to - pos <= INT32_MAX
  {
    to := if s.Break? then ex.brk.value else ex.cnt.value;
    Near(fr, pos, to);
  }

  lemma {:induction false} JumpCode(fr: Frame, pos: int, s: Stmt, ex: Targets, to: int)
    requires (s.Break? || s.Continue?) && Seg(fr.code, pos, CodeS(s, fr.slots, ex.Shift(pos)), fr.slots)
    requires ex.Get(if s.Break? then ToBreak else ToContinue) == Some(to)
    ensures Holds(fr, pos, Jump(Encode(to - pos)))
  {
    hide Seg, Encode;
    SegOne(fr.code, pos, Jump(Encode(to - pos)), fr.slots);
  }

  lemma {:induction false} SimReturn(fr: Frame, pos: int, s: Stmt, env: Env, w: World, fuel: nat, ex: Targets,
      end: int) returns (n: nat)
    requires (s.ReturnNil? || s.ReturnVal?) && fr.Ok() && EnvOk(fr.slots, env)
    requires Seg(fr.code, pos, CodeS(s, fr.slots, ex.Shift(pos)), fr.slots) && end == pos + LenS(s)
    ensures Goes(fr, fr.At(pos, env, [], w), ExecS(fr.t, fr.ops, s, pos, env, w, fuel), end, ex, fuel, n)
    decreases fuel, s, 0
  {
    var c := fr.At(pos, env, [], w);
    hide Frame.Ok, Seg, EnvOk, CodeE, EvalE, Step;
    if s.ReturnNil? {
      n := SimReturnNil(fr, c, pos, env, w, 0);
    } else {
      var mid := end - 1;
      SegSplit(fr.code, pos, CodeE(s.e), [Return], fr.slots, mid);
      SegOne(fr.code, mid, Return, fr.slots);
      n := SimE(fr, pos, s.e, env, [], w, fuel, mid);
      var x := EvalE(fr.t, fr.ops, s.e, env, w, fuel);
      if x.Got? {
        assert [] + [x.v] == [x.v];
        RoundReturn(fr, mid, env, x.w, x.v);
        OneMore(fr, c, n, fr.At(mid, env, [x.v], x.w));
        n := n + 1;
      } else {
        StopGoes(fr, c, mid, env, One(x), end, ex, fuel, n);
      }
    }
  }

  lemma {:induction false} FunDeclPieces(fr: Frame, pos: int, s: Stmt, mid: int)
    requires s.FunDecl? && Seg(fr.code, pos, FunCode(s.params, s.body) + [StoreSymbolic(s.name)], fr.slots)
      && mid == pos + LenB(s.body) + 3
    ensures var shape := FunShape(s.params, s.body);
      && Holds(fr, pos, Function(shape)) && shape.offset == mid - pos
      && Holds(fr, mid, Resolve(StoreSymbolic(s.name), fr.slots))
  {
    var code := FunCode(s.params, s.body);
    assert code[0] == Function(FunShape(s.params, s.body));
    hide FunCode, LenB, MaxStack, SlotsB, CodeB;
    SegSplit(fr.code, pos, code, [StoreSymbolic(s.name)], fr.slots, mid);
    SegOne(fr.code, mid, StoreSymbolic(s.name), fr.slots);
    assert fr.code[pos + 0] == Resolve(code[0], fr.slots);
  }

  lemma {:induction false} SimFunDecl(fr: Frame, pos: int, s: Stmt, env: Env, w: World, fuel: nat, end: int)
      returns (n: nat)
    requires s.FunDecl? && fr.Ok() && EnvOk(fr.slots, env)
    requires Seg(fr.code, pos, FunCode(s.params, s.body) + [StoreSymbolic(s.name)], fr.slots)
      && end == pos + LenB(s.body) + 4
    ensures Goes(fr, fr.At(pos, env, [], w), WriteVar(s.name, Closure(pos), env, w), end, NO_TARGETS, fuel, n)
  {
    hide Frame.Ok, EnvOk, FunCode, FunShape, LenB, Step, Goes, WriteVar, Frame.At, Seg, Resolve;
    var (c, mid, shape) := (fr.At(pos, env, [], w), end - 1, FunShape(s.params, s.body));
    FunDeclPieces(fr, pos, s, mid);
    RoundFunction(fr, pos, env, w, shape);
    AtRuns(fr, pos, env, [], w);
    OneMore(fr, c, 0, c);
    RoundAssign(fr, mid, env, w, Store, s.name, Closure(pos));
    AtRuns(fr, mid, env, [Closure(pos)], w);
    OneMore(fr, c, 1, fr.At(mid, env, [Closure(pos)], w));
    EffectGoes(fr, c, 1, fr.At(mid, env, [Closure(pos)], w), WriteVar(s.name, Closure(pos), env, w), end, fuel);
    n := 2;
  }

  lemma {:induction false} SimB(fr: Frame, pos: int, b: seq<Stmt>, env: Env, w: World, fuel: nat, ex: Targets,
      loop: bool, end: int) returns (n: nat)
    requires Place(fr, pos, end, ex, loop) && EnvOk(fr.slots, env) && GoodB(b, loop) && Has(fr.slots, TargetsB(b))
    requires Seg(fr.code, pos, CodeB(b, fr.slots, ex.Shift(pos)), fr.slots) && end == pos + LenB(b)
    ensures Goes(fr, fr.At(pos, env, [], w), ExecB(fr.t, fr.ops, b, pos, env, w, fuel), end, ex, fuel, n)
    decreases fuel, b, 0
  {
    hide Frame.Ok, Seg, CodeS, LenS, GoodS, TargetsS, ExecS, Frame.Owns;
    var c := fr.At(pos, env, [], w);
    if b == [] {
      n := 0;
    } else {
      var (init, s) := (b[..|b| - 1], b[|b| - 1]);
      var mid := pos + LenB(init);
      SubPlace(fr, pos, end, ex, loop, pos, mid);
      SubPlace(fr, pos, end, ex, loop, mid, end);
      SegSplit(fr.code, pos, CodeB(init, fr.slots, ex.Shift(pos)),
        CodeS(s, fr.slots, ex.Shift(pos).Shift(LenB(init))), fr.slots, mid);
      assert ex.Shift(pos).Shift(LenB(init)) == ex.Shift(mid);
      n := SimB(fr, pos, init, env, w, fuel, ex, loop, mid);
      var o := ExecB(fr.t, fr.ops, init, pos, env, w, fuel);
      if o.Normal? {
        var d := fr.At(mid, o.env, [], o.w);
        var m := SimS(fr, mid, s, o.env, o.w, fuel, ex, loop, end);
        GoesAfter(fr, c, n, d, ExecS(fr.t, fr.ops, s, mid, o.env, o.w, fuel), end, ex, fuel, fuel, m);
        n := n + m;
      }
    }
  }

  // ----- if -----

  /** After some arms of an `if`: the machine is at `next` if none was taken; the outcome of a taken one leads to
      `done`. */
  ghost predicate Picks(fr: Frame, c: Config, a: Arms, next: int, done: int, env: Env, ex: Targets, fuel: nat, n: nat)
  {
    match a
    case Untaken(w) => fr.Run(c, n) == fr.At(next, env, [], w)
    case Taken(o) => Goes(fr, c, o, done, ex, fuel, n)
  }

  /** One arm; its body ends at `done`, and its conditional jump leads to `next`. */
  lemma {:induction false} SimClause(
      fr: Frame, pos: int, cl: Clause, env: Env, w: World, fuel: nat, ex: Targets, loop: bool, skip: int, next: int,
      done: int) returns (n: nat)
    requires Place(fr, pos, done, ex, loop) && fr.Owns(next) && EnvOk(fr.slots, env) && GoodClause(cl, loop)
      && Has(fr.slots, TargetsClause(cl))
    requires Seg(fr.code, pos, CodeClause(cl, fr.slots, ex.Shift(pos), skip), fr.slots)
    requires done == pos + LenClause(cl) && next == pos + |CodeE(cl.cond)| + skip && next >= pos
    ensures Picks(fr, fr.At(pos, env, [], w), ExecClause(fr.t, fr.ops, cl, pos, env, w, fuel), next, done, env, ex,
      fuel, n)
    decreases fuel, cl, 1
  {
    hide Frame.Ok, Seg, CodeE, CodeB, LenB, GoodB, TargetsB, EvalE, ExecB, Encode, Step, Has, EnvOk;
    var (c, e, at) := (fr.At(pos, env, [], w), cl.cond, pos + |CodeE(cl.cond)|);
    var body := CodeB(cl.blk, fr.slots, ex.Shift(pos).Shift(|CodeE(e)| + 1));
    assert ex.Shift(pos).Shift(|CodeE(e)| + 1) == ex.Shift(at + 1);
    SegSplit(fr.code, pos, CodeE(e) + [JumpUnless(Encode(skip))], body, fr.slots, at + 1);
    SegSplit(fr.code, pos, CodeE(e), [JumpUnless(Encode(skip))], fr.slots, at);
    SegOne(fr.code, at, JumpUnless(Encode(skip)), fr.slots);
    n := SimE(fr, pos, e, env, [], w, fuel, at);
    var x := EvalE(fr.t, fr.ops, e, env, w, fuel);
    if x.Got? {
      SubPlace(fr, pos, done, ex, loop, at, done);
      Near(fr, at, next);
      assert [] + [x.v] == [x.v];
      RoundJumpUnless(fr, at, env, x.w, skip, x.v);
      OneMore(fr, c, n, fr.At(at, env, [x.v], x.w));
      n := n + 1;
      if IsTruthy(x.v) {
        SubPlace(fr, pos, done, ex, loop, at + 1, done);
        var m := SimB(fr, at + 1, cl.blk, env, x.w, fuel, ex, loop, done);
        GoesAfter(fr, c, n, fr.At(at + 1, env, [], x.w), ExecB(fr.t, fr.ops, cl.blk, at + 1, env, x.w, fuel), done,
          ex, fuel, fuel, m);
        n := n + m;
      }
    } else {
      StopGoes(fr, c, at, env, One(x), done, ex, fuel, n);
    }
  }

  /** The arms up to `next`, each with a jump to `done` after it. */
  lemma {:induction false} SimArms(
      fr: Frame, pos: int, cs: seq<Clause>, env: Env, w: World, fuel: nat, ex: Targets, loop: bool, next: int,
      done: int) returns (n: nat)
    requires Place(fr, pos, next, ex, loop) && fr.Owns(done) && EnvOk(fr.slots, env)
    requires GoodClauses(cs, loop) && Has(fr.slots, TargetsClauses(cs))
    requires Seg(fr.code, pos, CodeArms(cs, fr.slots, ex.Shift(pos), Some(done - pos)), fr.slots)
      && next == pos + LenArms(cs)
    ensures Picks(fr, fr.At(pos, env, [], w), ExecArms(fr.t, fr.ops, cs, pos, env, w, fuel), next, done, env, ex,
      fuel, n)
    decreases fuel, cs, 0
  {
    hide Frame.Ok, Seg, CodeE, CodeClause, LenClause, GoodClause, TargetsClause, ExecClause, Encode, Step, EnvOk,
      Frame.Owns;
    if cs == [] {
      n := 0;
    } else {
      var (init, cl) := (cs[..|cs| - 1], cs[|cs| - 1]);
      var (from, at) := (LenArms(init), next - 1);
      var jump := [JumpTo(Shifted(Some(done - pos), from + LenClause(cl)))];
      SegSplit(fr.code, pos, CodeInit(cs, fr.slots, ex.Shift(pos), Some(done - pos), LenB(cl.blk) + 2), jump,
        fr.slots, at);
      assert jump == [Jump(Encode(done - at))];
      SegOne(fr.code, at, Jump(Encode(done - at)), fr.slots);
      SubPlace(fr, pos, next, ex, loop, pos, at);
      n := SimLast(fr, pos, cs, env, w, fuel, ex, loop, LenB(cl.blk) + 2, next, done, at);
      if !ExecArms(fr.t, fr.ops, init, pos, env, w, fuel).Taken? {
        n := SimSkip(fr, fr.At(pos, env, [], w), ExecArms(fr.t, fr.ops, cs, pos, env, w, fuel), next, at, done, env,
          ex, fuel, n);
      }
    }
  }

  /** The jump after a taken arm. */
  lemma {:induction false} SimSkip(
      fr: Frame, c: Config, a: Arms, next: int, at: int, done: int, env: Env, ex: Targets, fuel: nat, n: nat)
      returns (n': nat)
    requires fr.Ok() && fr.Owns(at) && fr.Owns(done) && Holds(fr, at, Jump(Encode(done - at)))
    requires Picks(fr, c, a, next, at, env, ex, fuel, n)
    ensures Picks(fr, c, a, next, done, env, ex, fuel, n')
  {
    n' := n;
    if a.Taken? && a.o.Normal? {
      Near(fr, at, done);
      hide Frame.Ok, Frame.Owns, Encode, Step, EnvOk;
      RoundJump(fr, at, a.o.env, [], a.o.w, done - at);
      OneMore(fr, c, n, fr.At(at, a.o.env, [], a.o.w));
      n' := n + 1;
    }
  }

  /** All arms, the last one without a jump after it: its body ends at `last`. */
  lemma {:induction false} SimLast(
      fr: Frame, pos: int, cs: seq<Clause>, env: Env, w: World, fuel: nat, ex: Targets, loop: bool, skip: int,
      next: int, done: int, last: int)
    returns (n: nat)
    requires cs != [] && Place(fr, pos, last, ex, loop) && fr.Owns(done) && fr.Owns(next) && EnvOk(fr.slots, env)
    requires GoodClauses(cs, loop) && Has(fr.slots, TargetsClauses(cs))
    requires Seg(fr.code, pos, CodeInit(cs, fr.slots, ex.Shift(pos), Some(done - pos), skip), fr.slots)
      && last == pos + LenClauses(cs)
    requires next == last + skip - LenB(cs[|cs| - 1].blk) - 1 && next >= last
    ensures Picks(fr, fr.At(pos, env, [], w), ExecArms(fr.t, fr.ops, cs, pos, env, w, fuel), next,
      if ExecArms(fr.t, fr.ops, cs[..|cs| - 1], pos, env, w, fuel).Taken? then done else last, env, ex, fuel, n)
    decreases fuel, cs, 0, 0
  {
    hide Frame.Ok, Seg, CodeE, CodeClause, GoodClause, TargetsClause, ExecClause, Encode, Step, EnvOk, CodeArms;
    var (init, cl) := (cs[..|cs| - 1], cs[|cs| - 1]);
    var (c, mid) := (fr.At(pos, env, [], w), pos + LenArms(init));
    SegSplit(fr.code, pos, CodeArms(init, fr.slots, ex.Shift(pos), Some(done - pos)),
      CodeClause(cl, fr.slots, ex.Shift(pos).Shift(LenArms(init)), skip), fr.slots, mid);
    assert ex.Shift(pos).Shift(LenArms(init)) == ex.Shift(mid);
    SubPlace(fr, pos, last, ex, loop, pos, mid);
    SubPlace(fr, pos, last, ex, loop, mid, last);
    n := SimArms(fr, pos, init, env, w, fuel, ex, loop, mid, done);
    var a := ExecArms(fr.t, fr.ops, init, pos, env, w, fuel);
    if a.Untaken? {
      var m := SimClause(fr, mid, cl, env, a.w, fuel, ex, loop, skip, next, last);
      PicksAfter(fr, c, n, fr.At(mid, env, [], a.w), ExecClause(fr.t, fr.ops, cl, mid, env, a.w, fuel), next, last,
        env, ex, fuel, m);
      n := n + m;
    }
  }

  lemma {:induction false} PicksAfter(
      fr: Frame, c: Config, m: nat, d: Config, a: Arms, next: int, done: int, env: Env, ex: Targets, fuel: nat, n: nat)
    requires fr.Run(c, m) == d && Picks(fr, d, a, next, done, env, ex, fuel, n)
    ensures Picks(fr, c, a, next, done, env, ex, fuel, m + n)
  {
    StepsAdd(fr.code, fr.ops, c, m, n);
  }

  lemma {:induction false} IfLength(s: Stmt)
    requires s.If?
    ensures LenS(s) == if s.els.Else? then LenArms(s.clauses) + LenB(s.els.blk) else LenClauses(s.clauses)
  {
    hide LenB, LenArms, LenClauses;
  }

  lemma {:induction false} SimIf(fr: Frame, pos: int, s: Stmt, env: Env, w: World, fuel: nat, ex: Targets, loop: bool,
      end: int) returns (n: nat)
    requires s.If? && Place(fr, pos, end, ex, loop) && EnvOk(fr.slots, env) && GoodS(s, loop)
      && Has(fr.slots, TargetsS(s))
    requires Seg(fr.code, pos, CodeS(s, fr.slots, ex.Shift(pos)), fr.slots) && end == pos + LenS(s)
    ensures Goes(fr, fr.At(pos, env, [], w), ExecS(fr.t, fr.ops, s, pos, env, w, fuel), end, ex, fuel, n)
    decreases fuel, s, 0
  {
    hide Frame.Ok, Seg, CodeE, CodeB, LenB, GoodB, TargetsB, ExecB, CodeArms, Encode, Step, EnvOk, GoodClauses,
      TargetsClauses, ExecArms;
    hide CodeS, LenArms, LenClauses, Frame.At, LenS, Place;
    var (cs, els) := (s.clauses, s.els);
    var (c, tg) := (fr.At(pos, env, [], w), ex.Shift(pos));
    var a := ExecArms(fr.t, fr.ops, cs, pos, env, w, fuel);
    IfCode(s, fr.slots, tg);
    IfLength(s);
    assert LenS(s) == end - pos;
    if els.Else? {
      var mid := pos + LenArms(cs);
      SegSplit(fr.code, pos, CodeArms(cs, fr.slots, tg, Some(end - pos)),
        CodeB(els.blk, fr.slots, tg.Shift(LenArms(cs))), fr.slots, mid);
      assert tg.Shift(LenArms(cs)) == ex.Shift(mid);
      SubPlace(fr, pos, end, ex, loop, pos, mid);
      SubPlace(fr, pos, end, ex, loop, mid, end);
      n := SimArms(fr, pos, cs, env, w, fuel, ex, loop, mid, end);
      if a.Untaken? {
        var m := SimB(fr, mid, els.blk, env, a.w, fuel, ex, loop, end);
        GoesAfter(fr, c, n, fr.At(mid, env, [], a.w), ExecB(fr.t, fr.ops, els.blk, mid, env, a.w, fuel), end, ex,
          fuel, fuel, m);
        n := n + m;
      }
    } else {
      var code := CodeClauses(cs, fr.slots, tg, Some(end - pos), false);
      assert code + [] == code;
      n := SimNoElse(fr, pos, cs, env, w, fuel, ex, loop, end);
    }
  }

  /** The arms of an `if` without an `else`. */
  lemma {:induction false} SimNoElse(fr: Frame, pos: int, cs: seq<Clause>, env: Env, w: World, fuel: nat, ex: Targets,
      loop: bool, end: int)
    returns (n: nat)
    requires Place(fr, pos, end, ex, loop) && EnvOk(fr.slots, env) && GoodClauses(cs, loop)
      && Has(fr.slots, TargetsClauses(cs))
    requires Seg(fr.code, pos, CodeClauses(cs, fr.slots, ex.Shift(pos), Some(end - pos), false), fr.slots)
      && end == pos + LenClauses(cs)
    ensures Picks(fr, fr.At(pos, env, [], w), ExecArms(fr.t, fr.ops, cs, pos, env, w, fuel), end, end, env, ex, fuel, n)
    decreases fuel, cs, 1
  {
    hide Frame.Ok, Seg, CodeE, LenB, EnvOk, GoodClauses, TargetsClauses, LenClauses;
    if cs == [] {
      n := 0;
      assert LenClauses(cs) == 0 by { NoClauses(); }
    } else {
      n := SimLast(fr, pos, cs, env, w, fuel, ex, loop, LenB(cs[|cs| - 1].blk) + 1, end, end, end);
    }
  }

  lemma {:induction false} NoClauses()
    ensures LenClauses([]) == 0
  {
  }

  // ----- Loops -----

  /** The addresses that break and continue in the body of a loop lead to. */
  function LoopExits(brk: int, cnt: int): Targets { Targets(Some(brk), Some(cnt)) }

  lemma {:induction false} LoopPlace(fr: Frame, pos: int, end: int)
    requires fr.Ok() && fr.Owns(pos) && fr.Owns(end) && pos <= end
    ensures Place(fr, pos, end, LoopExits(end, pos), true)
  {
  }

  /** The pieces of a `while`: its two jumps are at `at` and `back`, its body at `from`. */
  lemma {:induction false} WhileParts(fr: Frame, pos: int, e: Expr, b: seq<Stmt>, at: int, from: int, back: int,
      end: int)
    requires Seg(fr.code, pos, CodeWhile(e, b, fr.slots), fr.slots)
    requires at == pos + |CodeE(e)| && from == at + 1 && back == from + LenB(b) && end == back + 1
    ensures Seg(fr.code, pos, CodeE(e), fr.slots)
      && Seg(fr.code, from, CodeB(b, fr.slots, LoopExits(end, pos).Shift(from)), fr.slots)
    ensures Holds(fr, at, JumpUnless(Encode(end - at))) && Holds(fr, back, Jump(Encode(pos - back)))
  {
    hide Seg, CodeE, CodeB, LenB, Encode;
    var tg := Targets(Some(LenB(b) + 1), Some(-(|CodeE(e)| + 1)));
    assert tg == LoopExits(end, pos).Shift(from);
    var (d, d', body) := (LenB(b) + 2, -(|CodeE(e)| + 1 + LenB(b)), CodeB(b, fr.slots, tg));
    assert d == end - at && d' == pos - back;
    SegSplit(fr.code, pos, CodeE(e) + [JumpUnless(Encode(d))] + body, [Jump(Encode(d'))], fr.slots, back);
    SegSplit(fr.code, pos, CodeE(e) + [JumpUnless(Encode(d))], body, fr.slots, from);
    SegSplit(fr.code, pos, CodeE(e), [JumpUnless(Encode(d))], fr.slots, at);
    SegOne(fr.code, at, JumpUnless(Encode(d)), fr.slots);
    SegOne(fr.code, back, Jump(Encode(d')), fr.slots);
  }

  lemma {:induction false} SimWhile(fr: Frame, pos: int, s: Stmt, env: Env, w: World, fuel: nat, end: int)
      returns (n: nat)
    requires s.While? && fr.Ok() && fr.Owns(pos) && fr.Owns(end) && EnvOk(fr.slots, env) && GoodB(s.body, true)
      && Has(fr.slots, TargetsB(s.body))
    requires Seg(fr.code, pos, CodeWhile(s.cond, s.body, fr.slots), fr.slots)
      && end == pos + |CodeE(s.cond)| + LenB(s.body) + 2
    ensures Goes(fr, fr.At(pos, env, [], w), ExecWhile(fr.t, fr.ops, s, pos, env, w, fuel), end, NO_TARGETS, fuel, n)
    decreases fuel, s, 0
  {
    hide Frame.Ok, Frame.Owns, Place, Seg, CodeE, CodeB, CodeWhile, LenB, GoodB, TargetsB, EvalE, ExecB, Encode, Step,
      Has, EnvOk, Goes, Frame.At;
    var (c, e, b) := (fr.At(pos, env, [], w), s.cond, s.body);
    var (at, from, back) := (pos + |CodeE(e)|, pos + |CodeE(e)| + 1, end - 1);
    var inner := LoopExits(end, pos);
    LoopPlace(fr, pos, end);
    WhileParts(fr, pos, e, b, at, from, back, end);
    if fuel == 0 {
      n := 0;
      AtRuns(fr, pos, env, [], w);
      NoRounds(fr, c, end);
    } else {
      n := SimE(fr, pos, e, env, [], w, fuel, at);
      var x := EvalE(fr.t, fr.ops, e, env, w, fuel);
      if !x.Got? {
        StopGoes(fr, c, at, env, One(x), end, NO_TARGETS, fuel, n);
      } else {
        n := SimTest(fr, c, at, env, x.v, x.w, pos, end, inner, fuel, n);
        if !IsTruthy(x.v) {
          Arrives(fr, c, end, env, x.w, end, fuel, n);
        } else {
          SubPlace(fr, pos, end, inner, true, from, back);
          var m := SimB(fr, from, b, env, x.w, fuel, inner, true, back);
          var o := ExecB(fr.t, fr.ops, b, from, env, x.w, fuel);
          GoesAfter(fr, c, n, fr.At(from, env, [], x.w), o, back, inner, fuel, fuel, m);
          n := n + m;
          if o.Normal? || o.Continued? {
            n := SimBack(fr, c, o, pos, back, end, inner, fuel, n);
            var k := SimWhile(fr, pos, s, o.env, o.w, fuel - 1, end);
            GoesAfter(fr, c, n, fr.At(pos, o.env, [], o.w), ExecWhile(fr.t, fr.ops, s, pos, o.env, o.w, fuel - 1),
              end, NO_TARGETS, fuel, fuel - 1, k);
            n := n + k;
          } else {
            LeavesLoop(fr, c, o, back, end, inner, fuel, n);
          }
        }
      }
    }
  }

  lemma {:induction false} NoRounds(fr: Frame, c: Config, end: int)
    requires fr.Ok() && c.Running?
    ensures Goes(fr, c, OutOfFuel, end, NO_TARGETS, 0, 0)
  {
    hide Frame.Ok;
  }

  lemma {:induction false} Arrives(fr: Frame, c: Config, pos: int, env: Env, w: World, end: int, fuel: nat, n: nat)
    requires fr.Ok() && EnvOk(fr.slots, env) && fr.Run(c, n) == fr.At(pos, env, [], w) && pos == end
    ensures Goes(fr, c, Normal(env, w), end, NO_TARGETS, fuel, n)
  {
    hide Frame.Ok, EnvOk;
  }

  lemma {:induction false} NearEnd(fr: Frame, pos: int, at: int, end: int, inner: Targets)
    requires Place(fr, pos, end, inner, true) && pos <= at <= end
    ensures -INT32_MAX <= end - at <= INT32_MAX
  {
    Near(fr, at, end);
  }

  /** The conditional jump of a loop. */
  lemma {:induction false} SimTest(
      fr: Frame, c: Config, at: int, env: Env, v: Value, w: World, pos: int, end: int, inner: Targets, fuel: nat,
      n: nat) returns (n': nat)
    requires Place(fr, pos, end, inner, true) && pos <= at <= end && Holds(fr, at, JumpUnless(Encode(end - at)))
    requires Pushes(fr, c, at, env, [], Got([v], w), fuel, n)
    ensures n' == n + 1 && fr.Run(c, n') == fr.At(if IsTruthy(v) then at + 1 else end, env, [], w)
  {
    hide Frame.Ok, Frame.Owns, Place, Encode, Step, Frame.At;
    NearEnd(fr, pos, at, end, inner);
    AtPushed(fr, c, at, env, [v], [v], w, fuel, n);
    RoundJumpUnless(fr, at, env, w, end - at, v);
    AtRuns(fr, at, env, [v], w);
    OneMore(fr, c, n, fr.At(at, env, [v], w));
    n' := n + 1;
  }

  /** From the end of the body back to the condition, which `continue` reaches directly. */
  lemma {:induction false} SimBack(
      fr: Frame, c: Config, o: Outcome, pos: int, back: int, end: int, inner: Targets, fuel: nat, n: nat)
      returns (n': nat)
    requires Place(fr, pos, end, inner, true) && pos <= back <= end && inner.cnt == Some(pos) && n > 0
    requires Holds(fr, back, Jump(Encode(pos - back)))
    requires (o.Normal? || o.Continued?) && fr.Ok() && Goes(fr, c, o, back, inner, fuel, n)
    ensures n' > 0 && EnvOk(fr.slots, o.env) && fr.Run(c, n') == fr.At(pos, o.env, [], o.w)
  {
    n' := n;
    if o.Normal? {
      Near(fr, back, pos);
      hide Frame.Ok, Frame.Owns, Place, Encode, Step, EnvOk;
      RoundJump(fr, back, o.env, [], o.w, pos - back);
      OneMore(fr, c, n, fr.At(back, o.env, [], o.w));
      n' := n + 1;
    }
  }

  /** A body that ends neither normally nor with `continue` ends the loop. */
  lemma {:induction false} LeavesLoop(fr: Frame, c: Config, o: Outcome, back: int, end: int, inner: Targets,
      fuel: nat, n: nat)
    requires fr.Ok() && inner.brk == Some(end) && !o.Normal? && !o.Continued? && Goes(fr, c, o, back, inner, fuel, n)
    ensures Goes(fr, c, if o.Broke? then Normal(o.env, o.w) else o, end, NO_TARGETS, fuel, n)
  {
    hide Frame.Ok, EnvOk;
  }

  lemma {:induction false} Between(fr: Frame, p: int, q: int, r: int)
    requires fr.Ok() && fr.Owns(p) && fr.Owns(r) && p <= q <= r
    ensures fr.Owns(q)
  {
  }

  lemma {:induction false} ForLength(s: Stmt)
    requires s.For?
    ensures LenS(s) == LenOpt(s.init) + LenTest(s.test) + LenB(s.body) + LenOpt(s.post) + 1
  {
    hide LenB, LenOpt, LenTest;
  }

  lemma {:induction false} SimForInit(fr: Frame, pos: int, s: Stmt, env: Env, w: World, fuel: nat, end: int)
      returns (n: nat)
    requires s.For? && fr.Ok() && fr.Owns(pos) && fr.Owns(end) && EnvOk(fr.slots, env) && GoodS(s, false)
      && Has(fr.slots, TargetsS(s))
    requires Seg(fr.code, pos, CodeOptSimple(s.init, fr.slots) + CodeFor(s.test, s.post, s.body, fr.slots), fr.slots)
      && end == pos + LenS(s)
    ensures Goes(fr, fr.At(pos, env, [], w), ExecS(fr.t, fr.ops, s, pos, env, w, fuel), end, NO_TARGETS, fuel, n)
    decreases fuel, s, 0, 2
  {
    hide Frame.Ok, Frame.Owns, Seg, CodeFor, CodeOptSimple, EnvOk, LenB, GoodB, TargetsB, ExecFor, ExecOpt, Goes,
      Frame.At, CodeE, LenOpt, LenTest, LenS;
    var (c, mid) := (fr.At(pos, env, [], w), pos + LenOpt(s.init));
    PlainOpt(s.init, fr.slots);
    ForLength(s);
    Between(fr, pos, mid, end);
    SegSplit(fr.code, pos, CodeOptSimple(s.init, fr.slots), CodeFor(s.test, s.post, s.body, fr.slots), fr.slots, mid);
    n := SimOpt(fr, pos, s.init, env, w, fuel, mid);
    var o := ExecOpt(fr.t, fr.ops, s.init, env, w, fuel);
    if o.Normal? {
      NormalAt(fr, c, o, mid, fuel, n);
      var m := SimFor(fr, mid, s, o.env, o.w, fuel, end);
      GoesAfter(fr, c, n, fr.At(mid, o.env, [], o.w), ExecFor(fr.t, fr.ops, s, mid, o.env, o.w, fuel), end,
        NO_TARGETS, fuel, fuel, m);
      n := n + m;
    } else {
      NotNormal(fr, c, o, mid, end, fuel, n);
    }
  }

  lemma {:induction false} NormalAt(fr: Frame, c: Config, o: Outcome, mid: int, fuel: nat, n: nat)
    requires fr.Ok() && o.Normal? && Goes(fr, c, o, mid, NO_TARGETS, fuel, n)
    ensures EnvOk(fr.slots, o.env) && fr.Run(c, n) == fr.At(mid, o.env, [], o.w)
  {
    hide Frame.Ok, EnvOk;
  }

  lemma {:induction false} NotNormal(fr: Frame, c: Config, o: Outcome, mid: int, end: int, fuel: nat, n: nat)
    requires fr.Ok() && !o.Normal? && Goes(fr, c, o, mid, NO_TARGETS, fuel, n)
    ensures Goes(fr, c, o, end, NO_TARGETS, fuel, n)
  {
    hide Frame.Ok, EnvOk;
  }

  /** The pieces of a `for` after the rotation: its body is at `from`, its post clause at `post`, its jumps at `at`
      and `back`. */
  lemma {:induction false} ForPieces(
      fr: Frame, pos: int, s: Stmt, at: int, from: int, post: int, back: int, end: int)
    requires s.For? && Seg(fr.code, pos, CodeFor(s.test, s.post, s.body, fr.slots), fr.slots)
    requires at == from - 1 && from == pos + LenTest(s.test) && post == from + LenB(s.body)
      && back == post + LenOpt(s.post) && end == back + 1
    ensures Seg(fr.code, from, CodeB(s.body, fr.slots, LoopExits(end, post).Shift(from)), fr.slots)
    ensures Seg(fr.code, post, CodeOptSimple(s.post, fr.slots), fr.slots)
    ensures s.test.Some? ==>
      Seg(fr.code, pos, CodeE(s.test.value), fr.slots) && Holds(fr, at, JumpUnless(Encode(end - at)))
    ensures Holds(fr, back, Jump(Encode(pos - back)))
    ensures pos <= from <= post <= back
  {
    hide Seg, CodeE, CodeB, LenB, Encode, CodeOptSimple, LenOpt, CodeTest, LenTest, Plain, CodeFor;
    PlainOpt(s.post, fr.slots);
    var d := end - at;
    PlainTest(s.test, d);
    ForCode(s, fr.slots, pos, from, post, back, end);
    var tg := LoopExits(end, post).Shift(from);
    var (test, body, x) := (CodeTest(s.test, d), CodeB(s.body, fr.slots, tg), CodeOptSimple(s.post, fr.slots));
    SegSplit(fr.code, pos, test + body + x, [Jump(Encode(pos - back))], fr.slots, back);
    SegSplit(fr.code, pos, test + body, x, fr.slots, post);
    SegSplit(fr.code, pos, test, body, fr.slots, from);
    SegOne(fr.code, back, Jump(Encode(pos - back)), fr.slots);
    TestPieces(fr, pos, s.test, d, at);
  }

  lemma {:induction false} TestPieces(fr: Frame, pos: int, c: Option<Expr>, d: int, at: int)
    requires Seg(fr.code, pos, CodeTest(c, d), fr.slots) && at == pos + LenTest(c) - 1
    ensures c.Some? ==> Seg(fr.code, pos, CodeE(c.value), fr.slots) && Holds(fr, at, JumpUnless(Encode(d)))
  {
    hide Seg, CodeE, Encode;
    if c.Some? {
      SegSplit(fr.code, pos, CodeE(c.value), [JumpUnless(Encode(d))], fr.slots, at);
      SegOne(fr.code, at, JumpUnless(Encode(d)), fr.slots);
    }
  }

  /** The condition of a `for`, if there is one. */
  lemma {:induction false} SimForTest(fr: Frame, pos: int, s: Stmt, env: Env, w: World, fuel: nat, inner: Targets,
      at: int, end: int)
    returns (n: nat)
    requires s.For? && Place(fr, pos, end, inner, true) && EnvOk(fr.slots, env) && at == pos + LenTest(s.test) - 1
      && at < end
    requires s.test.Some? ==>
      Seg(fr.code, pos, CodeE(s.test.value), fr.slots) && Holds(fr, at, JumpUnless(Encode(end - at)))
    ensures var (c, x) := (fr.At(pos, env, [], w), EvalTest(fr.t, fr.ops, s.test, env, w, fuel));
      && (!x.Got? ==> Goes(fr, c, Stop(x), end, NO_TARGETS, fuel, n))
      && (x.Got? ==> fr.Run(c, n) == fr.At(if IsTruthy(x.v) then at + 1 else end, env, [], x.w))
    decreases fuel, s, 0, 0
  {
    hide Frame.Owns, Seg, CodeE, EvalE, Encode, Step, EnvOk, Goes, Frame.At;
    var c := fr.At(pos, env, [], w);
    if s.test.None? {
      n := 0;
    } else {
      var x := EvalE(fr.t, fr.ops, s.test.value, env, w, fuel);
      assert fr.Ok();
      hide Frame.Ok, Place;
      n := SimE(fr, pos, s.test.value, env, [], w, fuel, at);
      if x.Got? {
        n := SimTest(fr, c, at, env, x.v, x.w, pos, end, inner, fuel, n);
      } else {
        StopGoes(fr, c, at, env, One(x), end, NO_TARGETS, fuel, n);
      }
    }
  }

  lemma {:induction false} SimFor(fr: Frame, pos: int, s: Stmt, env: Env, w: World, fuel: nat, end: int)
      returns (n: nat)
    requires s.For? && fr.Ok() && fr.Owns(pos) && fr.Owns(end) && EnvOk(fr.slots, env)
    requires GoodOpt(s.post) && GoodB(s.body, true) && Has(fr.slots, TargetsOpt(s.post))
      && Has(fr.slots, TargetsB(s.body))
    requires Seg(fr.code, pos, CodeFor(s.test, s.post, s.body, fr.slots), fr.slots)
    requires end == pos + LenTest(s.test) + LenB(s.body) + LenOpt(s.post) + 1
    ensures Goes(fr, fr.At(pos, env, [], w), ExecFor(fr.t, fr.ops, s, pos, env, w, fuel), end, NO_TARGETS, fuel, n)
    decreases fuel, s, 0, 1
  {
    hide Frame.Ok, Frame.Owns, Place, Seg, CodeE, CodeB, CodeFor, CodeOptSimple, LenB, LenOpt, LenTest, GoodB,
      GoodOpt, TargetsB, TargetsOpt;
    hide EvalTest, ExecB, ExecOpt, Encode, Step, Has, EnvOk, Goes, Frame.At;
    var (c, b) := (fr.At(pos, env, [], w), s.body);
    var (from, back) := (pos + LenTest(s.test), end - 1);
    var (at, post) := (from - 1, from + LenB(b));
    ForPieces(fr, pos, s, at, from, post, back, end);
    Between(fr, pos, post, end);
    ForPlace(fr, pos, end, post);
    var inner := LoopExits(end, post);
    if fuel == 0 {
      n := 0;
      AtRuns(fr, pos, env, [], w);
      NoRounds(fr, c, end);
    } else {
      n := SimForTest(fr, pos, s, env, w, fuel, inner, at, end);
      var x := EvalTest(fr.t, fr.ops, s.test, env, w, fuel);
      if x.Got? {
        if !IsTruthy(x.v) {
          Arrives(fr, c, end, env, x.w, end, fuel, n);
        } else {
          SubPlace(fr, pos, end, inner, true, from, post);
          var m := SimB(fr, from, b, env, x.w, fuel, inner, true, post);
          var o := ExecB(fr.t, fr.ops, b, from, env, x.w, fuel);
          GoesAfter(fr, c, n, fr.At(from, env, [], x.w), o, post, inner, fuel, fuel, m);
          n := n + m;
          if o.Normal? || o.Continued? {
            AtPost(fr, c, o, post, inner, fuel, n);
            n := SimRest(fr, c, s, o.env, o.w, fuel, pos, post, back, end, n);
          } else {
            LeavesLoop(fr, c, o, post, end, inner, fuel, n);
          }
        }
      }
    }
  }

  lemma {:induction false} ForPlace(fr: Frame, pos: int, end: int, post: int)
    requires fr.Ok() && fr.Owns(pos) && fr.Owns(end) && fr.Owns(post) && pos <= end
    ensures Place(fr, pos, end, LoopExits(end, post), true)
  {
  }

  /** Both the end of the body and `continue` lead to the post clause. */
  lemma {:induction false} AtPost(fr: Frame, c: Config, o: Outcome, post: int, inner: Targets, fuel: nat, n: nat)
    requires (o.Normal? || o.Continued?) && inner.cnt == Some(post) && Goes(fr, c, o, post, inner, fuel, n)
    ensures EnvOk(fr.slots, o.env) && fr.Run(c, n) == fr.At(post, o.env, [], o.w)
  {
    hide EnvOk;
  }

  /** The post clause, the jump back, and the following rounds of a `for`. */
  function ExecRest(t: Table, ops: Ops, s: Stmt, pos: int, env: Env, w: World, fuel: nat): Outcome
    requires s.For? && fuel > 0
  {
    var p := ExecOpt(t, ops, s.post, env, w, fuel);
    if p.Normal? then ExecFor(t, ops, s, pos, p.env, p.w, fuel - 1) else p
  }

  lemma {:induction false} SimRest(
      fr: Frame, c: Config, s: Stmt, env: Env, w: World, fuel: nat, pos: int, post: int, back: int, end: int, n: nat)
      returns (n': nat)
    requires s.For? && fuel > 0 && fr.Ok() && fr.Owns(pos) && fr.Owns(end) && EnvOk(fr.slots, env)
    requires GoodOpt(s.post) && GoodB(s.body, true) && Has(fr.slots, TargetsOpt(s.post))
      && Has(fr.slots, TargetsB(s.body))
    requires Seg(fr.code, pos, CodeFor(s.test, s.post, s.body, fr.slots), fr.slots)
    requires post == pos + LenTest(s.test) + LenB(s.body) && back == post + LenOpt(s.post) && end == back + 1
    requires Seg(fr.code, post, CodeOptSimple(s.post, fr.slots), fr.slots) && Holds(fr, back, Jump(Encode(pos - back)))
    requires fr.Run(c, n) == fr.At(post, env, [], w)
    ensures Goes(fr, c, ExecRest(fr.t, fr.ops, s, pos, env, w, fuel), end, NO_TARGETS, fuel, n')
    decreases fuel, s, 0, 0
  {
    hide Frame.Ok, Frame.Owns, Seg, CodeFor, CodeOptSimple, LenB, LenOpt, LenTest, GoodB, GoodOpt, TargetsB, TargetsOpt;
    hide ExecOpt, ExecFor, Encode, Step, Has, EnvOk, Goes, Frame.At;
    var m := SimOpt(fr, post, s.post, env, w, fuel, back);
    var p := ExecOpt(fr.t, fr.ops, s.post, env, w, fuel);
    GoesAfter(fr, c, n, fr.At(post, env, [], w), p, back, NO_TARGETS, fuel, fuel, m);
    n' := n + m;
    if p.Normal? {
      NormalAt(fr, c, p, back, fuel, n');
      Between(fr, pos, back, end);
      Near(fr, back, pos);
      RoundJump(fr, back, p.env, [], p.w, pos - back);
      AtRuns(fr, back, p.env, [], p.w);
      OneMore(fr, c, n', fr.At(back, p.env, [], p.w));
      var k := SimFor(fr, pos, s, p.env, p.w, fuel - 1, end);
      GoesAfter(fr, c, n' + 1, fr.At(pos, p.env, [], p.w), ExecFor(fr.t, fr.ops, s, pos, p.env, p.w, fuel - 1), end,
        NO_TARGETS, fuel, fuel - 1, k);
      n' := n' + 1 + k;
    } else {
      NotNormal(fr, c, p, back, end, fuel, n');
    }
  }
}
