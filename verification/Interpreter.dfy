/** The dispatch loop of state_eval(), which updates its registers and stacks in place. */
module Interpreter {
  import opened Common
  import opened Bytecode
  import opened Machine

  datatype Status = Busy | Finished(v: Value) | Thrown | Undefined

  class Vm {
    const code: Code
    const ops: Ops
    var ip: int
    var vs: seq<Value>        // the value stack
    var locals: int           // the offset of the locals of the current function in it
    var cs: seq<CallSite>     // the call stack
    var w: World
    var status: Status

    function State(): Config
      reads this
    {
      match status
      case Busy => Running(ip, vs, locals, cs, w)
      case Finished(v) => Halted(v, w)
      case Thrown => Failed(w)
      case Undefined => Stuck
    }

    /** setup_for_eval(): pushes the function and its locals; fails for a function with parameters. */
    constructor (code: Code, ops: Ops, f: int, w: World)
      requires 0 <= f < |code| && code[f].Function?
      ensures this.code == code && this.ops == ops
      ensures State() == if Start(code, f, w).None? then Failed(w) else Start(code, f, w).value
    {
      this.code, this.ops, this.w := code, ops, w;
      ip, locals, cs := f + 1, 1, [CallSite(None, f, -1)];
      vs := [Closure(f)] + Nils(code[f].shape.nlocals);
      status := if code[f].shape.nargs != 0 then Thrown else Busy;
    }

    method Put(v: Value)
      modifies `vs
      ensures vs == old(vs) + [v]
    {
      vs := vs + [v];
    }

    method Pop() returns (v: Value)
      requires vs != []
      modifies `vs
      ensures v == old(vs)[|old(vs)| - 1] && vs == old(vs)[..|old(vs)| - 1]
    {
      v := vs[|vs| - 1];
      vs := vs[..|vs| - 1];
    }

    method PopN(n: nat) returns (args: seq<Value>)
      requires n <= |vs|
      modifies `vs
      ensures args == old(vs)[|old(vs)| - n..] && vs == old(vs)[..|old(vs)| - n]
    {
      args := vs[|vs| - n..];
      vs := vs[..|vs| - n];
    }

    /** Pushes the result of an operation, or throws. */
    method Conclude(r: Computed)
      requires status.Busy?
      modifies `vs, `w, `ip, `status
      ensures r.None? ==> status == Thrown && w == old(w)
      ensures r.Some? ==> status == Busy && vs == old(vs) + [r.value.0] && w == r.value.1 && ip == old(ip) + 1
    {
      if r.None? {
        status := Thrown;
      } else {
        Put(r.value.0);
        w := r.value.1;
        ip := ip + 1;
      }
    }

    method Load(i: Instr)
      requires status.Busy? && Pops(i) <= |vs|
      requires i.LoadConst? || i.LoadLocal? || i.LoadGlobal? || i.LoadAt?
      modifies this
      ensures State() == Exec(code, ops, i, old(State()))
    {
      match i {
        case LoadConst(v) =>
          Put(v);
          ip := ip + 1;
        case LoadLocal(k) =>
          if 0 <= locals && locals + k < |vs| {
            Put(vs[locals + k]);
            ip := ip + 1;
          } else {
            status := Undefined;
          }
        case LoadGlobal(x) =>
          if x in w.globals {
            Put(w.globals[x]);
            ip := ip + 1;
          } else {
            status := Thrown;
          }
        case LoadAt =>
          var n := Pop();
          var c := Pop();
          Conclude(Lift(ops.at(c, n, w.heap), w));
          assert old(vs)[..|old(vs)| - 1][..|old(vs)| - 2] == old(vs)[..|old(vs)| - 2];
      }
    }

    method StoreVar(i: Instr)
      requires status.Busy? && Pops(i) <= |vs|
      requires i.StoreLocal? || i.StoreGlobal? || i.ModifyLocal? || i.ModifyGlobal?
      modifies this
      ensures State() == Exec(code, ops, i, old(State()))
    {
      ghost var before := vs;
      match i {
        case StoreLocal(k) =>
          if 0 <= locals && locals + k < |vs| {
            var v := vs[|vs| - 1];
            vs := vs[locals + k := v];
            v := Pop();
            ip := ip + 1;
          } else {
            status := Undefined;
          }
        case StoreGlobal(x) =>
          var v := Pop();
          w := w.(globals := w.globals[x := v]);
          ip := ip + 1;
        case ModifyLocal(a, k) =>
          if 0 <= locals && locals + k < |vs| {
            var v := vs[|vs| - 1];
            var r := Perform(ops, a, vs[locals + k], v, w);
            if r.None? {
              status := Thrown;
            } else {
              vs := vs[locals + k := r.value.0];
              v := Pop();
              w := r.value.1;
              ip := ip + 1;
            }
          } else {
            status := Undefined;
          }
        case ModifyGlobal(a, x) =>
          if x in w.globals {
            var v := Pop();
            var r := Perform(ops, a, w.globals[x], v, w);
            if r.None? {
              status := Thrown;
            } else {
              w := r.value.1.(globals := r.value.1.globals[x := r.value.0]);
              ip := ip + 1;
            }
          } else {
            status := Thrown;
          }
      }
    }

    method StoreElem(i: Instr)
      requires status.Busy? && Pops(i) <= |vs| && (i.StoreAt? || i.ModifyAt?)
      modifies this
      ensures State() == Exec(code, ops, i, old(State()))
    {
      ghost var before := vs;
      var args := PopN(3);
      var r := if i.StoreAt? then WriteAt(ops, args[0], args[1], args[2], w)
        else UpdateAt(ops, i.aop, args[0], args[1], args[2], w);
      w := r.w;
      if r.Broken? {
        status := Thrown;
      } else {
        ip := ip + 1;
      }
      assert args[0] == before[|before| - 3] && args[1] == before[|before| - 2] && args[2] == before[|before| - 1];
    }

    method Operate1(i: Instr)
      requires status.Busy? && vs != [] && (i.Negate? || i.Not? || i.Length?)
      modifies this
      ensures State() == Exec(code, ops, i, old(State()))
    {
      var v := Pop();
      match i {
        case Negate => Conclude(Lift(ops.negate(v, w.heap), w));
        case Not => Conclude(Some((Flag(!IsTruthy(v)), w)));
        case Length => Conclude(Lift(ops.length(v, w.heap), w));
      }
    }

    method PopTwo() returns (left: Value, right: Value)
      requires |vs| >= 2
      modifies `vs
      ensures var n := |old(vs)|; left == old(vs)[n - 2] && right == old(vs)[n - 1] && vs == old(vs)[..n - 2]
    {
      right := Pop();
      left := Pop();
      assert vs == old(vs)[..|old(vs)| - 2];
    }

    method Operate2(i: Instr)
      requires status.Busy? && |vs| >= 2 && (i.Arith? || i.Cmp2Way? || i.Cmp3Way?)
      modifies this
      ensures State() == Exec(code, ops, i, old(State()))
    {
      hide Perform, Compare;
      var left, right := PopTwo();
      if i.Arith? {
        Conclude(Perform(ops, i.aop, left, right, w));
      } else if i.Cmp2Way? {
        Conclude(Some((Flag(ops.equal(left, right, w.heap) == i.equal), w)));
      } else {
        Conclude(Compare(ops, i.mask, left, right, w));
      }
    }

    method CollectList(n: nat)
      requires status.Busy? && n <= |vs|
      modifies this
      ensures State() == Exec(code, ops, MakeList(n), old(State()))
    {
      var args := PopN(n);
      Conclude(Lift(Some(ops.list(args, w.heap)), w));
    }

    method CollectDict(n: nat)
      requires status.Busy? && 2 * n <= |vs|
      modifies this
      ensures State() == Exec(code, ops, MakeDict(n), old(State()))
    {
      var args := PopN(2 * n);
      Conclude(Lift(ops.dict(args, w.heap), w));
    }

    method PrintTopmost()
      requires status.Busy? && vs != []
      modifies this
      ensures State() == Exec(code, ops, PrintTop, old(State()))
    {
      var v := Pop();
      w := w.(out := w.out + ops.repr(v, w.heap));
      ip := ip + 1;
    }

    method Branch(i: Instr)
      requires status.Busy? && Pops(i) <= |vs| && (i.Jump? || i.JumpUnless? || i.Function?)
      modifies `vs, `ip
      ensures State() == Exec(code, ops, i, old(State()))
    {
      match i {
        case Jump(d) => ip := ip + Decode(d);
        case JumpUnless(d) =>
          var v := Pop();
          ip := if IsTruthy(v) then ip + 1 else ip + Decode(d);
        case Function(shape) =>
          Put(Closure(ip));
          ip := ip + shape.offset;
      }
    }

    /** do_call(), without the scatter and gather forms */
    method DoCall(n: nat)
      requires status.Busy? && n < |vs|
      modifies this
      ensures State() == StepCall(code, ops, old(State()), n)
    {
      var at := |vs| - n - 1;
      var v := vs[at];
      if v.Closure? && 0 <= v.ip < |code| && code[v.ip].Function? {
        var shape := code[v.ip].shape;
        if shape.nargs != n {
          status := Thrown;
          return;
        }
        if shape.nlocals < n {
          status := Undefined;
          return;
        }
        cs := cs + [CallSite(Some(ip), v.ip, locals)];
        vs := vs + Nils(shape.nlocals - n);
        locals := |vs| - shape.nlocals;
        ip := v.ip + 1;
      } else if v.Native? {
        var r := ops.native(v.id, vs[at + 1..], w);
        if r.None? {
          status := Thrown;
          return;
        }
        vs := vs[..at] + [r.value.0];
        w := r.value.1;
        ip := ip + 1;
      } else {
        status := Thrown;
      }
    }

    /** OP_RETURN: the result takes the place of the function and its locals. */
    method DoReturn()
      requires status.Busy? && vs != []
      modifies this
      ensures State() == StepReturn(code, old(State()))
    {
      if cs == [] {
        status := Undefined;
        return;
      }
      var site := cs[|cs| - 1];
      cs := cs[..|cs| - 1];
      if !(0 <= site.callee < |code|) || !code[site.callee].Function? {
        status := Undefined;
        return;
      }
      var v := Pop();
      var n := code[site.callee].shape.nlocals + 1;
      if n > |vs| {
        status := Undefined;
        return;
      }
      vs := vs[..|vs| - n] + [v];
      locals := site.prevBase;
      if site.callIp.None? {
        status := if |vs| == 1 then Finished(v) else Undefined;
      } else {
        ip := site.callIp.value + 1;
      }
    }

    /** One instruction. */
    method Execute()
      requires status.Busy?
      modifies this
      ensures State() == Step(code, ops, old(State()))
    {
      if !(0 <= ip < |code|) || |vs| < Pops(code[ip]) {
        status := Undefined;
        return;
      }
      var i := code[ip];
      if i.LoadConst? || i.LoadLocal? || i.LoadGlobal? || i.LoadAt? {
        Load(i);
      } else if i.StoreLocal? || i.StoreGlobal? || i.ModifyLocal? || i.ModifyGlobal? {
        StoreVar(i);
      } else if i.StoreAt? || i.ModifyAt? {
        StoreElem(i);
      } else if i.PrintTop? {
        PrintTopmost();
      } else if i.Jump? || i.JumpUnless? || i.Function? {
        Branch(i);
      } else if i.Call? {
        DoCall(i.nargs);
      } else if i.Return? {
        DoReturn();
      } else if IsSymbolic(i) {
        status := Undefined;
      } else if i.Negate? || i.Not? || i.Length? {
        Operate1(i);
      } else if i.MakeList? {
        CollectList(i.n);
      } else if i.MakeDict? {
        CollectDict(i.n);
      } else {
        Operate2(i);
      }
    }

    /** One round of the loop.  That the stack stays in the space that was reserved is not checked by the interpreter;
        otherwise it has no defined behaviour. */
    method Dispatch()
      requires status.Busy?
      modifies this
      ensures State() == Tick(code, ops, old(State()))
    {
      hide Step, InReserve;
      Execute();
      if !InReserve(code, State()) { status := Undefined; }
    }

    /** At most `limit` rounds of the loop, which in the interpreter has no limit. */
    method Eval(limit: nat)
      modifies this
      ensures State() == Ticks(code, ops, old(State()), limit)
    {
      hide Tick;
      var n := 0;
      while n < limit && status.Busy?
        invariant n <= limit
        invariant Ticks(code, ops, State(), limit - n) == Ticks(code, ops, old(State()), limit)
      {
        Dispatch();
        n := n + 1;
      }
    }
  }
}
