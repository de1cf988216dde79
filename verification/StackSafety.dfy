/** The stack discipline of the machine: in every run, whatever the primitive operations do, the operand stack of each
    active function has the height that the linear scan of the compiler predicts for the instruction at hand. */
module StackSafety {
  import opened Common
  import opened Bytecode
  import opened Syntax
  import opened Codegen
  import opened Machine
  import opened Semantics
  import opened Resolution
  import opened Loading
  import opened Frames
  import opened Rounds
  import opened StackDepth
  import opened Reserve
  import opened DepthScan

  /** The innermost of the active functions is at ip; its locals start at `base`, and the stack has `height` values.
      The other functions are at their calls. */
  ghost predicate Balanced(code: Code, t: Table, calls: seq<CallSite>, ip: int, base: int, height: int)
    decreases |calls|
  {
    calls != [] &&
    var site := calls[|calls| - 1];
    && site.callee in t && base >= 1
    && var fn := BodyOf(t[site.callee]);
       && LeadsTo(fn.ds, ip - site.callee - 1, height - base - fn.nlocals)
       && (site.callIp.None? ==> |calls| == 1 && base == 1)
       && (site.callIp.Some? ==>
             && 0 <= site.callIp.value < |code| && code[site.callIp.value].Call?
             && Balanced(code, t, calls[..|calls| - 1], site.callIp.value, site.prevBase,
               base + code[site.callIp.value].nargs))
  }

  ghost predicate StackOk(code: Code, t: Table, c: Config) {
    c.Running? ==> Balanced(code, t, c.calls, c.ip, c.base, |c.stack|)
  }

  /** What is known about the current instruction: it is instruction k of the body fn of the function at a. */
  ghost predicate Here(code: Code, t: Table, c: Config, a: int, fn: Body, k: int, i: Instr, slots: seq<string>) {
    && c.Running? && c.calls != [] && a == c.calls[|c.calls| - 1].callee && a in t && fn == BodyOf(t[a])
      && k == c.ip - a - 1
    && slots == SlotsB(t[a].params, t[a].body) && fn.nlocals == |slots|
    && 0 <= k < |fn.raw| < |fn.ds| && 0 <= c.ip < |code| && i == code[c.ip] == Resolve(fn.raw[k], slots)
    && Fine(fn, k) && |c.stack| == c.base + fn.nlocals + fn.ds[k] && fn.ds[k] >= 0 && c.base >= 1
    && fn.raw[|fn.raw| - 1] == Return && |fn.ds| == |fn.raw| + 1
  }

  lemma {:induction false} WhereItIs(code: Code, t: Table, c: Config)
    requires Loaded(code, t) && c.Running? && StackOk(code, t, c)
    ensures c.calls != [] && var a := c.calls[|c.calls| - 1].callee;
      && a in t && var (fn, k) := (BodyOf(t[a]), c.ip - a - 1);
         0 <= c.ip < |code| && Here(code, t, c, a, fn, k, code[c.ip], SlotsB(t[a].params, t[a].body))
  {
    hide FunFits, GoodB, Balanced, StackOk, BodyOf, FunAt, Fine, LeadsTo, SlotsB, Resolve, RawBody;
    Innermost(code, t, c);
    var a := c.calls[|c.calls| - 1].callee;
    assert FunAt(code, a, t[a]);
    BodyInCode(code, a, t[a], c.ip - a - 1, |c.stack| - c.base - BodyOf(t[a]).nlocals);
  }

  lemma {:induction false} Innermost(code: Code, t: Table, c: Config)
    requires c.Running? && StackOk(code, t, c)
    ensures c.calls != [] && var a := c.calls[|c.calls| - 1].callee;
      a in t && c.base >= 1 && LeadsTo(BodyOf(t[a]).ds, c.ip - a - 1, |c.stack| - c.base - BodyOf(t[a]).nlocals)
  {
    hide BodyOf, LeadsTo;
  }

  /** The instructions of a function and their depths. */
  lemma {:induction false} BodyInCode(code: Code, a: int, f: Fun, k: int, height: int)
    requires FunAt(code, a, f) && LeadsTo(BodyOf(f).ds, k, height)
    ensures var (fn, slots) := (BodyOf(f), SlotsB(f.params, f.body));
      && 0 <= k < |fn.raw| < |fn.ds| && fn.nlocals == |slots| && fn.ds[k] == height >= 0 && Fine(fn, k)
      && 0 <= a + 1 + k < |code| && code[a + 1 + k] == Resolve(fn.raw[k], slots)
      && fn.raw[|fn.raw| - 1] == Return && |fn.ds| == |fn.raw| + 1
  {
    BodyFine(f);
    hide FunFits, GoodB, SlotsB, RawBody, FunShape, Fine, Depths, NoDup;
    assert Fine(BodyOf(f), k);
    assert code[a + 1 + k] == Resolve(RawBody(f.body, SlotsB(f.params, f.body))[k], SlotsB(f.params, f.body));
  }

  /** The other functions and the base stay; the innermost function goes on at ip. */
  lemma {:induction false} Moves(code: Code, t: Table, c: Config, ip: int, height: int)
    requires c.Running? && StackOk(code, t, c)
    requires c.calls != [] && var a := c.calls[|c.calls| - 1].callee;
      a in t && LeadsTo(BodyOf(t[a]).ds, ip - a - 1, height - c.base - BodyOf(t[a]).nlocals)
    ensures Balanced(code, t, c.calls, ip, c.base, height)
  {
    hide BodyOf, LeadsTo;
  }

  predicate IsOrdinary(i: Instr) {
    !i.Return? && !i.Jump? && !i.JumpUnless? && !i.Call? && !i.Function? && !IsSymbolic(i)
  }

  /** Most instructions only change the operands. */
  lemma {:induction false} OrdinaryExec(code: Code, ops: Ops, i: Instr, c: Config)
    requires c.Running? && IsOrdinary(i) && Pops(i) <= |c.stack|
    requires i.LoadLocal? || i.StoreLocal? || i.ModifyLocal? ==> HasLocal(c, i.slot)
    ensures var d := Exec(code, ops, i, c);
      d.Failed? || (d.Running? && d.ip == c.ip + 1 && d.base == c.base && d.calls == c.calls
        && |d.stack| == |c.stack| + Effect(i))
  {
    hide Perform, Compare, Lift, WriteAt, UpdateAt;
  }

  lemma {:induction false} ResolveKeeps(i: Instr, slots: seq<string>)
    ensures var r := Resolve(i, slots);
      && !IsSymbolic(r) && Pops(r) == Pops(i) && Effect(r) == Effect(i)
      && (SlotOk(i, |slots|) ==> SlotOk(r, |slots|))
      && (i.Return? <==> r.Return?) && (i.Jump? <==> r.Jump?) && (i.JumpUnless? <==> r.JumpUnless?)
      && (i.Call? <==> r.Call?) && (i.Function? <==> r.Function?)
      && (i.Jump? || i.JumpUnless? || i.Call? || i.Function? ==> r == i)
  {
  }

  lemma {:induction false} OrdinaryStep(code: Code, t: Table, ops: Ops, c: Config)
    requires Loaded(code, t) && c.Running? && StackOk(code, t, c) && 0 <= c.ip < |code| && IsOrdinary(code[c.ip])
    ensures Step(code, ops, c) != Stuck && StackOk(code, t, Step(code, ops, c))
  {
    hide Loaded, BodyOf, Balanced, Resolve, Exec;
    WhereItIs(code, t, c);
    var a := c.calls[|c.calls| - 1].callee;
    var (fn, k, i, slots) := (BodyOf(t[a]), c.ip - a - 1, code[c.ip], SlotsB(t[a].params, t[a].body));
    ResolveKeeps(fn.raw[k], slots);
    OrdinaryExec(code, ops, i, c);
    if !Step(code, ops, c).Failed? {
      Moves(code, t, c, c.ip + 1, |c.stack| + Effect(i));
    }
  }

  lemma {:induction false} BranchExec(code: Code, ops: Ops, i: Instr, c: Config)
    requires c.Running? && (i.Jump? || i.JumpUnless? || i.Function?) && Pops(i) <= |c.stack|
    ensures var d := Exec(code, ops, i, c);
      && d.Running? && d.base == c.base && d.calls == c.calls && |d.stack| == |c.stack| + Effect(i)
      && (i.Function? ==> d.ip == c.ip + i.shape.offset)
      && (i.Jump? ==> d.ip == c.ip + Decode(i.c))
      && (i.JumpUnless? ==> d.ip == c.ip + 1 || d.ip == c.ip + Decode(i.c))
  {
    hide Decode;
  }

  lemma {:induction false} JumpStep(code: Code, t: Table, ops: Ops, c: Config)
    requires Loaded(code, t) && c.Running? && StackOk(code, t, c) && 0 <= c.ip < |code|
    requires code[c.ip].Jump? || code[c.ip].JumpUnless? || code[c.ip].Function?
    ensures Step(code, ops, c) != Stuck && StackOk(code, t, Step(code, ops, c))
  {
    hide Loaded, BodyOf, Balanced, Resolve, Decode, Exec;
    WhereItIs(code, t, c);
    var a := c.calls[|c.calls| - 1].callee;
    var (fn, k, i, slots) := (BodyOf(t[a]), c.ip - a - 1, code[c.ip], SlotsB(t[a].params, t[a].body));
    ResolveKeeps(fn.raw[k], slots);
    BranchExec(code, ops, i, c);
    var d := Step(code, ops, c);
    Moves(code, t, c, d.ip, |c.stack| + Effect(i));
  }

  /** A call leaves the caller at its call, and the callee at its first instruction without operands. */
  lemma {:induction false} CallStep(code: Code, t: Table, ops: Ops, c: Config)
    requires Loaded(code, t) && c.Running? && StackOk(code, t, c) && 0 <= c.ip < |code| && code[c.ip].Call?
    ensures Step(code, ops, c) != Stuck && StackOk(code, t, Step(code, ops, c))
  {
    hide Loaded, BodyOf, Balanced, Resolve, StepCall, Exec, Fine, StackOk;
    CallReady(code, t, c);
    var n := code[c.ip].nargs;
    var at := |c.stack| - n - 1;
    var (v, args) := (c.stack[at], c.stack[at + 1..]);
    CallIs(code, ops, c, n);
    if CalleeOf(t, v, n).Run? {
      CallEnter(code, t, ops, c, v, args, at);
      CallEntered(code, t, c, v, n, StepCall(code, ops, c, n));
    } else {
      CallOther(code, t, ops, c, v, args, at);
      OtherReturned(code, t, ops, c, v, args, at);
    }
  }

  lemma {:induction false} CallReady(code: Code, t: Table, c: Config)
    requires Loaded(code, t) && c.Running? && StackOk(code, t, c) && 0 <= c.ip < |code| && code[c.ip].Call?
    ensures code[c.ip].nargs < |c.stack| && Balanced(code, t, c.calls, c.ip + 1, c.base, |c.stack| - code[c.ip].nargs)
  {
    hide Loaded, BodyOf, Balanced, Resolve;
    WhereItIs(code, t, c);
    var a := c.calls[|c.calls| - 1].callee;
    var (fn, k, i, slots) := (BodyOf(t[a]), c.ip - a - 1, code[c.ip], SlotsB(t[a].params, t[a].body));
    ResolveKeeps(fn.raw[k], slots);
    Moves(code, t, c, c.ip + 1, |c.stack| + Effect(i));
  }

  lemma {:induction false} OtherReturned(code: Code, t: Table, ops: Ops, c: Config, v: Value, args: seq<Value>, at: nat)
    requires c.Running? && |c.stack| == at + 1 + |args| && !CalleeOf(t, v, |args|).Run?
    requires Balanced(code, t, c.calls, c.ip + 1, c.base, |c.stack| - |args|)
    ensures var callee := CalleeOf(t, v, |args|);
      var d := Push(c, c.stack[..at], if callee.Wrong? then None else ops.native(callee.id, args, c.w));
      d != Stuck && StackOk(code, t, d)
  {
    hide Balanced, CalleeOf;
  }

  lemma {:induction false} CallEntered(code: Code, t: Table, c: Config, v: Value, n: nat, d: Config)
    requires Loaded(code, t) && c.Running? && StackOk(code, t, c) && 0 <= c.ip < |code| && code[c.ip] == Call(n)
      && n < |c.stack|
    requires CalleeOf(t, v, n).Run?
    requires var Run(a, f) := CalleeOf(t, v, n);
      n <= |SlotsB(f.params, f.body)| && d == Running(a + 1, c.stack + Nils(|SlotsB(f.params, f.body)| - n),
        |c.stack| - n,
        c.calls + [CallSite(Some(c.ip), a, c.base)], c.w)
    ensures StackOk(code, t, d)
  {
    hide FunFits, GoodB, SlotsB, RawBody, FunShape, Loaded, AllFine, Depths, Seg, Balanced, FunAt;
    var Run(a, f) := CalleeOf(t, v, n);
    Entry(code, t, a);
    Deeper(code, t, c.calls, CallSite(Some(c.ip), a, c.base), a + 1, |c.stack| - n, |d.stack|);
  }

  /** A function begins without operands. */
  lemma {:induction false} Entry(code: Code, t: Table, a: int)
    requires Loaded(code, t) && a in t
    ensures LeadsTo(BodyOf(t[a]).ds, 0, 0) && BodyOf(t[a]).nlocals == |SlotsB(t[a].params, t[a].body)|
  {
    assert FunAt(code, a, t[a]);
    hide GoodB, SlotsB, RawBody, FunShape, Loaded, AllFine, Depths, Seg;
    assert LenB(t[a].body) + 2 <= INT32_MAX;
    BodyFine(t[a]);
  }

  lemma {:induction false} Deeper(code: Code, t: Table, calls: seq<CallSite>, site: CallSite, ip: int, base: int,
      height: int)
    requires site.callee in t && base >= 1 && site.callIp.Some? && 0 <= site.callIp.value < |code|
      && code[site.callIp.value].Call?
    requires LeadsTo(BodyOf(t[site.callee]).ds, ip - site.callee - 1, height - base - BodyOf(t[site.callee]).nlocals)
    requires Balanced(code, t, calls, site.callIp.value, site.prevBase, base + code[site.callIp.value].nargs)
    ensures Balanced(code, t, calls + [site], ip, base, height)
  {
    hide BodyOf, LeadsTo;
    assert (calls + [site])[..|calls + [site]| - 1] == calls;
  }

  /** After a return the caller is behind its call, with callee and arguments replaced by one value. */
  lemma {:induction false} ReturnStep(code: Code, t: Table, ops: Ops, c: Config)
    requires Loaded(code, t) && c.Running? && StackOk(code, t, c) && 0 <= c.ip < |code| && code[c.ip].Return?
    ensures Step(code, ops, c) != Stuck && StackOk(code, t, Step(code, ops, c))
  {
    hide Loaded, BodyOf, Resolve, FunShape, FunFits, GoodB, SlotsB, RawBody, Seg, StackOk, Balanced, Exec, StepReturn,
      FunAt;
    AtReturn(code, t, c);
    ReturnExec(code, ops, c);
    var (site, d) := (c.calls[|c.calls| - 1], StepReturn(code, c));
    if site.callIp.Some? {
      BehindCall(code, t, d, site.callIp.value);
    } else {
      Ended(code, t, d);
    }
  }

  lemma {:induction false} Ended(code: Code, t: Table, d: Config)
    requires !d.Running?
    ensures StackOk(code, t, d)
  {
  }

  lemma {:induction false} ReturnExec(code: Code, ops: Ops, c: Config)
    requires c.Running? && 0 <= c.ip < |code| && code[c.ip].Return? && c.stack != []
    ensures Step(code, ops, c) == StepReturn(code, c)
  {
    hide StepReturn;
  }

  /** What a return finds, and what it does. */
  lemma {:induction false} AtReturn(code: Code, t: Table, c: Config)
    requires Loaded(code, t) && c.Running? && StackOk(code, t, c) && 0 <= c.ip < |code| && code[c.ip].Return?
    ensures c.calls != [] && c.stack != [] && var site := c.calls[|c.calls| - 1];
      var d := StepReturn(code, c);
      && (site.callIp.None? ==> d.Halted?)
      && (site.callIp.Some? ==>
            && d.Running? && |d.stack| > 0 && 0 <= site.callIp.value < |code| && code[site.callIp.value].Call?
              && d.ip == site.callIp.value + 1
            && Balanced(code, t, d.calls, site.callIp.value, d.base, |d.stack| + code[site.callIp.value].nargs))
  {
    hide Loaded, Resolve, FunShape, FunFits, GoodB, SlotsB, RawBody, Seg, Depths;
    WhereItIs(code, t, c);
    var site := c.calls[|c.calls| - 1];
    var (a, k, slots) := (site.callee, c.ip - site.callee - 1, SlotsB(t[site.callee].params, t[site.callee].body));
    ResolveKeeps(BodyOf(t[a]).raw[k], slots);
    CalleeShape(code, t, a);
    assert |c.stack| == c.base + |slots| + 1;
  }

  lemma {:induction false} CalleeShape(code: Code, t: Table, a: int)
    requires Loaded(code, t) && a in t
    ensures 0 <= a < |code| && code[a].Function? && code[a].shape.nlocals == |SlotsB(t[a].params, t[a].body)|
  {
    assert FunAt(code, a, t[a]);
    ShapeOf(t[a]);
    hide GoodB, SlotsB, RawBody, Loaded, Seg, MaxStack;
  }

  lemma {:induction false} BehindCall(code: Code, t: Table, d: Config, at: int)
    requires Loaded(code, t) && d.Running? && 0 <= at < |code| && code[at].Call? && d.ip == at + 1 && |d.stack| > 0
    requires Balanced(code, t, d.calls, at, d.base, |d.stack| + code[at].nargs)
    ensures StackOk(code, t, d)
  {
    hide Loaded, Resolve, BodyOf;
    var c := d.(ip := at, stack := d.stack + Nils(code[at].nargs));
    WhereItIs(code, t, c);
    var a := c.calls[|c.calls| - 1].callee;
    var (fn, k, slots) := (BodyOf(t[a]), at - a - 1, SlotsB(t[a].params, t[a].body));
    ResolveKeeps(fn.raw[k], slots);
    Moves(code, t, c, at + 1, |d.stack|);
  }

  lemma {:induction false} StepKeeps(code: Code, t: Table, ops: Ops, c: Config)
    requires Loaded(code, t) && c.Running? && StackOk(code, t, c)
    ensures Step(code, ops, c) != Stuck && StackOk(code, t, Step(code, ops, c))
  {
    WhereItIs(code, t, c);
    hide Loaded, StackOk, Step, BodyOf, Resolve;
    var a := c.calls[|c.calls| - 1].callee;
    var (fn, k, i, slots) := (BodyOf(t[a]), c.ip - a - 1, code[c.ip], SlotsB(t[a].params, t[a].body));
    ResolveKeeps(fn.raw[k], slots);
    if IsOrdinary(i) {
      OrdinaryStep(code, t, ops, c);
    } else if i.Call? {
      CallStep(code, t, ops, c);
    } else if i.Return? {
      ReturnStep(code, t, ops, c);
    } else {
      JumpStep(code, t, ops, c);
    }
  }

  lemma {:induction false} StepsKeep(code: Code, t: Table, ops: Ops, c: Config, n: nat)
    requires Loaded(code, t) && c != Stuck && StackOk(code, t, c)
    ensures Steps(code, ops, c, n) != Stuck && StackOk(code, t, Steps(code, ops, c, n))
    decreases n
  {
    hide Loaded, StackOk, Step;
    if n > 0 && c.Running? {
      StepKeeps(code, t, ops, c);
      StepsKeep(code, t, ops, Step(code, ops, c), n - 1);
    }
  }

  lemma {:induction false} StartOk(code: Code, t: Table, a: int, w: World)
    requires Loaded(code, t) && a in t && t[a].params == []
    ensures 0 <= a < |code| && code[a].Function? && Start(code, a, w).Some? && StackOk(code, t, Start(code, a, w).value)
  {
    var f := t[a];
    assert FunAt(code, a, f);
    ShapeOf(f);
    BodyFine(f);
    hide FunFits, GoodB, SlotsB, RawBody, FunShape, Loaded, AllFine, Depths, Seg;
  }

  /** The innermost function is at one of its own instructions and has as many operands as its tree says for that place:
      never fewer than the instruction takes. */
  ghost predicate Disciplined(code: Code, t: Table, c: Config)
    requires c.Running?
  {
    c.calls != [] &&
    var a := c.calls[|c.calls| - 1].callee;
    && a in t && 0 <= a < |code| && code[a].Function? && 0 <= c.ip - a - 1 < |Depths(t[a].body)| - 1
    && 0 <= c.ip < |code|
    && Operands(code, c) == Depths(t[a].body)[c.ip - a - 1]
    && Pops(code[c.ip]) <= Operands(code, c)
  }

  /** In every state of every run of every loaded function, whatever the primitive operations do, the operand stack
      is as the tree says; the machine never gets stuck, and it only halts with a single value. */
  lemma {:induction false} StackDiscipline(code: Code, t: Table, ops: Ops, f: int, w: World, n: nat)
    requires Loaded(code, t) && f in t && t[f].params == []
    ensures 0 <= f < |code| && code[f].Function? && Start(code, f, w).Some?
    ensures var c := Steps(code, ops, Start(code, f, w).value, n);
      c != Stuck && (c.Running? ==> Disciplined(code, t, c))
  {
    StartOk(code, t, f, w);
    hide Loaded, StackOk, Steps, Disciplined, Start;
    StepsKeep(code, t, ops, Start(code, f, w).value, n);
    var c := Steps(code, ops, Start(code, f, w).value, n);
    if c.Running? { OperandsKnown(code, t, c); }
  }

  lemma {:induction false} OperandsKnown(code: Code, t: Table, c: Config)
    requires Loaded(code, t) && c.Running? && StackOk(code, t, c)
    ensures Disciplined(code, t, c)
  {
    WhereItIs(code, t, c);
    var a := c.calls[|c.calls| - 1].callee;
    var (fn, k, slots) := (BodyOf(t[a]), c.ip - a - 1, SlotsB(t[a].params, t[a].body));
    assert FunAt(code, a, t[a]);
    ResolveKeeps(fn.raw[k], slots);
    ShapeOf(t[a]);
    hide Loaded, StackOk, FunShape, FunFits, GoodB, SlotsB, Seg, Resolve, Depths;
  }

  /** The functions of the table have enough space for their operands. */
  ghost predicate Spacious(t: Table) { forall a :: a in t ==> Suffices(t[a].body) }

  /** In every state of every run of functions that have enough space, there is room for the operands. */
  lemma {:induction false} StackBound(code: Code, t: Table, ops: Ops, f: int, w: World, n: nat)
    requires Loaded(code, t) && f in t && t[f].params == [] && Spacious(t)
    ensures 0 <= f < |code| && code[f].Function? && Start(code, f, w).Some?
    ensures var c := Steps(code, ops, Start(code, f, w).value, n);
      c.Running? ==> Disciplined(code, t, c) && Operands(code, c) <= code[c.calls[|c.calls| - 1].callee].shape.maxstack
  {
    hide Loaded, Steps, Start, Disciplined, Spacious, Operands;
    StackDiscipline(code, t, ops, f, w, n);
    var c := Steps(code, ops, Start(code, f, w).value, n);
    if c.Running? { RoomHere(code, t, c); }
  }

  lemma {:induction false} RoomHere(code: Code, t: Table, c: Config)
    requires Loaded(code, t) && Spacious(t) && c.Running? && Disciplined(code, t, c)
    ensures Operands(code, c) <= code[c.calls[|c.calls| - 1].callee].shape.maxstack
  {
    hide FunFits, FunShape, PeakOf, Depths, Seg, GoodB;
    var a := c.calls[|c.calls| - 1].callee;
    assert FunAt(code, a, t[a]);
    ReservedIsPeak(t[a].params, t[a].body);
    assert Suffices(t[a].body);
    assert Depths(t[a].body)[c.ip - a - 1] <= PeakOf(t[a].body);
  }

  /** Such functions run in the space that is reserved for them as if there were no limit. */
  lemma {:induction false} NoLimit(code: Code, t: Table, ops: Ops, f: int, w: World, n: nat)
    requires Loaded(code, t) && f in t && t[f].params == [] && Spacious(t)
    ensures 0 <= f < |code| && code[f].Function? && Start(code, f, w).Some?
    ensures var c := Start(code, f, w).value; Ticks(code, ops, c, n) == Steps(code, ops, c, n)
  {
    StackBound(code, t, ops, f, w, n);
    hide Loaded, Steps, Ticks, Start, Disciplined, Spacious;
    var c := Start(code, f, w).value;
    forall m: nat | m <= n ensures InReserve(code, Steps(code, ops, c, m)) {
      StackBound(code, t, ops, f, w, m);
    }
    TicksAreSteps(code, ops, c, n);
  }

  /** The space suffices, and not more than that is reserved, if no function is declared in a `for` with a post
      clause. */
  lemma {:induction false} CleanReserves(f: Fun)
    requires CleanB(f.body) && NoDup(f.params) && GoodB(f.body, false) && FunFits(f.params, f.body)
    ensures Reserves(f)
    ensures exists q :: 0 <= q < |Depths(f.body)| && Depths(f.body)[q] == FunShape(f.params, f.body).maxstack
  {
    hide FunShape, NeverBelow, PeakOf, Suffices, Depths;
    var v := CleanScan(f);
    ReservedIsPeak(f.params, f.body);
    ReservesIff(f);
  }
}
