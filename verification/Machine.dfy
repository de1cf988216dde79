/** The virtual machine as a transition system (vm.c). */
module Machine {
  import opened Common
  import opened Bytecode

  /** Memory cells; only the primitive operations interpret them. */
  type Heap = seq<int>

  /** What outlives a function call: global variables, heap, and the text printed so far. */
  datatype World = World(globals: map<string, Value>, heap: Heap, out: string)

  /** The primitive operations on values, as arbitrary functions; None is a runtime error. */
  datatype Ops = Ops(
    arith: (Aop, Value, Value, Heap) -> Option<(Value, Heap)>,
    equal: (Value, Value, Heap) -> bool,
    compare: (nat, Value, Value, Heap) -> Option<Value>,
    negate: (Value, Heap) -> Option<(Value, Heap)>,
    length: (Value, Heap) -> Option<(Value, Heap)>,
    at: (Value, Value, Heap) -> Option<(Value, Heap)>,
    cell: (Value, Value, Heap) -> Option<(int, Heap)>,
    fetch: (int, Heap) -> Value,
    put: (int, Value, Heap) -> Heap,
    list: (seq<Value>, Heap) -> (Value, Heap),
    dict: (seq<Value>, Heap) -> Option<(Value, Heap)>,
    repr: (Value, Heap) -> string,
    native: (nat, seq<Value>, World) -> Option<(Value, World)>)

  type Computed = Option<(Value, World)>

  function Lift(r: Option<(Value, Heap)>, w: World): Computed {
    if r.None? then None else Some((r.value.0, w.(heap := r.value.1)))
  }

  /** perform_aop(): `&&` and `||` choose one of two values that have both been computed. */
  function Perform(ops: Ops, a: Aop, left: Value, right: Value, w: World): Computed {
    if a == And then Some((if IsTruthy(left) then right else left, w))
    else if a == Or then Some((if IsTruthy(left) then left else right, w))
    else Lift(ops.arith(a, left, right, w.heap), w)
  }

  function Compare(ops: Ops, mask: nat, left: Value, right: Value, w: World): Computed {
    var r := ops.compare(mask, left, right, w.heap);
    if r.None? then None else Some((r.value, w))
  }

  /** What a write does; the world of a failed write shows what happened before it failed. */
  datatype Written = Done(w: World) | Broken(w: World)

  function WriteAt(ops: Ops, c: Value, i: Value, v: Value, w: World): Written {
    var r := ops.cell(c, i, w.heap);
    if r.None? then Broken(w) else Done(w.(heap := ops.put(r.value.0, v, r.value.1)))
  }

  function UpdateAt(ops: Ops, a: Aop, c: Value, i: Value, v: Value, w: World): Written {
    var r := ops.cell(c, i, w.heap);
    if r.None? then Broken(w) else
    var w' := w.(heap := r.value.1);
    var x := Perform(ops, a, ops.fetch(r.value.0, r.value.1), v, w');
    if x.None? then Broken(w') else Done(x.value.1.(heap := ops.put(r.value.0, x.value.0, x.value.1.heap)))
  }

  /** Where to go on after a call; the outermost call has no caller. */
  datatype CallSite = CallSite(callIp: Option<int>, callee: int, prevBase: int)

  datatype Config =
    | Running(ip: int, stack: seq<Value>, base: int, calls: seq<CallSite>, w: World)
    | Halted(result: Value, w: World)
    | Failed(w: World)
    | Stuck   // undefined behaviour of the interpreter

  type Code = seq<Instr>

  /** The instruction after the current one, with another stack and world. */
  function Next(c: Config, stack: seq<Value>, w: World): Config
    requires c.Running?
  {
    Running(c.ip + 1, stack, c.base, c.calls, w)
  }

  function Push(c: Config, rest: seq<Value>, r: Computed): Config
    requires c.Running?
  {
    if r.None? then Failed(c.w) else Next(c, rest + [r.value.0], r.value.1)
  }

  function After(c: Config, rest: seq<Value>, r: Written): Config
    requires c.Running?
  {
    if r.Broken? then Failed(r.w) else Next(c, rest, r.w)
  }

  function Nils(n: nat): (r: seq<Value>)
    ensures |r| == n
  {
    seq(n, _ => Nil)
  }

  /** do_call() for a callee below its n arguments */
  function StepCall(code: Code, ops: Ops, c: Config, n: nat): Config
    requires c.Running? && |c.stack| > n
  {
    var at := |c.stack| - n - 1;
    var args := c.stack[at + 1..];
    match c.stack[at]
    case Closure(f) =>
      if !(0 <= f < |code|) || !code[f].Function? then Failed(c.w) else
      var shape := code[f].shape;
      if shape.nargs != n then Failed(c.w)
      else if shape.nlocals < n then Stuck
      else Running(f + 1, c.stack + Nils(shape.nlocals - n), at + 1, c.calls + [CallSite(Some(c.ip), f, c.base)], c.w)
    case Native(id) =>
      var r := ops.native(id, args, c.w);
      if r.None? then Failed(c.w) else Next(c, c.stack[..at] + [r.value.0], r.value.1)
    case _ => Failed(c.w)
  }

  function StepReturn(code: Code, c: Config): Config
    requires c.Running? && c.stack != []
  {
    if c.calls == [] then Stuck else
    var (site, v) := (c.calls[|c.calls| - 1], c.stack[|c.stack| - 1]);
    if !(0 <= site.callee < |code|) || !code[site.callee].Function? then Stuck else
    var rest := |c.stack| - 1 - (code[site.callee].shape.nlocals + 1);
    if rest < 0 then Stuck
    else if site.callIp.None? then
      if rest == 0 then Halted(v, c.w) else Stuck
    else Running(site.callIp.value + 1, c.stack[..rest] + [v], site.prevBase, c.calls[..|c.calls| - 1], c.w)
  }

  /** How many operands an instruction takes from the stack. */
  function Pops(i: Instr): nat {
    match i
    case LoadAt => 2 case StoreAt => 3 case ModifyAt(_) => 3
    case StoreLocal(_) => 1 case StoreGlobal(_) => 1 case ModifyLocal(_, _) => 1 case ModifyGlobal(_, _) => 1
    case PrintTop => 1 case Return => 1 case JumpUnless(_) => 1 case Call(n) => n + 1
    case Negate => 1 case Not => 1 case Length => 1
    case Arith(_) => 2 case Cmp2Way(_) => 2 case Cmp3Way(_) => 2
    case MakeList(n) => n case MakeDict(n) => 2 * n
    case StoreSymbolic(_) => 1 case ModifySymbolic(_, _) => 1
    case _ => 0
  }

  predicate HasLocal(c: Config, slot: nat)
    requires c.Running?
  {
    0 <= c.base && c.base + slot < |c.stack|
  }

  /** One round of the dispatch loop. */
  function Step(code: Code, ops: Ops, c: Config): Config
    requires c.Running?
  {
    if !(0 <= c.ip < |code|) || |c.stack| < Pops(code[c.ip]) then Stuck
    else Exec(code, ops, code[c.ip], c)
  }

  function Exec(code: Code, ops: Ops, i: Instr, c: Config): Config
    requires c.Running? && Pops(i) <= |c.stack|
  {
    var (s, w) := (c.stack, c.w);
    var top := |s|;
    var rest := s[..top - Pops(i)];
    match i
    case LoadConst(v) => Next(c, s + [v], w)
    case LoadLocal(k) => if HasLocal(c, k) then Next(c, s + [s[c.base + k]], w) else Stuck
    case LoadGlobal(x) => if x in w.globals then Next(c, s + [w.globals[x]], w) else Failed(w)
    case LoadAt => Push(c, rest, Lift(ops.at(s[top - 2], s[top - 1], w.heap), w))
    case StoreLocal(k) => if HasLocal(c, k) then Next(c, s[c.base + k := s[top - 1]][..top - 1], w) else Stuck
    case StoreGlobal(x) => Next(c, rest, w.(globals := w.globals[x := s[top - 1]]))
    case StoreAt => After(c, rest, WriteAt(ops, s[top - 3], s[top - 2], s[top - 1], w))
    case ModifyLocal(a, k) =>
      if !HasLocal(c, k) then Stuck else
      var r := Perform(ops, a, s[c.base + k], s[top - 1], w);
      if r.None? then Failed(w) else Next(c, s[c.base + k := r.value.0][..top - 1], r.value.1)
    case ModifyGlobal(a, x) =>
      if x !in w.globals then Failed(w) else
      var r := Perform(ops, a, w.globals[x], s[top - 1], w);
      if r.None? then Failed(w) else Next(c, rest, r.value.1.(globals := r.value.1.globals[x := r.value.0]))
    case ModifyAt(a) => After(c, rest, UpdateAt(ops, a, s[top - 3], s[top - 2], s[top - 1], w))
    case PrintTop => Next(c, rest, w.(out := w.out + ops.repr(s[top - 1], w.heap)))
    case Return => StepReturn(code, c)
    case Jump(d) => c.(ip := c.ip + Decode(d))
    case JumpUnless(d) => Running(c.ip + (if IsTruthy(s[top - 1]) then 1 else Decode(d)), rest, c.base, c.calls, w)
    case Call(n) => StepCall(code, ops, c, n)
    case Function(shape) => Running(c.ip + shape.offset, s + [Closure(c.ip)], c.base, c.calls, w)
    case Negate => Push(c, rest, Lift(ops.negate(s[top - 1], w.heap), w))
    case Not => Next(c, rest + [Flag(!IsTruthy(s[top - 1]))], w)
    case Length => Push(c, rest, Lift(ops.length(s[top - 1], w.heap), w))
    case Arith(a) => Push(c, rest, Perform(ops, a, s[top - 2], s[top - 1], w))
    case Cmp2Way(equal) => Next(c, rest + [Flag(ops.equal(s[top - 2], s[top - 1], w.heap) == equal)], w)
    case Cmp3Way(mask) => Push(c, rest, Compare(ops, mask, s[top - 2], s[top - 1], w))
    case MakeList(n) => Push(c, rest, Lift(Some(ops.list(s[top - n..], w.heap)), w))
    case MakeDict(n) => Push(c, rest, Lift(ops.dict(s[top - 2 * n..], w.heap), w))
    case _ => Stuck
  }

  /** n rounds, or fewer if the machine stops. */
  function Steps(code: Code, ops: Ops, c: Config, n: nat): Config
    decreases n
  {
    if n == 0 || !c.Running? then c else Steps(code, ops, Step(code, ops, c), n - 1)
  }

  lemma {:induction false} StepsAdd(code: Code, ops: Ops, c: Config, m: nat, n: nat)
    ensures Steps(code, ops, c, m + n) == Steps(code, ops, Steps(code, ops, c, m), n)
    decreases m
  {
    hide Step;
    if m > 0 && c.Running? {
      StepsAdd(code, ops, Step(code, ops, c), m - 1, n);
    }
  }

  // ----- The space for operands -----

  /** The height of the stack above the locals of the innermost function. */
  function Operands(code: Code, c: Config): int
    requires c.Running? && c.calls != [] && 0 <= c.calls[|c.calls| - 1].callee < |code|
      && code[c.calls[|c.calls| - 1].callee].Function?
  {
    |c.stack| - c.base - code[c.calls[|c.calls| - 1].callee].shape.nlocals
  }

  /** The innermost function has not more operands than it has reserved space for when it was called. */
  predicate InReserve(code: Code, c: Config) {
    c.Running? && c.calls != [] ==>
      var f := c.calls[|c.calls| - 1].callee;
      0 <= f < |code| && code[f].Function? ==> Operands(code, c) <= code[f].shape.maxstack
  }

  /** One round in the space that is reserved: nothing checks it when a value is pushed, so more is undefined. */
  function Tick(code: Code, ops: Ops, c: Config): Config
    requires c.Running?
  {
    var d := Step(code, ops, c);
    if InReserve(code, d) then d else Stuck
  }

  function Ticks(code: Code, ops: Ops, c: Config, n: nat): Config
    decreases n
  {
    if n == 0 || !c.Running? then c else Ticks(code, ops, Tick(code, ops, c), n - 1)
  }

  lemma {:induction false} TicksAdd(code: Code, ops: Ops, c: Config, m: nat, n: nat)
    ensures Ticks(code, ops, c, m + n) == Ticks(code, ops, Ticks(code, ops, c, m), n)
    decreases m
  {
    hide Tick;
    if m > 0 && c.Running? {
      TicksAdd(code, ops, Tick(code, ops, c), m - 1, n);
    }
  }

  /** Where the space suffices in every state of a run, it does not matter that it is limited. */
  lemma {:induction false} TicksAreSteps(code: Code, ops: Ops, c: Config, n: nat)
    requires forall m: nat {:trigger Steps(code, ops, c, m)} :: m <= n ==> InReserve(code, Steps(code, ops, c, m))
    ensures Ticks(code, ops, c, n) == Steps(code, ops, c, n)
    decreases n
  {
    hide Step, InReserve;
    if n > 0 && c.Running? {
      var d := Step(code, ops, c);
      forall m: nat | m <= n - 1 ensures InReserve(code, Steps(code, ops, d, m)) {
        assert Steps(code, ops, c, m + 1) == Steps(code, ops, d, m);
      }
      assert Steps(code, ops, d, 0) == d;
      TicksAreSteps(code, ops, d, n - 1);
    }
  }

  /** What stops without a limit stops with it, at the latest then. */
  lemma {:induction false} TicksStop(code: Code, ops: Ops, c: Config, n: nat)
    requires !Steps(code, ops, c, n).Running?
    ensures !Ticks(code, ops, c, n).Running?
    decreases n
  {
    hide Step, InReserve;
    if n > 0 && c.Running? && InReserve(code, Step(code, ops, c)) {
      TicksStop(code, ops, Step(code, ops, c), n - 1);
    }
  }

  /** setup_for_eval(): a function without parameters is about to run. */
  function Start(code: Code, f: int, w: World): Option<Config>
    requires 0 <= f < |code| && code[f].Function?
  {
    if code[f].shape.nargs != 0 then None
    else Some(Running(f + 1, [Closure(f)] + Nils(code[f].shape.nlocals), 1, [CallSite(None, f, -1)], w))
  }
}
