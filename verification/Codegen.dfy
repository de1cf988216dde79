/** The code of a syntax tree, as a function of the tree.

    Everything is relative to the start of the code it belongs to: the targets of `break` and `continue` are given
    by their displacements from the first instruction of the statement, or None while a jump is a placeholder. */
module Codegen {
  import opened Common
  import opened Bytecode
  import opened Syntax

  // ----- Expressions: postfix order -----

  function CodeE(e: Expr): (r: seq<Instr>)
    ensures |r| > 0
    decreases e, 1
  {
    match e
    case Const(v) => [LoadConst(v)]
    case Var(x) => [LoadSymbolic(x)]
    case Paren(i) => CodeE(i)
    case Unary(o, a) => CodeE(a) + [UnInstr(o)]
    case Binary(o, l, r) => CodeE(l) + CodeE(r) + [BinInstr(o)]
    case Index(b, i) => CodeE(b) + CodeE(i) + [LoadAt]
    case Field(b, f) => CodeE(b) + [LoadConst(Str(f)), LoadAt]
    case Invoke(f, args) => CodeE(f) + CodeEs(args) + [Call(|args|)]
    case ListLit(es) => CodeEs(es) + [MakeList(|es|)]
    case DictLit(ns) => CodeNs(ns) + [MakeDict(|ns|)]
  }

  function CodeEs(es: seq<Expr>): seq<Instr>
    decreases es, 0
  {
    if es == [] then [] else CodeEs(es[..|es| - 1]) + CodeE(es[|es| - 1])
  }

  function CodeN(n: Entry): seq<Instr>
    decreases n, 1
  {
    CodeE(n.key) + CodeE(n.val)
  }

  function CodeNs(ns: seq<Entry>): seq<Instr>
    decreases ns, 0
  {
    if ns == [] then [] else CodeNs(ns[..|ns| - 1]) + CodeN(ns[|ns| - 1])
  }

  // ----- The local variables of a function -----

  function AddSlot(slots: seq<string>, x: string): seq<string> {
    if x in slots then slots else slots + [x]
  }

  /** The index of x in the insertion-ordered table of locals. */
  function SlotOf(slots: seq<string>, x: string): (i: nat)
    ensures x in slots ==> i < |slots| && slots[i] == x
    ensures x !in slots ==> i == |slots|
  {
    if slots == [] then 0 else if slots[0] == x then 0 else 1 + SlotOf(slots[1..], x)
  }

  /** The variable an assignment to e stores to, if e is a (parenthesised) identifier. */
  function TargetVar(e: Expr): Option<string> {
    match e
    case Var(x) => Some(x)
    case Paren(i) => TargetVar(i)
    case _ => None
  }

  predicate IsTargetAt(e: Expr) {
    match e
    case Index(_, _) => true
    case Field(_, _) => true
    case Paren(i) => IsTargetAt(i)
    case _ => false
  }

  /** Which assignments load_to_store() and load_to_modify() accept. */
  predicate Assignable(k: Kind, e: Expr) {
    TargetVar(e).Some? || (IsTargetAt(e) && k != StoreHere)
  }

  function SlotsSimple(slots: seq<string>, m: Simple): seq<string> {
    if m.Assign? && m.kind == StoreHere && TargetVar(m.lhs).Some? then AddSlot(slots, TargetVar(m.lhs).value) else slots
  }

  function SlotsOpt(slots: seq<string>, m: Option<Simple>): seq<string> {
    if m.None? then slots else SlotsSimple(slots, m.value)
  }

  /** The table of locals after the statement, in the order in which the compiler meets the names:
      the post clause of a `for` comes before its body. */
  function SlotsS(slots: seq<string>, s: Stmt): seq<string>
    decreases s, 1
  {
    match s
    case Do(m) => SlotsSimple(slots, m)
    case If(cs, els) => SlotsElse(SlotsClauses(slots, cs), els)
    case While(_, b) => SlotsB(slots, b)
    case For(i, _, p, b) => SlotsB(SlotsOpt(SlotsOpt(slots, i), p), b)
    case _ => slots
  }

  function SlotsClause(slots: seq<string>, c: Clause): seq<string>
    decreases c, 1
  {
    SlotsB(slots, c.blk)
  }

  function SlotsClauses(slots: seq<string>, cs: seq<Clause>): seq<string>
    decreases cs, 0
  {
    if cs == [] then slots else SlotsClause(SlotsClauses(slots, cs[..|cs| - 1]), cs[|cs| - 1])
  }

  function SlotsElse(slots: seq<string>, els: ElsePart): seq<string>
    decreases els, 1
  {
    if els.NoElse? then slots else SlotsB(slots, els.blk)
  }

  function SlotsB(slots: seq<string>, b: seq<Stmt>): seq<string>
    decreases b, 0
  {
    if b == [] then slots else SlotsS(SlotsB(slots, b[..|b| - 1]), b[|b| - 1])
  }

  // ----- Statements -----

  function StoreInstr(load: Instr, k: Kind, slots: seq<string>): Instr {
    match (load, k)
    case (LoadSymbolic(x), Store) => StoreSymbolic(x)
    case (LoadSymbolic(x), StoreHere) => StoreLocal(SlotOf(slots, x))
    case (LoadSymbolic(x), Modify(a)) => ModifySymbolic(a, x)
    case (_, Modify(a)) => ModifyAt(a)
    case (_, _) => StoreAt
  }

  function CodeSimple(m: Simple, slots: seq<string>): seq<Instr> {
    match m
    case PrintExpr(e) => CodeE(e) + [PrintTop]
    case Assign(k, l, r) =>
      var n := |CodeE(l)| - 1;
      CodeE(l)[..n] + CodeE(r) + [StoreInstr(CodeE(l)[n], k, slots)]
  }

  function CodeOptSimple(m: Option<Simple>, slots: seq<string>): seq<Instr> {
    if m.None? then [] else CodeSimple(m.value, slots)
  }

  function LenSimple(m: Simple): nat {
    match m
    case PrintExpr(e) => |CodeE(e)| + 1
    case Assign(_, l, r) => |CodeE(l)| + |CodeE(r)|
  }

  function LenOpt(m: Option<Simple>): nat {
    if m.None? then 0 else LenSimple(m.value)
  }

  function LenTest(c: Option<Expr>): nat {
    if c.None? then 0 else |CodeE(c.value)| + 1
  }

  function LenS(s: Stmt): nat
    decreases s, 1
  {
    match s
    case Empty => 0
    case Do(m) => LenSimple(m)
    case If(cs, els) => if els.Else? then LenArms(cs) + LenElse(els) else LenClauses(cs)
    case While(c, b) => |CodeE(c)| + 1 + LenB(b) + 1
    case For(i, c, p, b) => LenOpt(i) + LenTest(c) + LenB(b) + LenOpt(p) + 1
    case FunDecl(_, _, b) => LenB(b) + 4
    case ReturnNil => 2
    case ReturnVal(e) => |CodeE(e)| + 1
    case Break => 1
    case Continue => 1
  }

  function LenClause(c: Clause): nat
    decreases c, 1
  {
    |CodeE(c.cond)| + 1 + LenB(c.blk)
  }

  /** The arms, with one jump after each but the last. */
  function LenClauses(cs: seq<Clause>): nat
    decreases cs, 0
  {
    if cs == [] then 0 else LenArms(cs[..|cs| - 1]) + LenClause(cs[|cs| - 1])
  }

  /** The arms, with one jump after each. */
  function LenArms(cs: seq<Clause>): nat
    decreases cs, 0
  {
    if cs == [] then 0 else LenArms(cs[..|cs| - 1]) + LenClause(cs[|cs| - 1]) + 1
  }

  function LenElse(els: ElsePart): nat
    decreases els, 1
  {
    if els.NoElse? then 0 else LenB(els.blk)
  }

  function LenB(b: seq<Stmt>): nat
    decreases b, 0
  {
    if b == [] then 0 else LenB(b[..|b| - 1]) + LenS(b[|b| - 1])
  }

  datatype Loop = ToBreak | ToContinue

  /** Where `break` and `continue` lead, relative to the code at hand. */
  datatype Targets = Targets(brk: Option<int>, cnt: Option<int>) {
    function Shift(n: int): Targets {
      Targets(Shifted(brk, n), Shifted(cnt, n))
    }

    function Get(k: Loop): Option<int> {
      match k case ToBreak => brk case ToContinue => cnt
    }

    function With(k: Loop, t: int): Targets {
      match k case ToBreak => Targets(Some(t), cnt) case ToContinue => Targets(brk, Some(t))
    }
  }

  function Shifted(t: Option<int>, n: int): Option<int> {
    if t.None? then None else Some(t.value - n)
  }

  const NO_TARGETS := Targets(None, None)

  function JumpTo(t: Option<int>): Instr {
    Jump(if t.None? then 0 else Encode(t.value))
  }

  function CodeS(s: Stmt, slots: seq<string>, tg: Targets): (r: seq<Instr>)
    ensures |r| == LenS(s)
    decreases s, 1
  {
    match s
    case Empty => []
    case Do(m) => CodeSimple(m, slots)
    case If(_, _) => CodeIf(s, slots, tg, Some(LenS(s)))
    case While(c, b) => CodeWhile(c, b, slots)
    case For(i, c, p, b) => CodeOptSimple(i, slots) + CodeFor(c, p, b, slots)
    case FunDecl(x, ps, b) => FunCode(ps, b) + [StoreSymbolic(x)]
    case ReturnNil => [LoadConst(Nil), Return]
    case ReturnVal(e) => CodeE(e) + [Return]
    case Break => [JumpTo(tg.brk)]
    case Continue => [JumpTo(tg.cnt)]
  }

  function CodeWhile(c: Expr, b: seq<Stmt>, slots: seq<string>): (r: seq<Instr>)
    ensures |r| == |CodeE(c)| + 1 + LenB(b) + 1
    decreases b, 3
  {
    CodeE(c) + [JumpUnless(Encode(LenB(b) + 2))]
    + CodeB(b, slots, Targets(Some(LenB(b) + 1), Some(-(|CodeE(c)| + 1))))
    + [Jump(Encode(-(|CodeE(c)| + 1 + LenB(b))))]
  }

  /** A `for` statement after its initialization: condition, body, post clause, jump back. */
  function CodeFor(c: Option<Expr>, p: Option<Simple>, b: seq<Stmt>, slots: seq<string>): (r: seq<Instr>)
    ensures |r| == LenTest(c) + LenB(b) + LenOpt(p) + 1
    decreases b, 3
  {
    CodeTest(c, LenB(b) + LenOpt(p) + 2)
    + CodeB(b, slots, Targets(Some(LenB(b) + LenOpt(p) + 1), Some(LenB(b))))
    + CodeOptSimple(p, slots)
    + [Jump(Encode(-(LenTest(c) + LenB(b) + LenOpt(p))))]
  }

  /** The condition of a `for`, which jumps `d` instructions past its own jump when it does not hold. */
  function CodeTest(c: Option<Expr>, d: int): seq<Instr> {
    if c.None? then [] else CodeE(c.value) + [JumpUnless(Encode(d))]
  }

  /** One arm; `skip` is the displacement of its conditional jump. */
  function CodeClause(c: Clause, slots: seq<string>, tg: Targets, skip: int): (r: seq<Instr>)
    ensures |r| == LenClause(c)
    decreases c, 1
  {
    CodeE(c.cond) + [JumpUnless(Encode(skip))] + CodeB(c.blk, slots, tg.Shift(|CodeE(c.cond)| + 1))
  }

  /** The arms, each with a jump to `end` after it. */
  function CodeArms(cs: seq<Clause>, slots: seq<string>, tg: Targets, end: Option<int>): (r: seq<Instr>)
    ensures |r| == LenArms(cs)
    decreases cs, 0
  {
    if cs == [] then []
    else
      var (n, c) := (LenArms(cs[..|cs| - 1]), cs[|cs| - 1]);
      CodeArms(cs[..|cs| - 1], slots, tg, end)
      + CodeClause(c, slots, tg.Shift(n), LenB(c.blk) + 2)
      + [JumpTo(Shifted(end, n + LenClause(c)))]
  }

  /** The arms; the last one has a jump after it only if an `else` follows. */
  function CodeClauses(cs: seq<Clause>, slots: seq<string>, tg: Targets, end: Option<int>, more: bool): (r: seq<Instr>)
    ensures |r| == if more then LenArms(cs) else LenClauses(cs)
    decreases cs, 1
  {
    if more || cs == [] then CodeArms(cs, slots, tg, end)
    else
      var (n, c) := (LenArms(cs[..|cs| - 1]), cs[|cs| - 1]);
      CodeArms(cs[..|cs| - 1], slots, tg, end) + CodeClause(c, slots, tg.Shift(n), LenB(c.blk) + 1)
  }

  function CodeElse(els: ElsePart, slots: seq<string>, tg: Targets): seq<Instr>
    decreases els, 1
  {
    if els.NoElse? then [] else CodeB(els.blk, slots, tg)
  }

  /** An `if` statement; `end` is where the jumps after its arms lead. */
  function CodeIf(s: Stmt, slots: seq<string>, tg: Targets, end: Option<int>): (r: seq<Instr>)
    requires s.If?
    ensures |r| == LenS(s)
    decreases s, 0
  {
    CodeClauses(s.clauses, slots, tg, end, s.els.Else?) + CodeElse(s.els, slots, tg.Shift(LenArms(s.clauses)))
  }

  function CodeB(b: seq<Stmt>, slots: seq<string>, tg: Targets): (r: seq<Instr>)
    ensures |r| == LenB(b)
    decreases b, 0
  {
    if b == [] then []
    else CodeB(b[..|b| - 1], slots, tg) + CodeS(b[|b| - 1], slots, tg.Shift(LenB(b[..|b| - 1])))
  }

  // ----- Functions -----

  /** A half-open interval of instructions. */
  datatype Span = Span(begin: int, end: int)

  /** The intervals that the compiler excludes from the enclosing scope, i.e. the nested function bodies, at the
      offsets where they are when they are compiled.  In a `for` this is behind the post clause. */
  function HolesS(s: Stmt, at: int): seq<Span>
    decreases s, 1
  {
    match s
    case If(cs, els) => HolesArms(cs, at) + HolesElse(els, at + LenArms(cs))
    case While(c, b) => HolesB(b, at + |CodeE(c)| + 1)
    case For(i, c, p, b) => HolesB(b, at + LenOpt(i) + LenTest(c) + LenOpt(p))
    case FunDecl(_, _, b) => [Span(at + 1, at + LenB(b) + 3)]
    case _ => []
  }

  function HolesClause(c: Clause, at: int): seq<Span>
    decreases c, 1
  {
    HolesB(c.blk, at + |CodeE(c.cond)| + 1)
  }

  function HolesArms(cs: seq<Clause>, at: int): seq<Span>
    decreases cs, 0
  {
    if cs == [] then []
    else HolesArms(cs[..|cs| - 1], at) + HolesClause(cs[|cs| - 1], at + LenArms(cs[..|cs| - 1]))
  }

  function HolesElse(els: ElsePart, at: int): seq<Span>
    decreases els, 1
  {
    if els.NoElse? then [] else HolesB(els.blk, at)
  }

  function HolesB(b: seq<Stmt>, at: int): seq<Span>
    decreases b, 0
  {
    if b == [] then [] else HolesB(b[..|b| - 1], at) + HolesS(b[|b| - 1], at + LenB(b[..|b| - 1]))
  }

  /** What is left of [begin, end) when the holes are taken out. */
  function Gaps(begin: int, holes: seq<Span>, end: int): seq<Span>
    decreases |holes|
  {
    if holes == [] then [Span(begin, end)] else [Span(begin, holes[0].begin)] + Gaps(holes[0].end, holes[1..], end)
  }

  function Resolve(i: Instr, slots: seq<string>): Instr {
    match i
    case LoadSymbolic(x) => if x in slots then LoadLocal(SlotOf(slots, x)) else LoadGlobal(x)
    case StoreSymbolic(x) => if x in slots then StoreLocal(SlotOf(slots, x)) else StoreGlobal(x)
    case ModifySymbolic(a, x) => if x in slots then ModifyLocal(a, SlotOf(slots, x)) else ModifyGlobal(a, x)
    case _ => i
  }

  predicate Covers(spans: seq<Span>, k: int) {
    exists i :: 0 <= i < |spans| && spans[i].begin <= k < spans[i].end
  }

  /** The instructions inside the spans with their names resolved, the others as they are. */
  function ResolveIn(code: seq<Instr>, spans: seq<Span>, slots: seq<string>): (r: seq<Instr>)
    ensures |r| == |code|
  {
    seq(|code|, k requires 0 <= k < |code| => if Covers(spans, k) then Resolve(code[k], slots) else code[k])
  }

  /** How much an instruction raises the operand stack. */
  function Effect(i: Instr): int {
    match i
    case LoadConst(_) => 1
    case LoadLocal(_) => 1
    case LoadAt => -1
    case LoadGlobal(_) => 1
    case ModifyLocal(_, _) => -1
    case ModifyAt(_) => -3
    case ModifyGlobal(_, _) => -1
    case StoreLocal(_) => -1
    case StoreAt => -3
    case StoreGlobal(_) => -1
    case PrintTop => -1
    case Return => -1
    case Jump(_) => 0
    case JumpUnless(_) => -1
    case Call(n) => 0 - n
    case Function(_) => 1
    case Negate => 0
    case Not => 0
    case Arith(_) => -1
    case Cmp2Way(_) => -1
    case Cmp3Way(_) => -1
    case MakeList(n) => 1 - n
    case MakeDict(n) => 1 - 2 * n
    case Length => 0
    case LoadSymbolic(_) => 1
    case ModifySymbolic(_, _) => -1
    case StoreSymbolic(_) => -1
  }

  /** size_t has 64 bits. */
  const SIZE_T := 0x1_0000_0000_0000_0000

  /** The largest operand depth that a linear scan of the spans meets, in modular arithmetic as the compiler
      computes it; the scan stands before instruction j of span i. */
  function ScanMax(code: seq<Instr>, spans: seq<Span>, i: nat, j: int, depth: nat, max: nat): nat
    requires i <= |spans|
    decreases |spans| - i, if i < |spans| then spans[i].end - j else 0
  {
    if i == |spans| then max
    else if j < spans[i].end then
      var d := if 0 <= j < |code| then (depth + Effect(code[j])) % SIZE_T else depth;
      ScanMax(code, spans, i, j + 1, d, if max < d then d else max)
    else ScanMax(code, spans, i + 1, if i + 1 < |spans| then spans[i + 1].begin else 0, depth, max)
  }

  function MaxStack(code: seq<Instr>, spans: seq<Span>): nat {
    ScanMax(code, spans, 0, if spans == [] then 0 else spans[0].begin, 0, 0)
  }

  /** The body of a function before its names are resolved. */
  function RawBody(b: seq<Stmt>, slots: seq<string>): seq<Instr> {
    CodeB(b, slots, NO_TARGETS) + [LoadConst(Nil), Return]
  }

  function FunSpans(b: seq<Stmt>): seq<Span> {
    Gaps(0, HolesB(b, 0), LenB(b) + 2)
  }

  function FunShape(ps: seq<string>, b: seq<Stmt>): Shape
    decreases b, 1
  {
    var slots := SlotsB(ps, b);
    Shape(|ps|, |slots|, LenB(b) + 3, MaxStack(CodeB(b, slots, NO_TARGETS) + [LoadConst(Nil), Return], FunSpans(b)))
  }

  function FunCode(ps: seq<string>, b: seq<Stmt>): (r: seq<Instr>)
    ensures |r| == LenB(b) + 3
    decreases b, 2
  {
    var slots := SlotsB(ps, b);
    [Function(FunShape(ps, b))]
    + ResolveIn(CodeB(b, slots, NO_TARGETS) + [LoadConst(Nil), Return], FunSpans(b), slots)
  }

  /** The limits that close_scope() and fun_end() check. */
  predicate FunFits(ps: seq<string>, b: seq<Stmt>) {
    && FunShape(ps, b).maxstack <= (SIZE_T - 1) / 2
    && LenB(b) + 3 <= INT32_MAX
    && |SlotsB(ps, b)| <= INT32_MAX
  }
}
