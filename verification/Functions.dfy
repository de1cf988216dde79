/** The compilation of a function as a transformation of the compiler's state. */
module Functions {
  import opened Common
  import opened Bytecode
  import opened Syntax
  import opened Codegen
  import opened Patching
  import opened Snapshots
  import opened Scoping
  import opened Control

  /** The ranges when another scope becomes the innermost one. */
  function Suspended(rs: seq<Range>, end: int): seq<Range> {
    if rs == [] then [] else EndLast(rs, end)
  }

  /** Inside of a function with the parameters ps, before its body; p is the state before the function. */
  function Opened(p: Snap, ps: seq<string>): Snap {
    var at := |p.prog| + 1;
    Snap(p.prog + [Function(Shape(|ps|, 0, 0, 0))], p.scopes + [ps],
      Suspended(p.ranges, at) + [Range(|p.scopes|, at, -1)], p.sIf + [-1], p.sBreak + [-1], p.sContinue + [-1])
  }

  /** The ranges after a function whose code ends at `end`. */
  function Resumed(rs: seq<Range>, scope: int, end: int): seq<Range> {
    if scope == 0 then rs else rs + [Range(scope - 1, end, -1)]
  }

  /** After the function. */
  ghost function Closed(p: Snap, ps: seq<string>, b: seq<Stmt>): Snap {
    var at := |p.prog| + 1;
    Snap(p.prog + FunCode(ps, b), p.scopes, Resumed(Suspended(p.ranges, at), |p.scopes|, at + LenB(b) + 2),
      p.sIf, p.sBreak, p.sContinue)
  }

  /** Between functions or inside of one. */
  ghost predicate Before(p: Snap) {
    p.ranges == [] || Last(p.ranges).scope == |p.scopes| - 1
  }

  lemma {:induction false} OpenedOk(p: Snap, ps: seq<string>)
    ensures Ok(Opened(p, ps)) && !InLoop(Opened(p, ps))
  {
  }

  /** A function body leaves no jumps open: they would be on the stacks above the sentinel. */
  lemma {:induction false} NoneOpen(p: Snap, ps: seq<string>, b: seq<Stmt>, q: Snap)
    requires Ok(Opened(p, ps)) && q == AfterB(Opened(p, ps), b) && Ok(q) && !InLoop(q)
    ensures q.sIf == p.sIf + [-1] && q.sBreak == p.sBreak + [-1] && q.sContinue == p.sContinue + [-1]
    ensures q.scopes == p.scopes + [SlotsB(ps, b)]
  {
    hide SlotsB, CodeB, HolesB, PendB, LenB;
    var at := |p.prog| + 1;
    PendWithinB(b, at, ToBreak);
    PendWithinB(b, at, ToContinue);
    NothingAbove(p.sBreak, PendB(b, at, ToBreak));
    NothingAbove(p.sContinue, PendB(b, at, ToContinue));
  }

  lemma {:induction false} NothingAbove(base: seq<int>, ps: seq<int>)
    requires forall p :: p in ps ==> 0 <= p
    ensures ps != [] ==> Last(base + [-1] + ps) >= 0
    ensures ps == [] ==> base + [-1] + ps == base + [-1]
  {
    if ps != [] {
      assert Last(base + [-1] + ps) == ps[|ps| - 1] && ps[|ps| - 1] in ps;
    } else {
      assert base + [-1] + ps == base + [-1];
    }
  }

  /** The instructions that close_scope() finds at the end of a function. */
  ghost predicate AtFunEnd(p: Snap, ps: seq<string>, b: seq<Stmt>, q: Snap, at: int, end: int, prog: seq<Instr>,
      spans: seq<Span>) {
    && Ok(Opened(p, ps)) && q == AfterB(Opened(p, ps), b) && at == |p.prog| && end == at + LenB(b) + 3
    && prog == q.prog + [LoadConst(Nil)] + [Return]
    && spans == Gaps(at + 1, HolesB(b, at + 1), end)
  }

  lemma {:induction false} EndRanges(
      p: Snap, ps: seq<string>, b: seq<Stmt>, q: Snap, at: int, end: int, prog: seq<Instr>, spans: seq<Span>)
    requires AtFunEnd(p, ps, b, q, at, end, prog, spans)
    ensures |prog| == end && spans != []
    ensures q.ranges != [] && EndLast(q.ranges, end) == Suspended(p.ranges, at + 1) + Tagged(|p.scopes|, spans)
  {
    hide SlotsB, CodeB, HolesB, PendB, LenB;
    RangesAreGaps(Suspended(p.ranges, at + 1), |p.scopes|, at + 1, HolesB(b, at + 1), end);
    GapsStart(at + 1, HolesB(b, at + 1), end);
  }

  lemma {:induction false} EndCode(
      p: Snap, ps: seq<string>, b: seq<Stmt>, q: Snap, at: int, end: int, prog: seq<Instr>, spans: seq<Span>)
    requires AtFunEnd(p, ps, b, q, at, end, prog, spans)
    ensures at < |prog| && Bounded(at + 1, spans, end)
    ensures MaxStack(prog, spans) == FunShape(ps, b).maxstack
    ensures var code := ResolveIn(prog, spans, SlotsB(ps, b));
      && code[at] == Function(Shape(|ps|, 0, 0, 0))
      && code[at := Function(FunShape(ps, b))] == p.prog + FunCode(ps, b)
  {
    var slots := SlotsB(ps, b);
    var (pre, raw) := (Opened(p, ps).prog, CodeB(b, slots, NO_TARGETS) + [LoadConst(Nil), Return]);
    assert FunCode(ps, b) == [Function(FunShape(ps, b))] + ResolveIn(raw, FunSpans(b), slots);
    assert FunShape(ps, b).maxstack == MaxStack(raw, FunSpans(b));
    hide SlotsB, CodeB, HolesB, PendB, LenB, FunCode, FunShape, FunSpans, Gaps, MaxStack;
    assert prog == pre + raw;
    ClosedBody(pre, b, slots, raw, at + 1, end, spans);
    Relabel(p.prog, Function(Shape(|ps|, 0, 0, 0)), Function(FunShape(ps, b)), ResolveIn(raw, FunSpans(b), slots));
  }

  lemma {:induction false} Relabel(a: seq<Instr>, i: Instr, j: Instr, b: seq<Instr>)
    ensures (a + [i] + b)[|a|] == i && (a + [i] + b)[|a| := j] == a + ([j] + b)
  {
  }

  /** A nested function is a hole in the scope around it. */
  lemma {:induction false} FunState(p: Snap, x: string, ps: seq<string>, b: seq<Stmt>)
    requires Ok(p)
    ensures AfterS(p, FunDecl(x, ps, b)) == Closed(p, ps, b).(prog := p.prog + FunCode(ps, b) + [StoreSymbolic(x)])
  {
    var (s, slots) := (FunDecl(x, ps, b), Slots(p));
    var (at, end, code) := (|p.prog| + 1, |p.prog| + LenB(b) + 3, FunCode(ps, b) + [StoreSymbolic(x)]);
    assert Leaves(s, slots, slots, code, [Span(at, end)], |p.prog|);
    Cat3(p.prog, FunCode(ps, b), [StoreSymbolic(x)]);
    assert [Span(at, end)][1..] == [];
    assert SetSlots(p.scopes, slots) == p.scopes;
    hide SlotsB, CodeB, HolesB, PendB, LenB, FunCode, CodeS, HolesS, PendS, SlotsS;
    LeavesState(p, s, slots, code, [Span(at, end)], Closed(p, ps, b).(prog := p.prog + code));
  }
}
