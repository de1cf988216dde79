/** The one-pass compiler: it reads tokens and writes code, without ever building a tree.

    A parse error unwinds the compiler; here every method returns false in that case. */
module Emitter {
  import opened Common
  import opened Bytecode
  import opened Syntax
  import opened Codegen
  import opened Grammar
  import opened Patching
  import opened Snapshots
  import opened Backpatch
  import opened Scoping
  import opened Control
  import opened Functions

  class Parser {
    var toks: Tokens                 // what the lexer still delivers, the current token first
    var prog: seq<Instr>
    var scopes: seq<seq<string>>     // the locals of the open functions, each in insertion order
    var ranges: seq<Range>
    var sIf: seq<int>                // positions of jumps to be patched; -1 opens a function, -2 a segment
    var sBreak: seq<int>
    var sContinue: seq<int>

    ghost function State(): Snap
      reads this
    {
      Snap(prog, scopes, ranges, sIf, sBreak, sContinue)
    }

    constructor (source: Tokens)
      ensures toks == source && prog == [] && scopes == [] && ranges == []
      ensures sIf == [] && sBreak == [] && sContinue == []
    {
      toks, prog, scopes, ranges := source, [], [], [];
      sIf, sBreak, sContinue := [], [], [];
    }

    method Advance()
      modifies `toks
      ensures toks == Rest(old(toks))
    {
      toks := if toks == [] then toks else toks[1..];
    }

    method Slurp(t: Token) returns (ok: bool)
      requires t != Eof
      modifies `toks
      ensures ok == Skip(old(toks), t).Some?
      ensures ok ==> toks == Skip(old(toks), t).value
    {
      ok := Cur(toks) == t;
      if ok { Advance(); }
    }

    method Emit(i: Instr)
      modifies `prog
      ensures prog == old(prog) + [i]
    {
      prog := prog + [i];
    }

    // ----- Expressions -----

    method Expr(min: int) returns (ok: bool)
      modifies `toks, `prog
      ensures ok == ParseE(old(toks), min).Some?
      ensures ok ==> var (e, rest) := ParseE(old(toks), min).value;
        toks == rest && prog == old(prog) + CodeE(e)
      decreases |toks|, 3
    {
      var expectExpr := true;
      ghost var acc: Option<Syntax.Expr> := None;
      while true
        invariant expectExpr == acc.None?
        invariant |toks| <= |old(toks)| && (!expectExpr ==> |toks| < |old(toks)|)
        invariant ParseE(old(toks), min) == Climb(acc, toks, min)
        invariant prog == old(prog) + CodeAcc(acc)
        decreases |toks|
      {
        var cur := Cur(toks);
        ghost var m := Round(acc, toks, min);
        if IsStop(cur) {
          return !expectExpr;
        } else if expectExpr {
          ok := ReadOperand(cur);
          if !ok { return false; }
          expectExpr := false;
        } else if cur.Operator? {
          var more;
          more, ok := BinaryOperator(min, cur.op, acc.value);
          if !ok { return false; }
          if !more { return true; }
          Cat4(old(prog), CodeE(acc.value), CodeE(m.e.right), [BinInstr(cur.op)]);
        } else {
          ghost var before := prog;
          ok := ReadPostfix(cur, acc.value);
          if !ok { return false; }
          PostfixCode(old(prog), m.e);
        }
        acc := Some(m.e);
      }
    }

    /** The branches of expr() that are taken while an operand is expected. */
    method ReadOperand(cur: Token) returns (ok: bool)
      requires toks != [] && cur == toks[0] && !IsStop(cur)
      modifies `toks, `prog
      ensures ok == Operand(cur, old(toks)[1..]).Go?
      ensures ok ==> var Go(e, rest) := Operand(cur, old(toks)[1..]);
        toks == rest && prog == old(prog) + CodeE(e)
      decreases |toks|, 2
    {
      hide Climb, ParseE, ParseEs, ParseNs, CodeEs, CodeNs;
      var n;
      if cur.Literal? {
        Emit(LoadConst(cur.v));
        Advance();
        ok := true;
      } else if cur.Ident? {
        Emit(LoadSymbolic(cur.name));
        Advance();
        ok := true;
      } else if cur == LBracket {
        n, ok := Elements(RBracket);
        if ok { Emit(MakeList(n)); }
      } else if cur == LBrace {
        n, ok := NewDict();
        if ok { Emit(MakeDict(n)); }
      } else if cur == LParen {
        Advance();
        ok := Expr(-1);
        if ok { ok := Slurp(RParen); }
      } else {
        ok := UnaryOperator(cur);
      }
    }

    method UnaryOperator(cur: Token) returns (ok: bool)
      requires toks != [] && cur == toks[0] && !IsStop(cur)
      requires !cur.Literal? && !cur.Ident? && cur != LBracket && cur != LBrace && cur != LParen
      modifies `toks, `prog
      ensures ok == Operand(cur, old(toks)[1..]).Go?
      ensures ok ==> var Go(e, rest) := Operand(cur, old(toks)[1..]);
        toks == rest && prog == old(prog) + CodeE(e)
      decreases |toks|, 1
    {
      var props := AsUnary(cur);
      if props.None? { return false; }
      Advance();
      ok := Expr(UnPriority(props.value));
      if ok { Emit(UnInstr(props.value)); }
    }

    /** `more` is false if the operator belongs to an enclosing call of Expr. */
    method BinaryOperator(min: int, op: BinOp, ghost a: Syntax.Expr) returns (more: bool, ok: bool)
      requires toks != [] && toks[0] == Operator(op)
      modifies `toks, `prog
      ensures more == (Priority(op) >= min)
      ensures !more ==> ok && toks == old(toks) && prog == old(prog)
      ensures more ==> ok == Infix(a, op, old(toks)[1..]).Go?
      ensures more && ok ==> var Go(e, rest) := Infix(a, op, old(toks)[1..]);
        toks == rest && prog == old(prog) + CodeE(e.right) + [BinInstr(op)]
      decreases |toks|, 1
    {
      more := Priority(op) >= min;
      if !more { return false, true; }
      Advance();
      ok := Expr(Priority(op) + IsLeftAssoc(op));
      if ok { Emit(BinInstr(op)); }
    }

    /** The branches of expr() that extend the operand `a`, except for the binary operators. */
    method ReadPostfix(cur: Token, ghost a: Syntax.Expr) returns (ok: bool)
      requires toks != [] && cur == toks[0] && !IsStop(cur)
      modifies `toks, `prog
      ensures ok == Postfix(a, cur, old(toks)[1..]).Go?
      ensures ok ==> var Go(e, rest) := Postfix(a, cur, old(toks)[1..]);
        toks == rest && prog == old(prog) + PostfixTail(e)
      decreases |toks|, 2
    {
      if cur == LBracket {
        ok := Subscript();
      } else if cur == LParen {
        var nargs;
        nargs, ok := Elements(RParen);
        if ok { Emit(Call(nargs)); }
      } else if cur == Dot {
        ok := Member();
      } else {
        ok := false;
      }
    }

    method Subscript() returns (ok: bool)
      requires toks != [] && toks[0] == LBracket
      modifies `toks, `prog
      ensures var r := ParseE(old(toks)[1..], -1);
        && ok == (r.Some? && Cur(r.value.1) == RBracket)
        && (ok ==> toks == Rest(r.value.1) && prog == old(prog) + (CodeE(r.value.0) + [LoadAt]))
      decreases |toks|, 1
    {
      Advance();
      ok := Expr(-1);
      if ok { ok := Slurp(RBracket); }
      if ok { Emit(LoadAt); }
    }

    method Member() returns (ok: bool)
      requires toks != [] && toks[0] == Dot
      modifies `toks, `prog
      ensures var ts := old(toks)[1..];
        && ok == Cur(ts).Ident?
        && (ok ==> toks == Rest(ts) && prog == old(prog) + [LoadConst(Str(Cur(ts).name)), LoadAt])
    {
      Advance();
      var field := Cur(toks);
      ok := field.Ident?;
      if ok {
        Emit(LoadConst(Str(field.name)));
        Emit(LoadAt);
        Advance();
      }
    }

    /** The arguments of a call or the elements of a list, after the opening token. */
    method Elements(close: Token) returns (n: nat, ok: bool)
      requires toks != [] && (close == RParen || close == RBracket)
      modifies `toks, `prog
      ensures ok == ParseEs(old(toks)[1..], close).Some?
      ensures ok ==> var (es, rest) := ParseEs(old(toks)[1..], close).value;
        toks == rest && n == |es| && prog == old(prog) + CodeEs(es)
      decreases |toks|, 1
    {
      Advance();
      if Cur(toks) == close {
        Advance();
        return 0, true;
      }
      ghost var acc: seq<Syntax.Expr> := [];
      n := 1;
      while true
        invariant |toks| < |old(toks)| && n == |acc| + 1
        invariant ParseEs(old(toks)[1..], close) == ParseMoreEs(acc, toks, close)
        invariant prog == old(prog) + CodeEs(acc)
        decreases |toks|
      {
        ghost var r := Climb(None, toks, -1);
        ok := Expr(-1);
        if !ok { return; }
        SnocEs(old(prog), acc, r.value.0);
        acc := acc + [r.value.0];
        if Cur(toks) == close {
          Advance();
          return;
        } else if Cur(toks) == Comma {
          Advance();
          n := n + 1;
        } else {
          return n, false;
        }
      }
    }

    method NewDict() returns (n: nat, ok: bool)
      requires toks != []
      modifies `toks, `prog
      ensures ok == ParseNs(old(toks)[1..]).Some?
      ensures ok ==> var (ns, rest) := ParseNs(old(toks)[1..]).value;
        toks == rest && n == |ns| && prog == old(prog) + CodeNs(ns)
      decreases |toks|, 1
    {
      Advance();
      if Cur(toks) == RBrace {
        Advance();
        return 0, true;
      }
      ghost var acc: seq<Entry> := [];
      n := 1;
      while true
        invariant |toks| < |old(toks)| && n == |acc| + 1
        invariant ParseNs(old(toks)[1..]) == ParseMoreNs(acc, toks)
        invariant prog == old(prog) + CodeNs(acc)
        decreases |toks|
      {
        ghost var k := Climb(None, toks, -1);
        ok := Expr(-1);
        if !ok { return; }
        ok := Slurp(Colon);
        if !ok { return; }
        ghost var v := ParseE(toks, -1);
        ok := Expr(-1);
        if !ok { return; }
        ghost var entry := Entry(k.value.0, v.value.0);
        SnocNs(old(prog), acc, entry);
        acc := acc + [entry];
        if Cur(toks) == RBrace {
          Advance();
          return;
        } else if Cur(toks) == Comma {
          Advance();
          n := n + 1;
        } else {
          return n, false;
        }
      }
    }

    // ----- Assignments -----

    method Unemit() returns (i: Instr)
      requires prog != []
      modifies `prog
      ensures i == Last(old(prog)) && prog == old(prog)[..|old(prog)| - 1]
    {
      i := prog[|prog| - 1];
      prog := prog[..|prog| - 1];
    }

    /** The slot of x in the innermost function, which gets a new one if x has none. */
    method Put(x: string) returns (slot: nat)
      requires scopes != []
      modifies `scopes
      ensures scopes == SetSlots(old(scopes), AddSlot(Last(old(scopes)), x))
      ensures slot == SlotOf(Last(scopes), x)
    {
      var top := scopes[|scopes| - 1];
      if x !in top { top := top + [x]; }
      scopes := scopes[|scopes| - 1 := top];
      slot := SlotOf(top, x);
    }

    /** load_to_store() and load_to_modify() */
    method LoadTo(load: Instr, kind: Kind) returns (i: Instr, ok: bool)
      requires scopes != []
      modifies `scopes
      ensures scopes == if load.LoadSymbolic? && kind == StoreHere
        then SetSlots(old(scopes), AddSlot(Last(old(scopes)), load.name)) else old(scopes)
      ensures ok == (load.LoadSymbolic? || (load.LoadAt? && kind != StoreHere))
      ensures ok ==> i == StoreInstr(load, kind, Last(scopes))
    {
      i, ok := load, true;
      if load.LoadSymbolic? {
        if kind == StoreHere {
          var slot := Put(load.name);
          i := StoreLocal(slot);
        } else if kind == Store {
          i := StoreSymbolic(load.name);
        } else {
          i := ModifySymbolic(kind.aop, load.name);
        }
      } else if load.LoadAt? && kind != StoreHere {
        i := if kind == Store then StoreAt else ModifyAt(kind.aop);
      } else {
        ok := false;
      }
    }

    /** expr_or_assignment() */
    method ExprOrAssignment() returns (ok: bool)
      requires scopes != []
      modifies `toks, `prog, `scopes
      ensures scopes != []
      ensures ok == ParseSimple(old(toks)).Some?
      ensures ok ==> var (m, rest) := ParseSimple(old(toks)).value;
        && toks == rest && scopes == SetSlots(old(scopes), SlotsSimple(Last(old(scopes)), m))
        && prog == old(prog) + CodeSimple(m, Last(scopes))
    {
      ghost var l := ParseE(toks, -1);
      ok := Expr(-1);
      if !ok { return; }
      var barrier := Cur(toks);
      if barrier == Semicolon {
        Emit(PrintTop);
        Cat3(old(prog), CodeE(l.value.0), [PrintTop]);
        return;
      }
      var kind := AsKind(barrier);
      if kind.None? { return false; }
      ghost var cl := CodeE(l.value.0);
      ghost var r := ParseE(Rest(toks), -1);
      AssignTarget(kind.value, l.value.0);
      ok := Assignment(kind.value, cl, old(prog));
      if ok { AssignMeaning(old(prog), kind.value, l.value.0, r.value.0, Last(old(scopes)), Last(scopes)); }
    }

    /** The part of expr_or_assignment() behind the left-hand side, whose code is cl. */
    method Assignment(kind: Kind, ghost cl: seq<Instr>, ghost before: seq<Instr>) returns (ok: bool)
      requires scopes != [] && prog == before + cl && cl != []
      modifies `toks, `prog, `scopes
      ensures scopes != []
      ensures ok ==> scopes == SetSlots(old(scopes), SlotsStore(Last(old(scopes)), Last(cl), kind))
      ensures var r := ParseE(Rest(old(toks)), -1);
        && ok == (r.Some? && StoresTo(Last(cl), kind))
        && (ok ==>
              && toks == r.value.1
              && prog == before + cl[..|cl| - 1] + CodeE(r.value.0) + [StoreInstr(Last(cl), kind, Last(scopes))])
    {
      var load := Unemit();
      assert prog == before + cl[..|cl| - 1] && load == Last(cl);
      Advance();
      ok := Expr(-1);
      if !ok { return; }
      var i;
      i, ok := LoadTo(load, kind);
      if !ok { return; }
      Emit(i);
    }

    // ----- Jumps -----

    method PostponeJump() returns (pos: nat)
      modifies `prog
      ensures pos == |old(prog)| && prog == old(prog) + [Jump(0)]
    {
      pos := |prog|;
      Emit(Jump(0));
    }

    method PostponeJumpUnless() returns (pos: nat)
      modifies `prog
      ensures pos == |old(prog)| && prog == old(prog) + [JumpUnless(0)]
    {
      pos := |prog|;
      Emit(JumpUnless(0));
    }

    method FixupJump(from: int, to: int)
      requires 0 <= from < |prog| && (prog[from].Jump? || prog[from].JumpUnless?)
      modifies `prog
      ensures prog == Fixed(old(prog), from, to)
    {
      var c := Encode(to - from);
      prog := prog[from := if prog[from].Jump? then Jump(c) else JumpUnless(c)];
    }

    method EmitJumpTo(to: int)
      modifies `prog
      ensures prog == old(prog) + [Jump(Encode(to - |old(prog)|))]
    {
      var from := PostponeJump();
      FixupJump(from, to);
    }

    /** stack_segment_end_fixup(): pops the positions above the sentinel -2 and patches them. */
    method SegmentEnd(stack: seq<int>, to: int, ghost base: seq<int>, ghost ps: seq<int>) returns (rest: seq<int>)
      requires stack == base + [-2] + ps
      requires forall p :: p in ps ==> 0 <= p < |prog| && prog[p].Jump?
      modifies `prog
      ensures rest == base && prog == Patched(old(prog), ps, to)
    {
      rest := stack;
      ghost var k := |ps|;
      while true
        invariant 0 <= k <= |ps| && rest == base + [-2] + ps[..k]
        invariant |prog| == |old(prog)|
        invariant forall i {:trigger prog[i]} :: 0 <= i < |prog| ==>
          prog[i] == if i in ps[k..] then Jump(Encode(to - i)) else old(prog)[i]
        decreases k
      {
        var pos := rest[|rest| - 1];
        rest := rest[..|rest| - 1];
        assert k > 0 ==> pos == ps[k - 1] && pos in ps;
        if pos == -2 {
          assert ps[0..] == ps;
          assert rest == base;
          return;
        }
        FixupJump(pos, to);
        assert ps[k - 1..] == [pos] + ps[k..];
        k := k - 1;
      }
    }

    method TiReverse(lo: nat, n: nat)
      requires lo + n <= |prog|
      modifies `prog
      ensures IsReverse(old(prog), prog, lo, n)
    {
      var (a, z, k) := (lo, lo + n, n / 2);
      while k > 0
        invariant 0 <= k <= n / 2 && a == lo + (n / 2 - k) && z == lo + n - (n / 2 - k)
        invariant |prog| == |old(prog)|
        invariant forall i {:trigger prog[i]} :: 0 <= i < |prog| ==>
          prog[i] == if lo <= i < a || z <= i < lo + n then old(prog)[lo + (lo + n - 1 - i)] else old(prog)[i]
      {
        z := z - 1;
        prog := prog[a := prog[z]][z := prog[a]];
        a, k := a + 1, k - 1;
      }
    }

    method TiRotateLeft(lo: nat, n: nat, r: nat)
      requires r <= n && lo + n <= |prog|
      modifies `prog
      ensures prog == Rotated(old(prog), lo, n, r)
    {
      var d := n - r;
      TiReverse(lo, n);
      ghost var p1 := prog;
      TiReverse(lo, d);
      ghost var p2 := prog;
      TiReverse(lo + d, r);
      ThreeReversals(old(prog), p1, p2, prog, lo, n, r, d);
    }

    // ----- Statements -----

    /** `(` condition `)` with an open conditional jump, whose position is returned. */
    method Condition() returns (pos: nat, ok: bool)
      modifies `toks, `prog
      ensures ok == ParseCond(old(toks)).Some?
      ensures ok ==> var (c, rest) := ParseCond(old(toks)).value;
        && toks == rest && pos == |old(prog)| + |CodeE(c)|
        && prog == old(prog) + CodeE(c) + [JumpUnless(0)]
    {
      pos := 0;
      ok := Slurp(LParen);
      if !ok { return; }
      ok := Expr(-1);
      if !ok { return; }
      pos := PostponeJumpUnless();
      ok := Slurp(RParen);
    }

    /** Statements in braces. */
    method Block() returns (ok: bool)
      requires Ok(State())
      modifies this
      ensures ok == ParseBlock(old(toks), old(InLoop(State()))).Some?
      ensures ok ==> var (b, rest) := ParseBlock(old(toks), old(InLoop(State()))).value;
        && toks == rest && State() == AfterB(old(State()), b)
      ensures ok ==> Ok(State()) && InLoop(State()) == old(InLoop(State()))
      decreases |toks|, 1
    {
      hide CodeS, CodeB, CodeE, CodeArms, CodeClause, CodeClauses, CodeIf, SlotsS, SlotsB, SlotsClauses;
      hide HolesS, HolesB, HolesArms, PendS, PendB, PendArms, LenS, LenB, LenArms, LenClauses;
      ok := Slurp(LBrace);
      if !ok { return; }
      ok := Statements(RBrace);
      if ok { Advance(); }
    }

    /** Statements up to the stop token: the loops of block() and parse(). */
    method Statements(stop: Token) returns (ok: bool)
      requires Ok(State()) && (stop == RBrace || stop == Eof)
      modifies this
      ensures ok == ParseSs([], old(toks), old(InLoop(State())), stop).Some?
      ensures ok ==> var (b, rest) := ParseSs([], old(toks), old(InLoop(State())), stop).value;
        && toks == rest && State() == AfterB(old(State()), b)
      ensures ok ==> Ok(State()) && InLoop(State()) == old(InLoop(State()))
      decreases |toks|, 5
    {
      hide CodeS, CodeB, CodeE, CodeArms, CodeClause, CodeClauses, CodeIf, SlotsS, SlotsB, SlotsClauses;
      hide HolesS, HolesB, HolesArms, PendS, PendB, PendArms, LenS, LenB, LenArms, LenClauses;
      ghost var (p, loop) := (State(), InLoop(State()));
      ghost var b: seq<Syntax.Stmt> := [];
      AfterNothing(p);
      while true
        invariant |toks| <= |old(toks)|
        invariant ParseSs([], old(toks), loop, stop) == ParseSs(b, toks, loop, stop)
        invariant State() == AfterB(p, b) && Ok(State()) && InLoop(State()) == loop
        decreases |toks|
      {
        ghost var (q, ts) := (State(), toks);
        ok := Stmt();
        if !ok { return; }
        if Cur(ts) != RBrace && Cur(ts) != Eof {
          ghost var s := ParseS(ts, loop).value.0;
          AfterSnoc(p, b, s);
          b := b + [s];
        }
        if Cur(toks) == RBrace || Cur(toks) == Eof {
          ok := Cur(toks) == stop;
          return;
        }
      }
    }

    method Stmt() returns (ok: bool)
      requires Ok(State())
      modifies this
      ensures IsBlockEnd(Cur(old(toks))) ==> ok && toks == old(toks) && State() == old(State())
      ensures !IsBlockEnd(Cur(old(toks))) ==>
        Compiles(ParseS(old(toks), InLoop(old(State()))), old(State()), ok, toks, State())
      decreases |toks|, 4
    {
      hide ParseE, ParseSimple, ParseIf, ParseWhile, ParseFor, ParseFun, ParseReturn, Compiles;
      var cur := Cur(toks);
      if cur == KwIf {
        ok := IfStmt();
      } else if cur == KwWhile {
        ok := WhileStmt();
      } else if cur == KwFor {
        ok := ForStmt();
      } else if cur == KwFun {
        ok := FunStmt();
      } else if IsBlockEnd(cur) {
        ok := true;
      } else {
        ok := SimpleStmt();
      }
    }

    method WhileStmt() returns (ok: bool)
      requires Ok(State()) && toks != []
      modifies this
      ensures Compiles(ParseWhile(old(toks)[1..]), old(State()), ok, toks, State())
      decreases |toks|, 3
    {
      hide CodeS, CodeB, CodeE, CodeArms, CodeClause, CodeClauses, CodeIf, SlotsS, SlotsB, SlotsClauses;
      hide HolesS, HolesB, HolesArms, PendS, PendB, PendArms, LenS, LenB, LenArms, LenClauses;
      hide ParseE, ParseCond, ParseBlock;
      ghost var p := State();
      Advance();
      ghost var c := ParseCond(toks);
      sBreak := sBreak + [-2];
      sContinue := sContinue + [-2];
      var begin := |prog|;
      var jump;
      jump, ok := Condition();
      if !ok { return; }
      Cat3(p.prog, CodeE(c.value.0), [JumpUnless(0)]);
      assert State() == LoopBody(p, CodeE(c.value.0) + [JumpUnless(0)], Slots(p));
      ghost var b := ParseBlock(toks, true);
      ok := Block();
      if !ok { return; }
      EndWhile(p, c.value.0, b.value.0, begin, jump);
    }

    /** The jump back and all the jumps that wait for it. */
    method EndWhile(ghost p: Snap, ghost c: Syntax.Expr, ghost b: seq<Syntax.Stmt>, begin: nat, jump: nat)
      requires Ok(p) && State() == AfterB(LoopBody(p, CodeE(c) + [JumpUnless(0)], Slots(p)), b)
      requires begin == |p.prog| && jump == begin + |CodeE(c)|
      modifies `prog, `sBreak, `sContinue
      ensures State() == AfterS(p, While(c, b)) && Ok(State()) && InLoop(State()) == InLoop(p)
    {
      hide CodeS, CodeB, CodeE, CodeArms, CodeClause, CodeClauses, CodeIf, SlotsS, SlotsB, SlotsClauses;
      hide HolesS, HolesB, HolesArms, PendS, PendB, PendArms, LenS, LenB, LenArms, LenClauses;
      ghost var (q, back) := (State(), |prog|);
      ghost var (ps, qs) := (PendB(b, jump + 1, ToBreak), PendB(b, jump + 1, ToContinue));
      EmitJumpTo(begin);
      WhileState(p, c, b, q, jump, back, |prog|, prog, ps, qs);
      FixupJump(jump, |prog|);
      sBreak := SegmentEnd(sBreak, |prog|, p.sBreak, ps);
      sContinue := SegmentEnd(sContinue, begin, p.sContinue, qs);
    }

    method ForStmt() returns (ok: bool)
      requires Ok(State()) && toks != []
      modifies this
      ensures Compiles(ParseFor(old(toks)[1..]), old(State()), ok, toks, State())
      decreases |toks|, 3
    {
      hide CodeS, CodeB, CodeE, CodeArms, CodeClause, CodeClauses, CodeIf, SlotsS, SlotsB, SlotsClauses;
      hide HolesS, HolesB, HolesArms, PendS, PendB, PendArms, LenS, LenB, LenArms, LenClauses;
      hide ParseE, ParseForHead, ParseBlock, CodeOptSimple, SlotsOpt, AfterS;
      ghost var (p, h) := (State(), ParseForHead(toks[1..]));
      sBreak := sBreak + [-2];
      sContinue := sContinue + [-2];
      var begin, jump, i1;
      begin, jump, i1, ok := ForClauses();
      if !ok { return; }
      var i2 := |prog|;
      ghost var ForHead(i, c, x) := h.value.0;
      assert State() == LoopBody(p, ForHeadCode(i, c, x, Last(scopes)), Last(scopes));
      ghost var b := ParseBlock(toks, true);
      ok := Block();
      if !ok { return; }
      EndFor(p, i, c, x, b.value.0, begin, jump, i1, i2);
    }

    /** The part of for_stmt() up to the closing parenthesis: the post clause is emitted where it stands. */
    method ForClauses() returns (begin: nat, jump: int, i1: nat, ok: bool)
      requires scopes != [] && toks != []
      modifies `toks, `prog, `scopes
      ensures scopes != []
      ensures ok == ParseForHead(old(toks)[1..]).Some?
      ensures ok ==> var (h, rest) := ParseForHead(old(toks)[1..]).value;
        var g := SlotsOpt(SlotsOpt(Last(old(scopes)), h.init), h.post);
        && toks == rest && scopes == SetSlots(old(scopes), g)
        && prog == old(prog) + ForHeadCode(h.init, h.test, h.post, g)
        && begin == |old(prog)| + LenOpt(h.init) && i1 == begin + LenTest(h.test)
        && |prog| == i1 + LenOpt(h.post) && jump == if h.test.None? then -1 else i1 - 1
    {
      hide ParseE, ParseForInit, ParseOptSimple, ParseTest, CodeOptSimple, SlotsOpt, LenOpt, ForHeadCode, SetSlots;
      begin, jump, i1 := 0, -1, 0;
      ghost var (slots, i) := (Last(scopes), ParseForInit(toks[1..]));
      Advance();
      ok := ForInit();
      if !ok { return; }
      SetSlotsTwice(old(scopes), SlotsOpt(slots, i.value.0), SlotsOpt(slots, i.value.0));
      begin := |prog|;
      ghost var c := ParseTest(toks);
      jump, ok := Test();
      if !ok { return; }
      ok := Slurp(Semicolon);
      if !ok { return; }
      i1 := |prog|;
      ghost var x := ParseOptSimple(toks, RParen);
      ok := OptSimple(RParen);
      if !ok { return; }
      ok := Slurp(RParen);
      if ok {
        HeadCode(i.value.0, c.value.0, x.value.0, slots, old(prog));
        ghost var g := SlotsOpt(SlotsOpt(slots, i.value.0), x.value.0);
        SetSlotsTwice(old(scopes), SlotsOpt(slots, i.value.0), g);
        SetSlotsTwice(old(scopes), g, g);
      }
    }

    /** The opening parenthesis and the initialization with its semicolon. */
    method ForInit() returns (ok: bool)
      requires scopes != []
      modifies `toks, `prog, `scopes
      ensures scopes != []
      ensures ok == ParseForInit(old(toks)).Some?
      ensures ok ==> var (m, rest) := ParseForInit(old(toks)).value;
        && toks == rest && scopes == SetSlots(old(scopes), SlotsOpt(Last(old(scopes)), m))
        && prog == old(prog) + CodeOptSimple(m, Last(scopes)) && |prog| == |old(prog)| + LenOpt(m)
    {
      hide ParseOptSimple, CodeOptSimple, SlotsOpt, LenOpt;
      ok := Slurp(LParen);
      if !ok { return; }
      ok := OptSimple(Semicolon);
      if !ok { return; }
      ok := Slurp(Semicolon);
    }

    method OptSimple(stop: Token) returns (ok: bool)
      requires scopes != []
      modifies `toks, `prog, `scopes
      ensures scopes != []
      ensures ok == ParseOptSimple(old(toks), stop).Some?
      ensures ok ==> var (m, rest) := ParseOptSimple(old(toks), stop).value;
        && toks == rest && scopes == SetSlots(old(scopes), SlotsOpt(Last(old(scopes)), m))
        && prog == old(prog) + CodeOptSimple(m, Last(scopes)) && |prog| == |old(prog)| + LenOpt(m)
    {
      hide ParseSimple, CodeSimple, SlotsSimple;
      if Cur(toks) != stop {
        ghost var m := ParseSimple(toks);
        ok := ExprOrAssignment();
        if ok { SimpleLength(m.value.0, Last(scopes)); }
      } else {
        ok := true;
        assert prog + [] == prog && SetSlots(scopes, Last(scopes)) == scopes;
      }
    }

    /** The condition of a `for`: the position of its open jump, or -1. */
    method Test() returns (jump: int, ok: bool)
      modifies `toks, `prog
      ensures ok == ParseTest(old(toks)).Some?
      ensures ok ==> var (c, rest) := ParseTest(old(toks)).value;
        && toks == rest && prog == old(prog) + OpenTest(c)
        && jump == if c.None? then -1 else |old(prog)| + LenTest(c) - 1
    {
      hide ParseE, CodeE;
      jump, ok := -1, true;
      if Cur(toks) != Semicolon {
        ghost var c := ParseE(toks, -1);
        ok := Expr(-1);
        if !ok { return; }
        jump := PostponeJumpUnless();
        Cat3(old(prog), CodeE(c.value.0), [JumpUnless(0)]);
      } else {
        assert prog + [] == prog;
      }
    }

    /** The part of for_stmt() behind the body. */
    method EndFor(ghost p: Snap, ghost i: Option<Simple>, ghost c: Option<Syntax.Expr>, ghost x: Option<Simple>,
        ghost b: seq<Syntax.Stmt>, begin: nat, jump: int, i1: nat, i2: nat)
      requires Ok(p) && begin == |p.prog| + LenOpt(i) && i1 == begin + LenTest(c) && i2 == i1 + LenOpt(x)
      requires jump == if c.None? then -1 else i1 - 1
      requires var g := SlotsOpt(SlotsOpt(Slots(p), i), x);
        State() == AfterB(LoopBody(p, ForHeadCode(i, c, x, g), g), b) && |prog| == i2 + LenB(b)
      modifies `prog, `sBreak, `sContinue
      ensures State() == AfterS(p, For(i, c, x, b)) && Ok(State()) && InLoop(State()) == InLoop(p)
    {
      hide CodeS, CodeB, CodeE, CodeArms, CodeClause, CodeClauses, CodeIf, SlotsS, SlotsB, SlotsClauses;
      hide HolesS, HolesB, HolesArms, PendS, PendB, PendArms, LenS, LenB, LenArms, LenClauses;
      hide CodeOptSimple, SlotsOpt, LenOpt, ForHeadCode, AfterS, AfterB, Rotated, Patched, Encode, CodeTest, OpenTest;
      var i3 := |prog|;
      var nrotate := i2 - i1;
      var ctnue := i3 - nrotate;
      ghost var (q, ps, qs) := (State(), PendB(b, i2, ToBreak), PendB(b, i2, ToContinue));
      EmitJumpTo(begin);
      var end := |prog|;
      ghost var open := prog;
      ForOpen(p, i, c, x, b, q, begin, i1, i2, i3, nrotate, end, open, ps, qs);
      ForStacks(p, i, c, x, b, q, begin, i1, i2, i3, open, ps, qs);
      ForState(p, i, c, x, b, q, begin, i1, i2, i3, nrotate, end, ctnue, open, ps, qs);
      if jump != -1 { FixupJump(jump, end); }
      sBreak := SegmentEnd(sBreak, end + nrotate, p.sBreak, ps);
      sContinue := SegmentEnd(sContinue, ctnue + nrotate, p.sContinue, qs);
      TiRotateLeft(i1, i3 - i1, nrotate);
    }

    // ----- Functions -----

    method OpenScope()
      modifies `ranges, `scopes
      ensures scopes == old(scopes) + [[]]
      ensures ranges == Suspended(old(ranges), |prog|) + [Range(|old(scopes)|, |prog|, -1)]
    {
      var pos := |prog|;
      if ranges != [] {
        ranges := ranges[|ranges| - 1 := ranges[|ranges| - 1].(end := pos)];
      }
      scopes := scopes + [[]];
      ranges := ranges + [Range(|scopes| - 1, pos, -1)];
    }

    method FunBegin() returns (pos: nat)
      modifies this
      ensures pos == |old(prog)| && toks == old(toks) && State() == Opened(old(State()), [])
    {
      pos := |prog|;
      Emit(Function(Shape(0, 0, 0, 0)));
      OpenScope();
      sIf := sIf + [-1];
      sBreak := sBreak + [-1];
      sContinue := sContinue + [-1];
    }

    method FunParam(pos: nat, name: string, ghost p: Snap, ghost ps: seq<string>) returns (ok: bool)
      requires pos == |p.prog| && State() == Opened(p, ps)
      modifies `prog, `scopes
      ensures ok == (name !in ps)
      ensures ok ==> State() == Opened(p, ps + [name])
    {
      var top := scopes[|scopes| - 1];
      ok := name !in top;
      if !ok { return; }
      scopes := scopes[|scopes| - 1 := top + [name]];
      var shape := prog[pos].shape;
      prog := prog[pos := Function(shape.(nargs := shape.nargs + 1))];
    }

    /** The parameters up to the closing parenthesis. */
    method Params(pos: nat, ghost p: Snap) returns (ok: bool)
      requires pos == |p.prog| && State() == Opened(p, [])
      modifies `toks, `prog, `scopes
      ensures ok == ParseParamList(old(toks)).Some?
      ensures ok ==> var (ps, rest) := ParseParamList(old(toks)).value;
        toks == rest && State() == Opened(p, ps)
    {
      if Cur(toks) == RParen {
        Advance();
        return true;
      }
      ghost var ps: seq<string> := [];
      while true
        invariant State() == Opened(p, ps)
        invariant Cur(old(toks)) != RParen && ParseParams([], old(toks)) == ParseParams(ps, toks)
        decreases |toks|
      {
        var name := Cur(toks);
        if !name.Ident? { return false; }
        ok := FunParam(pos, name.name, p, ps);
        if !ok { return; }
        ps := ps + [name.name];
        Advance();
        if Cur(toks) == RParen {
          Advance();
          return;
        }
        ok := Slurp(Comma);
        if !ok { return; }
      }
    }

    /** nranges_for_scope_index() */
    method RangesOf(scope: int, ghost base: seq<Range>, ghost spans: seq<Span>) returns (n: nat)
      requires ranges == base + Tagged(scope, spans) && (base == [] || Last(base).scope != scope)
      ensures n == |spans|
    {
      var k := |ranges|;
      while k > 0 && ranges[k - 1].scope == scope
        invariant |base| <= k <= |ranges|
      {
        assert k > |base|;
        k := k - 1;
      }
      n := |ranges| - k;
    }

    /** Resolves the names in [j, r.end) and goes on with the computation of the stack depth. */
    method ScanRange(r: Range, locals: seq<string>, cur: nat, max: nat, ghost code: seq<Instr>,
        ghost spans: seq<Span>, ghost i: nat)
      returns (cur': nat, max': nat)
      requires i < |spans| && spans[i] == Span(r.begin, r.end) && Bounded(0, spans, |prog|)
      requires |prog| == |code| && Visited(code, prog, spans, i, r.begin, locals)
      modifies `prog
      ensures |prog| == |code| && Visited(code, prog, spans, i, r.end, locals)
      ensures ScanMax(code, spans, i, r.begin, cur, max) == ScanMax(code, spans, i, r.end, cur', max')
    {
      cur', max' := cur, max;
      var j := r.begin;
      while j < r.end
        invariant r.begin <= j <= r.end && |prog| == |code| && Visited(code, prog, spans, i, j, locals)
        invariant ScanMax(code, spans, i, r.begin, cur, max) == ScanMax(code, spans, i, j, cur', max')
      {
        var instr := prog[j];
        cur' := (cur' + Effect(instr)) % SIZE_T;
        prog := prog[j := Resolve(instr, locals)];
        if max' < cur' { max' := cur'; }
        j := j + 1;
      }
    }

    method CloseScope(ghost base: seq<Range>, ghost spans: seq<Span>) returns (maxstack: nat, nlocals: nat, ok: bool)
      requires scopes != [] && ranges != [] && spans != [] && Bounded(0, spans, |prog|)
      requires EndLast(ranges, |prog|) == base + Tagged(|scopes| - 1, spans)
      requires base == [] || Last(base).scope != |scopes| - 1
      modifies `prog, `ranges, `scopes
      ensures ok == (MaxStack(old(prog), spans) <= (SIZE_T - 1) / 2 && |Last(old(scopes))| <= INT32_MAX)
      ensures maxstack == MaxStack(old(prog), spans) && nlocals == |Last(old(scopes))|
      ensures prog == ResolveIn(old(prog), spans, Last(old(scopes)))
      ensures ok ==> scopes == old(scopes)[..|old(scopes)| - 1] && ranges == Resumed(base, |scopes|, |prog|)
    {
      hide ScanMax, MaxStack, Visited, ResolveIn;
      var pos := |prog|;
      ranges := ranges[|ranges| - 1 := ranges[|ranges| - 1].(end := pos)];
      var scope := |scopes| - 1;
      var locals := scopes[scope];
      var ours := RangesOf(scope, base, spans);
      var cur;
      cur, maxstack := 0, 0;
      var i := |ranges| - ours;
      NothingVisited(prog, spans, locals);
      ScanEnds(prog, spans, 0, 0);
      while i < |ranges|
        invariant |base| <= i <= |ranges| == |base| + |spans| && |prog| == |old(prog)|
        invariant Visited(old(prog), prog, spans, i - |base|, ScanStart(spans, i - |base|), locals)
        invariant MaxStack(old(prog), spans)
               == ScanMax(old(prog), spans, i - |base|, ScanStart(spans, i - |base|), cur, maxstack)
        modifies `prog
      {
        ghost var k := i - |base|;
        cur, maxstack := ScanRange(ranges[i], locals, cur, maxstack, old(prog), spans, k);
        NextVisited(old(prog), prog, spans, k, locals);
        ScanNext(old(prog), spans, k, cur, maxstack);
        i := i + 1;
      }
      AllVisited(old(prog), prog, spans, locals);
      ScanEnds(old(prog), spans, cur, maxstack);
      ranges := ranges[..|ranges| - ours];
      nlocals := |locals|;
      ok := maxstack <= (SIZE_T - 1) / 2 && nlocals <= INT32_MAX;
      if !ok { return; }
      scopes := scopes[..|scopes| - 1];
      if |scopes| > 0 {
        ranges := ranges + [Range(|scopes| - 1, pos, -1)];
      }
    }

    /** The end of the function that was opened at pos. */
    method FunEnd(pos: nat, ghost p: Snap, ghost ps: seq<string>, ghost b: seq<Syntax.Stmt>) returns (ok: bool)
      requires Before(p) && pos == |p.prog|
      requires Ok(Opened(p, ps)) && State() == AfterB(Opened(p, ps), b) && Ok(State()) && !InLoop(State())
      modifies `prog, `ranges, `scopes, `sIf, `sBreak, `sContinue
      ensures ok == FunFits(ps, b)
      ensures ok ==> State() == Closed(p, ps, b)
    {
      hide CodeS, CodeB, CodeE, CodeArms, CodeClause, CodeClauses, CodeIf, SlotsS, SlotsB, SlotsClauses;
      hide HolesS, HolesB, HolesArms, PendS, PendB, PendArms, LenS, LenB, LenArms, LenClauses;
      hide FunCode, ResolveIn, Gaps, MaxStack, AfterB;
      ghost var (q, spans) := (State(), Gaps(pos + 1, HolesB(b, pos + 1), pos + LenB(b) + 3));
      NoneOpen(p, ps, b, q);
      Emit(LoadConst(Nil));
      Emit(Return);
      var here := |prog|;
      ghost var (code, base) := (prog, Suspended(p.ranges, pos + 1));
      EndRanges(p, ps, b, q, pos, pos + LenB(b) + 3, code, spans);
      EndCode(p, ps, b, q, pos, pos + LenB(b) + 3, code, spans);
      var maxstack, nlocals;
      maxstack, nlocals, ok := CloseScope(base, spans);
      if !ok { return; }
      var offset := here - pos;
      ok := offset <= INT32_MAX;
      if !ok { return; }
      prog := prog[pos := Function(Shape(prog[pos].shape.nargs, nlocals, offset, maxstack))];
      sIf, sBreak, sContinue := sIf[..|sIf| - 1], sBreak[..|sBreak| - 1], sContinue[..|sContinue| - 1];
    }

    method FunStmt() returns (ok: bool)
      requires Ok(State()) && toks != []
      modifies this
      ensures Compiles(ParseFun(old(toks)[1..]), old(State()), ok, toks, State())
      decreases |toks|, 3
    {
      hide CodeS, CodeB, CodeE, CodeArms, CodeClause, CodeClauses, CodeIf, SlotsS, SlotsB, SlotsClauses;
      hide HolesS, HolesB, HolesArms, PendS, PendB, PendArms, LenS, LenB, LenArms, LenClauses;
      hide ParseE, ParseParamList, ParseBlock, ParseFun, FunCode, AfterS, AfterB, FunFits, Opened, Closed;
      ghost var p := State();
      OneFun(toks[1..]);
      BeforeFun(p);
      Advance();
      var name := Cur(toks);
      if !name.Ident? { return false; }
      Advance();
      ok := Slurp(LParen);
      if !ok { return; }
      ghost var ps := ParseParamList(toks);
      var pos := FunBegin();
      ok := Params(pos, p);
      if !ok { return; }
      OpenedOk(p, ps.value.0);
      ghost var b := ParseBlock(toks, false);
      ok := Block();
      if !ok { return; }
      ok := FunEnd(pos, p, ps.value.0, b.value.0);
      if !ok { return; }
      Emit(StoreSymbolic(name.name));
      FunLeaves(p, name.name, ps.value.0, b.value.0);
    }

    /** parse() */
    method Parse() returns (ok: bool)
      requires State() == Snap([], [], [], [], [], [])
      modifies this
      ensures ok == ParseProgram(old(toks)).Some?
      ensures ok ==> prog == FunCode([], ParseProgram(old(toks)).value)
      ensures ok ==> State() == Snap(prog, [], [], [], [], [])
    {
      hide CodeS, CodeB, CodeE, CodeArms, CodeClause, CodeClauses, CodeIf, SlotsS, SlotsB, SlotsClauses;
      hide HolesS, HolesB, HolesArms, PendS, PendB, PendArms, LenS, LenB, LenArms, LenClauses;
      hide ParseE, ParseSs, FunCode, AfterS, AfterB, FunFits;
      ghost var p := State();
      var pos := FunBegin();
      OpenedOk(p, []);
      ghost var b := ParseSs([], toks, false, Eof);
      ok := Statements(Eof);
      if !ok { return; }
      ok := FunEnd(pos, p, [], b.value.0);
    }

    /** The statements without a block. */
    method SimpleStmt() returns (ok: bool)
      requires Ok(State()) && Cur(toks) !in {KwIf, KwWhile, KwFor, KwFun, RBrace, Eof}
      modifies this
      ensures Compiles(ParseS(old(toks), InLoop(old(State()))), old(State()), ok, toks, State())
    {
      hide ParseE, ParseSimple, ParseIf, ParseWhile, ParseFor, ParseFun, ParseReturn;
      var cur := Cur(toks);
      if cur == Semicolon {
        NothingLeft(State(), Empty);
        Advance();
        ok := true;
      } else if cur == KwReturn {
        ok := ReturnStmt();
      } else if cur == KwBreak || cur == KwContinue {
        ok := LoopJump(cur == KwBreak);
      } else {
        ok := ExprStmt();
      }
    }

    method ExprStmt() returns (ok: bool)
      requires Ok(State())
      modifies `toks, `prog, `scopes
      ensures var r := ParseSimple(old(toks));
        && ok == (r.Some? && Cur(r.value.1) == Semicolon)
        && (ok ==> toks == Rest(r.value.1) && State() == AfterS(old(State()), Do(r.value.0)) && Ok(State()))
    {
      hide ParseSimple;
      ghost var p := State();
      ghost var m := ParseSimple(toks);
      ok := ExprOrAssignment();
      if !ok { return; }
      ok := Slurp(Semicolon);
      if !ok { return; }
      NothingLeft(p, Do(m.value.0));
    }

    method ReturnStmt() returns (ok: bool)
      requires Ok(State()) && toks != []
      modifies `toks, `prog
      ensures Compiles(ParseReturn(old(toks)[1..]), old(State()), ok, toks, State())
    {
      hide ParseE, CodeE, ParseReturn, AfterS;
      ghost var p := State();
      Advance();
      OneReturn(toks);
      if Cur(toks) == Semicolon {
        Advance();
        Emit(LoadConst(Nil));
        Emit(Return);
        ok := true;
        ReturnState(p, ReturnNil, [LoadConst(Nil)]);
      } else {
        ghost var e := ParseE(toks, -1);
        ok := Expr(-1);
        if !ok { return; }
        ok := Slurp(Semicolon);
        if !ok { return; }
        Emit(Return);
        ReturnState(p, ReturnVal(e.value.0), CodeE(e.value.0));
      }
    }

    /** stack_segment_emit_jump_and_push(): fails outside of a loop. */
    method LoopJump(isBreak: bool) returns (ok: bool)
      requires Ok(State()) && toks != []
      modifies `toks, `prog, `sBreak, `sContinue
      ensures ok == (InLoop(old(State())) && Cur(old(toks)[1..]) == Semicolon)
      ensures ok ==> toks == Rest(old(toks)[1..]) && Ok(State()) && InLoop(State())
      ensures ok ==> State() == AfterS(old(State()), if isBreak then Break else Continue)
    {
      hide ParseE, ParseS, AfterS;
      ghost var p := State();
      var top := if isBreak then sBreak[|sBreak| - 1] else sContinue[|sContinue| - 1];
      if top == -1 { return false; }
      var pos := PostponeJump();
      if isBreak { sBreak := sBreak + [pos]; } else { sContinue := sContinue + [pos]; }
      Advance();
      ok := Slurp(Semicolon);
      JumpState(p, isBreak);
    }

    /** `(` condition `)` block, after the keyword; returns the position of the open conditional jump. */
    method IfOrElifClause() returns (pos: nat, ok: bool)
      requires Ok(State()) && toks != []
      modifies this
      ensures ok == ParseClause(old(toks)[1..], InLoop(old(State()))).Some?
      ensures ok ==> var (c, rest) := ParseClause(old(toks)[1..], InLoop(old(State()))).value;
        && toks == rest && State() == AfterClause(old(State()), c) && pos == |old(prog)| + |CodeE(c.cond)|
      ensures ok ==> Ok(State()) && InLoop(State()) == InLoop(old(State()))
      decreases |toks|, 1, 0
    {
      hide CodeS, CodeB, CodeE, CodeArms, CodeClause, CodeClauses, CodeIf, SlotsS, SlotsB, SlotsClauses;
      hide HolesS, HolesB, HolesArms, PendS, PendB, PendArms, LenS, LenB, LenArms, LenClauses;
      hide ParseBlock, ParseCond, ParseClause, AfterB, AfterClause;
      ghost var p := State();
      OneClause(toks[1..], InLoop(p));
      Advance();
      ghost var c := ParseCond(toks);
      pos, ok := Condition();
      if !ok { return; }
      ghost var b := ParseBlock(toks, InLoop(State()));
      ok := Block();
      if !ok { return; }
      ClauseState(p, Clause(c.value.0, b.value.0));
    }

    method IfStmt() returns (ok: bool)
      requires Ok(State()) && toks != []
      modifies this
      ensures Compiles(ParseIf(old(toks)[1..], InLoop(old(State()))), old(State()), ok, toks, State())
      decreases |toks|, 3
    {
      hide CodeS, CodeB, CodeE, CodeArms, CodeClause, CodeClauses, CodeIf, SlotsS, SlotsB, SlotsClauses;
      hide HolesS, HolesB, HolesArms, PendS, PendB, PendArms, LenS, LenB, LenArms, LenClauses;
      hide ParseE, ParseBlock, ParseCond, ParseClause, AfterInit, AfterS, AfterArms, AfterClause;
      ghost var (p, loop, ts) := (State(), InLoop(State()), toks[1..]);
      var prev;
      ghost var cs;
      prev, ok, cs := Arms();
      if !ok { return; }
      if Cur(toks) == KwElse {
        NextArm(p, cs, prev);
        ok := ElseClause(p, cs);
      } else {
        EndIf(p, cs, prev);
      }
    }

    /** The arms of an `if`; returns the position of the open conditional jump of the last one. */
    method Arms() returns (prev: nat, ok: bool, ghost cs: seq<Clause>)
      requires Ok(State()) && toks != []
      modifies this
      ensures ok == ParseClauses([], old(toks)[1..], InLoop(old(State()))).Some?
      ensures ok ==> ParseClauses([], old(toks)[1..], InLoop(old(State()))) == Some((cs, toks))
      ensures ok ==> cs != [] && Ok(State()) && InLoop(State()) == InLoop(old(State()))
      ensures ok ==> State() == AfterInit(old(State()), cs) && prev == CondJump(old(State()), cs)
      decreases |toks|, 2
    {
      hide ParseClause, ParseClauses, AfterInit, CondJump;
      ghost var (p, loop, ts) := (State(), InLoop(State()), toks[1..]);
      cs := [];
      sIf := sIf + [-2];
      ClausesStep([], ts, loop);
      prev, ok := FirstArm(p);
      if !ok { return; }
      cs := [ParseClause(ts, loop).value.0];
      assert [] + cs == cs;
      while Cur(toks) == KwElif
        invariant |toks| < |old(toks)| && cs != [] && Ok(State()) && InLoop(State()) == loop
        invariant State() == AfterInit(p, cs) && prev == CondJump(p, cs)
        invariant ParseClauses([], ts, loop) ==
          if Cur(toks) == KwElif then ParseClauses(cs, Rest(toks), loop) else Some((cs, toks))
        decreases |toks|
      {
        ghost var next := ParseClause(Rest(toks), loop);
        ClausesStep(cs, Rest(toks), loop);
        prev, ok := NextClause(p, cs, prev);
        if !ok { return; }
        cs := cs + [next.value.0];
      }
    }

    /** The clause after `if`; p is the state before the `if`. */
    method FirstArm(ghost p: Snap) returns (prev: nat, ok: bool)
      requires toks != [] && Ok(p) && State() == p.(sIf := p.sIf + [-2])
      modifies this
      ensures ok == ParseClause(old(toks)[1..], InLoop(p)).Some?
      ensures ok ==> var (c, rest) := ParseClause(old(toks)[1..], InLoop(p)).value;
        toks == rest && State() == AfterInit(p, [c]) && prev == CondJump(p, [c])
      ensures ok ==> Ok(State()) && InLoop(State()) == InLoop(p)
      decreases |toks|, 1, 1
    {
      hide CodeS, CodeB, CodeE, CodeArms, CodeClause, CodeClauses, CodeIf, SlotsS, SlotsB, SlotsClauses;
      hide HolesS, HolesB, HolesArms, PendS, PendB, PendArms, LenS, LenB, LenArms, LenClauses;
      hide ParseClause, AfterInit, AfterArms, AfterClause;
      NoArms(p);
      ghost var c := ParseClause(toks[1..], InLoop(p));
      prev, ok := IfOrElifClause();
      if !ok { return; }
      AfterArmSnoc(p, [], c.value.0);
      ArmAt(p, [], c.value.0);
      assert [] + [c.value.0] == [c.value.0];
    }

    /** The clause after `elif`, behind the arms cs. */
    method NextClause(ghost p: Snap, ghost cs: seq<Clause>, prev: nat) returns (pos: nat, ok: bool)
      requires toks != [] && Ok(p) && Ok(State()) && InLoop(State()) == InLoop(p)
      requires cs != [] && State() == AfterInit(p, cs) && prev == CondJump(p, cs)
      modifies this
      ensures ok == ParseClause(old(toks)[1..], InLoop(p)).Some?
      ensures ok ==> var (c, rest) := ParseClause(old(toks)[1..], InLoop(p)).value;
        toks == rest && State() == AfterInit(p, cs + [c]) && pos == CondJump(p, cs + [c])
      ensures ok ==> Ok(State()) && InLoop(State()) == InLoop(p)
      decreases |toks|, 1, 1
    {
      hide CodeS, CodeB, CodeE, CodeArms, CodeClause, CodeClauses, CodeIf, SlotsS, SlotsB, SlotsClauses;
      hide HolesS, HolesB, HolesArms, PendS, PendB, PendArms, LenS, LenB, LenArms, LenClauses;
      hide ParseClause, AfterInit, AfterArms, AfterClause;
      NextArm(p, cs, prev);
      ghost var c := ParseClause(toks[1..], InLoop(p));
      pos, ok := IfOrElifClause();
      if !ok { return; }
      AfterArmSnoc(p, cs, c.value.0);
      ArmAt(p, cs, c.value.0);
    }

    /** The end of an `if` without an `else`. */
    method EndIf(ghost p: Snap, ghost cs: seq<Clause>, prev: nat)
      requires Ok(p) && cs != [] && Ok(State()) && InLoop(State()) == InLoop(p)
      requires State() == AfterInit(p, cs) && prev == CondJump(p, cs)
      modifies `prog, `sIf
      ensures State() == AfterS(p, If(cs, NoElse)) && Ok(State()) && InLoop(State()) == InLoop(p)
    {
      hide CodeS, CodeB, CodeE, CodeArms, CodeClause, CodeClauses, CodeIf, SlotsS, SlotsB, SlotsClauses;
      hide HolesS, HolesB, HolesArms, PendS, PendB, PendArms, LenS, LenB, LenArms, LenClauses;
      hide AfterS;
      ghost var ends := EndJumps(cs[..|cs| - 1], |p.prog|);
      IfState(p, cs, State(), prev, ends, |prog|);
      FixupJump(prev, |prog|);
      sIf := SegmentEnd(sIf, |prog|, p.sIf, ends);
    }

    /** A jump to the end of the `if`; the condition before it, if false, now leads behind that jump. */
    method NextArm(ghost p: Snap, ghost cs: seq<Clause>, prev: nat)
      requires Ok(p) && cs != [] && State() == AfterInit(p, cs) && prev == CondJump(p, cs)
      modifies `prog, `sIf
      ensures State() == AfterArms(p, cs) && sBreak == old(sBreak) && sContinue == old(sContinue)
      ensures scopes == old(scopes) && ranges == old(ranges) && sIf != []
    {
      hide CodeS, CodeB, CodeE, CodeArms, CodeClause, CodeClauses, CodeIf, SlotsS, SlotsB, SlotsClauses;
      hide HolesS, HolesB, HolesArms, PendS, PendB, PendArms, LenS, LenB, LenArms, LenClauses;
      ArmState(p, cs, State(), prev);
      var pos := PostponeJump();
      sIf := sIf + [pos];
      FixupJump(prev, |prog|);
    }

    /** The `else` block and the end of the `if`. */
    method ElseClause(ghost p: Snap, ghost cs: seq<Clause>) returns (ok: bool)
      requires Ok(p) && Ok(State()) && InLoop(State()) == InLoop(p) && State() == AfterArms(p, cs) && toks != []
      modifies this
      ensures ok == ParseBlock(old(toks)[1..], InLoop(p)).Some?
      ensures ok ==> var (b, rest) := ParseBlock(old(toks)[1..], InLoop(p)).value;
        toks == rest && State() == AfterS(p, If(cs, Else(b)))
      ensures ok ==> Ok(State()) && InLoop(State()) == InLoop(p)
      decreases |toks|, 1
    {
      hide ParseBlock, AfterB, AfterS, AfterArms;
      Advance();
      ghost var r := ParseBlock(toks, InLoop(p));
      ok := Block();
      if !ok { return; }
      EndElse(p, cs, r.value.0);
    }

    /** The end of an `if` with an `else`. */
    method EndElse(ghost p: Snap, ghost cs: seq<Clause>, ghost b: seq<Syntax.Stmt>)
      requires Ok(p) && Ok(State()) && InLoop(State()) == InLoop(p)
      requires Ok(AfterArms(p, cs)) && State() == AfterB(AfterArms(p, cs), b)
      modifies `prog, `sIf
      ensures State() == AfterS(p, If(cs, Else(b))) && Ok(State()) && InLoop(State()) == InLoop(p)
    {
      hide AfterB, AfterS, AfterArms, EndJumps;
      ghost var ends := EndJumps(cs, |p.prog|);
      ElseState(p, cs, b, State(), ends, |prog|);
      sIf := SegmentEnd(sIf, |prog|, p.sIf, ends);
    }
  }

  predicate IsBlockEnd(t: Token) { t == RBrace || t == Eof }

  /** What the compilation of a statement does to the tokens and to the state, or whether it fails. */
  ghost predicate Compiles(r: ParsedS, p: Snap, ok: bool, ts: Tokens, q: Snap)
    requires Ok(p)
  {
    && ok == r.Some?
    && (ok ==> ts == r.value.1 && q == AfterS(p, r.value.0) && Ok(q) && InLoop(q) == InLoop(p))
  }

  lemma OneFun(ts: Tokens)
    ensures ParseFun(ts) == if !Cur(ts).Ident? then None else
      var a := Skip(Rest(ts), LParen);
      if a.None? then None else
      var ps := ParseParamList(a.value);
      if ps.None? then None else
      var b := ParseBlock(ps.value.1, false);
      if b.None? || !FunFits(ps.value.0, b.value.0) then None
      else Some((FunDecl(Cur(ts).name, ps.value.0, b.value.0), b.value.1))
  {
    hide ParseParamList, ParseBlock, FunFits;
  }

  lemma BeforeFun(p: Snap)
    requires Ok(p)
    ensures Before(p)
  {
  }

  lemma FunLeaves(p: Snap, x: string, ps: seq<string>, b: seq<Syntax.Stmt>)
    requires Ok(p)
    ensures var q := Closed(p, ps, b).(prog := Closed(p, ps, b).prog + [StoreSymbolic(x)]);
      q == AfterS(p, FunDecl(x, ps, b)) && Ok(q) && InLoop(q) == InLoop(p)
  {
    hide FunCode;
    FunState(p, x, ps, b);
    Cat3(p.prog, FunCode(ps, b), [StoreSymbolic(x)]);
  }

  lemma OneReturn(ts: Tokens)
    ensures ParseReturn(ts) == if Cur(ts) == Semicolon then Some((ReturnNil, Rest(ts))) else
      var e := ParseE(ts, -1);
      if e.None? || Cur(e.value.1) != Semicolon then None else Some((ReturnVal(e.value.0), Rest(e.value.1)))
  {
    hide ParseE;
  }

  lemma OneClause(ts: Tokens, loop: bool)
    ensures var c := ParseCond(ts);
      ParseClause(ts, loop) == if c.None? then None else
      var b := ParseBlock(c.value.1, loop);
      if b.None? then None else Some((Clause(c.value.0, b.value.0), b.value.1))
  {
    hide ParseCond, ParseBlock;
  }

  lemma {:induction false} ReturnState(p: Snap, s: Syntax.Stmt, code: seq<Instr>)
    requires (s == ReturnNil && code == [LoadConst(Nil)]) || exists e :: s == ReturnVal(e) && code == CodeE(e)
    requires Ok(p)
    ensures AfterS(p, s) == p.(prog := p.prog + code + [Return])
  {
    NothingLeft(p, s);
    Cat3(p.prog, code, [Return]);
    assert SetSlots(p.scopes, Slots(p)) == p.scopes;
  }

  lemma {:induction false} SimpleLength(m: Simple, slots: seq<string>)
    ensures |CodeSimple(m, slots)| == LenSimple(m)
  {
  }

  /** Where the scan of span i begins. */
  ghost function ScanStart(spans: seq<Span>, i: int): int {
    if 0 <= i < |spans| then spans[i].begin else 0
  }

  lemma {:induction false} ScanEnds(code: seq<Instr>, spans: seq<Span>, depth: nat, max: nat)
    ensures ScanMax(code, spans, 0, ScanStart(spans, 0), 0, 0) == MaxStack(code, spans)
    ensures ScanMax(code, spans, |spans|, ScanStart(spans, |spans|), depth, max) == max
  {
  }

  lemma {:induction false} ScanNext(code: seq<Instr>, spans: seq<Span>, i: nat, depth: nat, max: nat)
    requires i < |spans|
    ensures ScanMax(code, spans, i, spans[i].end, depth, max) == ScanMax(code, spans, i + 1, ScanStart(spans, i + 1),
      depth, max)
  {
  }

  predicate CoveredUpTo(spans: seq<Span>, i: int, j: int, k: int) {
    (exists m :: 0 <= m < i && m < |spans| && spans[m].begin <= k < spans[m].end)
    || (0 <= i < |spans| && spans[i].begin <= k < j)
  }

  /** The scan stands before instruction j of span i: behind it all names are resolved. */
  ghost predicate Visited(code: seq<Instr>, prog: seq<Instr>, spans: seq<Span>, i: int, j: int, locals: seq<string>)
    requires |prog| == |code|
  {
    forall k {:trigger prog[k]} :: 0 <= k < |prog| ==>
      prog[k] == if CoveredUpTo(spans, i, j, k) then Resolve(code[k], locals) else code[k]
  }

  lemma {:induction false} NothingVisited(code: seq<Instr>, spans: seq<Span>, locals: seq<string>)
    ensures Visited(code, code, spans, 0, ScanStart(spans, 0), locals)
  {
  }

  lemma {:induction false} NextVisited(code: seq<Instr>, prog: seq<Instr>, spans: seq<Span>, i: nat,
      locals: seq<string>)
    requires |prog| == |code| && i < |spans| && Visited(code, prog, spans, i, spans[i].end, locals)
    ensures Visited(code, prog, spans, i + 1, ScanStart(spans, i + 1), locals)
  {
    forall k | 0 <= k < |prog|
      ensures CoveredUpTo(spans, i, spans[i].end, k) <==> CoveredUpTo(spans, i + 1, ScanStart(spans, i + 1), k)
    {
    }
  }

  lemma {:induction false} AllVisited(code: seq<Instr>, prog: seq<Instr>, spans: seq<Span>, locals: seq<string>)
    requires |prog| == |code| && Visited(code, prog, spans, |spans|, 0, locals)
    ensures prog == ResolveIn(code, spans, locals)
  {
    forall k | 0 <= k < |prog| ensures CoveredUpTo(spans, |spans|, 0, k) <==> Covers(spans, k) {
    }
  }

  lemma {:induction false} JumpState(p: Snap, isBreak: bool)
    requires Ok(p)
    ensures AfterS(p, if isBreak then Break else Continue) ==
      p.(prog := p.prog + [Jump(0)],
         sBreak := if isBreak then p.sBreak + [|p.prog|] else p.sBreak,
         sContinue := if isBreak then p.sContinue else p.sContinue + [|p.prog|])
  {
    assert p.sBreak + [] == p.sBreak && p.sContinue + [] == p.sContinue;
  }

  /** A statement without open jumps and nested functions. */
  lemma {:induction false} NothingLeft(p: Snap, s: Syntax.Stmt)
    requires Ok(p) && (s.Empty? || s.Do? || s.ReturnNil? || s.ReturnVal?)
    ensures var f := SlotsS(Slots(p), s);
      AfterS(p, s) == p.(prog := p.prog + CodeS(s, f, NO_TARGETS), scopes := SetSlots(p.scopes, f))
  {
    assert p.sBreak + [] == p.sBreak && p.sContinue + [] == p.sContinue;
  }

  /** Which loads can be turned into a store. */
  predicate StoresTo(load: Instr, kind: Kind) {
    load.LoadSymbolic? || (load.LoadAt? && kind != StoreHere)
  }

  function SlotsStore(slots: seq<string>, load: Instr, kind: Kind): seq<string> {
    if load.LoadSymbolic? && kind == StoreHere then AddSlot(slots, load.name) else slots
  }

  lemma {:induction false} AssignTarget(kind: Kind, l: Syntax.Expr)
    ensures StoresTo(Last(CodeE(l)), kind) == Assignable(kind, l)
  {
    LastOfCode(l);
  }

  lemma {:induction false} AssignMeaning(
      before: seq<Instr>, kind: Kind, l: Syntax.Expr, r: Syntax.Expr, slots: seq<string>, slots': seq<string>)
    ensures SlotsStore(slots, Last(CodeE(l)), kind) == SlotsSimple(slots, Assign(kind, l, r))
    ensures before + CodeE(l)[..|CodeE(l)| - 1] + CodeE(r) + [StoreInstr(Last(CodeE(l)), kind, slots')]
         == before + CodeSimple(Assign(kind, l, r), slots')
  {
    LastOfCode(l);
    Cat4(before, CodeE(l)[..|CodeE(l)| - 1], CodeE(r), [StoreInstr(Last(CodeE(l)), kind, slots')]);
  }

  ghost function CodeAcc(acc: Option<Syntax.Expr>): seq<Instr> {
    if acc.None? then [] else CodeE(acc.value)
  }

  /** What a postfix adds to the code of the operand before it. */
  ghost function PostfixTail(e: Syntax.Expr): seq<Instr> {
    match e
    case Index(_, i) => CodeE(i) + [LoadAt]
    case Field(_, f) => [LoadConst(Str(f)), LoadAt]
    case Invoke(_, args) => CodeEs(args) + [Call(|args|)]
    case _ => []
  }

  ghost function PostfixBase(e: Syntax.Expr): Syntax.Expr
    requires e.Index? || e.Field? || e.Invoke?
  {
    match e case Index(b, _) => b case Field(b, _) => b case Invoke(f, _) => f
  }

  lemma PostfixCode(prog: seq<Instr>, e: Syntax.Expr)
    requires e.Index? || e.Field? || e.Invoke?
    ensures prog + CodeE(PostfixBase(e)) + PostfixTail(e) == prog + CodeE(e)
  {
    match e
    case Index(b, i) => Cat4(prog, CodeE(b), CodeE(i), [LoadAt]);
    case Field(b, f) => Cat3(prog, CodeE(b), PostfixTail(e));
    case Invoke(f, args) => Cat4(prog, CodeE(f), CodeEs(args), [Call(|args|)]);
  }

  lemma SnocEs(prog: seq<Instr>, es: seq<Syntax.Expr>, e: Syntax.Expr)
    ensures prog + CodeEs(es) + CodeE(e) == prog + CodeEs(es + [e])
  {
    assert (es + [e])[..|es|] == es;
    Cat3(prog, CodeEs(es), CodeE(e));
  }

  lemma SnocNs(prog: seq<Instr>, ns: seq<Entry>, n: Entry)
    ensures prog + CodeNs(ns) + CodeE(n.key) + CodeE(n.val) == prog + CodeNs(ns + [n])
  {
    assert (ns + [n])[..|ns|] == ns;
    Cat4(prog, CodeNs(ns), CodeE(n.key), CodeE(n.val));
  }
}
