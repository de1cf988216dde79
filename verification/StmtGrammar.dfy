/** The parser reads exactly the texts of the well-formed programs. */
module StmtGrammar {
  import opened Common
  import opened Syntax
  import opened Codegen
  import opened Grammar
  import opened ExprGrammar

  // ----- Well-formed statements -----

  /** The expressions have the parentheses they need, and an assignment has a target. */
  ghost predicate FitsSimple(m: Simple) {
    match m
    case PrintExpr(e) => Fits(e, -1)
    case Assign(k, l, r) => Fits(l, -1) && Fits(r, -1) && Assignable(k, l)
  }

  ghost predicate FitsOpt(m: Option<Simple>) { m.Some? ==> FitsSimple(m.value) }

  ghost predicate FitsTest(c: Option<Expr>) { c.Some? ==> Fits(c.value, -1) }

  /** `break` and `continue` stand in loops of the same function; the post clause of a `for` is an assignment. */
  ghost predicate FitsS(s: Stmt, loop: bool)
    decreases s, 1
  {
    match s
    case Empty => true
    case Do(m) => FitsSimple(m)
    case If(cs, els) => cs != [] && FitsClauses(cs, loop) && (els.Else? ==> FitsB(els.blk, loop))
    case While(c, b) => Fits(c, -1) && FitsB(b, true)
    case For(i, c, p, b) =>
      FitsOpt(i) && FitsTest(c) && FitsOpt(p) && (p.Some? ==> p.value.Assign?) && FitsB(b, true)
    case FunDecl(_, ps, b) => NoDup(ps) && FitsB(b, false) && FunFits(ps, b)
    case ReturnNil => true
    case ReturnVal(e) => Fits(e, -1)
    case Break => loop
    case Continue => loop
  }

  ghost predicate FitsClauses(cs: seq<Clause>, loop: bool)
    decreases cs, 0
  {
    forall i :: 0 <= i < |cs| ==> Fits(cs[i].cond, -1) && FitsB(cs[i].blk, loop)
  }

  ghost predicate FitsB(b: seq<Stmt>, loop: bool)
    decreases b, 0
  {
    forall i :: 0 <= i < |b| ==> FitsS(b[i], loop)
  }

  // ----- Tokens -----

  lemma First(t: Token, rest: Tokens)
    ensures Cur([t] + rest) == t && Rest([t] + rest) == rest
  {
  }

  lemma Again(ts: Tokens)
    requires Cur(ts) != Eof
    ensures ts == [Cur(ts)] + Rest(ts)
  {
  }

  /** A token with which an operand begins. */
  predicate Opens(t: Token) {
    t.Literal? || t.Ident? || t == LParen || t == LBracket || t == LBrace || AsUnary(t).Some?
  }

  lemma {:induction false} TextOpens(e: Expr)
    ensures Opens(TextE(e)[0])
    decreases e
  {
    match e
    case Binary(_, l, _) => TextOpens(l);
    case Index(b, _) => TextOpens(b);
    case Field(b, _) => TextOpens(b);
    case Invoke(f, _) => TextOpens(f);
    case _ =>
  }

  lemma SimpleOpens(m: Simple, rest: Tokens)
    ensures Opens(Cur(TextSimple(m) + rest))
  {
    hide TextE;
    match m
    case PrintExpr(e) => TextOpens(e);
    case Assign(_, l, _) => TextOpens(l);
  }

  /** No statement begins like the rest of another one. */
  lemma StmtOpens(s: Stmt, rest: Tokens)
    ensures Cur(TextS(s) + rest) !in {RBrace, Eof, KwElif, KwElse}
  {
    hide TextSimple, TextE, TextClauses, TextElse, TextBlock, TextParams, TextOptSimple;
    if s.Do? { SimpleOpens(s.simple, [Semicolon] + rest); Cat3(TextSimple(s.simple), [Semicolon], rest); }
  }

  // ----- Simple statements -----

  lemma {:induction false} ReadsSimple(m: Simple, rest: Tokens)
    requires FitsSimple(m) && (if m.PrintExpr? then Cur(rest) == Semicolon else Ends(Cur(rest), -1))
    ensures ParseSimple(TextSimple(m) + rest) == Some((m, rest))
  {
    hide TextE, Fits, Climb;
    match m
    case PrintExpr(e) => ReadsWhole(e, -1, rest);
    case Assign(k, l, r) =>
      var tail := [KindToken(k)] + (TextE(r) + rest);
      Cat4(TextE(l), [KindToken(k)], TextE(r), rest);
      First(KindToken(k), TextE(r) + rest);
      KindBack(k);
      ReadsWhole(l, -1, tail);
      ReadsWhole(r, -1, rest);
  }

  lemma KindBack(k: Kind)
    ensures AsKind(KindToken(k)) == Some(k) && Ends(KindToken(k), -1) && KindToken(k) != Semicolon
  {
  }

  lemma KindThere(t: Token)
    requires AsKind(t).Some?
    ensures KindToken(AsKind(t).value) == t && t != Eof
  {
  }

  lemma {:induction false} SimpleOnlyText(ts: Tokens)
    requires ParseSimple(ts).Some?
    ensures var (m, rest) := ParseSimple(ts).value;
      && FitsSimple(m) && ts == TextSimple(m) + rest
      && (if m.PrintExpr? then Cur(rest) == Semicolon else Ends(Cur(rest), -1))
  {
    hide TextE, Fits, Climb;
    var (l, us) := ParseE(ts, -1).value;
    ExprCharacterized(ts, -1, l, us);
    if Cur(us) != Semicolon {
      var k := AsKind(Cur(us)).value;
      KindThere(Cur(us));
      Again(us);
      var (r, rest) := ParseE(Rest(us), -1).value;
      ExprCharacterized(Rest(us), -1, r, rest);
      Cat4(TextE(l), [KindToken(k)], TextE(r), rest);
    }
  }

  // ----- The head of a `for` -----

  lemma {:induction false} ReadsOpt(m: Option<Simple>, stop: Token, rest: Tokens)
    requires FitsOpt(m) && Cur(rest) == stop && (stop == Semicolon || (stop == RParen && (m.Some? ==> m.value.Assign?)))
    ensures ParseOptSimple(TextOptSimple(m) + rest, stop) == Some((m, rest))
  {
    hide ParseSimple, TextSimple, FitsSimple;
    if m.None? {
      assert [] + rest == rest;
    } else {
      SimpleOpens(m.value, rest);
      ReadsSimple(m.value, rest);
    }
  }

  lemma {:induction false} OptOnlyText(ts: Tokens, stop: Token)
    requires ParseOptSimple(ts, stop).Some? && (stop == Semicolon || stop == RParen)
    ensures var (m, rest) := ParseOptSimple(ts, stop).value;
      && FitsOpt(m) && ts == TextOptSimple(m) + rest
      && (m.Some? && m.value.PrintExpr? ==> Cur(rest) == Semicolon)
  {
    hide ParseSimple, TextSimple, FitsSimple;
    if Cur(ts) == stop {
      assert [] + ts == ts;
    } else {
      SimpleOnlyText(ts);
    }
  }

  function TextTest(c: Option<Expr>): seq<Token> { if c.None? then [] else TextE(c.value) }

  lemma {:induction false} ReadsTest(c: Option<Expr>, rest: Tokens)
    requires FitsTest(c) && Cur(rest) == Semicolon
    ensures ParseTest(TextTest(c) + rest) == Some((c, rest))
  {
    hide Climb, TextE, Fits;
    if c.None? {
      assert [] + rest == rest;
    } else {
      TextOpens(c.value);
      ReadsWhole(c.value, -1, rest);
    }
  }

  lemma {:induction false} TestOnlyText(ts: Tokens)
    requires ParseTest(ts).Some?
    ensures var (c, rest) := ParseTest(ts).value; FitsTest(c) && ts == TextTest(c) + rest
  {
    hide Climb, TextE, Fits;
    if Cur(ts) == Semicolon {
      assert [] + ts == ts;
    } else {
      var (c, rest) := ParseE(ts, -1).value;
      ExprCharacterized(ts, -1, c, rest);
    }
  }

  /** The head from behind the keyword on. */
  function TextHead(h: ForHead, rest: Tokens): Tokens {
    [LParen] + (TextOptSimple(h.init) + ([Semicolon] + (TextTest(h.test) + ([Semicolon]
      + (TextOptSimple(h.post) + ([RParen] + rest))))))
  }

  ghost predicate FitsHead(h: ForHead) {
    FitsOpt(h.init) && FitsTest(h.test) && FitsOpt(h.post) && (h.post.Some? ==> h.post.value.Assign?)
  }

  lemma {:induction false} ReadsHead(h: ForHead, rest: Tokens)
    requires FitsHead(h)
    ensures ParseForHead(TextHead(h, rest)) == Some((h, rest))
  {
    hide ParseOptSimple, ParseTest, TextOptSimple, TextTest, FitsOpt, FitsTest;
    var end := [RParen] + rest;
    var post := [Semicolon] + (TextOptSimple(h.post) + end);
    var test := [Semicolon] + (TextTest(h.test) + post);
    First(RParen, rest);
    First(Semicolon, TextOptSimple(h.post) + end);
    First(Semicolon, TextTest(h.test) + post);
    First(LParen, TextOptSimple(h.init) + test);
    ReadsOpt(h.init, Semicolon, test);
    ReadsTest(h.test, post);
    ReadsOpt(h.post, RParen, end);
  }

  lemma {:induction false} HeadOnlyText(ts: Tokens)
    requires ParseForHead(ts).Some?
    ensures var (h, rest) := ParseForHead(ts).value; FitsHead(h) && ts == TextHead(h, rest)
  {
    hide ParseOptSimple, ParseTest, TextOptSimple, TextTest, FitsOpt, FitsTest;
    Again(ts);
    var (i, us) := ParseOptSimple(Rest(ts), Semicolon).value;
    OptOnlyText(Rest(ts), Semicolon);
    Again(us);
    var (c, vs) := ParseTest(Rest(us)).value;
    TestOnlyText(Rest(us));
    Again(vs);
    var (p, ws) := ParseOptSimple(Rest(vs), RParen).value;
    OptOnlyText(Rest(vs), RParen);
    Again(ws);
  }

  // ----- Conditions and parameters -----

  lemma {:induction false} ReadsCond(c: Expr, rest: Tokens)
    requires Fits(c, -1)
    ensures ParseCond([LParen] + (TextE(c) + ([RParen] + rest))) == Some((c, rest))
  {
    hide Climb, TextE, Fits;
    First(LParen, TextE(c) + ([RParen] + rest));
    First(RParen, rest);
    ReadsWhole(c, -1, [RParen] + rest);
  }

  lemma {:induction false} CondOnlyText(ts: Tokens)
    requires ParseCond(ts).Some?
    ensures var (c, rest) := ParseCond(ts).value; Fits(c, -1) && ts == [LParen] + (TextE(c) + ([RParen] + rest))
  {
    hide Climb, TextE, Fits;
    Again(ts);
    var (c, us) := ParseE(Rest(ts), -1).value;
    ExprCharacterized(Rest(ts), -1, c, us);
    Again(us);
  }

  lemma ParamsFrom(ps: seq<string>, i: nat, rest: Tokens)
    requires i < |ps|
    ensures TextParams(ps, i) + ([RParen] + rest) == [Ident(ps[i])] +
      if i + 1 == |ps| then [RParen] + rest else [Comma] + (TextParams(ps, i + 1) + ([RParen] + rest))
  {
    if i + 1 < |ps| {
      assert [Ident(ps[i]), Comma] == [Ident(ps[i])] + [Comma];
      Cat4([Ident(ps[i])], [Comma], TextParams(ps, i + 1), [RParen] + rest);
    }
  }

  lemma {:induction false} ReadsParams(ps: seq<string>, i: nat, rest: Tokens)
    requires NoDup(ps) && i < |ps|
    ensures ParseParams(ps[..i], TextParams(ps, i) + ([RParen] + rest)) == Some((ps, rest))
    decreases |ps| - i
  {
    hide TextParams;
    ParamsFrom(ps, i, rest);
    assert ps[..i] + [ps[i]] == ps[..i + 1];
    assert ps[i] !in ps[..i];
    First(RParen, rest);
    if i + 1 == |ps| {
      First(Ident(ps[i]), [RParen] + rest);
      assert ps[..i + 1] == ps;
    } else {
      var tail := TextParams(ps, i + 1) + ([RParen] + rest);
      First(Ident(ps[i]), [Comma] + tail);
      First(Comma, tail);
      ReadsParams(ps, i + 1, rest);
    }
  }

  lemma {:induction false} ParamsOnlyText(acc: seq<string>, ts: Tokens)
    requires ParseParams(acc, ts).Some? && NoDup(acc)
    ensures var (ps, rest) := ParseParams(acc, ts).value;
      acc < ps && NoDup(ps) && ts == TextParams(ps, |acc|) + ([RParen] + rest)
    decreases |ts|
  {
    hide TextParams;
    var more := acc + [Cur(ts).name];
    var us := Rest(ts);
    Again(ts);
    Again(us);
    var (ps, rest) := ParseParams(acc, ts).value;
    assert NoDup(more);
    if Cur(us) == Comma { ParamsOnlyText(more, Rest(us)); }
    assert ps[|acc|] == more[|acc|];
    ParamsFrom(ps, |acc|, rest);
  }

  lemma {:induction false} ReadsParamList(ps: seq<string>, rest: Tokens)
    requires NoDup(ps)
    ensures ParseParamList(TextParams(ps, 0) + ([RParen] + rest)) == Some((ps, rest))
  {
    hide ParseParams;
    First(RParen, rest);
    if ps == [] {
      assert [] + ([RParen] + rest) == [RParen] + rest;
    } else {
      ParamsFrom(ps, 0, rest);
      First(Ident(ps[0]), if 1 == |ps| then [RParen] + rest else [Comma] + (TextParams(ps, 1) + ([RParen] + rest)));
      ReadsParams(ps, 0, rest);
      assert ps[..0] == [];
    }
  }

  lemma {:induction false} ParamListOnlyText(ts: Tokens)
    requires ParseParamList(ts).Some?
    ensures var (ps, rest) := ParseParamList(ts).value; NoDup(ps) && ts == TextParams(ps, 0) + ([RParen] + rest)
  {
    hide ParseParams;
    if Cur(ts) == RParen {
      Again(ts);
      assert [] + ts == ts;
    } else {
      ParamsOnlyText([], ts);
    }
  }

  // ----- The texts of statements, from the front -----

  lemma LoopTexts(s: Stmt, rest: Tokens)
    requires s.While? || s.For?
    ensures TextS(s) + rest == if s.While?
      then [KwWhile] + ([LParen] + (TextE(s.cond) + ([RParen] + (TextBlock(s.body) + rest))))
      else [KwFor] + TextHead(ForHead(s.init, s.test, s.post), TextBlock(s.body) + rest)
  {
    hide TextE, TextBlock, TextOptSimple;
    if s.While? {
      WhileText(TextE(s.cond), TextBlock(s.body), rest);
    } else {
      ForText(TextOptSimple(s.init), TextTest(s.test), TextOptSimple(s.post), TextBlock(s.body), rest);
    }
  }

  lemma WhileText(c: Tokens, b: Tokens, rest: Tokens)
    ensures ([KwWhile, LParen] + c + [RParen] + b) + rest == [KwWhile] + ([LParen] + (c + ([RParen] + (b + rest))))
  {
    assert [KwWhile, LParen] == [KwWhile] + [LParen];
  }

  lemma ForText(i: Tokens, c: Tokens, p: Tokens, b: Tokens, rest: Tokens)
    ensures ([KwFor, LParen] + i + [Semicolon] + c + [Semicolon] + p + [RParen] + b) + rest ==
      [KwFor] + ([LParen] + (i + ([Semicolon] + (c + ([Semicolon] + (p + ([RParen] + (b + rest))))))))
  {
    assert [KwFor, LParen] == [KwFor] + [LParen];
  }

  lemma FunText(x: string, p: Tokens, b: Tokens, rest: Tokens)
    ensures ([KwFun, Ident(x), LParen] + p + [RParen] + b) + rest ==
      [KwFun] + ([Ident(x)] + ([LParen] + (p + ([RParen] + (b + rest)))))
  {
    assert [KwFun, Ident(x), LParen] == [KwFun] + ([Ident(x)] + [LParen]);
  }

  lemma BlockText(b: seq<Stmt>, rest: Tokens)
    ensures TextBlock(b) + rest == [LBrace] + (TextSs(b, 0) + ([RBrace] + rest))
  {
    hide TextSs;
    Cat4([LBrace], TextSs(b, 0), [RBrace], rest);
  }

  lemma ClauseText(c: Clause, rest: Tokens)
    ensures TextClause(c) + rest == [LParen] + (TextE(c.cond) + ([RParen] + (TextBlock(c.blk) + rest)))
  {
    hide TextE, TextBlock;
    Cat5([LParen], TextE(c.cond), [RParen], TextBlock(c.blk), rest);
  }

  lemma ClausesFrom(cs: seq<Clause>, i: nat, rest: Tokens)
    requires i < |cs|
    ensures TextClauses(cs, i) + rest == TextClause(cs[i]) +
      if i + 1 == |cs| then rest else [KwElif] + (TextClauses(cs, i + 1) + rest)
  {
    hide TextClause;
    if i + 1 < |cs| { Cat4(TextClause(cs[i]), [KwElif], TextClauses(cs, i + 1), rest); }
  }

  lemma StmtsFrom(b: seq<Stmt>, i: nat, rest: Tokens)
    requires i < |b|
    ensures TextSs(b, i) + rest == TextS(b[i]) + (TextSs(b, i + 1) + rest)
  {
    hide TextS;
    Cat3(TextS(b[i]), TextSs(b, i + 1), rest);
  }

  // ----- Every text is read back -----

  lemma {:induction false} ReadsS(s: Stmt, loop: bool, rest: Tokens)
    requires FitsS(s, loop) && Cur(rest) != KwElif && Cur(rest) != KwElse
    ensures ParseS(TextS(s) + rest, loop) == Some((s, rest))
    decreases s, 1
  {
    hide ParseIf, ParseWhile, ParseFor, ParseFun, ParseReturn, ParseSimple, FitsClauses, FitsB, FunFits, FitsSimple;
    hide Fits, FitsOpt, FitsTest, TextE, TextBlock, TextClauses, TextElse, TextHead, TextParams, TextSimple;
    match s
    case Empty => First(Semicolon, rest);
    case Do(m) => ReadsDo(m, loop, rest);
    case If(cs, els) =>
      ReadsIf(s, loop, rest);
      Cat4([KwIf], TextClauses(cs, 0), TextElse(els), rest);
      First(KwIf, TextClauses(cs, 0) + (TextElse(els) + rest));
    case While(c, b) => ReadsLoop(s, loop, rest);
    case For(i, c, p, b) => ReadsLoop(s, loop, rest);
    case FunDecl(x, ps, b) => ReadsFun(x, ps, b, loop, rest);
    case ReturnNil => ReadsReturn(s, loop, rest);
    case ReturnVal(_) => ReadsReturn(s, loop, rest);
    case Break => ReadsExit(KwBreak, rest);
    case Continue => ReadsExit(KwContinue, rest);
  }

  /** The keyword decides. */
  lemma ByKeyword(ts: Tokens, loop: bool)
    ensures Cur(ts) == KwIf ==> ParseS(ts, loop) == ParseIf(Rest(ts), loop)
    ensures Cur(ts) == KwWhile ==> ParseS(ts, loop) == ParseWhile(Rest(ts))
    ensures Cur(ts) == KwFor ==> ParseS(ts, loop) == ParseFor(Rest(ts))
    ensures Cur(ts) == KwFun ==> ParseS(ts, loop) == ParseFun(Rest(ts))
    ensures Cur(ts) == KwReturn ==> ParseS(ts, loop) == ParseReturn(Rest(ts))
  {
    hide ParseIf, ParseWhile, ParseFor, ParseFun, ParseReturn, ParseSimple;
  }

  lemma ReadsExit(t: Token, rest: Tokens)
    ensures Cur([t, Semicolon] + rest) == t && Cur(Rest([t, Semicolon] + rest)) == Semicolon
    ensures Rest(Rest([t, Semicolon] + rest)) == rest
  {
    assert [t, Semicolon] + rest == [t] + ([Semicolon] + rest);
    First(t, [Semicolon] + rest);
    First(Semicolon, rest);
  }

  lemma {:induction false} ReadsDo(m: Simple, loop: bool, rest: Tokens)
    requires FitsSimple(m)
    ensures ParseS(TextS(Do(m)) + rest, loop) == Some((Do(m), rest))
  {
    hide ParseSimple, FitsSimple, TextSimple;
    Cat3(TextSimple(m), [Semicolon], rest);
    First(Semicolon, rest);
    SimpleOpens(m, [Semicolon] + rest);
    ReadsSimple(m, [Semicolon] + rest);
  }

  lemma {:induction false} ReadsReturn(s: Stmt, loop: bool, rest: Tokens)
    requires s.ReturnNil? || (s.ReturnVal? && Fits(s.e, -1))
    ensures ParseS(TextS(s) + rest, loop) == Some((s, rest))
  {
    hide ParseS, Climb, TextE, Fits;
    First(Semicolon, rest);
    ByKeyword(TextS(s) + rest, loop);
    if s.ReturnNil? {
      assert [KwReturn, Semicolon] + rest == [KwReturn] + ([Semicolon] + rest);
      First(KwReturn, [Semicolon] + rest);
    } else {
      Cat4([KwReturn], TextE(s.e), [Semicolon], rest);
      First(KwReturn, TextE(s.e) + ([Semicolon] + rest));
      TextOpens(s.e);
      ReadsWhole(s.e, -1, [Semicolon] + rest);
    }
  }

  lemma {:induction false} ReadsLoop(s: Stmt, loop: bool, rest: Tokens)
    requires FitsS(s, loop) && (s.While? || s.For?)
    ensures ParseS(TextS(s) + rest, loop) == Some((s, rest))
    decreases s, 0
  {
    hide ParseS, ParseCond, ParseForHead, ParseBlock, FitsB, Fits, FitsOpt, FitsTest, TextE, TextBlock, TextHead, TextS;
    var tail := TextBlock(s.body) + rest;
    LoopTexts(s, rest);
    ByKeyword(TextS(s) + rest, loop);
    ReadsBlock(s.body, true, rest);
    if s.While? {
      First(KwWhile, [LParen] + (TextE(s.cond) + ([RParen] + tail)));
      ReadsCond(s.cond, tail);
    } else {
      First(KwFor, TextHead(ForHead(s.init, s.test, s.post), tail));
      ReadsHead(ForHead(s.init, s.test, s.post), tail);
    }
  }

  lemma {:induction false} ReadsFun(x: string, ps: seq<string>, b: seq<Stmt>, loop: bool, rest: Tokens)
    requires NoDup(ps) && FitsB(b, false) && FunFits(ps, b)
    ensures ParseS(TextS(FunDecl(x, ps, b)) + rest, loop) == Some((FunDecl(x, ps, b), rest))
    decreases b, 3
  {
    hide ParseS, ParseParamList, ParseBlock, FitsB, FunFits, TextBlock, TextParams, NoDup;
    var params := TextParams(ps, 0) + ([RParen] + (TextBlock(b) + rest));
    FunText(x, TextParams(ps, 0), TextBlock(b), rest);
    First(KwFun, [Ident(x)] + ([LParen] + params));
    First(Ident(x), [LParen] + params);
    First(LParen, params);
    ByKeyword([KwFun] + ([Ident(x)] + ([LParen] + params)), loop);
    ReadsParamList(ps, TextBlock(b) + rest);
    ReadsBlock(b, false, rest);
  }

  lemma {:induction false} ReadsIf(s: Stmt, loop: bool, rest: Tokens)
    requires s.If? && FitsS(s, loop) && Cur(rest) != KwElif && Cur(rest) != KwElse
    ensures ParseIf(TextClauses(s.clauses, 0) + (TextElse(s.els) + rest), loop) == Some((s, rest))
    decreases s, 0
  {
    hide ParseClauses, ParseBlock, FitsB, FitsClauses, TextBlock, TextClauses;
    var If(cs, els) := s;
    var tail := TextElse(els) + rest;
    if els.Else? {
      Cat3([KwElse], TextBlock(els.blk), rest);
      First(KwElse, TextBlock(els.blk) + rest);
      ReadsBlock(els.blk, loop, rest);
    } else {
      assert tail == rest;
    }
    ReadsClauses(cs, 0, loop, tail);
    assert cs[..0] == [];
  }

  lemma {:induction false} ReadsClauses(cs: seq<Clause>, i: nat, loop: bool, rest: Tokens)
    requires i < |cs| && FitsClauses(cs, loop) && Cur(rest) != KwElif
    ensures ParseClauses(cs[..i], TextClauses(cs, i) + rest, loop) == Some((cs, rest))
    decreases cs, 2, |cs| - i
  {
    hide ParseClause, ParseClauses, FitsB, Fits, TextClause, TextClauses;
    var tail := if i + 1 == |cs| then rest else [KwElif] + (TextClauses(cs, i + 1) + rest);
    ClausesFrom(cs, i, rest);
    ReadsClause(cs[i], loop, tail);
    ClausesStep(cs[..i], TextClauses(cs, i) + rest, loop);
    assert cs[..i] + [cs[i]] == cs[..i + 1];
    if i + 1 == |cs| {
      assert cs[..i + 1] == cs;
    } else {
      First(KwElif, TextClauses(cs, i + 1) + rest);
      ReadsClauses(cs, i + 1, loop, rest);
    }
  }

  lemma {:induction false} ReadsClause(c: Clause, loop: bool, rest: Tokens)
    requires Fits(c.cond, -1) && FitsB(c.blk, loop)
    ensures ParseClause(TextClause(c) + rest, loop) == Some((c, rest))
    decreases c, 1
  {
    hide ParseCond, ParseBlock, FitsB, Fits, TextE, TextBlock, TextClause;
    ClauseText(c, rest);
    ReadsCond(c.cond, TextBlock(c.blk) + rest);
    ReadsBlock(c.blk, loop, rest);
  }

  lemma {:induction false} ReadsBlock(b: seq<Stmt>, loop: bool, rest: Tokens)
    requires FitsB(b, loop)
    ensures ParseBlock(TextBlock(b) + rest, loop) == Some((b, rest))
    decreases b, 2
  {
    hide ParseSs, FitsB, TextBlock, TextSs;
    BlockText(b, rest);
    First(LBrace, TextSs(b, 0) + ([RBrace] + rest));
    First(RBrace, rest);
    ReadsSs(b, 0, loop, RBrace, [RBrace] + rest);
    assert b[..0] == [];
  }

  lemma {:induction false} ReadsSs(b: seq<Stmt>, i: nat, loop: bool, stop: Token, rest: Tokens)
    requires i <= |b| && FitsB(b, loop) && (stop == RBrace || stop == Eof) && Cur(rest) == stop
    ensures ParseSs(b[..i], TextSs(b, i) + rest, loop, stop) == Some((b, rest))
    decreases b, 1, |b| - i
  {
    hide ParseS, ParseSs, FitsS, TextS, TextSs;
    if i == |b| {
      NoText(b, rest);
      assert b[..i] == b;
      SsEnd(b, rest, loop, stop);
    } else {
      var tail := TextSs(b, i + 1) + rest;
      StmtsFrom(b, i, rest);
      TailOpens(b, i + 1, rest);
      ReadsS(b[i], loop, tail);
      StmtOpens(b[i], tail);
      SsStep(b[..i], TextS(b[i]) + tail, b[i], tail, loop, stop);
      assert b[..i] + [b[i]] == b[..i + 1];
      ReadsSs(b, i + 1, loop, stop, rest);
    }
  }

  lemma NoText(b: seq<Stmt>, rest: Tokens)
    ensures TextSs(b, |b|) + rest == rest
  {
  }

  lemma TailOpens(b: seq<Stmt>, i: nat, rest: Tokens)
    requires i <= |b| && Cur(rest) in {RBrace, Eof}
    ensures Cur(TextSs(b, i) + rest) !in {KwElif, KwElse}
  {
    if i == |b| { NoText(b, rest); } else { StmtsFrom(b, i, rest); StmtOpens(b[i], TextSs(b, i + 1) + rest); }
  }

  lemma SsEnd(acc: seq<Stmt>, ts: Tokens, loop: bool, stop: Token)
    requires (stop == RBrace || stop == Eof) && Cur(ts) == stop
    ensures ParseSs(acc, ts, loop, stop) == Some((acc, ts))
  {
  }

  lemma SsStep(acc: seq<Stmt>, ts: Tokens, s: Stmt, rest: Tokens, loop: bool, stop: Token)
    requires (stop == RBrace || stop == Eof) && Cur(ts) != RBrace && Cur(ts) != Eof
    requires ParseS(ts, loop) == Some((s, rest))
    ensures ParseSs(acc, ts, loop, stop) == ParseSs(acc + [s], rest, loop, stop)
  {
    hide ParseS;
  }

  // ----- Whatever is read is the text of a well-formed statement -----

  lemma {:induction false} SOnlyText(ts: Tokens, loop: bool)
    requires ParseS(ts, loop).Some?
    ensures var (s, rest) := ParseS(ts, loop).value; FitsS(s, loop) && ts == TextS(s) + rest
    decreases |ts|, 2
  {
    hide ParseIf, ParseWhile, ParseFor, ParseFun, ParseReturn, ParseSimple, FitsS, TextS;
    var (s, rest) := ParseS(ts, loop).value;
    var t := Cur(ts);
    if t != Eof { Again(ts); }
    if t == Semicolon {
      EmptyText(rest);
    } else if t == KwIf {
      IfOnlyText(Rest(ts), loop);
    } else if t == KwWhile {
      WhileOnlyText(Rest(ts), loop);
    } else if t == KwFor {
      ForOnlyText(Rest(ts), loop);
    } else if t == KwFun {
      FunOnlyText(Rest(ts), loop);
    } else if t == KwReturn {
      ReturnOnlyText(Rest(ts), loop);
    } else if t == KwBreak || t == KwContinue {
      Again(Rest(ts));
      ExitText(rest);
    } else {
      DoOnlyText(ts, loop);
    }
  }

  lemma EmptyText(rest: Tokens)
    ensures forall loop :: FitsS(Empty, loop)
    ensures TextS(Empty) + rest == [Semicolon] + rest
  {
  }

  lemma ExitText(rest: Tokens)
    ensures FitsS(Break, true) && FitsS(Continue, true)
    ensures TextS(Break) + rest == [KwBreak] + ([Semicolon] + rest)
    ensures TextS(Continue) + rest == [KwContinue] + ([Semicolon] + rest)
  {
  }

  lemma {:induction false} DoOnlyText(ts: Tokens, loop: bool)
    requires ParseSimple(ts).Some? && Cur(ParseSimple(ts).value.1) == Semicolon
    ensures var (m, us) := ParseSimple(ts).value; FitsS(Do(m), loop) && ts == TextS(Do(m)) + Rest(us)
  {
    hide ParseSimple, TextSimple, FitsSimple;
    SimpleOnlyText(ts);
    var (m, us) := ParseSimple(ts).value;
    Again(us);
    Cat3(TextSimple(m), [Semicolon], Rest(us));
  }

  lemma {:induction false} ReturnOnlyText(ts: Tokens, loop: bool)
    requires ParseReturn(ts).Some?
    ensures var (s, rest) := ParseReturn(ts).value; FitsS(s, loop) && [KwReturn] + ts == TextS(s) + rest
  {
    hide Climb, TextE, Fits;
    if Cur(ts) == Semicolon {
      Again(ts);
      assert [KwReturn, Semicolon] == [KwReturn] + [Semicolon];
    } else {
      var (e, us) := ParseE(ts, -1).value;
      ExprCharacterized(ts, -1, e, us);
      Again(us);
      Cat4([KwReturn], TextE(e), [Semicolon], Rest(us));
    }
  }

  lemma {:induction false} IfOnlyText(ts: Tokens, loop: bool)
    requires ParseIf(ts, loop).Some?
    ensures var (s, rest) := ParseIf(ts, loop).value; FitsS(s, loop) && [KwIf] + ts == TextS(s) + rest
    decreases |ts|, 4
  {
    hide ParseClauses, ParseElse, FitsClauses, FitsB, TextClauses, TextElse;
    NoneFit(loop);
    ClausesOnlyText([], ts, loop);
    var (cs, us) := ParseClauses([], ts, loop).value;
    ElseOnlyText(us, loop);
    var (els, rest) := ParseElse(us, loop).value;
    Cat4([KwIf], TextClauses(cs, 0), TextElse(els), rest);
  }

  lemma {:induction false} ElseOnlyText(ts: Tokens, loop: bool)
    requires ParseElse(ts, loop).Some?
    ensures var (els, rest) := ParseElse(ts, loop).value;
      (els.Else? ==> FitsB(els.blk, loop)) && ts == TextElse(els) + rest
    decreases |ts|, 1
  {
    hide ParseBlock, FitsB, TextBlock;
    if Cur(ts) == KwElse {
      Again(ts);
      BlockOnlyText(Rest(ts), loop);
      var (b, rest) := ParseBlock(Rest(ts), loop).value;
      Cat3([KwElse], TextBlock(b), rest);
    } else {
      assert [] + ts == ts;
    }
  }

  lemma {:induction false} WhileOnlyText(ts: Tokens, loop: bool)
    requires ParseWhile(ts).Some?
    ensures var (s, rest) := ParseWhile(ts).value; FitsS(s, loop) && [KwWhile] + ts == TextS(s) + rest
    decreases |ts|, 4
  {
    hide ParseCond, ParseBlock, FitsB, Fits, TextE, TextBlock, TextS;
    var (c, us) := ParseCond(ts).value;
    CondOnlyText(ts);
    BlockOnlyText(us, true);
    var (b, rest) := ParseBlock(us, true).value;
    LoopTexts(While(c, b), rest);
  }

  lemma {:induction false} ForOnlyText(ts: Tokens, loop: bool)
    requires ParseFor(ts).Some?
    ensures var (s, rest) := ParseFor(ts).value; FitsS(s, loop) && [KwFor] + ts == TextS(s) + rest
    decreases |ts|, 4
  {
    hide ParseForHead, ParseBlock, FitsB, FitsOpt, FitsTest, TextHead, TextBlock, TextS;
    var (h, us) := ParseForHead(ts).value;
    HeadOnlyText(ts);
    BlockOnlyText(us, true);
    var (b, rest) := ParseBlock(us, true).value;
    LoopTexts(For(h.init, h.test, h.post, b), rest);
  }

  lemma {:induction false} FunOnlyText(ts: Tokens, loop: bool)
    requires ParseFun(ts).Some?
    ensures var (s, rest) := ParseFun(ts).value; FitsS(s, loop) && [KwFun] + ts == TextS(s) + rest
    decreases |ts|, 4
  {
    hide ParseParamList, ParseBlock, FitsB, FunFits, TextBlock, TextParams, NoDup;
    Again(ts);
    Again(Rest(ts));
    var us := Rest(Rest(ts));
    ParamListOnlyText(us);
    var (ps, vs) := ParseParamList(us).value;
    BlockOnlyText(vs, false);
    var (b, rest) := ParseBlock(vs, false).value;
    FunText(Cur(ts).name, TextParams(ps, 0), TextBlock(b), rest);
  }

  lemma {:induction false} ClauseOnlyText(ts: Tokens, loop: bool)
    requires ParseClause(ts, loop).Some?
    ensures var (c, rest) := ParseClause(ts, loop).value;
      Fits(c.cond, -1) && FitsB(c.blk, loop) && ts == TextClause(c) + rest
    decreases |ts|, 2
  {
    hide ParseCond, ParseBlock, FitsB, Fits, TextE, TextBlock, TextClause;
    CondOnlyText(ts);
    var (c, us) := ParseCond(ts).value;
    BlockOnlyText(us, loop);
    var (b, rest) := ParseBlock(us, loop).value;
    ClauseText(Clause(c, b), rest);
  }

  lemma {:induction false} ClausesOnlyText(acc: seq<Clause>, ts: Tokens, loop: bool)
    requires ParseClauses(acc, ts, loop).Some? && FitsClauses(acc, loop)
    ensures var (cs, rest) := ParseClauses(acc, ts, loop).value;
      acc < cs && FitsClauses(cs, loop) && ts == TextClauses(cs, |acc|) + rest
    decreases |ts|, 3
  {
    hide ParseClause, ParseClauses, FitsB, Fits, TextClause, TextClauses;
    ClausesStep(acc, ts, loop);
    ClauseOnlyText(ts, loop);
    var (c, us) := ParseClause(ts, loop).value;
    var (cs, rest) := ParseClauses(acc, ts, loop).value;
    var more := acc + [c];
    assert FitsClauses(more, loop);
    if Cur(us) == KwElif {
      Again(us);
      ClausesOnlyText(more, Rest(us), loop);
    }
    assert cs[|acc|] == more[|acc|];
    ClausesFrom(cs, |acc|, rest);
  }

  lemma {:induction false} BlockOnlyText(ts: Tokens, loop: bool)
    requires ParseBlock(ts, loop).Some?
    ensures var (b, rest) := ParseBlock(ts, loop).value; FitsB(b, loop) && ts == TextBlock(b) + rest
    decreases |ts|, 1
  {
    hide ParseSs, FitsS, TextBlock, TextSs;
    Again(ts);
    SsOnlyText([], Rest(ts), loop, RBrace);
    var (b, us) := ParseSs([], Rest(ts), loop, RBrace).value;
    Again(us);
    BlockText(b, Rest(us));
  }

  lemma {:induction false} SsOnlyText(acc: seq<Stmt>, ts: Tokens, loop: bool, stop: Token)
    requires (stop == RBrace || stop == Eof) && ParseSs(acc, ts, loop, stop).Some? && FitsB(acc, loop)
    ensures var (b, rest) := ParseSs(acc, ts, loop, stop).value;
      acc <= b && FitsB(b, loop) && ts == TextSs(b, |acc|) + rest
    decreases |ts|, 3
  {
    hide ParseS, FitsS, TextS, TextSs;
    var (b, rest) := ParseSs(acc, ts, loop, stop).value;
    if Cur(ts) == stop {
      NoText(acc, ts);
    } else {
      SOnlyText(ts, loop);
      var (s, us) := ParseS(ts, loop).value;
      var more := acc + [s];
      assert FitsB(more, loop);
      SsOnlyText(more, us, loop, stop);
      assert b[|acc|] == more[|acc|];
      StmtsFrom(b, |acc|, rest);
    }
  }

  // ----- Programs -----

  /** The programs that the compiler accepts, and their trees: exactly the texts of the well-formed ones. */
  lemma {:induction false} ProgramCharacterized(ts: Tokens, b: seq<Stmt>)
    ensures ParseProgram(ts) == Some(b) <==>
      FitsB(b, false) && FunFits([], b) && exists rest: Tokens :: Cur(rest) == Eof && ts == TextSs(b, 0) + rest
  {
    hide ParseSs, FitsB, FunFits, TextSs;
    if ParseProgram(ts) == Some(b) {
      NoneFit(false);
      SsOnlyText([], ts, false, Eof);
    }
    if FitsB(b, false) && FunFits([], b) && exists rest: Tokens :: Cur(rest) == Eof && ts == TextSs(b, 0) + rest {
      var rest: Tokens :| Cur(rest) == Eof && ts == TextSs(b, 0) + rest;
      ReadsSs(b, 0, false, Eof, rest);
      assert b[..0] == [];
    }
  }

  lemma NoneFit(loop: bool)
    ensures FitsB([], loop) && FitsClauses([], loop)
  {
  }

  /** Every well-formed tree is read back from its text. */
  lemma {:induction false} ProgramReadsBack(b: seq<Stmt>)
    requires FitsB(b, false) && FunFits([], b)
    ensures ParseProgram(TextSs(b, 0)) == Some(b)
  {
    hide ParseProgram, FitsB, FunFits, TextSs;
    assert Cur([]) == Eof && TextSs(b, 0) == TextSs(b, 0) + [];
    ProgramCharacterized(TextSs(b, 0), b);
  }
}
