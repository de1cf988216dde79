/** The language that the compiler accepts: a recursive-descent parser that builds the tree the compiler never builds.

    Each function returns the tree and the tokens that are left, or None for a parse error. */
module Grammar {
  import opened Common
  import opened Syntax
  import opened Codegen

  type Tokens = seq<Token>

  function Cur(ts: Tokens): Token {
    if ts == [] then Eof else ts[0]
  }

  function Rest(ts: Tokens): (r: Tokens)
    ensures ts != [] ==> |r| < |ts|
    ensures |r| <= |ts|
  {
    if ts == [] then ts else ts[1..]
  }

  /** Tokens at which expr() returns. */
  predicate IsStop(t: Token) {
    t in {Comma, Eof, Assign1, Colon, Semicolon, ColonEq, RParen, RBracket, RBrace} || t.OpEq?
  }

  type ParsedE = Option<(Expr, Tokens)>

  function ParseE(ts: Tokens, min: int): (r: ParsedE)
    ensures r.Some? ==> |r.value.1| < |ts|
    decreases |ts|, 3
  {
    Climb(None, ts, min)
  }

  /** Precedence climbing: `acc` is the operand read so far, None while an operand is expected. */
  function Climb(acc: Option<Expr>, ts: Tokens, min: int): (r: ParsedE)
    ensures r.Some? ==> |r.value.1| <= |ts| && (acc.None? ==> |r.value.1| < |ts|)
    decreases |ts|, 2
  {
    match Round(acc, ts, min)
    case Stop(e) => Some((e, ts))
    case Go(e, rest) => Climb(Some(e), rest, min)
    case Bad => None
  }

  /** What one round of the loop of expr() does: return the operand, go on with a larger one, or fail. */
  datatype Move = Stop(e: Expr) | Go(e: Expr, rest: Tokens) | Bad

  function Round(acc: Option<Expr>, ts: Tokens, min: int): (m: Move)
    ensures m.Go? ==> |m.rest| < |ts|
    ensures m.Stop? ==> acc == Some(m.e)
    decreases |ts|, 1
  {
    if IsStop(Cur(ts)) then
      if acc.None? then Bad else Stop(acc.value)
    else if acc.None? then Operand(ts[0], ts[1..])
    else if ts[0].Operator? then
      if Priority(ts[0].op) < min then Stop(acc.value) else Infix(acc.value, ts[0].op, ts[1..])
    else Postfix(acc.value, ts[0], ts[1..])
  }

  /** An operand that starts with t. */
  function Operand(t: Token, ts: Tokens): (m: Move)
    ensures m.Go? ==> |m.rest| <= |ts|
    ensures !m.Stop?
    decreases |ts|, 10
  {
    if t.Literal? then Go(Const(t.v), ts)
    else if t.Ident? then Go(Var(t.name), ts)
    else if t == LBracket then
      var r := ParseEs(ts, RBracket);
      if r.None? then Bad else Go(ListLit(r.value.0), r.value.1)
    else if t == LBrace then
      var r := ParseNs(ts);
      if r.None? then Bad else Go(DictLit(r.value.0), r.value.1)
    else if t == LParen then
      var r := ParseE(ts, -1);
      if r.None? || Cur(r.value.1) != RParen then Bad else Go(Paren(r.value.0), Rest(r.value.1))
    else
      var u := AsUnary(t);
      if u.None? then Bad else
      var r := ParseE(ts, UnPriority(u.value));
      if r.None? then Bad else Go(Unary(u.value, r.value.0), r.value.1)
  }

  /** `a` followed by the token t that is not an operator. */
  function Postfix(a: Expr, t: Token, ts: Tokens): (m: Move)
    ensures m.Go? ==> |m.rest| <= |ts|
    ensures !m.Stop?
    decreases |ts|, 10
  {
    if t == LBracket then
      var r := ParseE(ts, -1);
      if r.None? || Cur(r.value.1) != RBracket then Bad else Go(Index(a, r.value.0), Rest(r.value.1))
    else if t == LParen then
      var r := ParseEs(ts, RParen);
      if r.None? then Bad else Go(Invoke(a, r.value.0), r.value.1)
    else if t == Dot then
      if Cur(ts).Ident? then Go(Field(a, Cur(ts).name), Rest(ts)) else Bad
    else Bad
  }

  function Infix(a: Expr, o: BinOp, ts: Tokens): (m: Move)
    ensures m.Go? ==> |m.rest| <= |ts|
    ensures !m.Stop?
    decreases |ts|, 10
  {
    var r := ParseE(ts, Priority(o) + IsLeftAssoc(o));
    if r.None? then Bad else Go(Binary(o, a, r.value.0), r.value.1)
  }

  /** Arguments or list elements, up to and including the closing token. */
  function ParseEs(ts: Tokens, close: Token): (r: Option<(seq<Expr>, Tokens)>)
    ensures r.Some? ==> |r.value.1| < |ts|
    decreases |ts|, 5
  {
    if ts != [] && ts[0] == close then Some(([], ts[1..])) else ParseMoreEs([], ts, close)
  }

  function ParseMoreEs(acc: seq<Expr>, ts: Tokens, close: Token): (r: Option<(seq<Expr>, Tokens)>)
    ensures r.Some? ==> |r.value.1| < |ts|
    decreases |ts|, 4
  {
    var r := Climb(None, ts, -1);
    if r.None? then None
    else if r.value.1 != [] && r.value.1[0] == close then Some((acc + [r.value.0], r.value.1[1..]))
    else if Cur(r.value.1) == Comma then ParseMoreEs(acc + [r.value.0], Rest(r.value.1), close)
    else None
  }

  function ParseNs(ts: Tokens): (r: Option<(seq<Entry>, Tokens)>)
    ensures r.Some? ==> |r.value.1| < |ts|
    decreases |ts|, 5
  {
    if ts != [] && ts[0] == RBrace then Some(([], ts[1..])) else ParseMoreNs([], ts)
  }

  function ParseMoreNs(acc: seq<Entry>, ts: Tokens): (r: Option<(seq<Entry>, Tokens)>)
    ensures r.Some? ==> |r.value.1| < |ts|
    decreases |ts|, 4
  {
    var k := Climb(None, ts, -1);
    if k.None? || Cur(k.value.1) != Colon then None else
    var v := ParseE(Rest(k.value.1), -1);
    if v.None? then None else
    var ns := acc + [Entry(k.value.0, v.value.0)];
    var ts' := v.value.1;
    if Cur(ts') == RBrace then Some((ns, Rest(ts')))
    else if Cur(ts') == Comma then ParseMoreNs(ns, Rest(ts'))
    else None
  }

  // ----- Statements -----

  function AsKind(t: Token): Option<Kind> {
    match t
    case Assign1 => Some(Store)
    case ColonEq => Some(StoreHere)
    case OpEq(a) => Some(Modify(a))
    case _ => None
  }

  /** expr_or_assignment(): an expression statement is followed by its semicolon, which is not consumed. */
  function ParseSimple(ts: Tokens): (r: Option<(Simple, Tokens)>)
    ensures r.Some? ==> |r.value.1| < |ts|
  {
    var l := ParseE(ts, -1);
    if l.None? then None else
    var t := Cur(l.value.1);
    if t == Semicolon then Some((PrintExpr(l.value.0), l.value.1)) else
    var k := AsKind(t);
    if k.None? then None else
    var r := ParseE(Rest(l.value.1), -1);
    if r.None? || !Assignable(k.value, l.value.0) then None
    else Some((Assign(k.value, l.value.0, r.value.0), r.value.1))
  }

  function ParseOptSimple(ts: Tokens, stop: Token): (r: Option<(Option<Simple>, Tokens)>)
    ensures r.Some? ==> |r.value.1| <= |ts|
  {
    if Cur(ts) == stop then Some((None, ts)) else
    var r := ParseSimple(ts);
    if r.None? then None else Some((Some(r.value.0), r.value.1))
  }

  /** The tokens after t, if t is the current one. */
  function Skip(ts: Tokens, t: Token): (r: Option<Tokens>)
    requires t != Eof
    ensures r.Some? ==> |r.value| < |ts|
  {
    if Cur(ts) == t then Some(Rest(ts)) else None
  }

  /** Parameter names up to and including the closing parenthesis. */
  function ParseParams(acc: seq<string>, ts: Tokens): (r: Option<(seq<string>, Tokens)>)
    ensures r.Some? ==> |r.value.1| < |ts|
    decreases |ts|
  {
    if !Cur(ts).Ident? || Cur(ts).name in acc then None else
    var ps := acc + [Cur(ts).name];
    var ts' := Rest(ts);
    if Cur(ts') == RParen then Some((ps, Rest(ts')))
    else if Cur(ts') == Comma then ParseParams(ps, Rest(ts'))
    else None
  }

  /** `(` condition `)` */
  function ParseCond(ts: Tokens): (r: ParsedE)
    ensures r.Some? ==> |r.value.1| < |ts|
  {
    var a := Skip(ts, LParen);
    if a.None? then None else
    var c := ParseE(a.value, -1);
    if c.None? || Cur(c.value.1) != RParen then None else Some((c.value.0, Rest(c.value.1)))
  }

  /** The condition of a `for`, which may be left out. */
  function ParseTest(ts: Tokens): (r: Option<(Option<Expr>, Tokens)>)
    ensures r.Some? ==> |r.value.1| <= |ts|
  {
    if Cur(ts) == Semicolon then Some((None, ts)) else
    var e := ParseE(ts, -1);
    if e.None? then None else Some((Some(e.value.0), e.value.1))
  }

  datatype ForHead = ForHead(init: Option<Simple>, test: Option<Expr>, post: Option<Simple>)

  /** `(` initialization `;` */
  function ParseForInit(ts: Tokens): (r: Option<(Option<Simple>, Tokens)>)
    ensures r.Some? ==> |r.value.1| < |ts|
  {
    var a := Skip(ts, LParen);
    if a.None? then None else
    var i := ParseOptSimple(a.value, Semicolon);
    if i.None? || Cur(i.value.1) != Semicolon then None else Some((i.value.0, Rest(i.value.1)))
  }

  /** `(` initialization `;` condition `;` post clause `)` */
  function ParseForHead(ts: Tokens): (r: Option<(ForHead, Tokens)>)
    ensures r.Some? ==> |r.value.1| < |ts|
  {
    var i := ParseForInit(ts);
    if i.None? then None else
    var c := ParseTest(i.value.1);
    if c.None? || Cur(c.value.1) != Semicolon then None else
    var p := ParseOptSimple(Rest(c.value.1), RParen);
    if p.None? || Cur(p.value.1) != RParen then None
    else Some((ForHead(i.value.0, c.value.0, p.value.0), Rest(p.value.1)))
  }

  /** Parameters up to and including the closing parenthesis. */
  function ParseParamList(ts: Tokens): (r: Option<(seq<string>, Tokens)>)
    ensures r.Some? ==> |r.value.1| < |ts|
  {
    if Cur(ts) == RParen then Some(([], Rest(ts))) else ParseParams([], ts)
  }

  type ParsedS = Option<(Stmt, Tokens)>

  /** One statement that is not the end of a block; `loop` says whether break and continue are allowed. */
  function ParseS(ts: Tokens, loop: bool): (r: ParsedS)
    ensures r.Some? ==> |r.value.1| < |ts|
    decreases |ts|, 2
  {
    var t := Cur(ts);
    if t == Semicolon then Some((Empty, Rest(ts)))
    else if t == KwIf then ParseIf(Rest(ts), loop)
    else if t == KwWhile then ParseWhile(Rest(ts))
    else if t == KwFor then ParseFor(Rest(ts))
    else if t == KwFun then ParseFun(Rest(ts))
    else if t == KwReturn then ParseReturn(Rest(ts))
    else if t == KwBreak then
      if loop && Cur(Rest(ts)) == Semicolon then Some((Break, Rest(Rest(ts)))) else None
    else if t == KwContinue then
      if loop && Cur(Rest(ts)) == Semicolon then Some((Continue, Rest(Rest(ts)))) else None
    else
      var m := ParseSimple(ts);
      if m.None? || Cur(m.value.1) != Semicolon then None else Some((Do(m.value.0), Rest(m.value.1)))
  }

  // The tokens after the keyword of a statement.

  function ParseReturn(ts: Tokens): (r: ParsedS)
    ensures r.Some? ==> |r.value.1| < |ts|
  {
    if Cur(ts) == Semicolon then Some((ReturnNil, Rest(ts))) else
    var e := ParseE(ts, -1);
    if e.None? || Cur(e.value.1) != Semicolon then None else Some((ReturnVal(e.value.0), Rest(e.value.1)))
  }

  function ParseIf(ts: Tokens, loop: bool): (r: ParsedS)
    ensures r.Some? ==> |r.value.1| < |ts|
    decreases |ts|, 4
  {
    var cs := ParseClauses([], ts, loop);
    if cs.None? then None else
    var els := ParseElse(cs.value.1, loop);
    if els.None? then None else Some((If(cs.value.0, els.value.0), els.value.1))
  }

  function ParseWhile(ts: Tokens): (r: ParsedS)
    ensures r.Some? ==> |r.value.1| < |ts|
    decreases |ts|, 4
  {
    var c := ParseCond(ts);
    if c.None? then None else
    var b := ParseBlock(c.value.1, true);
    if b.None? then None else Some((While(c.value.0, b.value.0), b.value.1))
  }

  function ParseFor(ts: Tokens): (r: ParsedS)
    ensures r.Some? ==> |r.value.1| < |ts|
    decreases |ts|, 4
  {
    var h := ParseForHead(ts);
    if h.None? then None else
    var b := ParseBlock(h.value.1, true);
    if b.None? then None
    else Some((For(h.value.0.init, h.value.0.test, h.value.0.post, b.value.0), b.value.1))
  }

  function ParseFun(ts: Tokens): (r: ParsedS)
    ensures r.Some? ==> |r.value.1| < |ts|
    decreases |ts|, 4
  {
    if !Cur(ts).Ident? then None else
    var a := Skip(Rest(ts), LParen);
    if a.None? then None else
    var ps := ParseParamList(a.value);
    if ps.None? then None else
    var b := ParseBlock(ps.value.1, false);
    if b.None? || !FunFits(ps.value.0, b.value.0) then None
    else Some((FunDecl(Cur(ts).name, ps.value.0, b.value.0), b.value.1))
  }

  /** `(` condition `)` block */
  function ParseClause(ts: Tokens, loop: bool): (r: Option<(Clause, Tokens)>)
    ensures r.Some? ==> |r.value.1| < |ts|
    decreases |ts|, 2
  {
    var c := ParseCond(ts);
    if c.None? then None else
    var b := ParseBlock(c.value.1, loop);
    if b.None? then None else Some((Clause(c.value.0, b.value.0), b.value.1))
  }

  /** An arm and the `elif` arms after it. */
  function ParseClauses(acc: seq<Clause>, ts: Tokens, loop: bool): (r: Option<(seq<Clause>, Tokens)>)
    ensures r.Some? ==> |r.value.1| < |ts|
    decreases |ts|, 3
  {
    var c := ParseClause(ts, loop);
    if c.None? then None
    else if Cur(c.value.1) == KwElif then ParseClauses(acc + [c.value.0], Rest(c.value.1), loop)
    else Some((acc + [c.value.0], c.value.1))
  }

  lemma ClausesStep(acc: seq<Clause>, ts: Tokens, loop: bool)
    ensures var c := ParseClause(ts, loop);
      ParseClauses(acc, ts, loop) ==
        if c.None? then None
        else if Cur(c.value.1) == KwElif then ParseClauses(acc + [c.value.0], Rest(c.value.1), loop)
        else Some((acc + [c.value.0], c.value.1))
  {
  }

  function ParseElse(ts: Tokens, loop: bool): (r: Option<(ElsePart, Tokens)>)
    ensures r.Some? ==> |r.value.1| <= |ts|
    decreases |ts|, 1
  {
    if Cur(ts) != KwElse then Some((NoElse, ts)) else
    var b := ParseBlock(Rest(ts), loop);
    if b.None? then None else Some((Else(b.value.0), b.value.1))
  }

  /** `{` statements `}` */
  function ParseBlock(ts: Tokens, loop: bool): (r: Option<(seq<Stmt>, Tokens)>)
    ensures r.Some? ==> |r.value.1| < |ts|
    decreases |ts|, 1
  {
    var a := Skip(ts, LBrace);
    if a.None? then None else
    var r := ParseSs([], a.value, loop, RBrace);
    if r.None? then None else Some((r.value.0, Rest(r.value.1)))
  }

  /** Statements up to a closing brace or the end of the input, whichever is `stop`. */
  function ParseSs(acc: seq<Stmt>, ts: Tokens, loop: bool, stop: Token): (r: Option<(seq<Stmt>, Tokens)>)
    requires stop == RBrace || stop == Eof
    ensures r.Some? ==> |r.value.1| <= |ts| && Cur(r.value.1) == stop
    decreases |ts|, 3
  {
    if Cur(ts) == stop then Some((acc, ts))
    else if Cur(ts) == RBrace || Cur(ts) == Eof then None
    else
      var s := ParseS(ts, loop);
      if s.None? then None else ParseSs(acc + [s.value.0], s.value.1, loop, stop)
  }

  /** A whole program: the body of a function without parameters. */
  function ParseProgram(ts: Tokens): Option<seq<Stmt>> {
    var r := ParseSs([], ts, false, Eof);
    if r.None? || !FunFits([], r.value.0) then None else Some(r.value.0)
  }
}
