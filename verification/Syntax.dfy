/** Tokens, abstract syntax, and the token text of a syntax tree. */
module Syntax {
  import opened Common
  import opened Bytecode

  datatype BinOp =
    | TildeOp | OrOrOp | AndAndOp | OrOp | HatOp | AndOp
    | BangEqOp | EqEqOp | GreaterEqOp | GreaterOp | LessEqOp | LessOp
    | GreaterGreaterOp | LessLessOp | MinusOp | PlusOp
    | PercentOp | SlashOp | SlashSlashOp | StarOp | StarStarOp

  datatype UnOp = NegOp | NotOp | LenOp

  /** One token per lexeme kind; the literal kinds (number, string, true, false, nil) carry their value. */
  datatype Token =
    | Literal(v: Value) | Ident(name: string)
    | LParen | RParen | LBracket | RBracket | LBrace | RBrace
    | Comma | Colon | Semicolon | Dot | Assign1 | ColonEq | OpEq(aop: Aop)
    | Operator(op: BinOp) | Bang | At | MinusGreater
    | KwIf | KwElif | KwElse | KwWhile | KwFor | KwFun | KwReturn | KwBreak | KwContinue
    | Eof

  // The tables of binary_operator() and unary_operator().

  function Priority(o: BinOp): int {
    match o
    case TildeOp => 10
    case OrOrOp => 11
    case AndAndOp => 12
    case OrOp => 13
    case HatOp => 14
    case AndOp => 15
    case BangEqOp => 16 case EqEqOp => 16
    case GreaterEqOp => 17 case GreaterOp => 17 case LessEqOp => 17 case LessOp => 17
    case GreaterGreaterOp => 18 case LessLessOp => 18
    case MinusOp => 19 case PlusOp => 19
    case PercentOp => 20 case SlashOp => 20 case SlashSlashOp => 20 case StarOp => 20
    case StarStarOp => 21
  }

  function IsLeftAssoc(o: BinOp): int {
    if o == StarStarOp then 0 else 1
  }

  const COMPARE_LESS := 1
  const COMPARE_EQ := 2
  const COMPARE_GREATER := 4

  function BinInstr(o: BinOp): Instr {
    match o
    case TildeOp => Arith(Concat)
    case OrOrOp => Arith(Or)
    case AndAndOp => Arith(And)
    case OrOp => Arith(BitOr)
    case HatOp => Arith(BitXor)
    case AndOp => Arith(BitAnd)
    case BangEqOp => Cmp2Way(false)
    case EqEqOp => Cmp2Way(true)
    case GreaterEqOp => Cmp3Way(COMPARE_GREATER + COMPARE_EQ)
    case GreaterOp => Cmp3Way(COMPARE_GREATER)
    case LessEqOp => Cmp3Way(COMPARE_LESS + COMPARE_EQ)
    case LessOp => Cmp3Way(COMPARE_LESS)
    case GreaterGreaterOp => Arith(RShift)
    case LessLessOp => Arith(LShift)
    case MinusOp => Arith(Sub)
    case PlusOp => Arith(Add)
    case PercentOp => Arith(Mod)
    case SlashOp => Arith(Div)
    case SlashSlashOp => Arith(IDiv)
    case StarOp => Arith(Mul)
    case StarStarOp => Arith(Pow)
  }

  function UnPriority(o: UnOp): int {
    match o case NegOp => 50 case NotOp => 50 case LenOp => 60
  }

  function UnInstr(o: UnOp): Instr {
    match o case NegOp => Negate case NotOp => Not case LenOp => Length
  }

  function UnToken(o: UnOp): Token {
    match o case NegOp => Operator(MinusOp) case NotOp => Bang case LenOp => At
  }

  function AsUnary(t: Token): Option<UnOp> {
    match t
    case Operator(o) => if o == MinusOp then Some(NegOp) else None
    case Bang => Some(NotOp)
    case At => Some(LenOp)
    case _ => None
  }

  datatype Expr =
    | Const(v: Value) | Var(name: string) | Paren(inner: Expr)
    | Unary(uop: UnOp, arg: Expr) | Binary(bop: BinOp, left: Expr, right: Expr)
    | Index(base: Expr, index: Expr) | Field(base: Expr, field: string)
    | Invoke(callee: Expr, args: seq<Expr>)
    | ListLit(elems: seq<Expr>) | DictLit(entries: seq<Entry>)

  datatype Entry = Entry(key: Expr, val: Expr)

  /** `=`, `:=` or `<op>=`. */
  datatype Kind = Store | StoreHere | Modify(aop: Aop)

  datatype Simple = PrintExpr(e: Expr) | Assign(kind: Kind, lhs: Expr, rhs: Expr)

  datatype Stmt =
    | Empty | Do(simple: Simple)
    | If(clauses: seq<Clause>, els: ElsePart)
    | While(cond: Expr, body: seq<Stmt>)
    | For(init: Option<Simple>, test: Option<Expr>, post: Option<Simple>, body: seq<Stmt>)
    | FunDecl(name: string, params: seq<string>, body: seq<Stmt>)
    | ReturnNil | ReturnVal(e: Expr) | Break | Continue

  datatype ElsePart = NoElse | Else(blk: seq<Stmt>)

  /** One `if` or `elif` arm. */
  datatype Clause = Clause(cond: Expr, blk: seq<Stmt>)

  // The token text of a tree.  Parentheses are nodes of the tree.

  function TextE(e: Expr): (r: seq<Token>)
    ensures |r| > 0
    decreases e, 1
  {
    match e
    case Const(v) => [Literal(v)]
    case Var(x) => [Ident(x)]
    case Paren(i) => [LParen] + TextE(i) + [RParen]
    case Unary(o, a) => [UnToken(o)] + TextE(a)
    case Binary(o, l, r) => TextE(l) + [Operator(o)] + TextE(r)
    case Index(b, i) => TextE(b) + [LBracket] + TextE(i) + [RBracket]
    case Field(b, f) => TextE(b) + [Dot, Ident(f)]
    case Invoke(f, args) => TextE(f) + [LParen] + TextEs(args, 0) + [RParen]
    case ListLit(es) => [LBracket] + TextEs(es, 0) + [RBracket]
    case DictLit(ns) => [LBrace] + TextNs(ns, 0) + [RBrace]
  }

  /** The elements from index i on, separated by commas. */
  function TextEs(es: seq<Expr>, i: nat): seq<Token>
    requires i <= |es|
    decreases es, 0, |es| - i
  {
    if i == |es| then []
    else if i + 1 == |es| then TextE(es[i])
    else TextE(es[i]) + [Comma] + TextEs(es, i + 1)
  }

  function TextN(n: Entry): seq<Token>
    decreases n, 1
  {
    TextE(n.key) + [Colon] + TextE(n.val)
  }

  function TextNs(ns: seq<Entry>, i: nat): seq<Token>
    requires i <= |ns|
    decreases ns, 0, |ns| - i
  {
    if i == |ns| then []
    else if i + 1 == |ns| then TextN(ns[i])
    else TextN(ns[i]) + [Comma] + TextNs(ns, i + 1)
  }

  function KindToken(k: Kind): Token {
    match k case Store => Assign1 case StoreHere => ColonEq case Modify(a) => OpEq(a)
  }

  function TextSimple(m: Simple): seq<Token> {
    match m
    case PrintExpr(e) => TextE(e)
    case Assign(k, l, r) => TextE(l) + [KindToken(k)] + TextE(r)
  }

  function TextOptSimple(m: Option<Simple>): seq<Token> {
    if m.None? then [] else TextSimple(m.value)
  }

  function TextParams(ps: seq<string>, i: nat): seq<Token>
    requires i <= |ps|
    decreases |ps| - i
  {
    if i == |ps| then []
    else if i + 1 == |ps| then [Ident(ps[i])]
    else [Ident(ps[i]), Comma] + TextParams(ps, i + 1)
  }

  function TextS(s: Stmt): (r: seq<Token>)
    ensures |r| > 0
    decreases s, 1
  {
    match s
    case Empty => [Semicolon]
    case Do(m) => TextSimple(m) + [Semicolon]
    case If(cs, els) => [KwIf] + TextClauses(cs, 0) + TextElse(els)
    case While(c, b) => [KwWhile, LParen] + TextE(c) + [RParen] + TextBlock(b)
    case For(i, c, p, b) =>
      [KwFor, LParen] + TextOptSimple(i) + [Semicolon] + (if c.None? then [] else TextE(c.value))
      + [Semicolon] + TextOptSimple(p) + [RParen] + TextBlock(b)
    case FunDecl(x, ps, b) => [KwFun, Ident(x), LParen] + TextParams(ps, 0) + [RParen] + TextBlock(b)
    case ReturnNil => [KwReturn, Semicolon]
    case ReturnVal(e) => [KwReturn] + TextE(e) + [Semicolon]
    case Break => [KwBreak, Semicolon]
    case Continue => [KwContinue, Semicolon]
  }

  function TextClause(c: Clause): seq<Token>
    decreases c, 1
  {
    [LParen] + TextE(c.cond) + [RParen] + TextBlock(c.blk)
  }

  /** The arms from index i on, without the keyword of the first of them. */
  function TextClauses(cs: seq<Clause>, i: nat): seq<Token>
    requires i <= |cs|
    decreases cs, 0, |cs| - i
  {
    if i == |cs| then []
    else if i + 1 == |cs| then TextClause(cs[i])
    else TextClause(cs[i]) + [KwElif] + TextClauses(cs, i + 1)
  }

  function TextElse(els: ElsePart): seq<Token>
    decreases els, 1
  {
    if els.NoElse? then [] else [KwElse] + TextBlock(els.blk)
  }

  function TextBlock(b: seq<Stmt>): seq<Token>
    decreases b, 1
  {
    [LBrace] + TextSs(b, 0) + [RBrace]
  }

  /** The statements from index i on. */
  function TextSs(b: seq<Stmt>, i: nat): seq<Token>
    requires i <= |b|
    decreases b, 0, |b| - i
  {
    if i == |b| then [] else TextS(b[i]) + TextSs(b, i + 1)
  }
}
