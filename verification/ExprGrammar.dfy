/** Precedence climbing reads exactly the expressions whose parentheses respect the priority table. */
module ExprGrammar {
  import opened Common
  import opened Syntax
  import opened Codegen
  import opened Grammar

  /** The lowest priority that may stand unparenthesised to the left and to the right of an operator. */
  function LeftMin(o: BinOp): int { Priority(o) + 1 - IsLeftAssoc(o) }

  function RightMin(o: BinOp): int { Priority(o) + IsLeftAssoc(o) }

  predicate IsPrimary(e: Expr) { !e.Unary? && !e.Binary? }

  /** e has all the parentheses it needs where an operand of priority `min` is expected. */
  ghost predicate Fits(e: Expr, min: int)
    decreases e
  {
    match e
    case Const(_) => true
    case Var(_) => true
    case Paren(i) => Fits(i, -1)
    case Unary(o, a) => Fits(a, UnPriority(o))
    case Binary(o, l, r) => Priority(o) >= min && Fits(l, LeftMin(o)) && Fits(r, RightMin(o))
    case Index(b, i) => IsPrimary(b) && Fits(b, -1) && Fits(i, -1)
    case Field(b, _) => IsPrimary(b) && Fits(b, -1)
    case Invoke(f, args) => IsPrimary(f) && Fits(f, -1) && forall i :: 0 <= i < |args| ==> Fits(args[i], -1)
    case ListLit(es) => forall i :: 0 <= i < |es| ==> Fits(es[i], -1)
    case DictLit(ns) => forall i :: 0 <= i < |ns| ==> Fits(ns[i].key, -1) && Fits(ns[i].val, -1)
  }

  /** The token t does not extend e itself, and the innermost call of expr() for e's last operand returns at it. */
  predicate Follows(e: Expr, t: Token) {
    IsPrimary(e) || IsStop(t) || (t.Operator? && (e.Binary? ==> Priority(t.op) < RightMin(e.bop)))
  }

  /** expr(min) returns at t. */
  predicate Ends(t: Token, min: int) {
    IsStop(t) || (t.Operator? && Priority(t.op) < min)
  }

  lemma {:induction false} FitsLower(e: Expr, min: int, lower: int)
    requires Fits(e, min) && lower <= min
    ensures Fits(e, lower)
  {
  }

  // ----- Every well-parenthesised text is read back -----

  lemma {:induction false} ReadsOperand(e: Expr, min: int, rest: Tokens)
    requires Fits(e, min) && Follows(e, Cur(rest))
    ensures Climb(None, TextE(e) + rest, min) == Climb(Some(e), rest, min)
    decreases e, 1
  {
    if e.Binary? {
      ReadsBinary(e, min, rest);
    } else if e.Index? || e.Field? || e.Invoke? {
      ReadsPostfix(e, min, rest);
    } else {
      ReadsPrefix(e, min, rest);
    }
  }

  lemma {:induction false} ReadsPrefix(e: Expr, min: int, rest: Tokens)
    requires Fits(e, min) && Follows(e, Cur(rest)) && !e.Binary? && !e.Index? && !e.Field? && !e.Invoke?
    ensures Climb(None, TextE(e) + rest, min) == Climb(Some(e), rest, min)
    decreases e, 0
  {
    var ts := TextE(e) + rest;
    TextNotClose(e);
    if e.ListLit? || e.DictLit? {
      ReadsBracketed(e, rest);
    } else if e.Paren? {
      ReadsParen(e, rest);
    } else if e.Unary? {
      assert ts[1..] == TextE(e.arg) + rest;
      ReadsWhole(e.arg, UnPriority(e.uop), rest);
    } else {
      assert ts[1..] == rest;
    }
  }

  lemma {:induction false} ReadsParen(e: Expr, rest: Tokens)
    requires e.Paren? && Fits(e, -1)
    ensures Operand((TextE(e) + rest)[0], (TextE(e) + rest)[1..]) == Go(e, rest)
    decreases e, 0, 0
  {
    assert (TextE(e) + rest)[1..] == TextE(e.inner) + ([RParen] + rest);
    ReadsWhole(e.inner, -1, [RParen] + rest);
    assert Rest([RParen] + rest) == rest;
  }

  lemma {:induction false} ReadsBracketed(e: Expr, rest: Tokens)
    requires (e.ListLit? || e.DictLit?) && Fits(e, -1)
    ensures Operand((TextE(e) + rest)[0], (TextE(e) + rest)[1..]) == Go(e, rest)
    decreases e, 0, 0
  {
    if e.ListLit? {
      assert (TextE(e) + rest)[1..] == TextEs(e.elems, 0) + [RBracket] + rest;
      ReadsEs(e.elems, RBracket, rest);
    } else {
      assert (TextE(e) + rest)[1..] == TextNs(e.entries, 0) + [RBrace] + rest;
      ReadsNs(e.entries, rest);
    }
  }

  lemma {:induction false} ReadsBinary(e: Expr, min: int, rest: Tokens)
    requires Fits(e, min) && Follows(e, Cur(rest)) && e.Binary?
    ensures Climb(None, TextE(e) + rest, min) == Climb(Some(e), rest, min)
    decreases e, 0
  {
    hide Climb, Round, Infix, Fits, Follows, Ends, IsStop, TextE;
    var Binary(o, l, r) := e;
    var tail := TextE(r) + rest;
    BinaryParts(e, min, rest);
    FitsLower(l, LeftMin(o), min);
    ReadsOperand(l, min, [Operator(o)] + tail);
    ReadsWhole(r, RightMin(o), rest);
    InfixReads(l, o, tail);
    InfixRound(l, o, tail, min);
  }

  lemma BinaryParts(e: Expr, min: int, rest: Tokens)
    requires Fits(e, min) && Follows(e, Cur(rest)) && e.Binary?
    ensures TextE(e) + rest == TextE(e.left) + ([Operator(e.bop)] + (TextE(e.right) + rest))
    ensures Priority(e.bop) >= min && Fits(e.left, LeftMin(e.bop)) && Fits(e.right, RightMin(e.bop))
    ensures LeftMin(e.bop) >= min && Follows(e.left, Operator(e.bop)) && Ends(Cur(rest), RightMin(e.bop))
  {
    Cat4(TextE(e.left), [Operator(e.bop)], TextE(e.right), rest);
  }

  lemma InfixReads(a: Expr, o: BinOp, ts: Tokens)
    requires ParseE(ts, RightMin(o)).Some?
    ensures var (r, rest) := ParseE(ts, RightMin(o)).value; Infix(a, o, ts) == Go(Binary(o, a, r), rest)
  {
    hide Climb;
  }

  lemma InfixRound(a: Expr, o: BinOp, ts: Tokens, min: int)
    requires Priority(o) >= min && Infix(a, o, ts).Go?
    ensures var Go(e, rest) := Infix(a, o, ts); Climb(Some(a), [Operator(o)] + ts, min) == Climb(Some(e), rest, min)
  {
    hide Infix;
    assert ([Operator(o)] + ts)[1..] == ts;
  }

  lemma {:induction false} ReadsPostfix(e: Expr, min: int, rest: Tokens)
    requires Fits(e, min) && (e.Index? || e.Field? || e.Invoke?)
    ensures Climb(None, TextE(e) + rest, min) == Climb(Some(e), rest, min)
    decreases e, 0
  {
    var b, t, tail := PostfixSplit(e, rest);
    ReadsPrimary(b, min, [t] + tail);
    assert ([t] + tail)[1..] == tail;
  }

  /** e is the operand b followed by the postfix that starts with t. */
  lemma {:induction false} PostfixSplit(e: Expr, rest: Tokens) returns (b: Expr, t: Token, tail: Tokens)
    requires Fits(e, -1) && (e.Index? || e.Field? || e.Invoke?)
    ensures TextE(e) + rest == TextE(b) + ([t] + tail) && Postfix(b, t, tail) == Go(e, rest)
    ensures b < e && IsPrimary(b) && Fits(b, -1) && !IsStop(t) && !t.Operator?
    decreases e, 0, 0
  {
    hide Climb, Round, ParseEs, CodeE;
    if e.Index? {
      b, t, tail := e.base, LBracket, TextE(e.index) + ([RBracket] + rest);
      Cat5(TextE(b), [t], TextE(e.index), [RBracket], rest);
      ReadsWhole(e.index, -1, [RBracket] + rest);
      assert Rest([RBracket] + rest) == rest;
    } else if e.Field? {
      b, t, tail := e.base, Dot, [Ident(e.field)] + rest;
      assert [Dot, Ident(e.field)] == [t] + [Ident(e.field)];
      Cat4(TextE(b), [t], [Ident(e.field)], rest);
      Cat3(TextE(b), [t], [Ident(e.field)]);
      assert Rest(tail) == rest;
    } else {
      b, t, tail := e.callee, LParen, TextEs(e.args, 0) + [RParen] + rest;
      Cat5(TextE(b), [t], TextEs(e.args, 0), [RParen], rest);
      Cat3(TextEs(e.args, 0), [RParen], rest);
      ReadsEs(e.args, RParen, rest);
    }
  }

  lemma {:induction false} ReadsPrimary(b: Expr, min: int, rest: Tokens)
    requires IsPrimary(b) && Fits(b, -1)
    ensures Climb(None, TextE(b) + rest, min) == Climb(Some(b), rest, min)
    decreases b, 2
  {
    assert Fits(b, min);
    ReadsOperand(b, min, rest);
  }

  /** expr(min) emits e and stops at the first token after it. */
  lemma {:induction false} ReadsWhole(e: Expr, min: int, rest: Tokens)
    requires Fits(e, min) && Ends(Cur(rest), min)
    ensures ParseE(TextE(e) + rest, min) == Some((e, rest))
    decreases e, 2
  {
    ReadsOperand(e, min, rest);
  }

  lemma {:induction false} ReadsEs(es: seq<Expr>, close: Token, rest: Tokens)
    requires close == RParen || close == RBracket
    requires forall i :: 0 <= i < |es| ==> Fits(es[i], -1)
    ensures ParseEs(TextEs(es, 0) + [close] + rest, close) == Some((es, rest))
    decreases es, 3
  {
    var ts := TextEs(es, 0) + [close] + rest;
    if es == [] {
      assert ts[1..] == rest;
    } else {
      TextNotClose(es[0]);
      assert ts[0] == TextE(es[0])[0];
      ReadsMoreEs(es, 0, close, rest);
      assert es[..0] == [];
    }
  }

  lemma {:induction false} ReadsMoreEs(es: seq<Expr>, i: nat, close: Token, rest: Tokens)
    requires close == RParen || close == RBracket
    requires i < |es| && forall j :: 0 <= j < |es| ==> Fits(es[j], -1)
    ensures ParseMoreEs(es[..i], TextEs(es, i) + [close] + rest, close) == Some((es, rest))
    decreases es, 2, |es| - i
  {
    hide Climb, ParseMoreEs, TextEs, TextE, Fits;
    assert es[..i] + [es[i]] == es[..i + 1];
    TextFrom(es, i, close, rest);
    if i + 1 == |es| {
      ReadsWhole(es[i], -1, [close] + rest);
      MoreEsLast(es[..i], es[i], TextEs(es, i) + [close] + rest, close, rest);
      assert es[..i + 1] == es;
    } else {
      var tail := TextEs(es, i + 1) + [close] + rest;
      ReadsWhole(es[i], -1, [Comma] + tail);
      MoreEsStep(es[..i], es[i], TextEs(es, i) + [close] + rest, close, tail);
      ReadsMoreEs(es, i + 1, close, rest);
    }
  }

  lemma TextFrom(es: seq<Expr>, i: nat, close: Token, rest: Tokens)
    requires i < |es|
    ensures TextEs(es, i) + [close] + rest == TextE(es[i]) +
      if i + 1 == |es| then [close] + rest else [Comma] + (TextEs(es, i + 1) + [close] + rest)
  {
    hide TextE;
  }

  lemma MoreEsLast(acc: seq<Expr>, e: Expr, ts: Tokens, close: Token, rest: Tokens)
    requires ParseE(ts, -1) == Some((e, [close] + rest))
    ensures ParseMoreEs(acc, ts, close) == Some((acc + [e], rest))
  {
    hide Climb;
    assert ([close] + rest)[1..] == rest;
  }

  lemma MoreEsStep(acc: seq<Expr>, e: Expr, ts: Tokens, close: Token, tail: Tokens)
    requires ParseE(ts, -1) == Some((e, [Comma] + tail)) && close != Comma
    ensures ParseMoreEs(acc, ts, close) == ParseMoreEs(acc + [e], tail, close)
  {
    hide Climb;
    assert ([Comma] + tail)[1..] == tail;
  }

  lemma {:induction false} ReadsNs(ns: seq<Entry>, rest: Tokens)
    requires forall i :: 0 <= i < |ns| ==> Fits(ns[i].key, -1) && Fits(ns[i].val, -1)
    ensures ParseNs(TextNs(ns, 0) + [RBrace] + rest) == Some((ns, rest))
    decreases ns, 3
  {
    var ts := TextNs(ns, 0) + [RBrace] + rest;
    if ns == [] {
      assert ts[1..] == rest;
    } else {
      TextNotClose(ns[0].key);
      assert ts[0] == TextN(ns[0])[0] == TextE(ns[0].key)[0];
      ReadsMoreNs(ns, 0, rest);
      assert ns[..0] == [];
    }
  }

  lemma {:induction false} ReadsMoreNs(ns: seq<Entry>, i: nat, rest: Tokens)
    requires i < |ns| && forall j :: 0 <= j < |ns| ==> Fits(ns[j].key, -1) && Fits(ns[j].val, -1)
    ensures ParseMoreNs(ns[..i], TextNs(ns, i) + [RBrace] + rest) == Some((ns, rest))
    decreases ns, 2, |ns| - i
  {
    hide Climb, ParseMoreNs, TextNs, TextN, Fits;
    assert ns[..i] + [ns[i]] == ns[..i + 1];
    EntriesFrom(ns, i, rest);
    var ts := TextNs(ns, i) + [RBrace] + rest;
    if i + 1 == |ns| {
      ReadsEntry(ns[i], [RBrace] + rest);
      MoreNsLast(ns[..i], ns[i], ts, rest);
      assert ns[..i + 1] == ns;
    } else {
      var tail := TextNs(ns, i + 1) + [RBrace] + rest;
      ReadsEntry(ns[i], [Comma] + tail);
      MoreNsStep(ns[..i], ns[i], ts, tail);
      ReadsMoreNs(ns, i + 1, rest);
    }
  }

  lemma EntriesFrom(ns: seq<Entry>, i: nat, rest: Tokens)
    requires i < |ns|
    ensures TextNs(ns, i) + [RBrace] + rest == TextN(ns[i]) +
      if i + 1 == |ns| then [RBrace] + rest else [Comma] + (TextNs(ns, i + 1) + [RBrace] + rest)
  {
    hide TextN;
  }

  ghost predicate ReadsEntryTo(n: Entry, ts: Tokens, rest: Tokens) {
    var r := Climb(None, ts, -1);
    r.Some? && r.value.0 == n.key && Cur(r.value.1) == Colon && ParseE(Rest(r.value.1), -1) == Some((n.val, rest))
  }

  lemma MoreNsLast(acc: seq<Entry>, n: Entry, ts: Tokens, rest: Tokens)
    requires ReadsEntryTo(n, ts, [RBrace] + rest)
    ensures ParseMoreNs(acc, ts) == Some((acc + [n], rest))
  {
    hide Climb;
    assert ([RBrace] + rest)[1..] == rest;
  }

  lemma MoreNsStep(acc: seq<Entry>, n: Entry, ts: Tokens, tail: Tokens)
    requires ReadsEntryTo(n, ts, [Comma] + tail)
    ensures ParseMoreNs(acc, ts) == ParseMoreNs(acc + [n], tail)
  {
    hide Climb;
    assert ([Comma] + tail)[1..] == tail;
  }

  lemma {:induction false} ReadsEntry(n: Entry, rest: Tokens)
    requires Fits(n.key, -1) && Fits(n.val, -1) && Ends(Cur(rest), -1)
    ensures ReadsEntryTo(n, TextN(n) + rest, rest)
    decreases n, 3
  {
    hide Climb;
    var tail := [Colon] + (TextE(n.val) + rest);
    Cat4(TextE(n.key), [Colon], TextE(n.val), rest);
    ReadsWhole(n.key, -1, tail);
    assert Rest(tail) == TextE(n.val) + rest;
    ReadsWhole(n.val, -1, rest);
  }

  /** The text of an expression starts with a token that opens an operand. */
  lemma {:induction false} TextNotClose(e: Expr)
    ensures !IsStop(TextE(e)[0])
    decreases e
  {
    match e
    case Binary(_, l, _) => TextNotClose(l);
    case Index(b, _) => TextNotClose(b);
    case Field(b, _) => TextNotClose(b);
    case Invoke(f, _) => TextNotClose(f);
    case _ =>
  }

  // ----- Whatever is read is the text of a well-parenthesised expression -----

  function TextAcc(acc: Option<Expr>): seq<Token> { if acc.None? then [] else TextE(acc.value) }

  ghost predicate GoodAcc(acc: Option<Expr>, ts: Tokens, min: int) {
    acc.Some? ==> Fits(acc.value, min) && Follows(acc.value, Cur(ts))
  }

  lemma {:induction false} ReadsOnlyText(acc: Option<Expr>, ts: Tokens, min: int)
    requires Climb(acc, ts, min).Some? && GoodAcc(acc, ts, min)
    ensures var (e, rest) := Climb(acc, ts, min).value;
      Fits(e, min) && Ends(Cur(rest), min) && TextAcc(acc) + ts == TextE(e) + rest
    decreases |ts|, 2
  {
    var m := Round(acc, ts, min);
    if m.Go? {
      RoundOnlyText(acc, ts, min);
      ReadsOnlyText(Some(m.e), m.rest, min);
    }
  }

  /** One round of the loop of expr() turns tokens into tree. */
  lemma {:induction false} RoundOnlyText(acc: Option<Expr>, ts: Tokens, min: int)
    requires Round(acc, ts, min).Go? && GoodAcc(acc, ts, min)
    ensures var Go(e, rest) := Round(acc, ts, min);
      Fits(e, min) && Follows(e, Cur(rest)) && TextAcc(acc) + ts == TextE(e) + rest
    decreases |ts|, 1
  {
    assert ts == [ts[0]] + ts[1..];
    if acc.None? {
      OperandOnlyText(ts[0], ts[1..]);
    } else if ts[0].Operator? {
      InfixOnlyText(acc.value, ts[0].op, ts[1..], min);
    } else {
      PostfixOnlyText(acc.value, ts[0], ts[1..]);
    }
  }

  lemma {:induction false} OperandOnlyText(t: Token, ts: Tokens)
    requires Operand(t, ts).Go?
    ensures var Go(e, rest) := Operand(t, ts);
      (forall min :: Fits(e, min)) && Follows(e, Cur(rest)) && [t] + ts == TextE(e) + rest
    decreases |ts|, 10
  {
    if t == LBracket || t == LBrace {
      BracketedOnlyText(t, ts);
    } else if t == LParen {
      ParenOnlyText(ts);
    } else if AsUnary(t).Some? {
      UnaryOnlyText(t, ts);
    }
  }

  lemma {:induction false} BracketedOnlyText(t: Token, ts: Tokens)
    requires Operand(t, ts).Go? && (t == LBracket || t == LBrace)
    ensures var Go(e, rest) := Operand(t, ts);
      (forall min :: Fits(e, min)) && Follows(e, Cur(rest)) && [t] + ts == TextE(e) + rest
    decreases |ts|, 9
  {
    hide ParseEs, ParseNs, TextEs, TextNs;
    var Go(e, rest) := Operand(t, ts);
    if t == LBracket {
      EsOnlyText(ts, RBracket);
      Cat4([t], TextEs(e.elems, 0), [RBracket], rest);
      Cat3(TextEs(e.elems, 0), [RBracket], rest);
    } else {
      NsOnlyText(ts);
      Cat4([t], TextNs(e.entries, 0), [RBrace], rest);
      Cat3(TextNs(e.entries, 0), [RBrace], rest);
    }
  }

  lemma {:induction false} ParenOnlyText(ts: Tokens)
    requires Operand(LParen, ts).Go?
    ensures var Go(e, rest) := Operand(LParen, ts);
      (forall min :: Fits(e, min)) && IsPrimary(e) && [LParen] + ts == TextE(e) + rest
    decreases |ts|, 9
  {
    hide Climb;
    ReadsOnlyText(None, ts, -1);
    var (e, ts') := ParseE(ts, -1).value;
    assert ts' == [RParen] + ts'[1..];
    Cat4([LParen], TextE(e), [RParen], ts'[1..]);
  }

  lemma {:induction false} UnaryOnlyText(t: Token, ts: Tokens)
    requires Operand(t, ts).Go? && AsUnary(t).Some?
    ensures var Go(e, rest) := Operand(t, ts);
      (forall min :: Fits(e, min)) && Follows(e, Cur(rest)) && [t] + ts == TextE(e) + rest
    decreases |ts|, 9
  {
    hide Climb;
    var u := AsUnary(t).value;
    ReadsOnlyText(None, ts, UnPriority(u));
    var (e, rest) := ParseE(ts, UnPriority(u)).value;
    Cat3([t], TextE(e), rest);
  }

  lemma {:induction false} PostfixOnlyText(a: Expr, t: Token, ts: Tokens)
    requires Postfix(a, t, ts).Go? && Fits(a, -1) && IsPrimary(a)
    ensures var Go(e, rest) := Postfix(a, t, ts);
      (forall min :: Fits(e, min)) && IsPrimary(e) && TextE(a) + ([t] + ts) == TextE(e) + rest
    decreases |ts|, 10
  {
    hide Climb, Round, ParseEs, CodeE;
    var Go(e, rest) := Postfix(a, t, ts);
    if t == LBracket {
      ReadsOnlyText(None, ts, -1);
      var ts' := ParseE(ts, -1).value.1;
      assert ts' == [RBracket] + rest;
      Cat5(TextE(a), [t], TextE(e.index), [RBracket], rest);
    } else if t == LParen {
      EsOnlyText(ts, RParen);
      Cat5(TextE(a), [t], TextEs(e.args, 0), [RParen], rest);
      Cat3(TextEs(e.args, 0), [RParen], rest);
    } else {
      assert ts == [Ident(e.field)] + rest;
      Cat4(TextE(a), [t], [Ident(e.field)], rest);
      Cat3(TextE(a), [t], [Ident(e.field)]);
      assert [Dot, Ident(e.field)] == [t] + [Ident(e.field)];
    }
  }

  lemma {:induction false} InfixOnlyText(a: Expr, o: BinOp, ts: Tokens, min: int)
    requires Infix(a, o, ts).Go? && Fits(a, min) && Follows(a, Operator(o)) && min <= Priority(o)
    ensures var Go(e, rest) := Infix(a, o, ts);
      Fits(e, min) && Follows(e, Cur(rest)) && TextE(a) + ([Operator(o)] + ts) == TextE(e) + rest
    decreases |ts|, 10
  {
    hide Climb, Round, CodeE;
    ReadsOnlyText(None, ts, RightMin(o));
    var Go(e, rest) := Infix(a, o, ts);
    Cat4(TextE(a), [Operator(o)], TextE(e.right), rest);
    assert Fits(a, LeftMin(o));
  }

  lemma {:induction false} EsOnlyText(ts: Tokens, close: Token)
    requires ParseEs(ts, close).Some?
    ensures var (es, rest) := ParseEs(ts, close).value;
      (forall i :: 0 <= i < |es| ==> Fits(es[i], -1)) && ts == TextEs(es, 0) + [close] + rest
    decreases |ts|, 5
  {
    if ts != [] && ts[0] == close {
    } else {
      MoreEsOnlyText([], ts, close);
    }
  }

  lemma {:induction false} MoreEsOnlyText(acc: seq<Expr>, ts: Tokens, close: Token)
    requires ParseMoreEs(acc, ts, close).Some?
    requires forall i :: 0 <= i < |acc| ==> Fits(acc[i], -1)
    ensures var (es, rest) := ParseMoreEs(acc, ts, close).value;
      && acc < es
      && (forall i :: 0 <= i < |es| ==> Fits(es[i], -1)) && ts == TextEs(es, |acc|) + [close] + rest
    decreases |ts|, 4
  {
    hide Climb, Round, CodeE;
    ReadsOnlyText(None, ts, -1);
    var (e, rest) := Climb(None, ts, -1).value;
    assert rest == [rest[0]] + rest[1..];
    Cat3(TextE(e), [rest[0]], rest[1..]);
    if rest[0] != close {
      MoreEsOnlyText(acc + [e], rest[1..], close);
      var (es, rest') := ParseMoreEs(acc, ts, close).value;
      Cat5(TextE(e), [Comma], TextEs(es, |acc| + 1), [close], rest');
      Cat3(TextEs(es, |acc| + 1), [close], rest');
      assert es[|acc|] == (acc + [e])[|acc|] == e;
    }
  }

  lemma {:induction false} NsOnlyText(ts: Tokens)
    requires ParseNs(ts).Some?
    ensures var (ns, rest) := ParseNs(ts).value;
      && (forall i :: 0 <= i < |ns| ==> Fits(ns[i].key, -1) && Fits(ns[i].val, -1))
      && ts == TextNs(ns, 0) + [RBrace] + rest
    decreases |ts|, 5
  {
    if ts != [] && ts[0] == RBrace {
    } else {
      MoreNsOnlyText([], ts);
    }
  }

  lemma {:induction false} MoreNsOnlyText(acc: seq<Entry>, ts: Tokens)
    requires ParseMoreNs(acc, ts).Some?
    requires forall i :: 0 <= i < |acc| ==> Fits(acc[i].key, -1) && Fits(acc[i].val, -1)
    ensures var (ns, rest) := ParseMoreNs(acc, ts).value;
      && acc < ns
      && (forall i :: 0 <= i < |ns| ==> Fits(ns[i].key, -1) && Fits(ns[i].val, -1))
      && ts == TextNs(ns, |acc|) + [RBrace] + rest
    decreases |ts|, 4
  {
    var n, ts' := EntryOnlyText(ts);
    assert ts' == [Cur(ts')] + Rest(ts');
    Cat3(TextN(n), [Cur(ts')], Rest(ts'));
    if Cur(ts') != RBrace {
      MoreNsOnlyText(acc + [n], Rest(ts'));
      var (ns, rest) := ParseMoreNs(acc, ts).value;
      Cat5(TextN(n), [Comma], TextNs(ns, |acc| + 1), [RBrace], rest);
      Cat3(TextNs(ns, |acc| + 1), [RBrace], rest);
      assert ns[|acc|] == (acc + [n])[|acc|] == n;
    }
  }

  lemma {:induction false} EntryOnlyText(ts: Tokens) returns (n: Entry, ts': Tokens)
    requires Climb(None, ts, -1).Some? && Cur(Climb(None, ts, -1).value.1) == Colon
    requires ParseE(Rest(Climb(None, ts, -1).value.1), -1).Some?
    ensures var (k, ts1) := Climb(None, ts, -1).value;
      var (v, ts2) := ParseE(Rest(ts1), -1).value;
      n == Entry(k, v) && ts' == ts2
    ensures Fits(n.key, -1) && Fits(n.val, -1) && |ts'| < |ts| && ts == TextN(n) + ts'
    decreases |ts|, 3
  {
    ReadsOnlyText(None, ts, -1);
    var (k, ts1) := Climb(None, ts, -1).value;
    assert ts1 == [Colon] + Rest(ts1);
    ReadsOnlyText(None, Rest(ts1), -1);
    var (v, ts2) := ParseE(Rest(ts1), -1).value;
    assert ts == TextE(k) + ts1;
    assert Rest(ts1) == TextE(v) + ts2;
    Cat4(TextE(k), [Colon], TextE(v), ts2);
    n, ts' := Entry(k, v), ts2;
  }

  /** The expressions that expr(min) accepts, and where it stops: exactly the well-parenthesised texts. */
  lemma {:induction false} ExprCharacterized(ts: Tokens, min: int, e: Expr, rest: Tokens)
    ensures ParseE(ts, min) == Some((e, rest))
       <==> Fits(e, min) && Ends(Cur(rest), min) && ts == TextE(e) + rest
  {
    if ParseE(ts, min) == Some((e, rest)) {
      ReadsOnlyText(None, ts, min);
    }
    if Fits(e, min) && Ends(Cur(rest), min) && ts == TextE(e) + rest {
      ReadsWhole(e, min, rest);
    }
  }

  // ----- A tree printed with no more parentheses than it needs -----

  /** e with parentheses exactly around the operands whose priority is too low. */
  function Group(e: Expr, min: int): Expr
    decreases e, 1
  {
    match e
    case Const(_) => e
    case Var(_) => e
    case Paren(i) => Paren(Group(i, -1))
    case Unary(o, a) => Unary(o, Group(a, UnPriority(o)))
    case Binary(o, l, r) =>
      var b := Binary(o, Group(l, LeftMin(o)), Group(r, RightMin(o)));
      if Priority(o) < min then Paren(b) else b
    case Index(b, i) => Index(GroupBase(b), Group(i, -1))
    case Field(b, f) => Field(GroupBase(b), f)
    case Invoke(f, args) => Invoke(GroupBase(f), GroupEs(args))
    case ListLit(es) => ListLit(GroupEs(es))
    case DictLit(ns) => DictLit(GroupNs(ns))
  }

  function GroupBase(e: Expr): Expr
    decreases e, 2
  {
    if IsPrimary(e) then Group(e, -1) else Paren(Group(e, -1))
  }

  function GroupEs(es: seq<Expr>): seq<Expr>
    decreases es, 0
  {
    if es == [] then [] else GroupEs(es[..|es| - 1]) + [Group(es[|es| - 1], -1)]
  }

  function GroupNs(ns: seq<Entry>): seq<Entry>
    decreases ns, 0
  {
    if ns == [] then [] else GroupNs(ns[..|ns| - 1]) + [GroupN(ns[|ns| - 1])]
  }

  function GroupN(n: Entry): Entry
    decreases n, 2
  {
    Entry(Group(n.key, -1), Group(n.val, -1))
  }

  lemma {:induction false} GroupFits(e: Expr, min: int)
    ensures Fits(Group(e, min), min)
    ensures IsPrimary(e) ==> IsPrimary(Group(e, min)) && Fits(Group(e, min), -1)
    decreases e, 1
  {
    hide CodeE, GroupEs, GroupNs;
    match e
    case Const(_) =>
    case Var(_) =>
    case Paren(i) => GroupFits(i, -1);
    case Unary(o, a) => GroupFits(a, UnPriority(o));
    case Binary(o, l, r) => GroupFits(l, LeftMin(o)); GroupFits(r, RightMin(o));
    case Index(b, i) => GroupFits(b, -1); GroupFits(i, -1);
    case Field(b, f) => GroupFits(b, -1);
    case Invoke(f, args) => GroupFits(f, -1); GroupEsFits(args);
    case ListLit(es) => GroupEsFits(es);
    case DictLit(ns) => GroupNsFits(ns);
  }

  lemma {:induction false} GroupEsFits(es: seq<Expr>)
    ensures |GroupEs(es)| == |es|
    ensures forall i :: 0 <= i < |es| ==> Fits(GroupEs(es)[i], -1)
    decreases es, 0
  {
    if es != [] {
      var n := |es| - 1;
      GroupEsFits(es[..n]);
      GroupFits(es[n], -1);
    }
  }

  lemma {:induction false} GroupNsFits(ns: seq<Entry>)
    ensures |GroupNs(ns)| == |ns|
    ensures forall i :: 0 <= i < |ns| ==> Fits(GroupNs(ns)[i].key, -1) && Fits(GroupNs(ns)[i].val, -1)
    decreases ns, 0
  {
    if ns != [] {
      var n := |ns| - 1;
      GroupNsFits(ns[..n]);
      GroupNFits(ns[n]);
    }
  }

  lemma {:induction false} GroupNFits(n: Entry)
    ensures Fits(GroupN(n).key, -1) && Fits(GroupN(n).val, -1)
    decreases n, 2
  {
    GroupFits(n.key, -1);
    GroupFits(n.val, -1);
  }

  /** Parentheses leave no trace in the code. */
  lemma {:induction false} GroupCode(e: Expr, min: int)
    ensures CodeE(Group(e, min)) == CodeE(e)
    decreases e, 1
  {
    hide CodeEs, CodeNs, GroupEs, GroupNs;
    match e
    case Const(_) =>
    case Var(_) =>
    case Paren(i) => GroupCode(i, -1);
    case Unary(o, a) => GroupCode(a, UnPriority(o));
    case Binary(o, l, r) => GroupCode(l, LeftMin(o)); GroupCode(r, RightMin(o));
    case Index(b, i) => GroupCode(b, -1); GroupCode(i, -1);
    case Field(b, f) => GroupCode(b, -1);
    case Invoke(f, args) => GroupCode(f, -1); GroupEsCode(args);
    case ListLit(es) => GroupEsCode(es);
    case DictLit(ns) => GroupNsCode(ns);
  }

  lemma {:induction false} GroupEsCode(es: seq<Expr>)
    ensures |GroupEs(es)| == |es| && CodeEs(GroupEs(es)) == CodeEs(es)
    decreases es, 0
  {
    if es != [] {
      var n := |es| - 1;
      GroupEsCode(es[..n]);
      GroupCode(es[n], -1);
      assert GroupEs(es)[..n] == GroupEs(es[..n]);
    }
  }

  lemma {:induction false} GroupNsCode(ns: seq<Entry>)
    ensures |GroupNs(ns)| == |ns| && CodeNs(GroupNs(ns)) == CodeNs(ns)
    decreases ns, 0
  {
    if ns != [] {
      var n := |ns| - 1;
      GroupNsCode(ns[..n]);
      GroupNCode(ns[n]);
      assert GroupNs(ns)[..n] == GroupNs(ns[..n]);
    }
  }

  lemma {:induction false} GroupNCode(n: Entry)
    ensures CodeN(GroupN(n)) == CodeN(n)
    decreases n, 2
  {
    GroupCode(n.key, -1);
    GroupCode(n.val, -1);
  }

  /** Any tree, printed with the parentheses that its priorities require, compiles to its own postfix code. */
  lemma {:induction false} TreeReadsBack(e: Expr, min: int, rest: Tokens)
    requires Ends(Cur(rest), min)
    ensures ParseE(TextE(Group(e, min)) + rest, min) == Some((Group(e, min), rest))
    ensures CodeE(Group(e, min)) == CodeE(e)
  {
    GroupFits(e, min);
    GroupCode(e, min);
    ReadsWhole(Group(e, min), min, rest);
  }

  /** The tree without its parentheses. */
  function Strip(e: Expr): Expr
    decreases e, 1
  {
    match e
    case Const(_) => e
    case Var(_) => e
    case Paren(i) => Strip(i)
    case Unary(o, a) => Unary(o, Strip(a))
    case Binary(o, l, r) => Binary(o, Strip(l), Strip(r))
    case Index(b, i) => Index(Strip(b), Strip(i))
    case Field(b, f) => Field(Strip(b), f)
    case Invoke(f, args) => Invoke(Strip(f), StripEs(args))
    case ListLit(es) => ListLit(StripEs(es))
    case DictLit(ns) => DictLit(StripNs(ns))
  }

  function StripEs(es: seq<Expr>): seq<Expr>
    decreases es, 0
  {
    if es == [] then [] else StripEs(es[..|es| - 1]) + [Strip(es[|es| - 1])]
  }

  function StripNs(ns: seq<Entry>): seq<Entry>
    decreases ns, 0
  {
    if ns == [] then [] else StripNs(ns[..|ns| - 1]) + [StripN(ns[|ns| - 1])]
  }

  function StripN(n: Entry): Entry
    decreases n, 2
  {
    Entry(Strip(n.key), Strip(n.val))
  }

  /** The number of pairs of grouping parentheses. */
  function Parens(e: Expr): nat
    decreases e, 1
  {
    match e
    case Const(_) => 0
    case Var(_) => 0
    case Paren(i) => Parens(i) + 1
    case Unary(o, a) => Parens(a)
    case Binary(o, l, r) => Parens(l) + Parens(r)
    case Index(b, i) => Parens(b) + Parens(i)
    case Field(b, f) => Parens(b)
    case Invoke(f, args) => Parens(f) + ParensEs(args)
    case ListLit(es) => ParensEs(es)
    case DictLit(ns) => ParensNs(ns)
  }

  function ParensEs(es: seq<Expr>): nat
    decreases es, 0
  {
    if es == [] then 0 else ParensEs(es[..|es| - 1]) + Parens(es[|es| - 1])
  }

  function ParensNs(ns: seq<Entry>): nat
    decreases ns, 0
  {
    if ns == [] then 0 else ParensNs(ns[..|ns| - 1]) + ParensN(ns[|ns| - 1])
  }

  function ParensN(n: Entry): nat
    decreases n, 2
  {
    Parens(n.key) + Parens(n.val)
  }

  /** Grouping adds nothing but parentheses. */
  lemma {:induction false} GroupStrips(e: Expr, min: int)
    ensures Strip(Group(e, min)) == Strip(e)
    decreases e, 1
  {
    hide StripEs, StripNs, GroupEs, GroupNs;
    match e
    case Const(_) =>
    case Var(_) =>
    case Paren(i) => GroupStrips(i, -1);
    case Unary(o, a) => GroupStrips(a, UnPriority(o));
    case Binary(o, l, r) => GroupStrips(l, LeftMin(o)); GroupStrips(r, RightMin(o));
    case Index(b, i) => GroupStrips(b, -1); GroupStrips(i, -1);
    case Field(b, f) => GroupStrips(b, -1);
    case Invoke(f, args) => GroupStrips(f, -1); GroupEsStrips(args);
    case ListLit(es) => GroupEsStrips(es);
    case DictLit(ns) => GroupNsStrips(ns);
  }

  lemma {:induction false} GroupEsStrips(es: seq<Expr>)
    ensures |GroupEs(es)| == |es| && StripEs(GroupEs(es)) == StripEs(es)
    decreases es, 0
  {
    if es != [] {
      var n := |es| - 1;
      GroupEsStrips(es[..n]);
      GroupStrips(es[n], -1);
      assert GroupEs(es)[..n] == GroupEs(es[..n]);
    }
  }

  lemma {:induction false} GroupNsStrips(ns: seq<Entry>)
    ensures |GroupNs(ns)| == |ns| && StripNs(GroupNs(ns)) == StripNs(ns)
    decreases ns, 0
  {
    if ns != [] {
      var n := |ns| - 1;
      GroupNsStrips(ns[..n]);
      GroupNStrips(ns[n]);
      assert GroupNs(ns)[..n] == GroupNs(ns[..n]);
    }
  }

  lemma {:induction false} GroupNStrips(n: Entry)
    ensures StripN(GroupN(n)) == StripN(n)
    decreases n, 2
  {
    GroupStrips(n.key, -1);
    GroupStrips(n.val, -1);
  }

  /** No expression with the same tree has fewer parentheses than the grouped one. */
  lemma {:induction false} FewestParens(e: Expr, min: int)
    requires Fits(e, min)
    ensures Parens(Group(Strip(e), min)) <= Parens(e)
    ensures IsPrimary(e) ==> Parens(GroupBase(Strip(e))) <= Parens(e)
    decreases e, 1
  {
    match e
    case Const(_) =>
    case Var(_) =>
    case Paren(i) => FewestParens(i, -1); OneMorePair(Strip(i), min);
    case Unary(o, a) => FewestParens(a, UnPriority(o));
    case Binary(o, l, r) => FewestParens(l, LeftMin(o)); FewestParens(r, RightMin(o));
    case Index(b, i) => FewestParens(b, -1); FewestParens(i, -1);
    case Field(b, f) => FewestParens(b, -1);
    case Invoke(f, args) => FewestParens(f, -1); FewestParensEs(args);
    case ListLit(es) => FewestParensEs(es);
    case DictLit(ns) => FewestParensNs(ns);
  }

  lemma {:induction false} OneMorePair(e: Expr, min: int)
    ensures Parens(Group(e, min)) <= Parens(Group(e, -1)) + 1
  {
  }

  lemma {:induction false} FewestParensEs(es: seq<Expr>)
    requires forall i :: 0 <= i < |es| ==> Fits(es[i], -1)
    ensures ParensEs(GroupEs(StripEs(es))) <= ParensEs(es)
    decreases es, 0
  {
    if es != [] {
      var n := |es| - 1;
      FewestParensEs(es[..n]);
      FewestParens(es[n], -1);
      assert StripEs(es)[..|StripEs(es)| - 1] == StripEs(es[..n]);
      var gs := GroupEs(StripEs(es));
      assert gs[..|gs| - 1] == GroupEs(StripEs(es[..n]));
    }
  }

  lemma {:induction false} FewestParensNs(ns: seq<Entry>)
    requires forall i :: 0 <= i < |ns| ==> Fits(ns[i].key, -1) && Fits(ns[i].val, -1)
    ensures ParensNs(GroupNs(StripNs(ns))) <= ParensNs(ns)
    decreases ns, 0
  {
    if ns != [] {
      var n := |ns| - 1;
      FewestParensNs(ns[..n]);
      FewestParensN(ns[n]);
      assert StripNs(ns)[..|StripNs(ns)| - 1] == StripNs(ns[..n]);
      var gs := GroupNs(StripNs(ns));
      assert gs[..|gs| - 1] == GroupNs(StripNs(ns[..n]));
    }
  }

  lemma {:induction false} FewestParensN(n: Entry)
    requires Fits(n.key, -1) && Fits(n.val, -1)
    ensures ParensN(GroupN(StripN(n))) <= ParensN(n)
    decreases n, 2
  {
    FewestParens(n.key, -1);
    FewestParens(n.val, -1);
  }

  /** A tree without parentheses, grouped, reads back as a whole, is the same tree, has the same code, and of all well-
      parenthesised expressions that are this tree it has the fewest pairs. */
  lemma {:induction false} ShortestText(e: Expr, min: int, other: Expr)
    requires Strip(e) == e && Fits(other, min) && Strip(other) == e
    ensures var g := Group(e, min);
      Fits(g, min) && Strip(g) == e && CodeE(g) == CodeE(e) && Parens(g) <= Parens(other)
  {
    GroupFits(e, min);
    GroupStrips(e, min);
    GroupCode(e, min);
    FewestParens(other, min);
  }
}
