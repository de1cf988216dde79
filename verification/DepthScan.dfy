/** The linear scan that computes the stack bound of a function finds its largest operand depth. */
module DepthScan {
  import opened Common
  import opened Bytecode
  import opened Syntax
  import opened Codegen
  import opened Scoping
  import opened Semantics
  import opened Resolution
  import opened Loading
  import opened StackDepth
  import opened Symbols
  import opened Reserve

  // ----- Depths are hidden exactly in the holes -----

  predicate Natural(ds: seq<int>) {
    forall k {:trigger ds[k]} :: 0 <= k < |ds| ==> ds[k] >= 0
  }

  lemma {:induction false} NaturalE(e: Expr, d: int)
    requires d >= 0
    ensures Natural(DepthE(e, d))
    decreases e, 1
  {
    hide CodeE, DepthEs, DepthNs;
    match e
    case Paren(i) => NaturalE(i, d);
    case Unary(_, a) => NaturalE(a, d);
    case Binary(_, l, r) => NaturalE(l, d); NaturalE(r, d + 1);
    case Index(b, i) => NaturalE(b, d); NaturalE(i, d + 1);
    case Field(b, _) => NaturalE(b, d);
    case Invoke(f, args) => NaturalE(f, d); NaturalEs(args, d + 1);
    case ListLit(es) => NaturalEs(es, d);
    case DictLit(ns) => NaturalNs(ns, d);
    case _ =>
  }

  lemma {:induction false} NaturalEs(es: seq<Expr>, d: int)
    requires d >= 0
    ensures Natural(DepthEs(es, d))
    decreases es, 0
  {
    if es != [] {
      NaturalEs(es[..|es| - 1], d);
      NaturalE(es[|es| - 1], d + |es| - 1);
    }
  }

  lemma {:induction false} NaturalN(n: Entry, d: int)
    requires d >= 0
    ensures Natural(DepthN(n, d))
    decreases n, 1
  {
    NaturalE(n.key, d);
    NaturalE(n.val, d + 1);
  }

  lemma {:induction false} NaturalNs(ns: seq<Entry>, d: int)
    requires d >= 0
    ensures Natural(DepthNs(ns, d))
    decreases ns, 0
  {
    if ns != [] {
      NaturalNs(ns[..|ns| - 1], d);
      NaturalN(ns[|ns| - 1], d + 2 * (|ns| - 1));
    }
  }

  lemma {:induction false} NaturalSimple(m: Simple)
    ensures Natural(DepthSimple(m))
  {
    match m
    case PrintExpr(e) => NaturalE(e, 0);
    case Assign(_, l, r) =>
      NaturalE(l, 0);
      NaturalE(r, DepthE(l, 0)[|CodeE(l)| - 1]);
  }

  lemma {:induction false} NaturalOpt(m: Option<Simple>)
    ensures Natural(DepthOpt(m))
  {
    if m.Some? { NaturalSimple(m.value); }
  }

  lemma {:induction false} NaturalTest(c: Option<Expr>)
    ensures Natural(DepthTest(c))
  {
    if c.Some? { NaturalE(c.value, 0); }
  }

  ghost predicate Mask(ds: seq<int>, holes: seq<Span>, at: int) {
    && Bounded(at, holes, at + |ds|)
    && forall k {:trigger ds[k]} :: 0 <= k < |ds| ==> ds[k] >= HIDDEN && (ds[k] == HIDDEN <==> Covers(holes, at + k))
  }

  lemma {:induction false} MaskAppend(a: seq<int>, ha: seq<Span>, b: seq<int>, hb: seq<Span>, at: int, mid: int)
    requires mid == at + |a| && Mask(a, ha, at) && Mask(b, hb, mid)
    ensures Mask(a + b, ha + hb, at)
  {
    forall k | 0 <= k < |a + b| ensures (a + b)[k] >= HIDDEN && ((a + b)[k] == HIDDEN <==> Covers(ha + hb, at + k)) {
      CoversAppend(ha, hb, at + k);
      if k < |a| {
        assert (a + b)[k] == a[k] && !Covers(hb, at + k);
      } else {
        assert (a + b)[k] == b[k - |a|] && !Covers(ha, at + k);
        assert mid + (k - |a|) == at + k;
      }
    }
  }

  lemma {:induction false} MaskNone(ds: seq<int>, at: int)
    requires Natural(ds)
    ensures Mask(ds, [], at)
  {
  }

  lemma {:induction false} MaskInside(pre: seq<int>, a: seq<int>, post: seq<int>, holes: seq<Span>, at: int, from: int)
    requires from == at + |pre| && Natural(pre) && Natural(post) && Mask(a, holes, from)
    ensures Mask(pre + a + post, holes, at)
  {
    MaskNone(pre, at);
    MaskNone(post, from + |a|);
    MaskAppend(pre, [], a, holes, at, from);
    MaskAppend(pre + a, [] + holes, post, [], at, from + |a|);
    assert [] + holes + [] == holes;
  }

  lemma {:induction false} MaskS(s: Stmt, at: int)
    requires CleanS(s)
    ensures Mask(DepthS(s), HolesS(s, at), at)
    decreases s, 1
  {
    hide Mask, DepthB, HolesB, LenB, DepthClauses, HolesArms, DepthSimple, DepthE, CleanB, CleanClauses;
    match s
    case If(_, _) => MaskIf(s, at);
    case While(c, b) => MaskWhile(c, b, at);
    case For(_, _, _, _) => MaskFor(s, at);
    case FunDecl(_, _, b) => MaskFun(LenB(b) + 2, at);
    case Do(m) => NaturalSimple(m); MaskNone(DepthS(s), at);
    case ReturnVal(e) => NaturalE(e, 0); MaskNone(DepthS(s), at);
    case _ => MaskNone(DepthS(s), at);
  }

  lemma {:induction false} MaskFun(n: nat, at: int)
    ensures Mask([0] + Hidden(n) + [1], [Span(at + 1, at + n + 1)], at)
  {
    var (ds, holes) := ([0] + Hidden(n) + [1], [Span(at + 1, at + n + 1)]);
    forall k | 0 <= k < |ds| ensures ds[k] >= HIDDEN && (ds[k] == HIDDEN <==> Covers(holes, at + k)) {
      if 1 <= k <= n { assert holes[0].begin <= at + k < holes[0].end; }
    }
  }

  lemma {:induction false} MaskIf(s: Stmt, at: int)
    requires s.If? && CleanS(s)
    ensures Mask(DepthS(s), HolesS(s, at), at)
    decreases s, 0
  {
    hide Mask, DepthB, DepthArms, DepthClauses, HolesB, HolesArms, CleanB, CleanClauses, LenB, LenArms, LenClauses;
    var If(cs, els) := s;
    if els.Else? {
      MaskArms(cs, at);
      MaskB(els.blk, at + LenArms(cs));
      MaskAppend(DepthArms(cs), HolesArms(cs, at), DepthB(els.blk), HolesB(els.blk, at + LenArms(cs)), at,
        at + LenArms(cs));
    } else {
      MaskClauses(cs, at);
      assert HolesArms(cs, at) + [] == HolesArms(cs, at);
    }
  }

  lemma {:induction false} MaskWhile(c: Expr, b: seq<Stmt>, at: int)
    requires CleanB(b)
    ensures Mask(DepthE(c, 0) + [1] + DepthB(b) + [0], HolesB(b, at + |CodeE(c)| + 1), at)
    decreases b, 3
  {
    hide Mask, DepthB, DepthE, HolesB, CleanB;
    NaturalE(c, 0);
    MaskB(b, at + |CodeE(c)| + 1);
    MaskInside(DepthE(c, 0) + [1], DepthB(b), [0], HolesB(b, at + |CodeE(c)| + 1), at, at + |CodeE(c)| + 1);
  }

  lemma {:induction false} MaskFor(s: Stmt, at: int)
    requires s.For? && CleanS(s)
    ensures Mask(DepthS(s), HolesS(s, at), at)
    decreases s, 0
  {
    hide Mask, DepthB, DepthOpt, DepthTest, HolesB, CleanB, LenOpt, LenTest, LenB;
    var For(i, c, p, b) := s;
    var from := at + LenOpt(i) + LenTest(c);
    NaturalOpt(i);
    NaturalTest(c);
    NaturalOpt(p);
    var (pre, post) := (DepthOpt(i) + DepthTest(c), DepthOpt(p) + [0]);
    assert DepthS(s) == pre + DepthB(b) + post;
    MaskB(b, from);
    MaskInside(pre, DepthB(b), post, HolesB(b, from), at, from);
    if p.Some? {
      HolesMovedB(b, 0, from);
      HolesMovedB(b, 0, from + LenOpt(p));
    } else {
      NoLength(p);
    }
  }

  lemma NoLength(m: Option<Simple>)
    requires m.None?
    ensures LenOpt(m) == 0
  {
  }

  lemma {:induction false} MaskClause(c: Clause, at: int)
    requires CleanClause(c)
    ensures Mask(DepthClause(c), HolesClause(c, at), at)
    decreases c, 1
  {
    hide Mask, DepthB, DepthE, HolesB, CleanB;
    NaturalE(c.cond, 0);
    MaskB(c.blk, at + |CodeE(c.cond)| + 1);
    MaskInside(DepthE(c.cond, 0) + [1], DepthB(c.blk), [], HolesB(c.blk, at + |CodeE(c.cond)| + 1), at,
      at + |CodeE(c.cond)| + 1);
    assert DepthE(c.cond, 0) + [1] + DepthB(c.blk) + [] == DepthClause(c);
  }

  lemma {:induction false} MaskArms(cs: seq<Clause>, at: int)
    requires CleanClauses(cs)
    ensures Mask(DepthArms(cs), HolesArms(cs, at), at)
    decreases cs, 0
  {
    hide DepthClause, HolesClause, CleanClause, LenClause;
    if cs != [] {
      var (init, c) := (cs[..|cs| - 1], cs[|cs| - 1]);
      var mid := at + LenArms(init);
      MaskArms(init, at);
      MaskClause(c, mid);
      MaskAppend(DepthArms(init), HolesArms(init, at), DepthClause(c), HolesClause(c, mid), at, mid);
      MaskNone([0], mid + LenClause(c));
      MaskAppend(DepthArms(init) + DepthClause(c), HolesArms(cs, at), [0], [], at, mid + LenClause(c));
      assert HolesArms(cs, at) + [] == HolesArms(cs, at);
    }
  }

  lemma {:induction false} MaskClauses(cs: seq<Clause>, at: int)
    requires CleanClauses(cs)
    ensures Mask(DepthClauses(cs), HolesArms(cs, at), at)
    decreases cs, 1
  {
    hide DepthClause, HolesClause, CleanClause, LenClause;
    if cs != [] {
      var (init, c) := (cs[..|cs| - 1], cs[|cs| - 1]);
      var mid := at + LenArms(init);
      MaskArms(init, at);
      MaskClause(c, mid);
      MaskAppend(DepthArms(init), HolesArms(init, at), DepthClause(c), HolesClause(c, mid), at, mid);
    }
  }

  lemma {:induction false} MaskB(b: seq<Stmt>, at: int)
    requires CleanB(b)
    ensures Mask(DepthB(b), HolesB(b, at), at)
    decreases b, 0
  {
    hide DepthS, HolesS, CleanS, LenS;
    if b != [] {
      var (init, s) := (b[..|b| - 1], b[|b| - 1]);
      var mid := at + LenB(init);
      MaskB(init, at);
      MaskS(s, mid);
      MaskAppend(DepthB(init), HolesB(init, at), DepthS(s), HolesS(s, mid), at, mid);
    }
  }

  // ----- The scan -----

  /** The holes are what is hidden of the function. */
  ghost predicate Scannable(fn: Body, ms: seq<Mark>, holes: seq<Span>) {
    && |ms| == |fn.raw| && |fn.ds| == |fn.raw| + 1 && fn.ds[|fn.raw|] == 0 && AllFine(fn, 0, |fn.raw|)
      && ms == Marks(fn.raw)
    && LeadsTo(fn.ds, 0, 0)
    && (forall k {:trigger fn.ds[k]} :: 0 <= k < |fn.raw| ==>
      fn.ds[k] >= HIDDEN && (fn.ds[k] == HIDDEN <==> Covers(holes, k)))
  }

  /** Before each instruction, the level is the depth of the next one that is not hidden. */
  lemma {:induction false} LevelIsDepth(fn: Body, ms: seq<Mark>, holes: seq<Span>, k: nat) returns (v: nat)
    requires Scannable(fn, ms, holes) && k <= |ms|
    ensures k <= v <= |ms| && fn.ds[v] == Level(ms, holes, k) >= 0 && forall q :: k <= q < v ==> fn.ds[q] == HIDDEN
  {
    hide AllFine, LeadsTo;
    if k == 0 {
      v := 0;
      assert LeadsTo(fn.ds, 0, 0);
      StartsAt(fn);
    } else {
      v := LevelIsDepth(fn, ms, holes, k - 1);
      if v == k - 1 {
        assert fn.ds[k - 1] != HIDDEN;
        assert Fine(fn, k - 1) by { FineAt(fn, k - 1); }
        FineNext(fn, k - 1);
        assert ms[k - 1].rise == Effect(fn.raw[k - 1]);
        v := Following(fn.raw, k - 1);
      } else {
        assert fn.ds[k - 1] == HIDDEN;
      }
    }
  }

  lemma StartsAt(fn: Body)
    requires LeadsTo(fn.ds, 0, 0)
    ensures |fn.ds| > 0 && fn.ds[0] == 0
  {
  }

  lemma FineAt(fn: Body, k: int)
    requires AllFine(fn, 0, |fn.raw|) && 0 <= k < |fn.raw|
    ensures |fn.raw| < |fn.ds| && Fine(fn, k)
  {
  }

  lemma {:induction false} FineNext(fn: Body, j: int)
    requires 0 <= j < |fn.raw| < |fn.ds| && Fine(fn, j) && fn.ds[j] != HIDDEN && fn.ds[|fn.raw|] == 0
    ensures var (d, next) := (fn.ds[j] + Effect(fn.raw[j]), Following(fn.raw, j));
      j < next < |fn.ds| && fn.ds[next] == d >= 0 && forall q :: j < q < next ==> fn.ds[q] == HIDDEN
  {
    assert j < Following(fn.raw, j) by { if fn.raw[j].Function? { NoLoop(fn, j); } }
  }

  /** A function declaration raises the depth by one, so it does not lead back to itself. */
  lemma {:induction false} NoLoop(fn: Body, j: int)
    requires 0 <= j < |fn.raw| < |fn.ds| && Fine(fn, j) && fn.ds[j] != HIDDEN && fn.raw[j].Function?
    ensures j < Following(fn.raw, j)
  {
  }

  /** The peak is the largest depth. */
  lemma {:induction false} PeakIsDepth(fn: Body, ms: seq<Mark>, holes: seq<Span>, k: nat) returns (v: nat)
    requires Scannable(fn, ms, holes) && k <= |ms|
    ensures v <= |ms| && fn.ds[v] == Peak(ms, holes, k)
    ensures forall q :: 0 <= q <= k ==> fn.ds[q] <= Peak(ms, holes, k)
  {
    hide Level, Scannable, Marks;
    Sizes(fn, ms, holes);
    v := LevelIsDepth(fn, ms, holes, k);
    if k > 0 {
      var u := PeakIsDepth(fn, ms, holes, k - 1);
      if Level(ms, holes, k) <= Peak(ms, holes, k - 1) { v := u; }
    }
  }

  lemma Sizes(fn: Body, ms: seq<Mark>, holes: seq<Span>)
    requires Scannable(fn, ms, holes)
    ensures |ms| == |fn.raw| && |fn.ds| == |fn.raw| + 1 && Level(ms, holes, 0) == 0
  {
  }

  /** Without functions in loops with a post clause, the scan finds the largest depth and never falls below zero. */
  lemma {:induction false} CleanScan(f: Fun) returns (v: nat)
    requires CleanB(f.body) && NoDup(f.params) && GoodB(f.body, false) && LenB(f.body) + 2 <= INT32_MAX
    ensures NeverBelow(f.body) && Suffices(f.body) && v < |Depths(f.body)| && Depths(f.body)[v] == PeakOf(f.body)
  {
    hide CodeB, MarkBody, HolesB, LenB, CleanB, GoodB, Scannable, Level, Peak, DepthB;
    var (fn, ms, holes) := (BodyOf(f), MarkBody(f.body), HolesB(f.body, 0));
    ScannableBody(f);
    Sizes(fn, ms, holes);
    v := PeakIsDepth(fn, ms, holes, |ms|);
    forall k | 0 <= k <= |ms| ensures Level(ms, holes, k) >= 0 {
      var w := LevelIsDepth(fn, ms, holes, k);
    }
  }

  /** maxstack is the largest operand depth of the function. */
  lemma {:induction false} MaxStackIsLargest(f: Fun)
    requires CleanB(f.body) && NoDup(f.params) && GoodB(f.body, false) && LenB(f.body) + 2 <= INT32_MAX
    ensures forall q :: 0 <= q < |BodyOf(f).ds| ==> BodyOf(f).ds[q] <= FunShape(f.params, f.body).maxstack
    ensures exists q :: 0 <= q < |BodyOf(f).ds| && BodyOf(f).ds[q] == FunShape(f.params, f.body).maxstack
  {
    hide CodeB, CleanB, GoodB, LenB, FunShape, PeakOf, NeverBelow, Depths, SlotsB;
    var v := CleanScan(f);
    ReservedUnlessBelow(f.params, f.body);
    assert BodyOf(f).ds == Depths(f.body);
  }

  /** The compiler never refuses such a function because of its operands. */
  lemma {:induction false} CleanFits(ps: seq<string>, b: seq<Stmt>)
    requires CleanB(b) && NoDup(ps) && GoodB(b, false)
    requires LenB(b) + 3 <= INT32_MAX && |SlotsB(ps, b)| <= INT32_MAX
    ensures FunFits(ps, b)
  {
    hide CleanB, GoodB, LenB, FunFits, PeakOf, NeverBelow, Suffices, Depths, SlotsB;
    var v := CleanScan(Fun(ps, b));
    FitsIff(ps, b);
  }

  lemma {:induction false} ScannableBody(f: Fun)
    requires CleanB(f.body) && NoDup(f.params) && GoodB(f.body, false) && LenB(f.body) + 2 <= INT32_MAX
    ensures Scannable(BodyOf(f), MarkBody(f.body), HolesB(f.body, 0))
  {
    hide CodeB, DepthB, HolesB, LenB, CleanB, GoodB, AllFine, Mask, SlotsB, MarkBody, Marks;
    var (b, fn, holes) := (f.body, BodyOf(f), HolesB(f.body, 0));
    BodyFine(f);
    BodyMarks(b, SlotsB(f.params, b));
    MaskB(b, 0);
    MaskNone([0, 1], LenB(b));
    MaskAppend(DepthB(b), holes, [0, 1], [], 0, LenB(b));
    assert holes + [] == holes;
    MaskOwn(DepthB(b) + [0, 1], holes, fn.ds);
  }

  lemma {:induction false} MaskOwn(own: seq<int>, holes: seq<Span>, ds: seq<int>)
    requires Mask(own, holes, 0) && |ds| == |own| + 1 && own == ds[..|own|]
    ensures forall k {:trigger ds[k]} :: 0 <= k < |own| ==> ds[k] >= HIDDEN && (ds[k] == HIDDEN <==> Covers(holes, k))
  {
    forall k | 0 <= k < |own| ensures ds[k] >= HIDDEN && (ds[k] == HIDDEN <==> Covers(holes, k)) {
      assert ds[k] == own[k] && 0 + k == k;
    }
  }
}
