/** Scope resolution: when every name of a function is resolved, and to what. */
module Resolution {
  import opened Common
  import opened Bytecode
  import opened Syntax
  import opened Codegen
  import opened Patching
  import opened Scoping
  import opened Semantics
  import opened Symbols

  /** No function is declared inside of a `for` that has a post clause: the compiler notes the extent of a nested
      function before it moves the body of the loop. */
  predicate CleanS(s: Stmt)
    decreases s, 1
  {
    match s
    case If(cs, els) => CleanClauses(cs) && CleanElse(els)
    case While(_, b) => CleanB(b)
    case For(_, _, p, b) => CleanB(b) && (p.None? || HolesB(b, 0) == [])
    case FunDecl(_, _, b) => CleanB(b)
    case _ => true
  }

  predicate CleanClause(c: Clause)
    decreases c, 1
  {
    CleanB(c.blk)
  }

  predicate CleanClauses(cs: seq<Clause>)
    decreases cs, 0
  {
    cs == [] || (CleanClauses(cs[..|cs| - 1]) && CleanClause(cs[|cs| - 1]))
  }

  predicate CleanElse(els: ElsePart)
    decreases els, 1
  {
    els.NoElse? || CleanB(els.blk)
  }

  predicate CleanB(b: seq<Stmt>)
    decreases b, 0
  {
    b == [] || (CleanB(b[..|b| - 1]) && CleanS(b[|b| - 1]))
  }

  /** Where the compiler believes the nested functions of b to be, no instruction names a variable.  The extent of
      a nested function is noted when it is compiled; each `for` around it then moves it down by the length of the
      post clause. */
  predicate Untouched(b: seq<Stmt>) {
    forall k {:trigger MarkB(b)[k]} :: 0 <= k < |MarkB(b)| && Covers(HolesB(b, 0), k) ==> !MarkB(b)[k].named
  }

  /** All functions declared in s, at any depth. */
  function FunsS(s: Stmt): seq<Fun>
    decreases s, 1
  {
    match s
    case If(cs, els) => FunsClauses(cs) + (if els.Else? then FunsB(els.blk) else [])
    case While(_, b) => FunsB(b)
    case For(_, _, _, b) => FunsB(b)
    case FunDecl(_, ps, b) => [Fun(ps, b)] + FunsB(b)
    case _ => []
  }

  function FunsClauses(cs: seq<Clause>): seq<Fun>
    decreases cs, 0
  {
    if cs == [] then [] else FunsClauses(cs[..|cs| - 1]) + FunsB(cs[|cs| - 1].blk)
  }

  function FunsB(b: seq<Stmt>): seq<Fun>
    decreases b, 0
  {
    if b == [] then [] else FunsB(b[..|b| - 1]) + FunsS(b[|b| - 1])
  }

  predicate AllUntouched(fs: seq<Fun>) { forall i {:trigger fs[i]} :: 0 <= i < |fs| ==> Untouched(fs[i].body) }

  /** The condition under which names are resolved as they should be, in the function with the body b and in all
      functions declared in it. */
  predicate Settled(b: seq<Stmt>) { Untouched(b) && AllUntouched(FunsB(b)) }

  lemma AllAppend(a: seq<Fun>, b: seq<Fun>)
    ensures AllUntouched(a + b) <==> AllUntouched(a) && AllUntouched(b)
  {
    if AllUntouched(a + b) {
      forall i | 0 <= i < |a| ensures Untouched(a[i].body) { assert (a + b)[i] == a[i]; }
      forall i | 0 <= i < |b| ensures Untouched(b[i].body) { assert (a + b)[|a| + i] == b[i]; }
    }
  }

  lemma AllFirst(f: Fun, fs: seq<Fun>)
    ensures AllUntouched([f] + fs) <==> Untouched(f.body) && AllUntouched(fs)
  {
    hide Untouched;
    AllAppend([f], fs);
    assert [f][0] == f;
  }

  // ----- A function without symbolic instructions -----

  /** All names resolved against one table of locals. */
  function Resolved(code: seq<Instr>, slots: seq<string>): (r: seq<Instr>)
    ensures |r| == |code|
  {
    seq(|code|, k requires 0 <= k < |code| => Resolve(code[k], slots))
  }

  ghost predicate NoneSymbolic(code: seq<Instr>) {
    forall k {:trigger code[k]} :: 0 <= k < |code| ==> !IsSymbolic(code[k])
  }

  /** An instruction of a finished function still names a variable iff it did so before and lies where the compiler
      believes a nested function to be. */
  lemma {:induction false} LeftSymbolic(ps: seq<string>, b: seq<Stmt>, k: nat)
    requires k < LenB(b)
    ensures |MarkB(b)| == LenB(b)
    ensures IsSymbolic(FunCode(ps, b)[1 + k]) <==> MarkB(b)[k].named && Covers(HolesB(b, 0), k)
  {
    hide FunCode, MarkB, HolesB, LenB, CodeB, Covers;
    MarksFun(ps, b);
    MarksB(b, [], NO_TARGETS);
    assert Marks(FunCode(ps, b))[1 + k].named == IsSymbolic(FunCode(ps, b)[1 + k]);
    assert MarkFun(b)[1 + k] == Left(MarkBody(b), HolesB(b, 0))[k];
  }

  /** No name is left in a function iff its body is untouched. */
  lemma {:induction false} ResolvedIff(ps: seq<string>, b: seq<Stmt>)
    ensures NoneSymbolic(FunCode(ps, b)) <==> Untouched(b)
  {
    hide FunCode, MarkB, HolesB, LenB, CodeB, Covers;
    MarksFun(ps, b);
    MarksB(b, [], NO_TARGETS);
    var (code, marks) := (FunCode(ps, b), MarkFun(b));
    assert forall k :: 0 <= k < |code| ==> (IsSymbolic(code[k]) <==> Marks(code)[k].named);
    if NoneSymbolic(code) {
      forall k | 0 <= k < |MarkB(b)| && Covers(HolesB(b, 0), k) ensures !MarkB(b)[k].named {
        assert !marks[1 + k].named && marks[1 + k] == Left(MarkBody(b), HolesB(b, 0))[k];
      }
    }
    if Untouched(b) {
      forall k | 0 <= k < |code| ensures !IsSymbolic(code[k]) {
        if 1 <= k <= |MarkB(b)| { assert marks[k] == Left(MarkBody(b), HolesB(b, 0))[k - 1]; }
      }
    }
  }

  /** No name is left in a program or in any function declared in it iff the program is settled. */
  lemma {:induction false} AllResolvedIff(b: seq<Stmt>)
    ensures (NoneSymbolic(FunCode([], b))
      && forall i {:trigger FunsB(b)[i]} :: 0 <= i < |FunsB(b)| ==>
        NoneSymbolic(FunCode(FunsB(b)[i].params, FunsB(b)[i].body)))
      <==> Settled(b)
  {
    hide NoneSymbolic, FunCode, Untouched, FunsB;
    ResolvedIff([], b);
    forall i | 0 <= i < |FunsB(b)|
      ensures NoneSymbolic(FunCode(FunsB(b)[i].params, FunsB(b)[i].body)) <==> Untouched(FunsB(b)[i].body)
    {
      ResolvedIff(FunsB(b)[i].params, FunsB(b)[i].body);
    }
    assert AllUntouched(FunsB(b)) <==>
      forall i {:trigger FunsB(b)[i]} :: 0 <= i < |FunsB(b)| ==>
        NoneSymbolic(FunCode(FunsB(b)[i].params, FunsB(b)[i].body));
  }

  /** If the body is untouched, the whole function is resolved against its own locals: each name exactly once,
      because what a second resolution finds inside of nested functions that are untouched as well is not symbolic. */
  lemma {:induction false} BodyResolved(ps: seq<string>, b: seq<Stmt>)
    requires Untouched(b)
    ensures FunCode(ps, b) == [Function(FunShape(ps, b))] + Resolved(RawBody(b, SlotsB(ps, b)), SlotsB(ps, b))
    ensures NoneSymbolic(FunCode(ps, b))
  {
    hide CodeB, MarkB, HolesB, Gaps, SlotsB, FunShape, LenB, Untouched;
    var slots := SlotsB(ps, b);
    var (raw, holes) := (RawBody(b, slots), HolesB(b, 0));
    ResolvedIff(ps, b);
    MarksB(b, slots, NO_TARGETS);
    HolesOrderedB(b, 0, LenB(b));
    HolesAfter(0, holes, LenB(b));
    OrderedWiden(0, holes, LenB(b), |raw|);
    EndsWithin(0, holes, |raw|);
    UntouchedCode(b, CodeB(b, slots, NO_TARGETS));
    forall k | 0 <= k < |raw| ensures ResolveIn(raw, Gaps(0, holes, |raw|), slots)[k] == Resolve(raw[k], slots) {
      GapsCover(0, holes, |raw|, k);
    }
    assert ResolveIn(raw, Gaps(0, holes, |raw|), slots) == Resolved(raw, slots);
  }

  lemma UntouchedCode(b: seq<Stmt>, code: seq<Instr>)
    requires Untouched(b) && Marks(code) == MarkB(b)
    ensures forall k {:trigger code[k]} :: 0 <= k < |code| && Covers(HolesB(b, 0), k) ==> !IsSymbolic(code[k])
  {
    forall k | 0 <= k < |code| && Covers(HolesB(b, 0), k) ensures !IsSymbolic(code[k]) {
      assert Marks(code)[k] == MarkB(b)[k] && Marks(code)[k].named == IsSymbolic(code[k]);
    }
  }

  // ----- What the names are resolved to -----

  ghost predicate SameNames(slots: seq<string>, names: set<string>) {
    NoDup(slots) && forall x :: x in slots <==> x in names
  }

  lemma {:induction false} AddSlotNames(slots: seq<string>, names: set<string>, m: Option<Simple>)
    requires SameNames(slots, names)
    ensures SameNames(SlotsOpt(slots, m), names + TargetsOpt(m))
  {
  }

  lemma {:induction false} SlotNamesS(slots: seq<string>, names: set<string>, s: Stmt)
    requires SameNames(slots, names)
    ensures SameNames(SlotsS(slots, s), names + TargetsS(s))
    decreases s, 1
  {
    match s
    case Do(m) => AddSlotNames(slots, names, Some(m));
    case If(cs, els) =>
      SlotNamesClauses(slots, names, cs);
      if els.Else? { SlotNamesB(SlotsClauses(slots, cs), names + TargetsClauses(cs), els.blk); }
    case While(_, b) => SlotNamesB(slots, names, b);
    case For(i, _, p, b) =>
      AddSlotNames(slots, names, i);
      AddSlotNames(SlotsOpt(slots, i), names + TargetsOpt(i), p);
      SlotNamesB(SlotsOpt(SlotsOpt(slots, i), p), names + TargetsOpt(i) + TargetsOpt(p), b);
    case _ =>
  }

  lemma {:induction false} SlotNamesClause(slots: seq<string>, names: set<string>, c: Clause)
    requires SameNames(slots, names)
    ensures SameNames(SlotsClause(slots, c), names + TargetsClause(c))
    decreases c, 1
  {
    SlotNamesB(slots, names, c.blk);
  }

  lemma {:induction false} SlotNamesClauses(slots: seq<string>, names: set<string>, cs: seq<Clause>)
    requires SameNames(slots, names)
    ensures SameNames(SlotsClauses(slots, cs), names + TargetsClauses(cs))
    decreases cs, 0
  {
    if cs != [] {
      var (init, c) := (cs[..|cs| - 1], cs[|cs| - 1]);
      SlotNamesClauses(slots, names, init);
      SlotNamesClause(SlotsClauses(slots, init), names + TargetsClauses(init), c);
    }
  }

  lemma {:induction false} SlotNamesB(slots: seq<string>, names: set<string>, b: seq<Stmt>)
    requires SameNames(slots, names)
    ensures SameNames(SlotsB(slots, b), names + TargetsB(b))
    decreases b, 0
  {
    if b != [] {
      var (init, s) := (b[..|b| - 1], b[|b| - 1]);
      SlotNamesB(slots, names, init);
      SlotNamesS(SlotsB(slots, init), names + TargetsB(init), s);
    }
  }

  /** A name gets a slot iff it is a parameter or the target of a `:=` anywhere in the function; distinct names get
      distinct slots below the number of locals, the parameters those of their positions. */
  lemma {:induction false} LocalsHaveSlots(ps: seq<string>, b: seq<Stmt>, x: string)
    requires NoDup(ps)
    ensures var slots := SlotsB(ps, b);
      && (x in LocalsOf(Fun(ps, b)) <==> x in slots)
      && (x in slots ==> SlotOf(slots, x) < FunShape(ps, b).nlocals && slots[SlotOf(slots, x)] == x)
      && NoDup(slots) && ps <= slots
      && Resolve(LoadSymbolic(x), slots) == if x in LocalsOf(Fun(ps, b)) then LoadLocal(SlotOf(slots, x))
        else LoadGlobal(x)
  {
    SlotNamesB(ps, (set y | y in ps), b);
    GrowsB(ps, b);
  }

  // ----- Programs without functions in loops with a post clause are settled -----

  /** The holes lie inside of the code at `at` and hide no name. */
  ghost predicate Quiet(marks: seq<Mark>, holes: seq<Span>, at: int) {
    && Bounded(at, holes, at + |marks|)
    && forall k {:trigger marks[k]} :: 0 <= k < |marks| && Covers(holes, at + k) ==> !marks[k].named
  }

  lemma {:induction false} QuietAppend(a: seq<Mark>, ha: seq<Span>, b: seq<Mark>, hb: seq<Span>, at: int, mid: int)
    requires mid == at + |a| && Quiet(a, ha, at) && Quiet(b, hb, mid)
    ensures Quiet(a + b, ha + hb, at)
  {
    forall k | 0 <= k < |a + b| && Covers(ha + hb, at + k) ensures !(a + b)[k].named {
      CoversAppend(ha, hb, at + k);
      if k < |a| { assert !Covers(hb, at + k); } else { assert !Covers(ha, at + k) && mid + (k - |a|) == at + k; }
    }
  }

  lemma QuietNoHoles(a: seq<Mark>, at: int)
    ensures Quiet(a, [], at)
  {
  }

  /** Code without nested functions around code with them. */
  lemma {:induction false} QuietInside(pre: seq<Mark>, a: seq<Mark>, post: seq<Mark>, holes: seq<Span>, at: int,
      from: int)
    requires from == at + |pre| && Quiet(a, holes, from)
    ensures Quiet(pre + a + post, holes, at)
  {
    hide Quiet;
    QuietNoHoles(pre, at);
    QuietNoHoles(post, from + |a|);
    QuietAppend(pre, [], a, holes, at, from);
    QuietAppend(pre + a, [] + holes, post, [], at, from + |a|);
    assert [] + holes + [] == holes;
  }

  lemma {:induction false} CleanIsQuietS(s: Stmt, at: int)
    requires CleanS(s)
    ensures Quiet(MarkS(s), HolesS(s, at), at) && AllUntouched(FunsS(s))
    decreases s, 1
  {
    hide Quiet, AllUntouched, MarkB, HolesB, CleanB, FunsB, MarkE, CodeE, MarkFun, MarkSimple, MarkArms, HolesArms,
      MarkClauses;
    hide FunsClauses;
    match s
    case If(_, _) => CleanIsQuietIf(s, at);
    case While(c, b) =>
      MarksE(c);
      CleanIsQuietB(b, at + |CodeE(c)| + 1);
      QuietInside(MarkE(c) + [Rise(-1)], MarkB(b), [Rise(0)], HolesB(b, at + |CodeE(c)| + 1), at, at + |CodeE(c)| + 1);
    case For(i, c, p, b) => CleanIsQuietFor(i, c, p, b, at);
    case FunDecl(x, ps, b) => CleanIsQuietFun(x, ps, b, at);
    case _ =>
      QuietNoHoles(MarkS(s), at);
      NoFuns();
  }

  lemma NoFuns()
    ensures AllUntouched([])
  {
  }

  lemma {:induction false} CleanIsQuietIf(s: Stmt, at: int)
    requires s.If? && CleanS(s)
    ensures Quiet(MarkS(s), HolesS(s, at), at) && AllUntouched(FunsS(s))
    decreases s, 0
  {
    hide Quiet, AllUntouched, MarkB, HolesB, CleanB, FunsB, MarkArms, HolesArms, MarkClauses, CleanClauses,
      FunsClauses, LenArms;
    var If(cs, els) := s;
    CleanIsQuietClauses(cs, at);
    if els.Else? {
      CleanIsQuietB(els.blk, at + LenArms(cs));
      QuietAppend(MarkArms(cs), HolesArms(cs, at), MarkB(els.blk), HolesB(els.blk, at + LenArms(cs)), at,
        at + LenArms(cs));
      AllAppend(FunsClauses(cs), FunsB(els.blk));
    } else {
      assert HolesArms(cs, at) + [] == HolesArms(cs, at) && FunsClauses(cs) + [] == FunsClauses(cs);
    }
  }

  lemma {:induction false} CleanIsQuietFor(i: Option<Simple>, c: Option<Expr>, p: Option<Simple>, b: seq<Stmt>, at: int)
    requires CleanB(b) && (p.None? || HolesB(b, 0) == [])
    ensures Quiet(MarkOpt(i) + MarkFor(c, p, b),
      HolesB(b, at + LenOpt(i) + LenTest(c) + LenOpt(p)), at) && AllUntouched(FunsB(b))
    decreases b, 3
  {
    hide Quiet, AllUntouched, MarkB, HolesB, CleanB, FunsB, MarkTest, MarkOpt, LenOpt, LenTest;
    var (from, from') := (at + LenOpt(i) + LenTest(c), at + LenOpt(i) + LenTest(c) + LenOpt(p));
    var (all, tail) := (MarkOpt(i) + MarkFor(c, p, b), MarkOpt(p) + [Rise(0)]);
    CleanIsQuietB(b, from);
    if p.Some? {
      HolesMovedB(b, 0, from');
      QuietNoHoles(all, at);
    } else {
      NoPost();
      OptLength(i);
      TestLength(c);
      QuietInside(MarkOpt(i) + MarkTest(c), MarkB(b), tail, HolesB(b, from), at, from);
      assert all == MarkOpt(i) + MarkTest(c) + MarkB(b) + tail;
    }
  }

  lemma NoPost()
    ensures LenOpt(None) == 0
  {
  }

  lemma OptLength(i: Option<Simple>)
    ensures |MarkOpt(i)| == LenOpt(i)
  {
    if i.Some? {
      MarksSimple(i.value, []);
      SimpleSize(i.value);
    }
  }

  lemma SimpleSize(m: Simple)
    ensures |CodeSimple(m, [])| == LenSimple(m)
  {
    hide CodeE;
  }

  lemma TestLength(c: Option<Expr>)
    ensures |MarkTest(c)| == LenTest(c)
  {
    if c.Some? { MarksE(c.value); }
  }

  lemma {:induction false} CleanIsQuietFun(x: string, ps: seq<string>, b: seq<Stmt>, at: int)
    requires CleanB(b)
    ensures Quiet(MarkFun(b) + [Mark(true, -1)], [Span(at + 1, at + LenB(b) + 3)], at)
    ensures AllUntouched([Fun(ps, b)] + FunsB(b))
    decreases b, 3
  {
    hide MarkB, HolesB, CleanB, FunsB, LenB, CodeB;
    CleanIsQuietB(b, 0);
    MarksB(b, [], NO_TARGETS);
    assert Untouched(b) by {
      forall k | 0 <= k < |MarkB(b)| && Covers(HolesB(b, 0), k) ensures !MarkB(b)[k].named {
        assert Covers(HolesB(b, 0), 0 + k);
      }
    }
    AllAppend([Fun(ps, b)], FunsB(b));
    forall k | 1 <= k <= |MarkB(b)| ensures !MarkFun(b)[k].named {
      assert MarkFun(b)[k] == Left(MarkBody(b), HolesB(b, 0))[k - 1];
    }
  }

  lemma {:induction false} CleanIsQuietClause(c: Clause, at: int)
    requires CleanB(c.blk)
    ensures Quiet(MarkClause(c), HolesClause(c, at), at) && AllUntouched(FunsB(c.blk))
    decreases c, 1
  {
    hide Quiet, AllUntouched, MarkB, HolesB, CleanB, FunsB, MarkE, CodeE;
    var n := |CodeE(c.cond)| + 1;
    MarksE(c.cond);
    CleanIsQuietB(c.blk, at + n);
    QuietInside(MarkE(c.cond) + [Rise(-1)], MarkB(c.blk), [], HolesB(c.blk, at + n), at, at + n);
    assert MarkE(c.cond) + [Rise(-1)] + MarkB(c.blk) + [] == MarkClause(c);
  }

  lemma {:induction false} CleanIsQuietClauses(cs: seq<Clause>, at: int)
    requires CleanClauses(cs)
    ensures Quiet(MarkArms(cs), HolesArms(cs, at), at) && Quiet(MarkClauses(cs), HolesArms(cs, at), at)
    ensures |MarkArms(cs)| == LenArms(cs) && AllUntouched(FunsClauses(cs))
    decreases cs, 0
  {
    hide Quiet, AllUntouched, MarkClause, HolesClause, FunsB, LenClause, CodeArms;
    MarksArms(cs, [], NO_TARGETS, None);
    if cs == [] {
      QuietNoHoles([], at);
      NoFuns();
    } else {
      var (init, c) := (cs[..|cs| - 1], cs[|cs| - 1]);
      var n := LenArms(init);
      CleanIsQuietClauses(init, at);
      CleanIsQuietClause(c, at + n);
      QuietAppend(MarkArms(init), HolesArms(init, at), MarkClause(c), HolesClause(c, at + n), at, at + n);
      QuietInside([], MarkArms(init) + MarkClause(c), [Rise(0)], HolesArms(cs, at), at, at);
      assert [] + (MarkArms(init) + MarkClause(c)) + [Rise(0)] == MarkArms(cs);
      AllAppend(FunsClauses(init), FunsB(c.blk));
    }
  }

  lemma {:induction false} CleanIsQuietB(b: seq<Stmt>, at: int)
    requires CleanB(b)
    ensures Quiet(MarkB(b), HolesB(b, at), at) && AllUntouched(FunsB(b))
    decreases b, 0
  {
    hide Quiet, AllUntouched, MarkS, HolesS, CleanS, FunsS, LenS, CodeB;
    if b == [] {
      QuietNoHoles([], at);
      NoFuns();
    } else {
      var (init, s) := (b[..|b| - 1], b[|b| - 1]);
      MarksB(init, [], NO_TARGETS);
      CleanIsQuietB(init, at);
      CleanIsQuietS(s, at + LenB(init));
      QuietAppend(MarkB(init), HolesB(init, at), MarkS(s), HolesS(s, at + LenB(init)), at, at + LenB(init));
      AllAppend(FunsB(init), FunsS(s));
    }
  }

  /** Without functions in loops with a post clause, every name is resolved. */
  lemma {:induction false} CleanIsSettled(b: seq<Stmt>)
    requires CleanB(b)
    ensures Settled(b)
  {
    hide MarkB, HolesB, FunsB, AllUntouched;
    CleanIsQuietB(b, 0);
    forall k | 0 <= k < |MarkB(b)| && Covers(HolesB(b, 0), k) ensures !MarkB(b)[k].named {
      assert Covers(HolesB(b, 0), 0 + k);
    }
  }

  // ----- A function in a loop with a post clause -----

  /** A function declared in a `for` with a post clause: the store to the name of the function is resolved iff the post
      clause is longer than the body of the function. */
  lemma {:induction false} StoreLeftSymbolic(ps: seq<string>, p: Simple, x: string, qs: seq<string>, inner: seq<Stmt>)
    ensures var b := [For(None, None, Some(p), [FunDecl(x, qs, inner)])];
      var k := 1 + LenB(inner) + 3;
      k < |FunCode(ps, b)| && (FunCode(ps, b)[k] == StoreSymbolic(x) <==> LenSimple(p) <= LenB(inner) + 2)
  {
    var b := [For(None, None, Some(p), [FunDecl(x, qs, inner)])];
    var (slots, n, k) := (SlotsB(ps, b), LenSimple(p), LenB(inner) + 3);
    var raw := RawBody(b, slots);
    var spans := [Span(0, n + 1), Span(n + k, |raw|)];
    LoopCode(p, x, qs, inner, slots);
    LoopHoles(p, x, qs, inner);
    assert FunCode(ps, b)[1 + k] == ResolveIn(raw, FunSpans(b), slots)[k];
    OneHole(0, Span(n + 1, n + k), |raw|);
    assert FunSpans(b) == spans;
    assert Covers(spans, k) <==> k < n + 1 by {
      if k < n + 1 { assert spans[0].begin <= k < spans[0].end; }
    }
  }

  lemma {:induction false} OneHole(lo: int, hole: Span, hi: int)
    ensures Gaps(lo, [hole], hi) == [Span(lo, hole.begin), Span(hole.end, hi)]
  {
    assert [hole][1..] == [];
  }

  lemma {:induction false} LoopHoles(p: Simple, x: string, qs: seq<string>, inner: seq<Stmt>)
    ensures HolesB([For(None, None, Some(p), [FunDecl(x, qs, inner)])],
      0) == [Span(LenSimple(p) + 1, LenSimple(p) + LenB(inner) + 3)]
  {
    var body := [FunDecl(x, qs, inner)];
    var loop := For(None, None, Some(p), body);
    assert [loop][..0] == [] && body[..0] == [];
    assert HolesB([loop], 0) == [] + HolesS(loop, 0);
    assert HolesS(loop, 0) == HolesB(body, LenSimple(p));
    assert HolesB(body, LenSimple(p)) == [] + HolesS(body[0], LenSimple(p));
  }

  lemma OneCode(s: Stmt, slots: seq<string>, tg: Targets)
    ensures CodeB([s], slots, tg) == CodeS(s, slots, tg.Shift(0)) && LenB([s]) == LenS(s)
  {
    hide CodeS, LenS;
    assert [s][..0] == [];
  }

  lemma {:induction false} LoopCode(p: Simple, x: string, qs: seq<string>, inner: seq<Stmt>, slots: seq<string>)
    ensures var raw := RawBody([For(None, None, Some(p), [FunDecl(x, qs, inner)])], slots);
      var k := LenB(inner) + 3;
      k < |raw| && raw[k] == StoreSymbolic(x)
  {
    hide Encode, CodeSimple, FunCode, CodeB, LenB, LenSimple;
    var fun := FunDecl(x, qs, inner);
    var loop := For(None, None, Some(p), [fun]);
    OneCode(fun, slots, Targets(Some(LenB([fun]) + LenSimple(p) + 1), Some(LenB([fun]))));
    OneCode(loop, slots, NO_TARGETS);
    assert CodeFor(None, Some(p), [fun], slots)[LenB(inner) + 3] == StoreSymbolic(x);
    assert CodeS(loop, slots, NO_TARGETS.Shift(0)) == [] + CodeFor(None, Some(p), [fun], slots);
  }
}
