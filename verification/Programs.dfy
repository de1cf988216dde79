/** All functions that a program declares, and the space for the operands of each. */
module Programs {
  import opened Common
  import opened Syntax
  import opened Codegen
  import opened Semantics
  import opened Resolution
  import opened Loading
  import opened Reserve
  import opened DepthScan
  import opened StackSafety

  ghost predicate Well(f: Fun) {
    NoDup(f.params) && GoodB(f.body, false) && FunFits(f.params, f.body)
  }

  /** The table holds nothing but the functions in the list, which are well-formed, and clean if the code is. */
  ghost predicate Listed(fs: seq<Fun>, t: Table, clean: bool) {
    && (forall a :: a in t ==> t[a] in fs)
    && (forall f :: f in fs ==> Well(f) && (clean ==> CleanB(f.body)))
  }

  lemma ListedAppend(fs: seq<Fun>, t: Table, gs: seq<Fun>, u: Table, clean: bool)
    requires Listed(fs, t, clean) && Listed(gs, u, clean)
    ensures Listed(fs + gs, t + u, clean)
  {
    hide Well, CleanB;
  }

  lemma NoneListed(clean: bool)
    ensures Listed([], map[], clean)
  {
  }

  lemma {:induction false} ListedS(s: Stmt, pos: int, loop: bool, clean: bool)
    requires GoodS(s, loop) && (clean ==> CleanS(s))
    ensures Listed(FunsS(s), TableS(s, pos), clean)
    decreases s, 1
  {
    hide Listed, GoodB, GoodClauses, CleanB, CleanClauses, FunsB, FunsClauses, TableB, TableArms, LenB, FunFits;
    match s
    case If(cs, els) =>
      ListedClauses(cs, pos, loop, clean);
      if els.Else? {
        ListedB(els.blk, pos + LenArms(cs), loop, clean);
        ListedAppend(FunsClauses(cs), TableArms(cs, pos), FunsB(els.blk), TableB(els.blk, pos + LenArms(cs)), clean);
      } else {
        NoneListed(clean);
        ListedAppend(FunsClauses(cs), TableArms(cs, pos), [], map[], clean);
      }
    case While(c, b) => ListedB(b, pos + |CodeE(c)| + 1, true, clean);
    case For(i, c, _, b) => ListedB(b, pos + LenOpt(i) + LenTest(c), true, clean);
    case FunDecl(_, ps, b) =>
      ListedB(b, pos + 1, false, clean);
      OneListed(pos, Fun(ps, b), clean);
      ListedAppend([Fun(ps, b)], map[pos := Fun(ps, b)], FunsB(b), TableB(b, pos + 1), clean);
    case _ => NoneListed(clean);
  }

  lemma OneListed(pos: int, f: Fun, clean: bool)
    requires Well(f) && (clean ==> CleanB(f.body))
    ensures Listed([f], map[pos := f], clean)
  {
    hide Well, CleanB;
  }

  lemma {:induction false} ListedClauses(cs: seq<Clause>, pos: int, loop: bool, clean: bool)
    requires GoodClauses(cs, loop) && (clean ==> CleanClauses(cs))
    ensures Listed(FunsClauses(cs), TableArms(cs, pos), clean)
    decreases cs, 0
  {
    hide Listed, GoodB, CleanB, FunsB, TableB, LenB, LenArms;
    if cs == [] {
      NoneListed(clean);
    } else {
      var (init, c) := (cs[..|cs| - 1], cs[|cs| - 1]);
      var at := pos + LenArms(init);
      ListedClauses(init, pos, loop, clean);
      ListedB(c.blk, at + |CodeE(c.cond)| + 1, loop, clean);
      ListedAppend(FunsClauses(init), TableArms(init, pos), FunsB(c.blk), TableClause(c, at), clean);
    }
  }

  lemma {:induction false} ListedB(b: seq<Stmt>, pos: int, loop: bool, clean: bool)
    requires GoodB(b, loop) && (clean ==> CleanB(b))
    ensures Listed(FunsB(b), TableB(b, pos), clean)
    decreases b, 0
  {
    hide Listed, GoodS, CleanS, FunsS, TableS, LenS;
    if b == [] {
      NoneListed(clean);
    } else {
      var (init, s) := (b[..|b| - 1], b[|b| - 1]);
      ListedB(init, pos, loop, clean);
      ListedS(s, pos + LenB(init), loop, clean);
      ListedAppend(FunsB(init), TableB(init, pos), FunsS(s), TableS(s, pos + LenB(init)), clean);
    }
  }

  // ----- The space -----

  ghost predicate AllSuffice(fs: seq<Fun>) { forall i {:trigger fs[i]} :: 0 <= i < |fs| ==> Suffices(fs[i].body) }

  /** The program and all functions declared in it have enough space for their operands. */
  ghost predicate Roomy(b: seq<Stmt>) { Suffices(b) && AllSuffice(FunsB(b)) }

  /** The compiler reserves enough space for the program and all functions in it iff the program is roomy. */
  lemma {:induction false} AllReserveIff(b: seq<Stmt>)
    requires GoodB(b, false) && FunFits([], b)
    ensures (Reserves(Fun([], b)) && forall i {:trigger FunsB(b)[i]} :: 0 <= i < |FunsB(b)| ==> Reserves(FunsB(b)[i]))
      <==> Roomy(b)
  {
    ListedB(b, 1, false, false);
    hide GoodB, FunFits, FunsB, Reserves, Suffices, TableB;
    ReservesIff(Fun([], b));
    forall i | 0 <= i < |FunsB(b)| ensures Reserves(FunsB(b)[i]) <==> Suffices(FunsB(b)[i].body) {
      assert FunsB(b)[i] in FunsB(b);
      ReservesIff(FunsB(b)[i]);
    }
    assert AllSuffice(FunsB(b)) <==>
      forall i {:trigger FunsB(b)[i]} :: 0 <= i < |FunsB(b)| ==> Reserves(FunsB(b)[i]);
  }

  /** Without functions in loops with a post clause, every program is roomy. */
  lemma {:induction false} CleanIsRoomy(b: seq<Stmt>)
    requires CleanB(b) && GoodB(b, false) && FunFits([], b)
    ensures Roomy(b)
  {
    ListedB(b, 1, false, true);
    hide GoodB, FunsB, Suffices, TableB, CleanB, PeakOf, NeverBelow, FunShape, LenB;
    CleanSuffices(Fun([], b));
    forall i | 0 <= i < |FunsB(b)| ensures Suffices(FunsB(b)[i].body) {
      assert FunsB(b)[i] in FunsB(b);
      CleanSuffices(FunsB(b)[i]);
    }
  }

  lemma {:induction false} CleanSuffices(f: Fun)
    requires CleanB(f.body) && Well(f)
    ensures Suffices(f.body)
  {
    hide CleanB, GoodB, Suffices, FunShape, LenB, PeakOf, NeverBelow;
    var v := CleanScan(f);
  }

  lemma {:induction false} TableIsSpacious(b: seq<Stmt>)
    requires GoodB(b, false) && Roomy(b)
    ensures Spacious(TableOf(b))
  {
    ListedB(b, 1, false, false);
    hide GoodB, FunsB, Suffices, TableB;
    forall a | a in TableOf(b) ensures Suffices(TableOf(b)[a].body) {
      if a in TableB(b, 1) {
        var i :| 0 <= i < |FunsB(b)| && FunsB(b)[i] == TableB(b, 1)[a];
      }
    }
  }
}
