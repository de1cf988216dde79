/** The instruction ranges of a scope: what close_scope() visits when a function ends. */
module Scoping {
  import opened Bytecode
  import opened Syntax
  import opened Codegen
  import opened Snapshots

  // ----- The holes of a statement are in order and inside of its code -----

  ghost predicate Ordered(lo: int, holes: seq<Span>, hi: int)
    decreases |holes|
  {
    if holes == [] then lo <= hi
    else lo <= holes[0].begin <= holes[0].end && Ordered(holes[0].end, holes[1..], hi)
  }

  lemma {:induction false} OrderedAppend(lo: int, a: seq<Span>, mid: int, mid': int, b: seq<Span>, hi: int)
    requires Ordered(lo, a, mid) && mid <= mid' && Ordered(mid', b, hi)
    ensures Ordered(lo, a + b, hi)
    decreases |a|
  {
    if a == [] {
      assert a + b == b;
      if b != [] { assert lo <= b[0].begin; }
    } else {
      assert (a + b)[1..] == a[1..] + b;
      OrderedAppend(a[0].end, a[1..], mid, mid', b, hi);
    }
  }

  lemma {:induction false} OrderedWiden(lo: int, holes: seq<Span>, hi: int, hi': int)
    requires Ordered(lo, holes, hi) && hi <= hi'
    ensures Ordered(lo, holes, hi')
    decreases |holes|
  {
    if holes != [] { OrderedWiden(holes[0].end, holes[1..], hi, hi'); }
  }

  lemma {:induction false} OrderedFrom(lo: int, lo': int, holes: seq<Span>, hi: int)
    requires Ordered(lo', holes, hi) && lo <= lo'
    ensures Ordered(lo, holes, hi)
  {
  }

  lemma {:induction false} HolesOrderedS(s: Stmt, at: int, end: int)
    requires end == at + LenS(s)
    ensures Ordered(at, HolesS(s, at), end)
    decreases s, 1
  {
    match s
    case If(_, _) => HolesOrderedIf(s, at, end);
    case While(c, b) => HolesOrderedLoop(b, at, at + |CodeE(c)| + 1, end);
    case For(i, c, p, b) => HolesOrderedLoop(b, at, at + LenOpt(i) + LenTest(c) + LenOpt(p), end);
    case FunDecl(_, _, b) => assert HolesS(s, at)[1..] == [];
    case _ =>
  }

  lemma {:induction false} HolesOrderedIf(s: Stmt, at: int, end: int)
    requires s.If? && end == at + LenS(s)
    ensures Ordered(at, HolesS(s, at), end)
    decreases s, 0
  {
    var If(cs, els) := s;
    var (mid, mid') := (at + LenClauses(cs), at + LenArms(cs));
    HolesOrderedArms(cs, at, mid);
    if els.Else? {
      HolesOrderedB(els.blk, mid', end);
      OrderedAppend(at, HolesArms(cs, at), mid, mid', HolesB(els.blk, mid'), end);
    } else {
      assert HolesArms(cs, at) + [] == HolesArms(cs, at);
    }
  }

  lemma {:induction false} HolesOrderedLoop(b: seq<Stmt>, at: int, from: int, end: int)
    requires at <= from && from + LenB(b) <= end
    ensures Ordered(at, HolesB(b, from), end)
    decreases b, 1
  {
    var to := from + LenB(b);
    HolesOrderedB(b, from, to);
    OrderedFrom(at, from, HolesB(b, from), to);
    OrderedWiden(at, HolesB(b, from), to, end);
  }

  lemma {:induction false} HolesOrderedClause(c: Clause, at: int, end: int)
    requires end == at + LenClause(c)
    ensures Ordered(at, HolesClause(c, at), end)
    decreases c, 1
  {
    HolesOrderedLoop(c.blk, at, at + |CodeE(c.cond)| + 1, end);
  }

  lemma {:induction false} HolesOrderedArms(cs: seq<Clause>, at: int, end: int)
    requires end == at + LenClauses(cs)
    ensures Ordered(at, HolesArms(cs, at), end) && LenClauses(cs) <= LenArms(cs)
    decreases cs, 0
  {
    if cs != [] {
      var (init, c) := (cs[..|cs| - 1], cs[|cs| - 1]);
      var (mid, mid') := (at + LenClauses(init), at + LenArms(init));
      HolesOrderedArms(init, at, mid);
      HolesOrderedClause(c, mid', end);
      OrderedAppend(at, HolesArms(init, at), mid, mid', HolesClause(c, mid'), end);
    }
  }

  lemma {:induction false} HolesOrderedB(b: seq<Stmt>, at: int, end: int)
    requires end == at + LenB(b)
    ensures Ordered(at, HolesB(b, at), end)
    decreases b, 0
  {
    if b != [] {
      var (init, s) := (b[..|b| - 1], b[|b| - 1]);
      var mid := at + LenB(init);
      HolesOrderedB(init, at, mid);
      HolesOrderedS(s, mid, end);
      OrderedAppend(at, HolesB(init, at), mid, mid, HolesS(s, mid), end);
    }
  }

  /** All spans lie in [lo, hi]. */
  ghost predicate Bounded(lo: int, spans: seq<Span>, hi: int) {
    forall i :: 0 <= i < |spans| ==> lo <= spans[i].begin <= spans[i].end <= hi
  }

  lemma {:induction false} GapsBounded(lo: int, holes: seq<Span>, hi: int)
    requires Ordered(lo, holes, hi)
    ensures Bounded(lo, Gaps(lo, holes, hi), hi) && lo <= hi
    decreases |holes|
  {
    if holes != [] { GapsBounded(holes[0].end, holes[1..], hi); }
  }

  // ----- Positions in the whole program and in one function -----

  function Moved(spans: seq<Span>, n: int): (r: seq<Span>)
    ensures |r| == |spans|
  {
    seq(|spans|, i requires 0 <= i < |spans| => Span(spans[i].begin + n, spans[i].end + n))
  }

  lemma {:induction false} MovedAppend(a: seq<Span>, b: seq<Span>, n: int)
    ensures Moved(a + b, n) == Moved(a, n) + Moved(b, n)
  {
  }

  lemma {:induction false} HolesMovedS(s: Stmt, at: int, n: int)
    ensures HolesS(s, at + n) == Moved(HolesS(s, at), n)
    decreases s, 1
  {
    match s
    case If(cs, els) =>
      HolesMovedArms(cs, at, n);
      if els.Else? { HolesMovedB(els.blk, at + LenArms(cs), n); }
      MovedAppend(HolesArms(cs, at), HolesElse(els, at + LenArms(cs)), n);
    case While(c, b) => HolesMovedB(b, at + |CodeE(c)| + 1, n);
    case For(i, c, p, b) => HolesMovedB(b, at + LenOpt(i) + LenTest(c) + LenOpt(p), n);
    case _ =>
  }

  lemma {:induction false} HolesMovedClause(c: Clause, at: int, n: int)
    ensures HolesClause(c, at + n) == Moved(HolesClause(c, at), n)
    decreases c, 1
  {
    HolesMovedB(c.blk, at + |CodeE(c.cond)| + 1, n);
  }

  lemma {:induction false} HolesMovedArms(cs: seq<Clause>, at: int, n: int)
    ensures HolesArms(cs, at + n) == Moved(HolesArms(cs, at), n)
    decreases cs, 0
  {
    if cs != [] {
      var (init, c) := (cs[..|cs| - 1], cs[|cs| - 1]);
      HolesMovedArms(init, at, n);
      HolesMovedClause(c, at + LenArms(init), n);
      MovedAppend(HolesArms(init, at), HolesClause(c, at + LenArms(init)), n);
    }
  }

  lemma {:induction false} HolesMovedB(b: seq<Stmt>, at: int, n: int)
    ensures HolesB(b, at + n) == Moved(HolesB(b, at), n)
    decreases b, 0
  {
    if b != [] {
      var (init, s) := (b[..|b| - 1], b[|b| - 1]);
      HolesMovedB(init, at, n);
      HolesMovedS(s, at + LenB(init), n);
      MovedAppend(HolesB(init, at), HolesS(s, at + LenB(init)), n);
    }
  }

  lemma {:induction false} GapsMoved(lo: int, holes: seq<Span>, hi: int, n: int)
    ensures Gaps(lo + n, Moved(holes, n), hi + n) == Moved(Gaps(lo, holes, hi), n)
    decreases |holes|
  {
    if holes != [] {
      assert Moved(holes, n)[1..] == Moved(holes[1..], n);
      GapsMoved(holes[0].end, holes[1..], hi, n);
    }
  }

  lemma {:induction false} ResolveMoved(pre: seq<Instr>, raw: seq<Instr>, spans: seq<Span>, slots: seq<string>)
    requires Bounded(0, spans, |raw|)
    ensures ResolveIn(pre + raw, Moved(spans, |pre|), slots) == pre + ResolveIn(raw, spans, slots)
  {
    var (n, m) := (|pre|, Moved(spans, |pre|));
    var (p, q) := (ResolveIn(pre + raw, m, slots), pre + ResolveIn(raw, spans, slots));
    forall k | 0 <= k < |p| ensures p[k] == q[k] {
      if Covers(m, k) {
        var i :| 0 <= i < |m| && m[i].begin <= k < m[i].end;
        assert spans[i].begin <= k - n < spans[i].end;
      }
      if Covers(spans, k - n) {
        var i :| 0 <= i < |spans| && spans[i].begin <= k - n < spans[i].end;
        assert m[i].begin <= k < m[i].end;
      }
    }
  }

  lemma {:induction false} ScanMoved(
      pre: seq<Instr>, raw: seq<Instr>, spans: seq<Span>, i: nat, j: int, depth: nat, max: nat)
    requires Bounded(0, spans, |raw|) && i <= |spans| && (i < |spans| ==> 0 <= j)
    ensures ScanMax(pre + raw, Moved(spans, |pre|), i, if i < |spans| then j + |pre| else j, depth, max)
         == ScanMax(raw, spans, i, j, depth, max)
    decreases |spans| - i, if i < |spans| then spans[i].end - j else 0
  {
    if i < |spans| {
      if j < spans[i].end {
        assert (pre + raw)[j + |pre|] == raw[j];
        var d := (depth + Effect(raw[j])) % SIZE_T;
        ScanMoved(pre, raw, spans, i, j + 1, d, if max < d then d else max);
      } else {
        ScanMoved(pre, raw, spans, i + 1, if i + 1 < |spans| then spans[i + 1].begin else 0, depth, max);
      }
    }
  }

  // ----- The ranges on the stack are the gaps between the holes -----

  function Tagged(scope: int, spans: seq<Span>): (r: seq<Range>)
    ensures |r| == |spans|
  {
    seq(|spans|, i requires 0 <= i < |spans| => Range(scope, spans[i].begin, spans[i].end))
  }

  lemma {:induction false} RangesAreGaps(base: seq<Range>, scope: int, start: int, holes: seq<Span>, end: int)
    ensures EndLast(AddHoles(base + [Range(scope, start, -1)], scope, holes), end)
         == base + Tagged(scope, Gaps(start, holes, end))
    decreases |holes|
  {
    var rs := base + [Range(scope, start, -1)];
    if holes == [] {
      assert EndLast(rs, end) == base + [Range(scope, start, end)];
    } else {
      var first := Range(scope, start, holes[0].begin);
      assert EndLast(rs, holes[0].begin) == base + [first];
      RangesAreGaps(base + [first], scope, holes[0].end, holes[1..], end);
      assert Tagged(scope, Gaps(start, holes, end)) == [first] + Tagged(scope, Gaps(holes[0].end, holes[1..], end));
    }
  }

  // ----- A function, seen from the whole program -----

  /** Closing the scope of a function that starts behind pre turns its raw body into its code. */
  lemma {:induction false} ClosedBody(
      pre: seq<Instr>, b: seq<Stmt>, slots: seq<string>, raw: seq<Instr>, n: int, end: int, spans: seq<Span>)
    requires |raw| == LenB(b) + 2 && n == |pre| && end == n + LenB(b) + 2
    requires spans == Gaps(n, HolesB(b, n), end)
    ensures Bounded(n, spans, end)
    ensures ResolveIn(pre + raw, spans, slots) == pre + ResolveIn(raw, FunSpans(b), slots)
    ensures MaxStack(pre + raw, spans) == MaxStack(raw, FunSpans(b))
  {
    var own := FunSpans(b);
    OwnSpans(b, n, end);
    ResolveMoved(pre, raw, own, slots);
    ScanMoved(pre, raw, own, 0, 0, 0, 0);
    GapsStart(0, HolesB(b, 0), LenB(b) + 2);
  }

  lemma {:induction false} OwnSpans(b: seq<Stmt>, n: int, end: int)
    requires end == n + LenB(b) + 2
    ensures Gaps(n, HolesB(b, n), end) == Moved(FunSpans(b), n)
    ensures Bounded(0, FunSpans(b), LenB(b) + 2)
  {
    var len := LenB(b) + 2;
    HolesOrderedLoop(b, 0, 0, len);
    GapsBounded(0, HolesB(b, 0), len);
    HolesMovedB(b, 0, n);
    GapsMoved(0, HolesB(b, 0), len, n);
  }

  lemma {:induction false} GapsStart(lo: int, holes: seq<Span>, hi: int)
    ensures Gaps(lo, holes, hi) != [] && Gaps(lo, holes, hi)[0].begin == lo
  {
  }

  // ----- Holes and gaps do not overlap -----

  lemma {:induction false} CoversAppend(a: seq<Span>, b: seq<Span>, k: int)
    ensures Covers(a + b, k) <==> Covers(a, k) || Covers(b, k)
  {
    if Covers(a, k) {
      var i :| 0 <= i < |a| && a[i].begin <= k < a[i].end;
      assert (a + b)[i] == a[i];
    }
    if Covers(b, k) {
      var i :| 0 <= i < |b| && b[i].begin <= k < b[i].end;
      assert (a + b)[|a| + i] == b[i];
    }
  }

  lemma {:induction false} OrderedReach(lo: int, holes: seq<Span>, hi: int)
    requires Ordered(lo, holes, hi)
    ensures lo <= hi
    decreases |holes|
  {
    if holes != [] { OrderedReach(holes[0].end, holes[1..], hi); }
  }

  ghost predicate Apart(spans: seq<Span>) {
    forall i, j {:trigger spans[i], spans[j]} :: 0 <= i < j < |spans| ==> spans[i].end <= spans[j].begin
  }

  lemma {:induction false} GapsApart(lo: int, holes: seq<Span>, hi: int)
    requires Ordered(lo, holes, hi)
    ensures var gaps := Gaps(lo, holes, hi);
      Apart(gaps) && (forall k :: Covers(gaps, k) ==> lo <= k && !Covers(holes, k))
    decreases |holes|
  {
    var gaps := Gaps(lo, holes, hi);
    GapsBounded(lo, holes, hi);
    if holes != [] {
      var (h, rest, tail) := (holes[0], holes[1..], Gaps(holes[0].end, holes[1..], hi));
      GapsApart(h.end, rest, hi);
      GapsBounded(h.end, rest, hi);
      HolesAfter(h.end, rest, hi);
      forall k | Covers(gaps, k) ensures !Covers(holes, k) {
        CoversAppend([Span(lo, h.begin)], tail, k);
        CoversAppend([h], rest, k);
        assert holes == [h] + rest;
      }
    }
  }

  lemma {:induction false} HolesAfter(lo: int, holes: seq<Span>, hi: int)
    requires Ordered(lo, holes, hi)
    ensures forall k :: Covers(holes, k) ==> lo <= k < hi
    decreases |holes|
  {
    if holes != [] {
      HolesAfter(holes[0].end, holes[1..], hi);
      OrderedReach(holes[0].end, holes[1..], hi);
      forall k | Covers(holes, k) ensures lo <= k < hi {
        assert holes == [holes[0]] + holes[1..];
        CoversAppend([holes[0]], holes[1..], k);
      }
    }
  }

  lemma {:induction false} GapsCover(lo: int, holes: seq<Span>, hi: int, k: int)
    requires lo <= k < hi
    ensures Covers(Gaps(lo, holes, hi), k) || Covers(holes, k) || exists i :: 0 <= i < |holes| && holes[i].end > hi
    decreases |holes|
  {
    var gaps := Gaps(lo, holes, hi);
    if holes == [] || k < holes[0].begin {
      assert gaps[0].begin <= k < gaps[0].end;
    } else if k < holes[0].end {
      assert holes[0].begin <= k < holes[0].end;
    } else {
      var tail := Gaps(holes[0].end, holes[1..], hi);
      GapsCover(holes[0].end, holes[1..], hi, k);
      if Covers(tail, k) {
        var i :| 0 <= i < |tail| && tail[i].begin <= k < tail[i].end;
        assert gaps[i + 1] == tail[i];
      } else if Covers(holes[1..], k) {
        var i :| 0 <= i < |holes[1..]| && holes[1..][i].begin <= k < holes[1..][i].end;
        assert holes[i + 1] == holes[1..][i];
      } else {
        var i :| 0 <= i < |holes[1..]| && holes[1..][i].end > hi;
        assert holes[i + 1] == holes[1..][i];
      }
    }
  }
}
