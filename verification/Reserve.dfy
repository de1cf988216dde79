/** How much space the compiler reserves for the operands of a function, as a function of the tree, when it accepts
    the function, and when the space suffices. */
module Reserve {
  import opened Bytecode
  import opened Syntax
  import opened Codegen
  import opened Scoping
  import opened Symbols
  import opened Semantics
  import opened StackDepth

  function Max(a: int, b: int): int { if a < b then b else a }

  // ----- The scan in unbounded arithmetic -----

  /** What the instructions before k that lie outside of the holes add to the stack. */
  ghost function Level(ms: seq<Mark>, holes: seq<Span>, k: nat): int
    requires k <= |ms|
  {
    if k == 0 then 0
    else Level(ms, holes, k - 1) + if Covers(holes, k - 1) then 0 else ms[k - 1].rise
  }

  /** The highest level up to k. */
  ghost function Peak(ms: seq<Mark>, holes: seq<Span>, k: nat): nat
    requires k <= |ms|
  {
    if k == 0 then 0 else Max(Peak(ms, holes, k - 1), Level(ms, holes, k))
  }

  lemma {:induction false} LevelBounds(ms: seq<Mark>, holes: seq<Span>, k: nat)
    requires k <= |ms| && Slight(ms)
    ensures -(k * (|ms| + 3)) <= Level(ms, holes, k) <= k
  {
    if k > 0 {
      LevelBounds(ms, holes, k - 1);
      assert k * (|ms| + 3) == (k - 1) * (|ms| + 3) + (|ms| + 3);
    }
  }

  // ----- The scan in modular arithmetic -----

  ghost function Wrapped(ms: seq<Mark>, holes: seq<Span>, k: nat): nat
    requires k <= |ms|
  {
    Level(ms, holes, k) % SIZE_T
  }

  /** The highest value from position k on. */
  ghost function Highest(ms: seq<Mark>, holes: seq<Span>, k: nat): nat
    requires k <= |ms|
    decreases |ms| - k
  {
    if k == |ms| then Wrapped(ms, holes, k) else Max(Wrapped(ms, holes, k), Highest(ms, holes, k + 1))
  }

  /** In a hole nothing changes. */
  lemma {:induction false} Flat(ms: seq<Mark>, holes: seq<Span>, k: nat, m: nat)
    requires k <= m <= |ms| && forall q :: k <= q < m ==> Covers(holes, q)
    ensures Wrapped(ms, holes, m) == Wrapped(ms, holes, k) && Highest(ms, holes, m) == Highest(ms, holes, k)
    decreases m - k
  {
    if k < m { Flat(ms, holes, k + 1, m); }
  }

  /** The spans are what the holes leave of n instructions. */
  ghost predicate Tiles(spans: seq<Span>, holes: seq<Span>, n: nat) {
    && Apart(spans) && Bounded(0, spans, n)
    && forall k {:trigger Covers(spans, k)} :: 0 <= k < n ==> (Covers(spans, k) <==> !Covers(holes, k))
  }

  /** The scan stands before instruction p, which is in span i or behind all spans. */
  ghost predicate StandsAt(spans: seq<Span>, n: nat, i: nat, j: int, p: nat) {
    && i <= |spans| && p <= n
    && if i < |spans| then j == p && spans[i].begin <= p <= spans[i].end
       else forall k :: p <= k < n ==> !Covers(spans, k)
  }

  lemma WrappedSum(l: int, e: int)
    ensures (l % SIZE_T + e) % SIZE_T == (l + e) % SIZE_T
  {
  }

  lemma {:induction false} ScanIsHighest(raw: seq<Instr>, spans: seq<Span>, holes: seq<Span>, i: nat, j: int, p: nat,
      max: nat)
    requires i <= |spans| && p <= |raw| && Tiles(spans, holes, |raw|) && StandsAt(spans, |raw|, i, j, p)
      && max >= Wrapped(Marks(raw), holes, p)
    ensures ScanMax(raw, spans, i, j, Wrapped(Marks(raw), holes, p), max) == Max(max, Highest(Marks(raw), holes, p))
    decreases |spans| - i, if i < |spans| then spans[i].end - j else 0
  {
    hide Tiles, StandsAt, Highest, Wrapped, Level, Marks;
    var ms := Marks(raw);
    if i == |spans| {
      AtTheEnd(ms, spans, holes, j, p);
    } else {
      InSpan(spans, holes, |raw|, i, j, p);
      if j < spans[i].end {
        OneOn(raw, holes, p);
        var d := Wrapped(ms, holes, p + 1);
        ScanIsHighest(raw, spans, holes, i, j + 1, p + 1, if max < d then d else max);
      } else {
        var p' := if i + 1 < |spans| then spans[i + 1].begin else p;
        NextSpan(spans, holes, |raw|, i, j, p);
        Flat(ms, holes, p, p');
        ScanIsHighest(raw, spans, holes, i + 1, if i + 1 < |spans| then p' else 0, p', max);
      }
    }
  }

  lemma {:induction false} AtTheEnd(ms: seq<Mark>, spans: seq<Span>, holes: seq<Span>, j: int, p: nat)
    requires Tiles(spans, holes, |ms|) && StandsAt(spans, |ms|, |spans|, j, p)
    ensures Highest(ms, holes, p) == Wrapped(ms, holes, p)
  {
    hide Wrapped;
    forall q | p <= q < |ms| ensures Covers(holes, q) { assert !Covers(spans, q); }
    Flat(ms, holes, p, |ms|);
  }

  lemma {:induction false} InSpan(spans: seq<Span>, holes: seq<Span>, n: nat, i: nat, j: int, p: nat)
    requires Tiles(spans, holes, n) && StandsAt(spans, n, i, j, p) && i < |spans|
    ensures j == p && p <= spans[i].end <= n
    ensures j < spans[i].end ==> !Covers(holes, p) && StandsAt(spans, n, i, j + 1, p + 1)
  {
    if j < spans[i].end { assert Covers(spans, p); }
  }

  lemma {:induction false} OneOn(raw: seq<Instr>, holes: seq<Span>, p: nat)
    requires p < |raw| && !Covers(holes, p)
    ensures var ms := Marks(raw);
      && (Wrapped(ms, holes, p) + Effect(raw[p])) % SIZE_T == Wrapped(ms, holes, p + 1)
      && Highest(ms, holes, p) == Max(Wrapped(ms, holes, p), Highest(ms, holes, p + 1))
      && Highest(ms, holes, p + 1) >= Wrapped(ms, holes, p + 1)
  {
    WrappedSum(Level(Marks(raw), holes, p), Effect(raw[p]));
  }

  /** Behind a span, holes lead to the next one or to the end. */
  lemma {:induction false} NextSpan(spans: seq<Span>, holes: seq<Span>, n: nat, i: nat, j: int, p: nat)
    requires Tiles(spans, holes, n) && StandsAt(spans, n, i, j, p) && i < |spans| && p == spans[i].end
    ensures var p' := if i + 1 < |spans| then spans[i + 1].begin else p;
      && p <= p' <= n && (forall q :: p <= q < p' ==> Covers(holes, q))
      && StandsAt(spans, n, i + 1, if i + 1 < |spans| then p' else 0, p')
  {
    var p' := if i + 1 < |spans| then spans[i + 1].begin else n;
    forall q | p <= q < p' ensures Covers(holes, q) { assert !Covers(spans, q); }
  }

  // ----- When nothing wraps -----

  lemma {:induction false} WrappedIs(ms: seq<Mark>, holes: seq<Span>, k: nat)
    requires k <= |ms| <= INT32_MAX && Slight(ms)
    ensures var (l, w) := (Level(ms, holes, k), Wrapped(ms, holes, k));
      if l >= 0 then w == l <= (SIZE_T - 1) / 2 else w > (SIZE_T - 1) / 2
  {
    hide Level;
    LevelBounds(ms, holes, k);
    SmallProduct(k, |ms| + 3);
  }

  lemma SmallProduct(a: nat, b: nat)
    requires a <= INT32_MAX && b <= INT32_MAX + 3
    ensures a * b <= SIZE_T / 2 - 1
  {
    assert a * b <= INT32_MAX * b;
  }

  /** From k on the level is not below zero. */
  ghost predicate Above(ms: seq<Mark>, holes: seq<Span>, k: nat) {
    forall q :: k <= q <= |ms| ==> Level(ms, holes, q) >= 0
  }

  lemma {:induction false} HighestIs(ms: seq<Mark>, holes: seq<Span>, k: nat)
    requires k <= |ms| <= INT32_MAX && Slight(ms)
    ensures Highest(ms, holes, k) <= (SIZE_T - 1) / 2 <==> Above(ms, holes, k)
    ensures Highest(ms, holes, k) <= (SIZE_T - 1) / 2 ==>
      Max(Peak(ms, holes, k), Highest(ms, holes, k)) == Peak(ms, holes, |ms|)
    decreases |ms| - k
  {
    hide Level, Wrapped, Slight;
    WrappedIs(ms, holes, k);
    PeakReaches(ms, holes, k);
    if k < |ms| {
      HighestIs(ms, holes, k + 1);
      WrappedIs(ms, holes, k + 1);
    }
  }

  lemma {:induction false} PeakReaches(ms: seq<Mark>, holes: seq<Span>, k: nat)
    requires k <= |ms|
    ensures Level(ms, holes, k) <= Peak(ms, holes, k)
  {
  }

  // ----- Functions -----

  /** The scan of the body b never falls below zero. */
  ghost predicate NeverBelow(b: seq<Stmt>) { Above(MarkBody(b), HolesB(b, 0), 0) }

  ghost function PeakOf(b: seq<Stmt>): nat {
    Peak(MarkBody(b), HolesB(b, 0), |MarkBody(b)|)
  }

  /** The space that is reserved is enough for the operands of the instructions of b. */
  ghost predicate Suffices(b: seq<Stmt>) {
    forall q {:trigger Depths(b)[q]} :: 0 <= q < |Depths(b)| ==> Depths(b)[q] <= PeakOf(b)
  }

  lemma {:induction false} SpansTile(b: seq<Stmt>)
    ensures Tiles(FunSpans(b), HolesB(b, 0), LenB(b) + 2) && FunSpans(b) != [] && FunSpans(b)[0].begin == 0
  {
    hide HolesB, LenB, Ordered, Gaps;
    var (holes, n) := (HolesB(b, 0), LenB(b) + 2);
    OwnSpans(b, 0, n);
    HolesOrderedLoop(b, 0, 0, n);
    GapsApart(0, holes, n);
    EndsWithin(0, holes, n);
    GapsStart(0, holes, n);
    forall k | 0 <= k < n && !Covers(holes, k) ensures Covers(FunSpans(b), k) {
      GapsCover(0, holes, n, k);
    }
  }

  lemma {:induction false} BodyMarks(b: seq<Stmt>, slots: seq<string>)
    ensures Marks(RawBody(b, slots)) == MarkBody(b) && |MarkBody(b)| == LenB(b) + 2 && Slight(MarkBody(b))
  {
    hide CodeB, MarkB, Marks, LenB;
    MarksB(b, slots, NO_TARGETS);
    MarksRaw(CodeB(b, slots, NO_TARGETS));
  }

  lemma {:induction false} ScanOfBody(ps: seq<string>, b: seq<Stmt>)
    ensures FunShape(ps, b).maxstack == Highest(MarkBody(b), HolesB(b, 0), 0)
  {
    hide CodeB, MarkB, Marks, HolesB, LenB, FunSpans, ScanMax, Highest, Wrapped, Tiles, MarkBody;
    var slots := SlotsB(ps, b);
    var (raw, spans, holes) := (RawBody(b, slots), FunSpans(b), HolesB(b, 0));
    BodyMarks(b, slots);
    SpansTile(b);
    FirstLevel(MarkBody(b), holes);
    SpanBegins(spans, holes, |raw|);
    ScanIsHighest(raw, spans, holes, 0, 0, 0, 0);
  }

  lemma FirstLevel(ms: seq<Mark>, holes: seq<Span>)
    ensures Wrapped(ms, holes, 0) == 0
  {
  }

  lemma SpanBegins(spans: seq<Span>, holes: seq<Span>, n: nat)
    requires Tiles(spans, holes, n) && spans != [] && spans[0].begin == 0
    ensures StandsAt(spans, n, 0, 0, 0)
  {
  }

  /** The compiler accepts the size of a function iff its scan never falls below zero and the numbers of instructions
      and locals are in their limits. */
  lemma {:induction false} FitsIff(ps: seq<string>, b: seq<Stmt>)
    ensures FunFits(ps, b) <==> NeverBelow(b) && LenB(b) + 3 <= INT32_MAX && |SlotsB(ps, b)| <= INT32_MAX
  {
    hide CodeB, MarkB, HolesB, LenB, FunShape, Highest, Above, Peak, SlotsB, Slight;
    ScanOfBody(ps, b);
    BodyMarks(b, []);
    if LenB(b) + 3 <= INT32_MAX { HighestIs(MarkBody(b), HolesB(b, 0), 0); }
  }

  /** What is reserved, unless the scan falls below zero. */
  lemma {:induction false} ReservedUnlessBelow(ps: seq<string>, b: seq<Stmt>)
    requires NeverBelow(b) && LenB(b) + 2 <= INT32_MAX
    ensures FunShape(ps, b).maxstack == PeakOf(b)
  {
    hide CodeB, MarkB, HolesB, LenB, FunShape, Highest, Above, SlotsB, Slight;
    ScanOfBody(ps, b);
    BodyMarks(b, []);
    HighestIs(MarkBody(b), HolesB(b, 0), 0);
  }

  /** What is reserved for a function that is accepted. */
  lemma {:induction false} ReservedIsPeak(ps: seq<string>, b: seq<Stmt>)
    requires FunFits(ps, b)
    ensures FunShape(ps, b).maxstack == PeakOf(b)
  {
    hide FunShape, NeverBelow, PeakOf, LenB, SlotsB;
    FitsIff(ps, b);
    ReservedUnlessBelow(ps, b);
  }

  /** The space that the compiler reserves for the operands of f is enough for what the tree of f says. */
  ghost predicate Reserves(f: Fun) {
    forall q {:trigger Depths(f.body)[q]} :: 0 <= q < |Depths(f.body)| ==>
      Depths(f.body)[q] <= FunShape(f.params, f.body).maxstack
  }

  /** That is a question of where the functions in f are declared. */
  lemma {:induction false} ReservesIff(f: Fun)
    requires FunFits(f.params, f.body)
    ensures Reserves(f) <==> Suffices(f.body)
  {
    hide FunShape, PeakOf, Depths, FunFits;
    ReservedIsPeak(f.params, f.body);
  }
}
