/** The state of the one-pass compiler as a value, and how statements transform it. */
module Snapshots {
  import opened Common
  import opened Bytecode
  import opened Syntax
  import opened Codegen
  import opened Patching

  /** The instructions from begin up to end were emitted while the scope was innermost; end is -1 while it still is. */
  datatype Range = Range(scope: int, begin: int, end: int)

  datatype Snap = Snap(
    prog: seq<Instr>,
    scopes: seq<seq<string>>,   // the locals of the open functions, each in insertion order
    ranges: seq<Range>,
    sIf: seq<int>,              // positions of jumps to be patched; -1 opens a function, -2 a segment
    sBreak: seq<int>,
    sContinue: seq<int>)

  function Last<T>(s: seq<T>): T
    requires s != []
  {
    s[|s| - 1]
  }

  /** Inside of a function: every stack has its sentinel, and the innermost scope owns the last range. */
  ghost predicate Ok(p: Snap) {
    && p.scopes != [] && p.ranges != [] && Last(p.ranges).scope == |p.scopes| - 1
    && p.sIf != [] && p.sBreak != [] && p.sContinue != []
    && (Last(p.sBreak) == -1 <==> Last(p.sContinue) == -1)
  }

  ghost predicate InLoop(p: Snap)
    requires Ok(p)
  {
    Last(p.sBreak) != -1
  }

  function Slots(p: Snap): seq<string>
    requires p.scopes != []
  {
    Last(p.scopes)
  }

  function SetSlots(scopes: seq<seq<string>>, f: seq<string>): seq<seq<string>>
    requires scopes != []
  {
    scopes[|scopes| - 1 := f]
  }

  lemma SetSlotsTwice(scopes: seq<seq<string>>, f: seq<string>, g: seq<string>)
    requires scopes != []
    ensures SetSlots(scopes, f) != [] && Last(SetSlots(scopes, f)) == f
    ensures SetSlots(SetSlots(scopes, f), g) == SetSlots(scopes, g)
  {
  }

  function EndLast(rs: seq<Range>, end: int): seq<Range>
    requires rs != []
  {
    rs[|rs| - 1 := Last(rs).(end := end)]
  }

  /** What the compilation of nested functions does to the ranges. */
  function AddHoles(rs: seq<Range>, scope: int, holes: seq<Span>): (r: seq<Range>)
    requires rs != []
    ensures r != [] && (holes != [] ==> Last(r).scope == scope) && (holes == [] ==> r == rs)
    decreases |holes|
  {
    if holes == [] then rs
    else AddHoles(EndLast(rs, holes[0].begin) + [Range(scope, holes[0].end, -1)], scope, holes[1..])
  }

  lemma {:induction false} AddHolesAppend(rs: seq<Range>, scope: int, a: seq<Span>, b: seq<Span>)
    requires rs != []
    ensures AddHoles(AddHoles(rs, scope, a), scope, b) == AddHoles(rs, scope, a + b)
    decreases |a|
  {
    if a == [] {
      assert a + b == b;
    } else {
      assert (a + b)[1..] == a[1..] + b;
      AddHolesAppend(EndLast(rs, a[0].begin) + [Range(scope, a[0].end, -1)], scope, a[1..], b);
    }
  }

  // ----- The state after a piece of source text -----

  ghost function After(
      p: Snap, code: seq<Instr>, f: seq<string>, holes: seq<Span>, breaks: seq<int>, conts: seq<int>): (q: Snap)
    requires Ok(p)
    ensures |q.scopes| == |p.scopes| && Slots(q) == f
    ensures q.ranges != [] && Last(q.ranges).scope == |q.scopes| - 1
  {
    Snap(p.prog + code, SetSlots(p.scopes, f), AddHoles(p.ranges, |p.scopes| - 1, holes),
      p.sIf, p.sBreak + breaks, p.sContinue + conts)
  }

  ghost function AfterS(p: Snap, s: Stmt): Snap
    requires Ok(p)
  {
    var (f, at) := (SlotsS(Slots(p), s), |p.prog|);
    After(p, CodeS(s, f, NO_TARGETS), f, HolesS(s, at), PendS(s, at, ToBreak), PendS(s, at, ToContinue))
  }

  ghost function AfterB(p: Snap, b: seq<Stmt>): Snap
    requires Ok(p)
  {
    var (f, at) := (SlotsB(Slots(p), b), |p.prog|);
    After(p, CodeB(b, f, NO_TARGETS), f, HolesB(b, at), PendB(b, at, ToBreak), PendB(b, at, ToContinue))
  }

  /** One arm of an `if`, whose conditional jump is still open. */
  ghost function AfterClause(p: Snap, c: Clause): Snap
    requires Ok(p)
  {
    var (f, at) := (SlotsClause(Slots(p), c), |p.prog|);
    After(p, CodeClause(c, f, NO_TARGETS, 0), f, HolesClause(c, at), PendClause(c, at, ToBreak),
      PendClause(c, at, ToContinue))
  }

  /** The arms of an `if`, with the segment of jumps to its end. */
  ghost function AfterArms(p: Snap, cs: seq<Clause>): Snap
    requires Ok(p)
  {
    var (f, at) := (SlotsClauses(Slots(p), cs), |p.prog|);
    After(p, CodeArms(cs, f, NO_TARGETS, None), f, HolesArms(cs, at), PendArms(cs, at, ToBreak),
      PendArms(cs, at, ToContinue))
    .(sIf := p.sIf + [-2] + EndJumps(cs, at))
  }

  /** The same, where the last arm has no jump after it and its conditional jump is still open. */
  ghost function AfterInit(p: Snap, cs: seq<Clause>): Snap
    requires Ok(p) && cs != []
  {
    var (f, at) := (SlotsClauses(Slots(p), cs), |p.prog|);
    After(p, CodeInit(cs, f, NO_TARGETS, None, 0), f, HolesArms(cs, at), PendArms(cs, at, ToBreak),
      PendArms(cs, at, ToContinue))
    .(sIf := p.sIf + [-2] + EndJumps(cs[..|cs| - 1], at))
  }

  lemma {:induction false} AfterNothing(p: Snap)
    requires Ok(p)
    ensures AfterB(p, []) == p
  {
    assert p.prog + [] == p.prog && p.sBreak + [] == p.sBreak && p.sContinue + [] == p.sContinue;
  }

  lemma {:induction false} AfterAfter(
      p: Snap,
      code: seq<Instr>, f: seq<string>, holes: seq<Span>, breaks: seq<int>, conts: seq<int>,
      code': seq<Instr>, f': seq<string>, holes': seq<Span>, breaks': seq<int>, conts': seq<int>)
    requires Ok(p) && Ok(After(p, code, f, holes, breaks, conts))
    ensures After(After(p, code, f, holes, breaks, conts), code', f', holes', breaks', conts')
         == After(p, code + code', f', holes + holes', breaks + breaks', conts + conts')
  {
    Cat3(p.prog, code, code');
    Cat3(p.sBreak, breaks, breaks');
    Cat3(p.sContinue, conts, conts');
    AddHolesAppend(p.ranges, |p.scopes| - 1, holes, holes');
  }

  lemma {:induction false} SnocB(slots: seq<string>, b: seq<Stmt>, s: Stmt, at: int)
    ensures var (f, g, b') := (SlotsB(slots, b), SlotsB(slots, b + [s]), b + [s]);
      && g == SlotsS(f, s)
      && CodeB(b', g, NO_TARGETS) == CodeB(b, f, NO_TARGETS) + CodeS(s, g, NO_TARGETS)
      && HolesB(b', at) == HolesB(b, at) + HolesS(s, at + LenB(b))
      && PendB(b', at, ToBreak) == PendB(b, at, ToBreak) + PendS(s, at + LenB(b), ToBreak)
      && PendB(b', at, ToContinue) == PendB(b, at, ToContinue) + PendS(s, at + LenB(b), ToContinue)
  {
    assert (b + [s])[..|b + [s]| - 1] == b;
    var f := SlotsB(slots, b);
    GrowsS(f, s);
    StableB(slots, b, f, SlotsS(f, s), NO_TARGETS);
  }

  /** Statement after statement is a block. */
  lemma {:induction false} AfterSnoc(p: Snap, b: seq<Stmt>, s: Stmt)
    requires Ok(p) && Ok(AfterB(p, b))
    ensures AfterS(AfterB(p, b), s) == AfterB(p, b + [s])
  {
    var at := |p.prog|;
    SnocB(Slots(p), b, s, at);
    var (f, g) := (SlotsB(Slots(p), b), SlotsB(Slots(p), b + [s]));
    AfterAfter(p,
      CodeB(b, f, NO_TARGETS), f, HolesB(b, at), PendB(b, at, ToBreak), PendB(b, at, ToContinue),
      CodeS(s, g, NO_TARGETS), g, HolesS(s, at + LenB(b)), PendS(s, at + LenB(b), ToBreak),
      PendS(s, at + LenB(b), ToContinue));
  }

  lemma {:induction false} SnocArms(slots: seq<string>, cs: seq<Clause>, c: Clause, at: int)
    ensures var (f, g, cs', n) := (SlotsClauses(slots, cs), SlotsClauses(slots, cs + [c]), cs + [c], at + LenArms(cs));
      && g == SlotsClause(f, c)
      && CodeInit(cs', g, NO_TARGETS, None, 0) == CodeArms(cs, f, NO_TARGETS, None) + CodeClause(c, g, NO_TARGETS, 0)
      && HolesArms(cs', at) == HolesArms(cs, at) + HolesClause(c, n)
      && PendArms(cs', at, ToBreak) == PendArms(cs, at, ToBreak) + PendClause(c, n, ToBreak)
      && PendArms(cs', at, ToContinue) == PendArms(cs, at, ToContinue) + PendClause(c, n, ToContinue)
  {
    assert (cs + [c])[..|cs + [c]| - 1] == cs;
    var f := SlotsClauses(slots, cs);
    GrowsClause(f, c);
    StableArms(slots, cs, f, SlotsClause(f, c), NO_TARGETS, None);
  }

  /** Arm after arm. */
  lemma {:induction false} AfterArmSnoc(p: Snap, cs: seq<Clause>, c: Clause)
    requires Ok(p) && Ok(AfterArms(p, cs))
    ensures AfterClause(AfterArms(p, cs), c) == AfterInit(p, cs + [c])
  {
    hide CodeArms, CodeInit, CodeClause, SlotsClauses, SlotsClause, HolesArms, HolesClause, PendArms, PendClause,
      EndJumps, LenArms;
    var (at, n) := (|p.prog|, |p.prog| + LenArms(cs));
    SnocArms(Slots(p), cs, c, at);
    var (f, g) := (SlotsClauses(Slots(p), cs), SlotsClauses(Slots(p), cs + [c]));
    var p' := p.(sIf := p.sIf + [-2] + EndJumps(cs, at));
    AfterAfter(p',
      CodeArms(cs, f, NO_TARGETS, None), f, HolesArms(cs, at), PendArms(cs, at, ToBreak), PendArms(cs, at, ToContinue),
      CodeClause(c, g, NO_TARGETS, 0), g, HolesClause(c, n), PendClause(c, n, ToBreak), PendClause(c, n, ToContinue));
    assert (cs + [c])[..|cs + [c]| - 1] == cs;
  }
}
