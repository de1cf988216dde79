/** The compiler is correct: a program that is parsed, compiled and run does what its tree means. */
module Correctness {
  import opened Common
  import opened Bytecode
  import opened Syntax
  import opened Codegen
  import opened Grammar
  import opened StmtGrammar
  import opened Machine
  import opened Semantics
  import opened Resolution
  import opened Loading
  import opened Frames
  import opened Rounds
  import opened Simulation
  import opened StackSafety
  import opened Programs

  // ----- The parser delivers well-formed trees -----

  lemma {:induction false} FitsIsGoodS(s: Stmt, loop: bool)
    requires FitsS(s, loop)
    ensures GoodS(s, loop)
    decreases s, 1
  {
    hide FunFits, FitsB, FitsClauses, GoodB, GoodClauses, Assignable;
    match s
    case If(cs, els) =>
      FitsIsGoodClauses(cs, loop);
      if els.Else? { FitsIsGoodB(els.blk, loop); }
    case While(_, b) => FitsIsGoodB(b, true);
    case For(_, _, _, b) => FitsIsGoodB(b, true);
    case FunDecl(_, _, b) => FitsIsGoodB(b, false);
    case _ =>
  }

  lemma {:induction false} FitsIsGoodClauses(cs: seq<Clause>, loop: bool)
    requires FitsClauses(cs, loop)
    ensures GoodClauses(cs, loop)
    decreases cs, 0
  {
    hide FitsB, GoodB;
    if cs != [] {
      FitsIsGoodClauses(cs[..|cs| - 1], loop);
      FitsIsGoodB(cs[|cs| - 1].blk, loop);
    }
  }

  lemma {:induction false} FitsIsGoodB(b: seq<Stmt>, loop: bool)
    requires FitsB(b, loop)
    ensures GoodB(b, loop)
    decreases b, 0
  {
    hide FitsS, GoodS;
    if b != [] {
      FitsIsGoodB(b[..|b| - 1], loop);
      FitsIsGoodS(b[|b| - 1], loop);
    }
  }

  // ----- Running a function -----

  /** The value of a call of f, which stands at the address a, without arguments. */
  function Meaning(t: Table, ops: Ops, a: int, f: Fun, w: World, fuel: nat): Eval<Value>
    requires f.params == []
  {
    CallResult(ExecB(t, ops, f.body, a + 1, InitialEnv(f, []), w, fuel))
  }

  /** After n rounds the machine is where r says. */
  ghost predicate Agrees(d: Config, r: Eval<Value>, fuel: nat, n: nat) {
    match r
    case Got(v, w) => d == Halted(v, w)
    case Fault(w) => d == Failed(w)
    case NoFuel => n >= fuel && d.Running?
  }

  /** A function of a memory that holds any number of programs, if the stack had no limit. */
  lemma {:induction false} FunctionSteps(code: Code, t: Table, ops: Ops, a: int, w: World, fuel: nat) returns (n: nat)
    requires Loaded(code, t) && a in t && t[a].params == []
    ensures 0 <= a < |code| && code[a].Function? && Start(code, a, w).Some?
    ensures Agrees(Steps(code, ops, Start(code, a, w).value, n), Meaning(t, ops, a, t[a], w, fuel), fuel, n)
  {
    var f := t[a];
    assert FunAt(code, a, f);
    ShapeOf(f);
    InitialImage(f, []);
    hide ExecB, FunShape, FunFits, GoodB, RawBody, Seg, SlotsB, InitialEnv, Image;
    var fr := Frame(code, t, ops, SlotsB([], f.body), [Closure(a)], [CallSite(None, a, -1)]);
    assert fr.Ok();
    n := SimBody(fr, a, f, [], w, fuel);
    StartIs(fr, a, InitialEnv(f, []), w);
  }

  /** state_eval() of a function in a memory of any number of programs, with the space that each function reserves. */
  lemma {:induction false} FunctionRuns(code: Code, t: Table, ops: Ops, a: int, w: World, fuel: nat) returns (n: nat)
    requires Loaded(code, t) && a in t && t[a].params == [] && Spacious(t)
    ensures 0 <= a < |code| && code[a].Function? && Start(code, a, w).Some?
    ensures Agrees(Ticks(code, ops, Start(code, a, w).value, n), Meaning(t, ops, a, t[a], w, fuel), fuel, n)
  {
    hide Loaded, Spacious, Start, Steps, Ticks, Agrees, Meaning;
    n := FunctionSteps(code, t, ops, a, w, fuel);
    NoLimit(code, t, ops, a, w, n);
  }

  lemma {:induction false} StartIs(fr: Frame, a: int, env: Env, w: World)
    requires 0 <= a < |fr.code| && fr.code[a].Function? && fr.code[a].shape.nargs == 0
      && fr.code[a].shape.nlocals == |fr.slots|
    requires fr.below == [Closure(a)] && fr.calls == [CallSite(None, a, -1)]
      && Image(fr.slots, env) == [] + Nils(|fr.slots|)
    ensures Start(fr.code, a, w) == Some(fr.At(a + 1, env, [], w))
  {
    assert [Closure(a)] + ([] + Nils(|fr.slots|)) + [] == [Closure(a)] + Nils(|fr.slots|);
  }

  // ----- The main theorem -----

  /** The compiled program, and the state in which it starts. */
  function CodeOf(b: seq<Stmt>): Code { FunCode([], b) }

  ghost predicate Starts(b: seq<Stmt>, w: World) {
    CodeOf(b) != [] && CodeOf(b)[0].Function? && Start(CodeOf(b), 0, w).Some?
  }

  ghost function Begin(b: seq<Stmt>, w: World): Config
    requires Starts(b, w)
  {
    Start(CodeOf(b), 0, w).value
  }

  /** What a program means, when it is run in the world w. */
  function MeaningOf(b: seq<Stmt>, ops: Ops, w: World, fuel: nat): Eval<Value> {
    Meaning(TableOf(b), ops, 0, Fun([], b), w, fuel)
  }

  lemma {:induction false} ParsedIsLoaded(ts: Tokens)
    requires ParseProgram(ts).Some? && Settled(ParseProgram(ts).value)
    ensures var b := ParseProgram(ts).value;
      && GoodB(b, false) && FunFits([], b) && Loaded(CodeOf(b), TableOf(b))
      && 0 in TableOf(b) && TableOf(b)[0] == Fun([], b)
  {
    hide ParseProgram, FunCode, TableOf, Settled, FunFits, FitsB, GoodB, Loaded, TextSs;
    var b := ParseProgram(ts).value;
    ProgramCharacterized(ts, b);
    FitsIsGoodB(b, false);
    ProgramLoaded(b);
    TableStart(b);
  }

  lemma {:induction false} TableStart(b: seq<Stmt>)
    requires Loaded(FunCode([], b), TableOf(b))
    ensures 0 in TableOf(b)
  {
    hide TableB, FunCode, Loaded;
  }

  /** Whatever the compiler accepts behaves as its tree says, if all its names are resolved and its functions have
      enough space: same result, same runtime errors, same output, and no end where the program has no end; and it
      never leaves the space that is reserved. */
  lemma {:induction false} CompilerCorrect(ts: Tokens, ops: Ops, w: World, fuel: nat) returns (n: nat)
    requires ParseProgram(ts).Some? && Settled(ParseProgram(ts).value) && Roomy(ParseProgram(ts).value)
    ensures var b := ParseProgram(ts).value;
      Starts(b, w) && Agrees(Ticks(CodeOf(b), ops, Begin(b, w), n), MeaningOf(b, ops, w, fuel), fuel, n)
  {
    hide ParseProgram, CodeOf, TableOf, Start, Agrees, Meaning, Settled, Roomy, FunFits, GoodB, Loaded, Spacious;
    var b := ParseProgram(ts).value;
    ParsedIsLoaded(ts);
    TableIsSpacious(b);
    n := FunctionRuns(CodeOf(b), TableOf(b), ops, 0, w, fuel);
  }

  /** The same without regard to the space. */
  lemma {:induction false} ProgramSteps(ts: Tokens, ops: Ops, w: World, fuel: nat) returns (n: nat)
    requires ParseProgram(ts).Some? && Settled(ParseProgram(ts).value)
    ensures var b := ParseProgram(ts).value;
      Starts(b, w) && Agrees(Steps(CodeOf(b), ops, Begin(b, w), n), MeaningOf(b, ops, w, fuel), fuel, n)
  {
    hide ParseProgram, CodeOf, TableOf, Start, Agrees, Meaning, Settled, FunFits, GoodB, Loaded;
    var b := ParseProgram(ts).value;
    ParsedIsLoaded(ts);
    n := FunctionSteps(CodeOf(b), TableOf(b), ops, 0, w, fuel);
  }

  lemma {:induction false} StopsForGood(code: Code, ops: Ops, c: Config, m: nat, n: nat)
    requires m <= n && Ticks(code, ops, c, n).Running?
    ensures Ticks(code, ops, c, m).Running?
  {
    hide Tick;
    TicksAdd(code, ops, c, m, n - m);
  }

  lemma {:induction false} StaysStopped(code: Code, ops: Ops, c: Config, m: nat, n: nat)
    requires m <= n && !Ticks(code, ops, c, m).Running?
    ensures Ticks(code, ops, c, n) == Ticks(code, ops, c, m)
  {
    hide Tick;
    TicksAdd(code, ops, c, m, n - m);
  }

  /** From some fuel on the meaning is the same, if it is defined for some fuel. */
  lemma {:induction false} MeaningIsUnique(ts: Tokens, ops: Ops, w: World, fuel: nat) returns (enough: nat)
    requires ParseProgram(ts).Some? && Settled(ParseProgram(ts).value)
    ensures var b := ParseProgram(ts).value;
      var r := MeaningOf(b, ops, w, fuel);
      r != NoFuel ==> forall more :: more >= enough ==> MeaningOf(b, ops, w, more) == r
  {
    hide ParseProgram, CodeOf, MeaningOf, Start, Settled;
    var b := ParseProgram(ts).value;
    enough := ProgramSteps(ts, ops, w, fuel);
    var (code, c) := (CodeOf(b), Begin(b, w));
    var r := MeaningOf(b, ops, w, fuel);
    if r != NoFuel {
      forall more | more >= enough ensures MeaningOf(b, ops, w, more) == r {
        var n := ProgramSteps(ts, ops, w, more);
        if n <= enough { StepsAdd(code, ops, c, n, enough - n); } else { StepsAdd(code, ops, c, enough, n - enough); }
      }
    }
  }

  /** A program whose meaning is never defined keeps the machine running. */
  lemma {:induction false} DivergenceKept(ts: Tokens, ops: Ops, w: World, n: nat)
    requires ParseProgram(ts).Some? && Settled(ParseProgram(ts).value) && Roomy(ParseProgram(ts).value)
    requires forall fuel: nat :: MeaningOf(ParseProgram(ts).value, ops, w, fuel) == NoFuel
    ensures var b := ParseProgram(ts).value;
      Starts(b, w) && Ticks(CodeOf(b), ops, Begin(b, w), n).Running?
  {
    hide ParseProgram, CodeOf, MeaningOf, Start, Settled, Roomy;
    var b := ParseProgram(ts).value;
    var m := CompilerCorrect(ts, ops, w, n);
    StopsForGood(CodeOf(b), ops, Begin(b, w), n, m);
  }

  function Final(r: Eval<Value>): Config
    requires !r.NoFuel?
  {
    match r
    case Got(v, w) => Halted(v, w)
    case Fault(w) => Failed(w)
  }

  /** Wherever the machine stops, it stops with what the program means; in particular it never gets stuck, and never
      needs more space than is reserved. */
  lemma {:induction false} MachineStops(ts: Tokens, ops: Ops, w: World, n: nat)
    requires ParseProgram(ts).Some? && Settled(ParseProgram(ts).value) && Roomy(ParseProgram(ts).value)
    ensures var b := ParseProgram(ts).value;
      && Starts(b, w)
      && var d := Ticks(CodeOf(b), ops, Begin(b, w), n);
         var r := MeaningOf(b, ops, w, n + 1);
         !d.Running? ==> !r.NoFuel? && d == Final(r)
  {
    hide ParseProgram, CodeOf, MeaningOf, Start, Settled, Roomy;
    var b := ParseProgram(ts).value;
    var m := CompilerCorrect(ts, ops, w, n + 1);
    var (code, c) := (CodeOf(b), Begin(b, w));
    if !Ticks(code, ops, c, n).Running? {
      if n <= m { StaysStopped(code, ops, c, n, m); } else { TicksAdd(code, ops, c, m, n - m); }
    }
  }
}
