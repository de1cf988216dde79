/** From the text of a program to its result: the compiler and the machine together. */
module Pipeline {
  import opened Bytecode
  import opened Syntax
  import opened Codegen
  import opened Grammar
  import opened Machine
  import opened Semantics
  import opened Resolution
  import opened Programs
  import opened Correctness
  import opened Emitter
  import opened Interpreter

  datatype Answer = SyntaxError | Result(v: Value, w: World) | RuntimeError(w: World) | Unfinished

  /** Compiles the program and runs it for at most so many instructions.  If all names are resolved and the functions
      have enough space, the answer is what the program means. */
  method Run(source: Tokens, ops: Ops, w: World, limit: nat) returns (r: Answer)
    ensures r.SyntaxError? <==> ParseProgram(source).None?
    ensures ParseProgram(source).Some? && Sound(ParseProgram(source).value) ==>
      var m := MeaningOf(ParseProgram(source).value, ops, w, limit + 1);
      && (r.Result? ==> m == Got(r.v, r.w))
      && (r.RuntimeError? ==> m == Fault(r.w))
      && (r.Unfinished? <==> Going(ParseProgram(source).value, ops, w, limit))
  {
    hide ParseProgram, FunCode, MeaningOf, Settled, Roomy, Start, Tick;
    var p := new Parser(source);
    var ok := p.Parse();
    if !ok { return SyntaxError; }
    ghost var b := ParseProgram(source).value;
    CodeBegins(b);
    var vm := new Vm(p.prog, ops, 0, w);
    vm.Eval(limit);
    r := match vm.status
      case Busy => Unfinished
      case Finished(v) => Result(v, vm.w)
      case Thrown => RuntimeError(vm.w)
      case Undefined => Unfinished;
    if Sound(b) { MachineStops(source, ops, w, limit); }
  }

  /** All names are resolved, and all functions have enough space for their operands. */
  ghost predicate Sound(b: seq<Stmt>) { Settled(b) && Roomy(b) }

  /** The machine has not stopped after n instructions of the program. */
  ghost predicate Going(b: seq<Stmt>, ops: Ops, w: World, n: nat) {
    Starts(b, w) && Ticks(CodeOf(b), ops, Begin(b, w), n).Running?
  }

  lemma CodeBegins(b: seq<Stmt>)
    ensures CodeOf(b) == FunCode([], b) && CodeOf(b) != [] && CodeOf(b)[0] == Function(FunShape([], b))
  {
    hide FunShape;
  }

  /** A program that means something is not run for ever. */
  lemma {:induction false} ComesToAnEnd(source: Tokens, ops: Ops, w: World, fuel: nat) returns (enough: nat)
    requires ParseProgram(source).Some? && Settled(ParseProgram(source).value)
    requires !MeaningOf(ParseProgram(source).value, ops, w, fuel).NoFuel?
    ensures forall limit: nat :: limit >= enough ==> !Going(ParseProgram(source).value, ops, w, limit)
  {
    hide ParseProgram, CodeOf, MeaningOf, Settled, Start, Tick;
    var b := ParseProgram(source).value;
    enough := ProgramSteps(source, ops, w, fuel);
    TicksStop(CodeOf(b), ops, Begin(b, w), enough);
    forall limit: nat | limit >= enough ensures !Going(b, ops, w, limit) {
      StaysStopped(CodeOf(b), ops, Begin(b, w), enough, limit);
    }
  }
}
