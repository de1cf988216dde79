/** The states of the machine that correspond to a moment of the structured semantics. */
module Frames {
  import opened Common
  import opened Bytecode
  import opened Codegen
  import opened Machine
  import opened Semantics
  import opened Resolution
  import opened Loading

  /** A running function: `below` is the part of the value stack under its locals, with the function itself on top. */
  datatype Frame = Frame(code: Code, t: Table, ops: Ops, slots: seq<string>, below: seq<Value>, calls: seq<CallSite>) {
    function Site(): CallSite
      requires calls != []
    {
      calls[|calls| - 1]
    }

    ghost predicate Ok() {
      && Loaded(code, t) && NoDup(slots) && below != [] && calls != []
      && 0 <= Site().callee < |code| && code[Site().callee].Function?
      && code[Site().callee].shape.nlocals == |slots|
      && 0 <= code[Site().callee].shape.offset <= INT32_MAX
      && (Site().callIp.None? ==> |below| == 1)
    }

    /** The address p belongs to the code of the function. */
    ghost predicate Owns(p: int)
      requires Ok()
    {
      Site().callee <= p <= Site().callee + code[Site().callee].shape.offset
    }

    /** At the address pos, with the operands opd on the stack. */
    function At(pos: int, env: Env, opd: seq<Value>, w: World): Config {
      Running(pos, below + Image(slots, env) + opd, |below|, calls, w)
    }

    /** After the function has returned. */
    function Exit(v: Value, w: World): Config {
      if below == [] || calls == [] then Stuck
      else if Site().callIp.None? then Halted(v, w)
      else Running(Site().callIp.value + 1, below[..|below| - 1] + [v], Site().prevBase, calls[..|calls| - 1], w)
    }

    function Run(c: Config, n: nat): Config {
      Steps(code, ops, c, n)
    }
  }

  /** The values of the local variables in the order of their slots. */
  function Image(slots: seq<string>, env: Env): (r: seq<Value>)
    ensures |r| == |slots|
  {
    seq(|slots|, i requires 0 <= i < |slots| => if slots[i] in env then env[slots[i]] else Nil)
  }

  /** The value stack of a frame. */
  function Base(fr: Frame, env: Env, opd: seq<Value>): seq<Value> { fr.below + Image(fr.slots, env) + opd }

  ghost predicate EnvOk(slots: seq<string>, env: Env) {
    (forall x :: x in env ==> x in slots) && (forall x :: x in slots ==> x in env)
  }

  lemma {:induction false} ImageWrite(slots: seq<string>, env: Env, x: string, v: Value)
    requires NoDup(slots) && EnvOk(slots, env) && x in slots
    ensures SlotOf(slots, x) < |slots| && Image(slots, env[x := v]) == Image(slots, env)[SlotOf(slots, x) := v]
    ensures EnvOk(slots, env[x := v])
  {
    var k := SlotOf(slots, x);
    var (after, before) := (Image(slots, env[x := v]), Image(slots, env)[k := v]);
    forall i | 0 <= i < |slots| ensures after[i] == before[i] {
      if i < k { assert slots[i] != slots[k]; }
      if k < i { assert slots[k] != slots[i]; }
    }
  }

  lemma {:induction false} ImageRead(slots: seq<string>, env: Env, x: string)
    requires EnvOk(slots, env) && x in slots
    ensures SlotOf(slots, x) < |slots| && Image(slots, env)[SlotOf(slots, x)] == env[x]
  {
  }

  /** At the start of a function its parameters hold the arguments and its other locals are nil. */
  lemma {:induction false} InitialImage(f: Fun, args: seq<Value>)
    requires |args| == |f.params| && NoDup(f.params)
    ensures var slots := SlotsB(f.params, f.body);
      && |slots| >= |args| && NoDup(slots) && EnvOk(slots, InitialEnv(f, args))
      && Image(slots, InitialEnv(f, args)) == args + Nils(|slots| - |args|)
  {
    var slots := SlotsB(f.params, f.body);
    var env := InitialEnv(f, args);
    SlotNamesB(f.params, (set x | x in f.params), f.body);
    Patching.GrowsB(f.params, f.body);
    hide SlotsB;
    forall i | 0 <= i < |slots| ensures Image(slots, env)[i] == (args + Nils(|slots| - |args|))[i] {
      assert slots[i] in slots;
      if i < |args| {
        assert f.params[i] == slots[i];
        SlotOfAt(f.params, i);
      }
    }
  }

  lemma {:induction false} SlotOfAt(slots: seq<string>, i: nat)
    requires NoDup(slots) && i < |slots|
    ensures SlotOf(slots, slots[i]) == i
  {
    assert slots[SlotOf(slots, slots[i])] == slots[i];
  }

  // ----- What a piece of code does -----

  /** From c on, after n rounds: the values of r have been pushed at `end`, or the machine has failed, or there was not
      enough fuel and it is still running after as many rounds. */
  ghost predicate Pushes(fr: Frame, c: Config, end: int, env: Env, opd: seq<Value>, r: Eval<seq<Value>>, fuel: nat,
      n: nat) {
    match r
    case Got(vs, w) => fr.Run(c, n) == fr.At(end, env, opd + vs, w)
    case Fault(w) => fr.Run(c, n) == Failed(w)
    case NoFuel => n >= fuel && fr.Run(c, n).Running?
  }

  function One(r: Eval<Value>): Eval<seq<Value>> {
    match r
    case Got(v, w) => Got([v], w)
    case Fault(w) => Fault(w)
    case NoFuel => NoFuel
  }

  /** The outcome o of a statement: `end` is the address behind it, ex are the addresses for break and continue. */
  ghost predicate Goes(fr: Frame, c: Config, o: Outcome, end: int, ex: Targets, fuel: nat, n: nat) {
    match o
    case Normal(env, w) => EnvOk(fr.slots, env) && fr.Run(c, n) == fr.At(end, env, [], w)
    case Broke(env, w) => EnvOk(fr.slots, env) && ex.brk.Some? && fr.Run(c, n) == fr.At(ex.brk.value, env, [], w)
    case Continued(env, w) => EnvOk(fr.slots, env) && ex.cnt.Some? && fr.Run(c, n) == fr.At(ex.cnt.value, env, [], w)
    case Returned(v, w) => fr.Run(c, n) == fr.Exit(v, w)
    case Error(w) => fr.Run(c, n) == Failed(w)
    case OutOfFuel => n >= fuel && fr.Run(c, n).Running?
  }

  lemma {:induction false} GoesAfter(
      fr: Frame, c: Config, m: nat, d: Config, o: Outcome, end: int, ex: Targets, fuel: nat, fuel': nat, n: nat)
    requires fr.Run(c, m) == d && Goes(fr, d, o, end, ex, fuel', n) && m + fuel' >= fuel
    ensures Goes(fr, c, o, end, ex, fuel, m + n)
  {
    StepsAdd(fr.code, fr.ops, c, m, n);
  }

  lemma {:induction false} OneMore(fr: Frame, c: Config, m: nat, d: Config)
    requires fr.Run(c, m) == d && d.Running?
    ensures fr.Run(c, m + 1) == Step(fr.code, fr.ops, d)
  {
    StepsAdd(fr.code, fr.ops, c, m, 1);
    assert Steps(fr.code, fr.ops, d, 1) == Steps(fr.code, fr.ops, Step(fr.code, fr.ops, d), 0);
  }

  /** First the values of r, then those of q. */
  lemma {:induction false} PushesBoth(
      fr: Frame, c: Config, mid: int, end: int, env: Env, opd: seq<Value>, vs: seq<Value>, w: World,
      q: Eval<seq<Value>>, fuel: nat,
      m: nat, n: nat)
    requires Pushes(fr, c, mid, env, opd, Got(vs, w), fuel, m)
    requires Pushes(fr, fr.At(mid, env, opd + vs, w), end, env, opd + vs, q, fuel, n)
    ensures Pushes(fr, c, end, env, opd, if q.Got? then Got(vs + q.v, q.w) else q, fuel, m + n)
  {
    StepsAdd(fr.code, fr.ops, c, m, n);
    if q.Got? { assert opd + vs + q.v == opd + (vs + q.v); }
  }

  /** An operation replaces the operands vs by its result. */
  lemma {:induction false} Operates(
      fr: Frame, c: Config, mid: int, env: Env, opd: seq<Value>, vs: seq<Value>, w: World, r: Computed, fuel: nat,
      m: nat, end: int)
    requires Pushes(fr, c, mid, env, opd, Got(vs, w), fuel, m)
    requires var d := fr.At(mid, env, opd + vs, w);
      Step(fr.code, fr.ops, d) == Push(d, Base(fr, env, opd), r)
    requires end == mid + 1
    ensures Pushes(fr, c, end, env, opd, One(Yield(r, w)), fuel, m + 1)
  {
    OneMore(fr, c, m, fr.At(mid, env, opd + vs, w));
    if r.Some? { Cat3(fr.below + Image(fr.slots, env), opd, [r.value.0]); }
  }
}
