/** The instructions of the virtual machine and the values they work on (vm.h). */
module Bytecode {

  /** Function values are named by the address of their OP_FUNCTION instruction; native functions by a number.
      Numbers, lists, dicts and weak references are only handled by the primitive operations. */
  datatype Value = Nil | Flag(flag: bool) | Str(text: string) | Closure(ip: int) | Native(id: nat) | Other(ref: int)

  predicate IsTruthy(v: Value) { v != Nil && v != Flag(false) }

  datatype Aop =
    | And | BitAnd | Sub | Or | BitOr | BitXor | LShift | RShift
    | Mod | Add | Div | IDiv | Mul | Pow | Concat

  /** The compile-time description of a function: the jump over its body, its frame and its operand stack. */
  datatype Shape = Shape(nargs: nat, nlocals: nat, offset: nat, maxstack: nat)

  /** Constants, names and shapes sit in the instruction itself instead of behind a table index. */
  datatype Instr =
    | LoadConst(v: Value) | LoadLocal(slot: nat) | LoadGlobal(name: string) | LoadAt
    | StoreLocal(slot: nat) | StoreGlobal(name: string) | StoreAt
    | ModifyLocal(aop: Aop, slot: nat) | ModifyGlobal(aop: Aop, name: string) | ModifyAt(aop: Aop)
    | PrintTop | Return
    | Jump(c: nat) | JumpUnless(c: nat)
    | Call(nargs: nat) | Function(shape: Shape)
    | Negate | Not | Length
    | Arith(aop: Aop) | Cmp2Way(equal: bool) | Cmp3Way(mask: nat)
    | MakeList(n: nat) | MakeDict(n: nat)
    | LoadSymbolic(name: string) | StoreSymbolic(name: string) | ModifySymbolic(aop: Aop, name: string)

  predicate IsSymbolic(i: Instr) { i.LoadSymbolic? || i.StoreSymbolic? || i.ModifySymbolic? }

  const UINT32 := 0x1_0000_0000
  const INT32_MAX := 0x7FFF_FFFF

  /** A displacement is stored in an unsigned 32-bit field and read back as a signed one. */
  function Encode(d: int): (c: nat)
    ensures -INT32_MAX <= d <= INT32_MAX ==> Decode(c) == d
  {
    d % UINT32
  }

  function Decode(c: nat): int {
    if c <= INT32_MAX then c else c - UINT32
  }
}
