# A verified model of calx

calx is a scripting language for arbitrary-precision decimal numbers. This project models its hard parts in Dafny and
proves what they are for:

- **The compiler** (`parse.c`) makes bytecode in one pass, without a syntax tree. `Grammar`, `ExprGrammar` and
  `StmtGrammar` say which token sequences are programs and what tree each one is, `Codegen` says what code a tree has. `Emitter.Parser` is the
  compiler itself, with its growing code array, ranges, scopes and stacks of open jumps; it is proved to accept exactly
  the programs and to emit exactly their code. `Functions`, `Control`, `Snapshots`, `Patching` and `Backpatch` hold the
  lemmas about scopes, jumps and the rotation of `for` loops.
- **The virtual machine** (`vm.c`). `Machine` is its transition system, `Interpreter.Vm` the dispatch loop on its mutable
  fields. `Semantics` gives meaning to trees, with fuel; `Frames`, `Rounds` and `Simulation` relate the two, and
  `Correctness` and `Pipeline` state the results. `Operators` and `Phrases` say in terms of the primitive operations alone
  what each operator, assignment, condition and loop exit does, and how they are written. The operations on values (`Ops`) are arbitrary functions. The machine
  gets stuck, which stands for undefined behaviour, as soon as a function has more operands on the stack than it has
  reserved space for; the interpreter does not check this, and there the stack may by chance have room for more.
- **Names and stack space** (`close_scope()`): `Symbols`, `Scoping`, `Resolution`, `StackDepth`, `Reserve`, `DepthScan`,
  `StackSafety`, `Programs`, and `LoopFunctions` with the programs for which they go wrong.
- **Decimal numbers** (`number.c`, `ntp.c`): `Words` (arrays of words in base 10^L), `Numbers`, `Addition`, `Truncation`,
  `NumberDivision`, `Shifts`, `Multiplication`, `Values` (the real numbers they stand for), `Digits`, `Printing`,
  `Parsing`, `TextRoundTrip`, `Bases`, `BaseParsing`, `BaseRoundTrip`.
- **Number theory in calx itself** (`stdlib.calx`): `Powers`, `Roots`, `Primality`.
- **The hash table** (`xht.c`, `xht.h`): `HashTable`. **String literals**: `StringLiteral`. **Weak references**:
  `WeakRefs`.

Code that changes its state in place is modelled by classes and methods on arrays; each method is proved against a
function of the old state, and lemmas say what that function means. A word has base 10^L for one L ≥ 1 that is fixed as
`LOG`; no proof depends on which.

## Findings

- A function that is declared inside of a `for` with a post clause is compiled wrongly for some inputs: `for_stmt()`
  rotates the instructions (parse.c:1331) but not the ranges that were noted for the nested function (parse.c:355,
  parse.c:481). `Resolution.AllResolvedIff` is the exact condition under which no name stays symbolic;
  `LoopFunctions.NameIsLeft` gives the tokens of `for (;; x += v) { fun f() {} }`, which are accepted and leave a symbolic
  store in the finished code.
- The space reserved for operands suffers from the same cause: for `for (;; x = [v, v, v]) { fun f() {} }` all names are
  resolved, but two slots are reserved (`LoopFunctions.SpaceIsMissing`) and the fifth instruction puts a third operand on
  the stack (`LoopFunctions.SpaceIsExceeded`). What is reserved is the peak of the scan over the tree, without the
  places where nested functions are believed to be (`Reserve.ReservedIsPeak`), and `Programs.AllReserveIff` is the exact
  condition under which it is enough for the program and all functions in it. The results about
  running programs hold under this condition and the one for names.
- The same scan may fall below zero and wrap around; then the compiler refuses a program as too big that is not, as
  `for (;; x = [v, v, v]) { fun f() {} v; }` (`LoopFunctions.LegalIsRefused`). `Reserve.FitsIff` tells exactly when a
  function is accepted, and by `DepthScan.CleanFits` this does not happen without functions in such loops.
- The manual of calx gives `&` priority 14 and `^` priority 15; the compiler does it the other way round
  (parse.c:609-639). The model follows the compiler.
- `&&` and `||` are operators like any other: both operands are computed (vm.c:698-716).

## Model

| member | source | states |
|---|---|---|
| Emitter.Parser.Parse | parse.c:1434-1479 | started empty, the compiler succeeds iff the tokens are a program of the grammar; then the code is the one of that program's tree and nothing is left on any of its stacks |
| Emitter.Parser.TiRotateLeft | parse.c:1273-1279 | the part of the code is rotated left by the given number of places, everything else stays |
| Emitter.Parser.SegmentEnd | parse.c:1096-1101 | exactly the jumps noted above the sentinel lead to the given place, and the stack is as before the segment |
| Emitter.Parser.CloseScope | parse.c:382-487 | every name in the ranges of the scope is resolved, nothing outside of them changes, the stack depth is that of the linear scan, and the enclosing scope goes on behind the function |
| ExprGrammar.ExprCharacterized | parse.c:568-658 | precedence climbing reads e and stops before rest iff the tokens are the text of e followed by rest, e is parenthesised as its priorities demand, and rest cannot go on with an operator of that priority |
| ExprGrammar.TreeReadsBack | parse.c:839-1013 | any tree, printed with the parentheses that priorities and associativity require, is read back whole and compiles to the tree's own postfix code |
| ExprGrammar.ShortestText | parse.c:595-658 | that text is the same tree with the same code, and no accepted text of the tree has fewer pairs of parentheses |
| StmtGrammar.ProgramCharacterized | parse.c:1334-1479 | the parser accepts a program with the tree b iff the tokens are the text of b up to the end of the input, its expressions have the parentheses they need, assignments have targets, parameters are distinct, `break` and `continue` stand in loops of the same function, and all functions fit |
| StmtGrammar.ProgramReadsBack | parse.c:1334-1479 | every such tree is read back from its text |
| Operators.TwoOperators | parse.c:595-658 | for all operands and operators of `a o1 b o2 c`: o2 gets b iff it stands in a later group of the written-out list than o1 or both are `**`; otherwise o1 does |
| Operators.PrefixAndPostfix | parse.c:568-593 | a prefix operator binds closer than every binary one, an index closer than a prefix operator |
| Phrases.ForForm | parse.c:1281-1332 | the order of the three clauses of a `for`, token by token |
| Phrases.IfForm | parse.c:1103-1128 | `if`, `elif` and `else` with their conditions and blocks, token by token |
| Phrases.FunForm | parse.c:1154-1198 | a function with its parameters and body, token by token |
| Backpatch.ThreeReversals | parse.c:1263-1279 | the three reversals are a left rotation |
| Backpatch.FinishWhile | parse.c:1130-1152 | after patching, condition, body, `break` and `continue` are the code of the `while` loop with all displacements closed |
| Backpatch.FinishFor | parse.c:1281-1332 | after patching with corrected displacements and after the rotation, the block is condition, body, post clause and jump back, with `break` leading behind the loop and `continue` to the post clause |
| Resolution.LeftSymbolic | parse.c:359-487 | an instruction of a finished function names a variable iff it did so before and lies where the compiler believes a nested function to be |
| Resolution.ResolvedIff | parse.c:382-487 | a function has no name left iff no instruction that names a variable lies in such a place |
| Resolution.AllResolvedIff | parse.c:382-487 | the same for a program and all functions declared in it, at any depth |
| Resolution.BodyResolved | parse.c:359-372 | under that condition all names of the body are resolved against the function's own locals, exactly once |
| Resolution.LocalsHaveSlots | parse.c:303-327 | a name is local iff it is a parameter or the target of a `:=` anywhere in the function; locals have distinct slots below the number of locals, parameters those of their positions |
| Resolution.CleanIsSettled | parse.c:341-357 | programs without functions in loops with a post clause have no name left |
| Resolution.StoreLeftSymbolic | parse.c:1281-1332 | for a function as the only statement of such a loop, its store stays symbolic iff the post clause has at most as many instructions as the nested body |
| LoopFunctions.NameIsLeft | parse.c:1319-1331 | an accepted program whose finished code contains a symbolic store |
| LoopFunctions.SpaceIsMissing | parse.c:382-487 | an accepted program for which less space is reserved than its operands need |
| LoopFunctions.SpaceIsExceeded | vm.c:1202-1245 | its names are resolved, and running it reaches a third operand where two are reserved, whatever the primitive operations do |
| LoopFunctions.LegalIsRefused | parse.c:466-475 | a program of 15 instructions that the compiler refuses as too big, because its scan wraps around |
| Reserve.FitsIff | parse.c:466-475 | a function is accepted iff the scan over its tree, in unbounded integers, never falls below zero, and instructions and locals are within their limits |
| Reserve.ReservedIsPeak | parse.c:382-487 | what the scan of an accepted function reserves, computed in 64 bits, is the peak of that scan over the tree |
| Reserve.ReservesIff | parse.c:382-487 | an accepted function reserves enough for every operand depth of its tree iff none of them is above that peak |
| Programs.AllReserveIff | parse.c:382-487 | the same for an accepted program and all functions declared in it, at any depth |
| Programs.CleanIsRoomy | parse.c:382-487 | programs without functions in loops with a post clause have enough space |
| DepthScan.CleanFits | parse.c:466-475 | such programs are never refused because of their operands |
| Loading.ProgramLoaded | parse.c:496-551 | the code of a program is a memory image with exactly the functions of its text, each where its closure points |
| Correctness.CompilerCorrect | parse.c:1334-1384 | for every accepted program whose names are resolved and whose functions have enough space, all primitive operations, worlds and fuels: the machine, which gets stuck when it leaves the reserved space, reaches the result, error, heap, globals and output that the tree means, or is still running where the fuel does not suffice |
| Correctness.MachineStops | vm.c:1247-1577 | wherever that machine stops, it stops with what the program means; it never gets stuck and never leaves the reserved space |
| Correctness.MeaningIsUnique | parse.c:1334-1384 | more fuel does not change what a program means |
| Correctness.DivergenceKept | vm.c:1247-1577 | a program without a meaning for any fuel runs for ever, within the reserved space |
| Correctness.FunctionRuns | vm.c:1063-1090 | the same for any function of a memory that holds any number of programs whose functions have enough space |
| Operators.Arithmetic | vm.c:617-800 | each arithmetic operator is its own primitive operation of the left and the right operand in this order, with its result, its effect on the heap and its errors |
| Operators.Comparison | vm.c:514-548 | each comparison asks for the right combination of less, equal and greater |
| Operators.Logic | vm.c:698-716 | equality, negation and the logical AND and OR, which choose one of their operands; only nil and false are not true |
| Operators.Prefixes | vm.c:801-864 | `-` and `@` before an operand |
| Operators.LeftFirst | parse.c:595-658 | operands are computed from left to right, and an error of one is the error of the whole |
| Operators.Elements | vm.c:866-946 | container before index, and a field is the element with its name |
| Operators.Collected | parse.c:660-745 | list elements, dictionary entries and arguments keep their order |
| Operators.Called | vm.c:1202-1245 | a function gets its arguments in order and returns its value; a wrong number of arguments and a callee that is no function are errors |
| Phrases.ElementUpdated | vm.c:1498-1519 | in the machine `c[i] op= v` puts the result of the binary operator on the element and v, in this order, where the element was; it fails iff there is no such place or the operator fails |
| Phrases.ElementStored | vm.c:1457-1473 | in the machine `c[i] = v` puts v there |
| Phrases.UpdateMeans | vm.c:1498-1519 | the same for `b[i] op= e` in a program, with container, index and e computed in this order |
| Phrases.StoreMeans | vm.c:1457-1473 | the same for `b[i] = e` |
| Phrases.VariableUpdated | vm.c:1474-1497 | `x op= e` for local and global variables: e first, then the operator with the variable on the left |
| Phrases.VariableStored | vm.c:1447-1456 | `x = e`, `x := e` and the output of an expression |
| Phrases.Conditions | vm.c:1398-1405 | a condition holds unless it is nil or false, in `if` and `while` |
| Phrases.ConditionalJump | vm.c:1398-1405 | and in the conditional jump of the machine |
| Phrases.ContinueInFor | parse.c:1281-1332 | `continue` goes on with the post clause and then with the condition |
| Phrases.BreakProgram | parse.c:1364-1375 | the tokens of `while (v) { break; } return u;` are accepted and mean u |
| Phrases.ContinueProgram | parse.c:1364-1375 | the tokens of `while (v) { continue; } return u;` are accepted and never end if v is true |
| Pipeline.Run | parse.c:1434-1479 | compiling the tokens and running the code gives a syntax error iff they are no program, and otherwise, if names are resolved and functions have enough space, the result or runtime error that the tree means |
| Pipeline.ComesToAnEnd | vm.c:1247-1577 | a program that means something is finished after finitely many instructions |
| Interpreter.Vm.Dispatch | vm.c:1324-1567 | one round of the loop on the mutable stack, frames, globals and heap is one step of the transition system, which is stuck beyond the reserved space |
| Interpreter.Vm.Eval | vm.c:1247-1577 | the loop is the run of the transition system |
| StackSafety.StackDiscipline | vm.c:1202-1245 | in every state of every run of every compiled function the machine is not stuck, and the operand stack is as high as the tree says for that instruction and high enough for it |
| StackSafety.StackBound | vm.c:1202-1224 | if no depth in the tree of any function is above the peak of its scan, no state of any run has more operands than reserved |
| StackSafety.NoLimit | vm.c:1063-1090 | then every run in the reserved space is the run that a stack without limit allows |
| StackSafety.CleanReserves | parse.c:382-487 | without functions in loops with a post clause the space suffices, and not more is reserved than is needed |
| DepthScan.MaxStackIsLargest | parse.c:382-472 | then the linear scan finds the largest depth of any instruction |
| StackDepth.StatementBoundary | parse.c:1334-1384 | between two statements there are no operands |
| Roots.RootApprox | stdlib.calx:299-334 | the bisection starts at or above the root |
| Roots.NthRootNat | stdlib.calx:336-356 | Newton's iteration ends with x^n ≤ a < (x+1)^n, for all a ≥ 0, n ≥ 2 |
| Roots.RootUnique | stdlib.calx:336-356 | there is only one such x |
| Roots.NthRoot | stdlib.calx:358-381 | the root of any fraction, cut off behind Scale() digits, with the sign of an odd root; an error iff the root is even and the number negative |
| Primality.ModPow | stdlib.calx:113-131 | mod_pow gives the remainder of the power |
| Primality.Fermat | stdlib.calx:175-200 | Fermat's little theorem, on which the test rests |
| Primality.SquareRootsOfOne | stdlib.calx:175-200 | modulo a prime only 1 and -1 are square roots of 1 |
| Primality.ProbabPrimeRound | stdlib.calx:175-200 | with n - 1 = 2^r · d: a round accepts iff a^(n-1) is 1 modulo n and, whenever a^(2^(i+1) d) is 1, a^(2^i d) is 1 or -1, for all i < r; so it never rejects a prime |
| Primality.PrimesPass | stdlib.calx:175-200 | every prime is a strong probable prime to every base |
| HashTable.Xht.Get | xht.h:85-105 | lookup in the chain agrees with the map |
| HashTable.Xht.Put | xht.h:111-132 | an existing value is kept, a new key is entered, and the position returned is that of the key |
| HashTable.Xht.InsertNewUnchecked | xht.c:82-107 | a new key is added to the map, growing at a load of 3/4, and all chains stay linked |
| HashTable.Xht.Grow | xht.c:29-45 | doubling the buckets moves every item to the chain of its hash and keeps the map |
| HashTable.Xht.Remove | xht.c:109-154 | exactly the key is removed and its value returned, though the last item is moved into the gap |
| HashTable.Xht.BucketOf | xht.h:92 | the mask selects the remainder of the hash, as the number of buckets is always a power of two |
| HashTable.Xht.IndexedNext | xht.c:60-80 | the item after the given key in bucket order, or none if the key is the last or absent |
| HashTable.Xht.Keys | xht.c:47-80 | iteration from the first to the next key visits every key exactly once and ends |
| Addition.DoAddOrSub | number.c:647-712 | for all signs, scales, lengths and for shared or identical operands: the sum or difference at the larger scale, normalized, while other holders of the operands see no change |
| Values.SumIsExact | number.c:647-712 | that sum is the sum of the real numbers |
| NumberDivision.NumberDiv | number.c:859-879 | the quotient at the scale of the precision, with the words and digits behind it cut off, in a valid number |
| Values.QuotientIsExact | number.c:548-568 | that is the quotient of the real numbers, cut off behind p decimal digits towards zero |
| Truncation.PrecisionRoundTrip | ntp.c:25-46 | ntp_to_prec is the inverse of ntp_from_prec |
| Shifts.NumberScaleDown | number.c:1112-1139 | division by 10^n without loss, normalized at both ends |
| Shifts.NumberScaleUp | number.c:1141-1159 | multiplication by 10^n without loss |
| Shifts.ShiftIsExact | number.c:1112-1159 | the two numbers of a shift differ by the factor 10^n |
| Shifts.UpAndDown | number.c:1112-1159 | shifting up and down gives the same real number |
| Shifts.DownAndUp | number.c:1112-1159 | so does shifting down and up |
| Multiplication.NumberMul | number.c:748-765 | the product of all words at the sum of the scales, normalized |
| Multiplication.ProductIsExact | number.c:748-765 | that product is the product of the real numbers |
| Multiplication.NumberPowZu | number.c:782-813 | repeated squaring gives the power of the real number |
| Printing.NumberToString | number.c:340-386 | the buffer of number_tostring_size() suffices and receives the decimal text without superfluous zeros or negative zero |
| Printing.NumberWrite | number.c:396-453 | the streaming printer emits the same text |
| Parsing.NumberParse | number.c:186-270 | a literal is read as a fully normalized number that equals what its digits denote |
| TextRoundTrip.PrintAndParse | number.c:186-453 | reading what is printed gives the fully normalized number of equal value, without a sign for zero; both printers emit the same |
| TextRoundTrip.TextIsCanonical | number.c:323-386 | no superfluous zero at either end, a point only between digits, a sign iff the number is negative |
| Parsing.QuotesIgnored | number.c:92-112 | single quotes are left out wherever they stand, and nothing else is |
| TextRoundTrip.NormalUnique | number.c:537-546 | there is only one such number |
| Bases.NumberToStringBase | number.c:455-516 | the buffer suffices and receives the numeral of the integer part and the digits floor(abs(a) · b^i) mod b, zeros at the end cut off |
| Digits.DigitTable | number.c:114-122 | the digit characters, written in upper case and read in either case |
| Digits.NoOtherDigit | number.c:114-122 | nothing else is a digit |
| BaseParsing.EitherCase | number.c:114-155 | literals that differ only in the case of letters are both accepted or both refused, and denote the same |
| BaseParsing.NumberParseBaseValidate | number.c:124-155 | accepts exactly the literals of the base |
| BaseParsing.NumberParseBase | number.c:272-312 | an integer is read exactly, a fraction is cut off behind the digits of the precision |
| BaseRoundTrip.PrintAndParseBase | number.c:272-516 | what is written with n digits behind the point is accepted and read as a's magnitude cut off behind n base-b digits and then behind the precision; an integer is read back unchanged |
| StringLiteral.WriteStringEscaped | vm.c:319-363 | the printed text is the escaped text, byte by byte |
| StringLiteral.Lexer.String | lexer.c:206-226 | the lexer takes exactly the literal up to the first quote that is not escaped, or fails at a line end or the end |
| StringLiteral.AddStringConst | parse.c:768-837 | the constant is the value of the literal, and an error iff an escape is invalid |
| StringLiteral.HexEscape | parse.c:754-766 | a backslash, an x and two hexadecimal digits of either case are the byte of their value, with anything else an error |
| StringLiteral.LetterEscape | parse.c:768-803 | the other escapes, one by one; any other letter is an error, any other byte stands for itself |
| StringLiteral.WrittenByte | vm.c:319-341 | what is written for each byte |
| StringLiteral.LiteralEnds | lexer.c:206-226 | a literal ends at the first quote that no backslash precedes, and is an error at the end of a line or of the input |
| StringLiteral.RoundTrip | vm.c:319-363 | for every byte string and whatever follows, lexing and unescaping the printed text takes exactly that text and gives the string back |
| WeakRefs.WrefNew | wref.h:29-46 | a new reference is the first of the target's list, links mutually inverse |
| WeakRefs.WrefDestroy | wref.h:48-65 | the reference leaves the list; a dead target is neither read nor written |
| WeakRefs.Invalidate | wref.h:23-27 | all references of the target read as null |
| WeakRefs.World.Get | wref.h:23-65 | in every reachable state a reference reads as its target until that dies, and as null from then on |
| WeakRefs.World.New | wref.h:29-46 | creation adds one reference to the target and changes no other list |
| WeakRefs.World.Destroy | wref.h:48-65 | destruction in any order removes only that reference, before and after the death of the target |
| WeakRefs.World.Kill | wref.h:23-27 | the death of a target leaves all other targets and all lists as they are |

## Left out

- Emitter.Parser.Parse: scatter arguments (`f(*xs)`, parse.c:660-691) and gather parameters (parse.c:512-530) are not in the grammar, and the limits of 2^32 functions, constants, identifiers, arguments and elements are not checked; the limits on locals, stack space and function length are. The grammar asks what the scan computes for the stack space; Reserve.FitsIff says the same of the tree.
- ExprGrammar.ExprCharacterized: scatter call arguments are not among the accepted texts.
- ExprGrammar.TreeReadsBack: scatter call arguments are not among the trees.
- Interpreter.Vm.Dispatch: calls of scatter and gather functions (vm.c:1147-1200) are not part of the machine; a native function changes the world but does not call back.
- StackSafety.StackBound: the depths of all instructions count, reachable or not; whether an instruction is ever reached is not decided.
- NumberDivision.NumberDiv: the division of word arrays (libdeci, fancy.c) is taken as quotient and remainder of integers; libdeci is not part of this model.
- Multiplication.NumberMul: the product of word arrays is computed by the schoolbook method in place of the faster ones of libdeci.
- Roots.RootApprox: the number of words that `floor(nsteps / 3.32)` drops is any positive number; the result does not depend on it.
- Primality.ProbabPrimeRound: the choice of random bases and the small cases of `probab_prime()` around it.
- HashTable.Xht.InsertNewUnchecked: capacity of the item array and the panic beyond 2^32 items; the hash is any function of the key.
- BaseParsing.NumberParseBase: the literal must be one that the validation accepts, as callers ensure.
- Line numbers, origins and error messages of the compiler, and the tables of constants and names: instructions carry them directly.
- Tokens other than strings: how the lexer finds numbers, names, operators and the ends of statements.
- What the primitive operations on values do (kind checks, comparison, lists, dictionaries): they are arbitrary functions of their operands and the heap.
- Reference counts of values other than numbers, freeing memory, failing allocation, traceback.
- number_compare, number_floor, number_ceil, number_round, number_frac, number_idiv, number_imod and the operations on bits.
- jacobi, kronecker, gcd, random numbers and other functions of stdlib.calx; main.c, prompt.c, text_manip.c, dasm.c.
