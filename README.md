# AcornRunner interpreter core in Dafny

AcornRunner runs GameMaker games. This project models the part that executes
bytecode. That part is a stack machine over the tagged value `GMValue`, which
has eight variants: Double, Float, Int16, Int32, Int64, Boolean, String and
Variable. The model covers these pieces:

- the operand stack `GMStack`, with push, pop and peek;
- the single-type handlers `neg`, `not`, `dup`, `ret` and `popz`;
- the double-type handlers `conv`, `mul`, `div`, `rem`, `mod_`, `add`, `sub`,
  `and`, `or`, `xor`, `shl` and `shr`, with their checked helpers;
- `cmp`, `compare`, the branch tests `bt` and `bf`, and the variable write
  `pop`, which stores into the globals, instances and locals maps;
- the dispatcher `App::run_instruction` / `App::run_code`;
- the earlier draft of the same engine in `src/gm_code.rs`.

Each stateful piece comes in two forms:

- a pure "step" function on the stack contents, a `seq<GMValue>`, which
  returns the new contents and the handler's result;
- a method on the mutable `GMStack` class, whose postcondition equals the
  step function applied to the old contents.

The properties are proved about the step functions.

Layout, one module per source file or component:

- `values.dfy`: `Floats` (IEEE bit patterns) and `Gm` (values, data types,
  opcodes, instance types, error kinds, `Result`).
- `int_ops.dfy`: `IntOps`, Rust's fixed-width integer operations.
- `stack.dfy`: `Stack`.
- `single_type.dfy`: `SingleTypeOps`.
- `double_type.dfy`: `DoubleTypeOps`.
- `other.dfy`: `OtherOps`.
- `run.dfy`: `Run`.
- `gm_code.dfy`: `GmCode`.

Modelling choices:

- **Integers** are the subset types `int16`, `int32` and `int64`.
  - `+`, `-`, `*` and unary `-` wrap around. This is what a release build
    computes; a debug build panics instead.
  - Narrowing `as` casts keep the low bits (`IntOps.Wrap`).
  - Rust's `/` and `%` truncate toward zero (`IntOps.TDiv`, `IntOps.TRem`).
- **Errors** are the `Gm.Error` kinds, not message strings.
  - `checked_div` and `checked_rem` fail both for a zero divisor and for
    MIN / -1. The source reports both with its "Division by zero" message, so
    both are `DivisionByZero`.
- **Operand order**: every binary handler and `cmp` treat the first value
  popped (the top of the stack) as the left operand, so `sub` computes top
  minus second.
- **Floats** are bit patterns (`Floats.F64`, `Floats.F32`).
  - Exact on the bits: negation, IEEE equality and ordering (used by `cmp`),
    and the `== 1.0` test of `conv`.
  - Arithmetic and the casts between floats and integers come from a
    `FloatSemantics` parameter.
- **The draft's stack and handlers**: the draft's `GMStack` and its `neg`,
  `not`, `dup`, `ret`, `popz` and `conv` have the same text as the versions
  in `src/code`. They are therefore the same Dafny members, which makes the
  two equivalent by construction.
- **`Stack` and `Variables`**: `src/code/instructions/other.rs` imports both
  from `src/code/run.rs`, which defines neither.
  - `Stack` is modelled as `GMStack`.
  - `Variables` is modelled as a class holding the three maps that
    `src/main.rs` builds.

## Model

| member | source | states |
|---|---|---|
| `Floats.Negate64` | src/code/instructions/single_type.rs:7 | Double negation flips only the sign bit, NaN included |
| `Floats.Negate32` | src/code/instructions/single_type.rs:8 | Float negation flips only the sign bit |
| `Floats.EqualOne64` | src/code/instructions/double_type.rs:55 | IEEE `val == 1.0` holds exactly for the bit pattern of 1.0 |
| `IntOps.Wrap` | src/code/instructions/double_type.rs:31-32 | the result is in the width's range and congruent to the input modulo 2^bits (release-mode wrap, narrowing `as`) |
| `IntOps.WrappingNegInvolutive` | src/code/instructions/single_type.rs:9-11 | wrapped negation twice is the identity; it is exact except at MIN, which negates to MIN |
| `IntOps.TDiv` | src/code/instructions/double_type.rs:243-245 | the quotient truncates toward zero: \|q\|·\|b\| ≤ \|a\| < (\|q\|+1)·\|b\|, negative exactly when the operand signs differ |
| `IntOps.TRem` | src/code/instructions/double_type.rs:247-249 | a = q·b + r, \|r\| < \|b\|, and r takes the sign of the dividend |
| `IntOps.CheckedDiv` | src/code/instructions/double_type.rs:243-245 | None exactly for a zero divisor or MIN / -1; otherwise the truncating quotient, in range |
| `IntOps.CheckedRem` | src/code/instructions/double_type.rs:247-249 | None exactly where `checked_div` is None; otherwise the truncating remainder |
| `IntOps.AsU32` | src/code/instructions/double_type.rs:207-215 | `as u32` keeps the residue modulo 2^32 |
| `IntOps.CheckedShl` | src/code/instructions/double_type.rs:251-253 | None exactly when the amount is not below the bit width; otherwise a·2^n wrapped to the width |
| `IntOps.CheckedShr` | src/code/instructions/double_type.rs:255-257 | None exactly when the amount is not below the bit width; otherwise the floor of a / 2^n |
| `IntOps.EncodingRoundTrip` | src/code/instructions/double_type.rs:164-166 | the two's-complement encoding of a width (the residue modulo 2^bits) and its decoding (`Wrap`) are inverse |
| `IntOps.Bitwise` | src/code/instructions/double_type.rs:164-166 | the result is in the width's range, and its two's-complement encoding is the operands' encodings combined bit by bit |
| `IntOps.BitwiseNatBits` | src/code/instructions/double_type.rs:164-166 | each bit of the bit-by-bit combination is the operator applied to that bit of each operand |
| `IntOps.BitwiseBits` | src/code/instructions/double_type.rs:164-194 | for each bit of the width, bit i of `a & b`, `a \| b`, `a ^ b` is the operator on bit i of a and of b |
| `IntOps.BitwiseNatCommutes` | src/code/instructions/double_type.rs:164-194 | the bit-by-bit combination does not depend on the operand order |
| `IntOps.BitwiseNatLaws` | src/code/instructions/double_type.rs:164-194 | on the low k bits: x & x = x \| x = x, x ^ x = 0, x & 1…1 = x, x \| 0 = x |
| `IntOps.BitwiseLaws` | src/code/instructions/double_type.rs:164-194 | on integers of one width `&`, `\|`, `^` commute, `a & a = a \| a = a`, `a ^ a = 0`, `a & -1 = a`, `a \| 0 = a` |
| `Stack.PopStep` | src/code/run.rs:17-20 | pop fails exactly on an empty stack and leaves it unchanged; otherwise the remaining stack plus the popped value is the old stack |
| `Stack.PeekResult` | src/code/run.rs:21-25 | peek fails exactly on an empty stack; otherwise it returns what pop would return |
| `Stack.GMStack.constructor` | src/code/run.rs:11-13 | a new stack is empty |
| `Stack.GMStack.Push` | src/code/run.rs:14-16 | appends the value |
| `Stack.GMStack.Pop` | src/code/run.rs:17-20 | new contents and result are `PopStep` of the old contents |
| `Stack.GMStack.Peek` | src/code/run.rs:21-25 | returns `PeekResult` of the contents and leaves the stack unchanged |
| `Stack.PopAfterPush` | src/code/run.rs:14-20 | after pushing v, the first of n + 1 pops gives v and the other n pops act on the old stack |
| `Stack.PushesThenPops` | src/code/run.rs:14-20 | pushing vs and popping \|vs\|+k values gives vs reversed followed by what the k extra pops give |
| `Stack.PushesThenPopsReverse` | src/code/run.rs:14-20 | n pushes then n pops give the values in reverse order and restore the stack |
| `Stack.ExtraPopFails` | src/code/run.rs:17-20 | one pop more than was pushed onto an empty stack fails with StackUnderflow |
| `Stack.PushThenPop` | src/code/run.rs:14-20 | push then pop returns the pushed value and the old stack |
| `SingleTypeOps.NegValue` | src/code/instructions/single_type.rs:4-18 | succeeds exactly on numeric values and keeps the variant; Variable is VariableOnStack, Boolean and String are CannotNegate |
| `SingleTypeOps.NegInteger` | src/code/instructions/single_type.rs:9-11 | integer negation is exact except at MIN, which stays MIN |
| `SingleTypeOps.NegInvolutive` | src/code/instructions/single_type.rs:4-18 | negating twice gives back every numeric value |
| `SingleTypeOps.NotValue` | src/code/instructions/single_type.rs:19-27 | succeeds exactly on Booleans and flips them; anything else is CannotNot |
| `SingleTypeOps.NegStep` | src/code/instructions/single_type.rs:4-18 | success exactly on a numeric top; depth and the rest unchanged, variant kept; on error the operand is gone |
| `SingleTypeOps.NotStep` | src/code/instructions/single_type.rs:19-27 | success exactly on a Boolean top, which is flipped; the rest unchanged |
| `SingleTypeOps.DupStep` | src/code/instructions/single_type.rs:28-32 | on a non-empty stack depth grows by one, the old stack is a prefix and the top two are equal; empty stack is StackUnderflow, unchanged |
| `SingleTypeOps.Neg` | src/code/instructions/single_type.rs:4-18 | the stack method agrees with `NegStep` |
| `SingleTypeOps.Not` | src/code/instructions/single_type.rs:19-27 | the stack method agrees with `NotStep` |
| `SingleTypeOps.Dup` | src/code/instructions/single_type.rs:28-32 | the stack method agrees with `DupStep` |
| `SingleTypeOps.Ret` | src/code/instructions/single_type.rs:33-36 | returns the former top and removes it; StackUnderflow when empty |
| `SingleTypeOps.Popz` | src/code/instructions/single_type.rs:37-40 | drops the top and leaves the rest; StackUnderflow when empty |
| `SingleTypeOps.DepthBookkeeping` | src/gm_code.rs:81-117 | dup adds one to the depth, ret and popz remove one, neg and not keep it on success |
| `DoubleTypeOps.ConvValue` | src/code/instructions/double_type.rs:6-67 | succeeds exactly for a numeric or Boolean source and one of the six targets; the result has the target variant; String/Variable source and other targets give their errors |
| `DoubleTypeOps.ConvToBoolean` | src/code/instructions/double_type.rs:54-62 | an integer becomes true exactly when it equals 1 (Int32(2) gives false); Boolean to Boolean is the identity |
| `DoubleTypeOps.ConvDoubleToBoolean` | src/code/instructions/double_type.rs:55 | a Double becomes true exactly when it is 1.0 |
| `DoubleTypeOps.ConvBetweenIntegers` | src/code/instructions/double_type.rs:27-51 | conversion to an integer width gives the value wrapped to it: widening preserves it, narrowing keeps the low bits, Boolean gives 0/1 |
| `DoubleTypeOps.ConvInt64ToDouble` | src/code/instructions/double_type.rs:14 | Int64 to Double equals converting the value cast to i32 |
| `DoubleTypeOps.ConvWidenNarrowRoundTrip` | src/code/instructions/double_type.rs:30-50 | widening an integer to Int64 and converting back restores it |
| `DoubleTypeOps.ConvStep` | src/code/instructions/double_type.rs:6-67 | on success depth and the rest are unchanged and the top has the target variant; on error the operand is gone |
| `DoubleTypeOps.Conv` | src/code/instructions/double_type.rs:6-67 | the stack method agrees with `ConvStep` |
| `DoubleTypeOps.IntArith` | src/code/instructions/double_type.rs:73-154 | results stay in the width; `*`, `+`, `-` always succeed with the result congruent to the exact product, sum or difference modulo 2^bits, and equal to it when that is in range; div gives the truncating quotient and rem/mod the truncating remainder, failing exactly for a zero divisor or MIN / -1 |
| `DoubleTypeOps.ArithValues` | src/code/instructions/double_type.rs:69-159 | mul/div/rem/mod/add/sub succeed only on two operands of one numeric variant and keep it; mismatch is TypeMismatch; any other failure is integer DivisionByZero on a zero divisor or MIN / -1 |
| `DoubleTypeOps.IntegerDivision` | src/code/instructions/double_type.rs:91-93 | a zero divisor fails div/rem/mod at every width; otherwise a = q·b + r with the quotient truncated and the remainder signed like the dividend |
| `DoubleTypeOps.RemModAgree` | src/code/instructions/double_type.rs:107-124 | on integers `rem` and `mod_` give the same value and fail on the same inputs |
| `DoubleTypeOps.BitwiseValues` | src/code/instructions/double_type.rs:161-201 | and/or/xor succeed exactly on same-width integers or two Booleans, keep the variant, and are the logical operators on Booleans |
| `DoubleTypeOps.ShiftValues` | src/code/instructions/double_type.rs:203-241 | on integers they fail exactly when the amount `as u32` reaches the left operand's width; the result keeps the left variant; two Booleans give XOR; anything else is TypeMismatch |
| `DoubleTypeOps.NegativeShiftAmount` | src/code/instructions/double_type.rs:207-208 | a negative Int16/Int32 amount always fails |
| `DoubleTypeOps.Int64AmountLowBits` | src/code/instructions/double_type.rs:209 | a 64-bit amount keeps its low 32 bits: -2^32 shifts by 0 |
| `DoubleTypeOps.ShiftPastWidth` | src/code/instructions/double_type.rs:207 | bits shifted out are lost without error (0x4000 << 2 is 0 in Int16); shifting Int16 by 16 fails |
| `DoubleTypeOps.BinaryStep` | src/code/instructions/double_type.rs:69-241 | with fewer than two values both pops fail to an empty stack; on success depth drops by one, the rest unchanged and arithmetic keeps the operands' variant; on error both operands are gone |
| `DoubleTypeOps.FirstPoppedIsLeft` | src/code/instructions/double_type.rs:146-149 | the top of the stack is the left operand |
| `DoubleTypeOps.SubIsTopMinusSecondWrapped` | src/code/instructions/double_type.rs:146-159 | on two integers of one width, `sub` replaces them with top minus second wrapped to the width |
| `DoubleTypeOps.SubIsTopMinusSecond` | src/code/instructions/double_type.rs:146-159 | `sub` with 10 on top of 3 pushes 7 |
| `DoubleTypeOps.Binary` | src/code/instructions/double_type.rs:69-241 | the stack method agrees with `BinaryStep` |
| `OtherOps.CompareValues` | src/code/instructions/other.rs:8-16 | succeeds exactly on two values of one numeric or Boolean variant; otherwise Incomparable |
| `OtherOps.TotalOrderComparisons` | src/code/instructions/other.rs:22-31 | on integers and Booleans NEQ is not EQ, GTE is not LT, GT is not LTE, LT swaps to GT; false < true |
| `OtherOps.FloatComparisons` | src/code/instructions/other.rs:22-31 | on floats NEQ is not EQ and LT swaps to GT, but a NaN makes LT, GTE and EQ all false |
| `OtherOps.CmpStep` | src/code/instructions/other.rs:4-20 | on success the two operands are replaced by Boolean(top REL second); on mismatch Incomparable with both gone |
| `OtherOps.CmpOperandOrder` | src/code/instructions/other.rs:5-6 | with 2 on top of 1, `cmp LT` pushes false and `cmp GT` pushes true |
| `OtherOps.Cmp` | src/code/instructions/other.rs:4-20 | the stack method agrees with `CmpStep` |
| `OtherOps.BranchStep` | src/code/instructions/other.rs:36-51 | the Boolean is popped; `bt` answers it and `bf` its negation; a non-Boolean is NotABoolean |
| `OtherOps.Bt` | src/code/instructions/other.rs:36-42 | the stack method agrees with `BranchStep` for `bt` |
| `OtherOps.Bf` | src/code/instructions/other.rs:45-51 | the stack method agrees with `BranchStep` for `bf` |
| `OtherOps.Assign` | src/code/instructions/other.rs:66-75 | a map insert: the slot reads back the value and every other slot is unchanged |
| `OtherOps.PopVariableStep` | src/code/instructions/other.rs:54-81 | the value is popped first; Instance(Some(obj)) writes (var, obj), Instance(None) writes (var, object_index), Global writes var, Local writes (var, code_index); other instance types leave the store and report InvalidInstanceType |
| `OtherOps.PopGlobal` | src/code/instructions/other.rs:62-73 | a global pop sets `globals[var]` to the former top and leaves instances and locals unchanged |
| `OtherOps.Variables.constructor` | src/main.rs:65-69 | the three maps start empty |
| `OtherOps.PopVariable` | src/code/instructions/other.rs:54-81 | the stack and maps after the method are `PopVariableStep` of the old ones |
| `Run.Continue` | src/code/run.rs:43-66 | a handler that returns nothing leaves the stack as the handler did, yields None on success and passes its error on unchanged |
| `Run.Exec` | src/code/run.rs:39-80 | only a `ret` on a non-empty stack returns a value (the former top); unlisted opcodes fail with the stack unchanged; the other six instruction kinds do nothing |
| `Run.RunCode` | src/code/run.rs:30-37 | the empty code returns None; a returned value comes from a `ret` in the code, so code without `ret` never returns one |
| `Run.RunAppend` | src/code/run.rs:30-37 | running a + b runs a, then b from a's final stack unless a stopped |
| `Run.RetEndsRun` | src/code/run.rs:32-33 | the first `ret` reached ends the run with the value it pops; later instructions do not run |
| `Run.ExitDoesNotStop` | src/code/run.rs:47 | `exit` returns None, so the loop goes on as if it were absent |
| `Run.NoOpInstructions` | src/code/run.rs:71-76 | Comparison, Goto, Pop, Push, Call and Break leave the run as if they were absent |
| `Run.ConvUsesType2` | src/code/run.rs:55 | `conv` converts to the instruction's second data type |
| `Run.SubThenRet` | src/code/run.rs:30-37 | `sub` then `ret` on [3, 10] returns 7 and the following `neg` does not run |
| `Run.App.constructor` | src/main.rs:64-69 | a new interpreter has an empty stack and empty global, instance and local maps |
| `Run.App.RunInstruction` | src/code/run.rs:39-80 | the stack method agrees with `Exec` |
| `Run.App.Run` | src/code/run.rs:30-37 | the loop agrees with `RunCode` |
| `GmCode.DraftAppend` | src/gm_code.rs:28-33 | the draft runs a + b as a, then b, unless a failed |
| `GmCode.DraftRunsThroughRet` | src/gm_code.rs:28-33 | in the draft `ret` pops and the run continues with the next instruction |
| `GmCode.DraftAgreesWithoutRet` | src/gm_code.rs:28-33 | without `ret`, the draft and the dispatcher of src/code/run.rs reach the same stack and fail alike |
| `GmCode.DraftIgnoresReturnedValues` | src/gm_code.rs:30 | two `ret`s on [1, 2]: the dispatcher returns 2 and keeps [1]; the draft pops both and returns nothing |
| `GmCode.DraftRun` | src/gm_code.rs:28-33 | the draft's loop agrees with `DraftRunCode` |

## Left out

- Floating-point arithmetic (`*`, `/`, `rem_euclid`, `%`, `+`, `-` on f64 and f32) is not modelled; it comes from a `FloatSemantics` parameter.
- The f32↔f64 conversions, int→float rounding and the saturating float→int `as` casts are not modelled either; they also come from `FloatSemantics`. So nothing is proved about the values that conversions from or to floats produce, only their variant.
- Float `rem` and `mod_` are distinguished only by which operator of the parameter they use, `rem_euclid` or `%`.
- Debug-build overflow panics of `+`, `-`, `*` and unary `-` are left out; the model computes the release-build wrap-around.
- Jump offsets, Push of literals and variables, Call, Break, local clearing, arity checks and the environment opcodes are not part of this model. The dispatcher leaves these instruction kinds as empty arms, and the model does the same.
- The draft's double-type arms (src/gm_code.rs:51-62) are left out because they are unfinished. `GmCode.DraftRunCode` requires code without double-type instructions.
- Exact error strings are replaced by error kinds. MIN / -1 reports `DivisionByZero`, the same kind as a zero divisor, because the source uses the same message for both.
- src/main.rs and src/main2.rs are not part of this model: data-file loading, window, event loop and rendering.
- Indices (`usize`) are unbounded naturals.
- `App` holds only the stack and the variable store. The dispatcher never touches the variables.
