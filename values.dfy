/** IEEE-754 payloads of the Double and Float value variants.

    A payload is its bit pattern. Sign negation, equality and ordering are
    defined exactly on the bits; arithmetic and the casts between floats and
    integers are supplied by a `FloatSemantics` record that the operations
    take as a parameter. */
module Floats {

  datatype F64 = F64(bits: bv64)
  datatype F32 = F32(bits: bv32)

  const SIGN64: bv64 := 0x8000_0000_0000_0000
  const SIGN32: bv32 := 0x8000_0000
  /** The encoding of 1.0. */
  const ONE64: F64 := F64(0x3FF0_0000_0000_0000)
  const ONE32: F32 := F32(0x3F80_0000)

  /** Unary minus: flips the sign bit, NaN included. */
  function Negate64(x: F64): (r: F64)
    ensures r.bits & !SIGN64 == x.bits & !SIGN64
    ensures r.bits & SIGN64 != x.bits & SIGN64
  {
    F64(x.bits ^ SIGN64)
  }

  function Negate32(x: F32): (r: F32)
    ensures r.bits & !SIGN32 == x.bits & !SIGN32
    ensures r.bits & SIGN32 != x.bits & SIGN32
  {
    F32(x.bits ^ SIGN32)
  }

  predicate IsNaN64(x: F64) {
    x.bits & 0x7FF0_0000_0000_0000 == 0x7FF0_0000_0000_0000 && x.bits & 0x000F_FFFF_FFFF_FFFF != 0
  }

  predicate IsNaN32(x: F32) {
    x.bits & 0x7F80_0000 == 0x7F80_0000 && x.bits & 0x007F_FFFF != 0
  }

  /** For non-NaN values, IEEE order is the order of the sign-magnitude
      reading of the bits (both zeros read as 0). */
  function OrderKey64(x: F64): int {
    var magnitude := (x.bits & !SIGN64) as int;
    if x.bits & SIGN64 == 0 then magnitude else -magnitude
  }

  function OrderKey32(x: F32): int {
    var magnitude := (x.bits & !SIGN32) as int;
    if x.bits & SIGN32 == 0 then magnitude else -magnitude
  }

  /** IEEE `<` and `==`: false whenever either side is NaN. */
  predicate Less64(a: F64, b: F64) { !IsNaN64(a) && !IsNaN64(b) && OrderKey64(a) < OrderKey64(b) }
  predicate Equal64(a: F64, b: F64) { !IsNaN64(a) && !IsNaN64(b) && OrderKey64(a) == OrderKey64(b) }
  predicate Less32(a: F32, b: F32) { !IsNaN32(a) && !IsNaN32(b) && OrderKey32(a) < OrderKey32(b) }
  predicate Equal32(a: F32, b: F32) { !IsNaN32(a) && !IsNaN32(b) && OrderKey32(a) == OrderKey32(b) }

  /** IEEE equality with 1.0 holds only for the encoding of 1.0 itself. */
  lemma EqualOne64(x: F64)
    ensures Equal64(x, ONE64) <==> x == ONE64
  {
    OneIsNumber64();
    if Equal64(x, ONE64) {
      PositiveKey64(x, 0x3FF0_0000_0000_0000);
      BitsFromInt64(x.bits & !SIGN64, 0x3FF0_0000_0000_0000);
      Reassemble64(x.bits, 0x3FF0_0000_0000_0000);
    }
  }

  lemma OneIsNumber64()
    ensures !IsNaN64(ONE64) && OrderKey64(ONE64) == 0x3FF0_0000_0000_0000
  {
  }

  lemma PositiveKey64(x: F64, c: bv64)
    requires c as int > 0 && OrderKey64(x) == c as int
    ensures x.bits & SIGN64 == 0 && (x.bits & !SIGN64) as int == c as int
  {
  }

  lemma BitsFromInt64(b: bv64, c: bv64)
    requires b as int == c as int
    ensures b == c
  {
    assert (b as int) as bv64 == b;
    assert (c as int) as bv64 == c;
  }

  lemma Reassemble64(b: bv64, m: bv64)
    requires b & SIGN64 == 0 && b & !SIGN64 == m
    ensures b == m
  {
  }

  /** The float operators the arithmetic handlers use: `*`, `/`, `rem_euclid`, `%`, `+`, `-`. */
  datatype FloatOp = FMul | FDiv | FRemEuclid | FRem | FAdd | FSub

  type int16 = x: int | -0x8000 <= x < 0x8000
  type int32 = x: int | -0x8000_0000 <= x < 0x8000_0000
  type int64 = x: int | -0x8000_0000_0000_0000 <= x < 0x8000_0000_0000_0000

  /** Floating-point behaviour that is not modelled: the arithmetic
      operators, the widening and narrowing between f32 and f64, integer to
      float conversion (exact or rounding), and the saturating float to
      integer `as` casts. */
  datatype FloatSemantics = FloatSemantics(
    arith64: (FloatOp, F64, F64) -> F64,
    arith32: (FloatOp, F32, F32) -> F32,
    widen: F32 -> F64,
    narrow: F64 -> F32,
    intTo64: int -> F64,
    intTo32: int -> F32,
    to16From64: F64 -> int16,
    to32From64: F64 -> int32,
    to64From64: F64 -> int64,
    to16From32: F32 -> int16,
    to32From32: F32 -> int32,
    to64From32: F32 -> int64
  )
}

/** The tagged runtime value, the names of data types, opcodes, comparison
    kinds and instance types, and the error kinds of the interpreter. */
module Gm {
  import opened Floats

  /** The three signed integer widths. */
  datatype Width = W16 | W32 | W64

  function Bits(w: Width): nat {
    match w
    case W16 => 16
    case W32 => 32
    case W64 => 64
  }

  /** The magnitude of the width's minimum, 2^(Bits(w) - 1). */
  function Half(w: Width): int {
    match w
    case W16 => 0x8000
    case W32 => 0x8000_0000
    case W64 => 0x8000_0000_0000_0000
  }

  predicate InRange(w: Width, x: int) {
    -Half(w) <= x < Half(w)
  }

  datatype VariableRef = VariableRef(index: nat)

  datatype GMValue =
    | Double(d: F64)
    | Float(f: F32)
    | Int16(i16: int16)
    | Int32(i32: int32)
    | Int64(i64: int64)
    | Boolean(b: bool)
    | String(str: string)
    | Variable(variable: VariableRef)

  /** Data type tags an instruction carries. */
  datatype DataType = TDouble | TFloat | TInt32 | TInt64 | TBoolean | TVariable | TString | TInt16

  function TypeOf(v: GMValue): DataType {
    match v
    case Double(_) => TDouble
    case Float(_) => TFloat
    case Int16(_) => TInt16
    case Int32(_) => TInt32
    case Int64(_) => TInt64
    case Boolean(_) => TBoolean
    case String(_) => TString
    case Variable(_) => TVariable
  }

  /** `true` as 1 and `false` as 0, as Rust's `bool as` integer casts give. */
  function BoolToInt(b: bool): int {
    if b then 1 else 0
  }

  predicate IsInteger(v: GMValue) {
    v.Int16? || v.Int32? || v.Int64?
  }

  predicate IsNumeric(v: GMValue) {
    v.Double? || v.Float? || IsInteger(v)
  }

  function WidthOf(v: GMValue): Width
    requires IsInteger(v)
  {
    match v
    case Int16(_) => W16
    case Int32(_) => W32
    case Int64(_) => W64
  }

  function IntValue(v: GMValue): (x: int)
    requires IsInteger(v)
    ensures InRange(WidthOf(v), x)
  {
    match v
    case Int16(x) => x
    case Int32(x) => x
    case Int64(x) => x
  }

  /** The integer value of width `w` holding `x`. */
  function MakeInt(w: Width, x: int): (v: GMValue)
    requires InRange(w, x)
    ensures IsInteger(v) && WidthOf(v) == w && IntValue(v) == x
  {
    match w
    case W16 => Int16(x)
    case W32 => Int32(x)
    case W64 => Int64(x)
  }

  datatype Opcode =
    | Conv | Mul | Div | Rem | Mod | Add | Sub | And | Or | Xor | Neg | Not | Shl | Shr
    | Cmp | Dup | Ret | Exit | Popz | B | Bt | Bf | PushEnv | PopEnv
    | PopOp | PushOp | PushLoc | PushGlb | PushBltn | PushI | CallOp | CallV | BreakOp

  datatype ComparisonType = LT | LTE | EQ | NEQ | GTE | GT

  datatype Option<T> = None | Some(value: T)

  datatype InstanceType =
    | Undefined | Instance(obj: Option<nat>) | Other | All | NoOne | Global | Builtin | Local
    | StackTop | Argument | Static

  /** The error kinds; the source reports each as a message string. */
  datatype Error =
    | StackUnderflow
    | CannotNegate(value: GMValue)
    | VariableOnStack
    | CannotNot(value: GMValue)
    | InvalidConversionSource(value: GMValue, target: DataType)
    | InvalidConversionTarget(target: DataType)
    | TypeMismatch(opcode: Opcode, lhs: GMValue, rhs: GMValue)
    | DivisionByZero(opcode: Opcode, lhs: GMValue, rhs: GMValue)
    | ShiftOverflow(opcode: Opcode, lhs: GMValue, rhs: GMValue)
    | Incomparable(lhs: GMValue, rhs: GMValue)
    | NotABoolean(value: GMValue)
    | InvalidInstanceType(instanceType: InstanceType, value: GMValue)
    | InvalidSingleTypeOpcode(opcode: Opcode)
    | InvalidDoubleTypeOpcode(opcode: Opcode)

  datatype Result<T> = Ok(value: T) | Err(error: Error) {
    predicate IsFailure() { Err? }
    function PropagateFailure<U>(): Result<U>
      requires Err?
    {
      Err(error)
    }
    function Extract(): T
      requires Ok?
    {
      value
    }
  }

  /** The stack contents after an operation, with what the operation returned. */
  datatype Step<T> = Step(items: seq<GMValue>, result: Result<T>)
}
