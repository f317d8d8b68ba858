/** The double-type instruction handlers of src/code/instructions/double_type.rs:
    `conv` and the binary operators `mul`, `div`, `rem`, `mod_`, `add`, `sub`,
    `and`, `or`, `xor`, `shl` and `shr`. Every binary handler pops the left
    operand first (the top of the stack), then the right operand, and pushes
    one result; the value mapping of each is a pure function here. */
module DoubleTypeOps {
  import opened Floats
  import opened Gm
  import opened IntOps
  import opened Stack

  /** The six data types `conv` can produce. */
  predicate IsConvTarget(t: DataType) {
    t != TVariable && t != TString
  }

  /** The value `conv` pushes in place of `v` for the instruction's second
      data type `target`. Integer sources keep their low bits when narrowed;
      Int64 goes to Double through an i32 cast; Boolean targets test for
      equality with 1. */
  function ConvValue(v: GMValue, target: DataType, fp: FloatSemantics): (r: Result<GMValue>)
    ensures r.Ok? <==> IsConvTarget(target) && (IsNumeric(v) || v.Boolean?)
    ensures r.Ok? ==> TypeOf(r.value) == target
    ensures !IsConvTarget(target) ==> r == Err(InvalidConversionTarget(target))
    ensures IsConvTarget(target) && (v.String? || v.Variable?) ==> r == Err(InvalidConversionSource(v, target))
  {
    match target
    case TDouble => (
      match v
      case Double(x) => Ok(Double(x))
      case Float(x) => Ok(Double(fp.widen(x)))
      case Int16(x) => Ok(Double(fp.intTo64(x)))
      case Int32(x) => Ok(Double(fp.intTo64(x)))
      case Int64(x) => Ok(Double(fp.intTo64(Wrap(W32, x))))
      case Boolean(x) => Ok(Double(fp.intTo64(BoolToInt(x))))
      case _ => Err(InvalidConversionSource(v, target)))
    case TFloat => (
      match v
      case Double(x) => Ok(Float(fp.narrow(x)))
      case Float(x) => Ok(Float(x))
      case Int16(x) => Ok(Float(fp.intTo32(x)))
      case Int32(x) => Ok(Float(fp.intTo32(x)))
      case Int64(x) => Ok(Float(fp.intTo32(x)))
      case Boolean(x) => Ok(Float(fp.intTo32(BoolToInt(x))))
      case _ => Err(InvalidConversionSource(v, target)))
    case TInt16 => (
      match v
      case Double(x) => Ok(Int16(fp.to16From64(x)))
      case Float(x) => Ok(Int16(fp.to16From32(x)))
      case Int16(x) => Ok(Int16(x))
      case Int32(x) => Ok(Int16(Wrap(W16, x)))
      case Int64(x) => Ok(Int16(Wrap(W16, x)))
      case Boolean(x) => Ok(Int16(BoolToInt(x)))
      case _ => Err(InvalidConversionSource(v, target)))
    case TInt32 => (
      match v
      case Double(x) => Ok(Int32(fp.to32From64(x)))
      case Float(x) => Ok(Int32(fp.to32From32(x)))
      case Int16(x) => Ok(Int32(x))
      case Int32(x) => Ok(Int32(x))
      case Int64(x) => Ok(Int32(Wrap(W32, x)))
      case Boolean(x) => Ok(Int32(BoolToInt(x)))
      case _ => Err(InvalidConversionSource(v, target)))
    case TInt64 => (
      match v
      case Double(x) => Ok(Int64(fp.to64From64(x)))
      case Float(x) => Ok(Int64(fp.to64From32(x)))
      case Int16(x) => Ok(Int64(x))
      case Int32(x) => Ok(Int64(x))
      case Int64(x) => Ok(Int64(x))
      case Boolean(x) => Ok(Int64(BoolToInt(x)))
      case _ => Err(InvalidConversionSource(v, target)))
    case TBoolean => (
      match v
      case Double(x) => Ok(Boolean(Equal64(x, ONE64)))
      case Float(x) => Ok(Boolean(Equal32(x, ONE32)))
      case Int16(x) => Ok(Boolean(x == 1))
      case Int32(x) => Ok(Boolean(x == 1))
      case Int64(x) => Ok(Boolean(x == 1))
      case Boolean(x) => Ok(Boolean(x))
      case _ => Err(InvalidConversionSource(v, target)))
    case _ => Err(InvalidConversionTarget(target))
  }

  /** Conversion to Boolean is "equals 1", not "non-zero": 2 becomes false. */
  lemma ConvToBoolean(v: GMValue, fp: FloatSemantics)
    requires IsInteger(v) || v.Boolean?
    ensures IsInteger(v) ==> ConvValue(v, TBoolean, fp) == Ok(Boolean(IntValue(v) == 1))
    ensures v.Boolean? ==> ConvValue(v, TBoolean, fp) == Ok(v)
    ensures ConvValue(Int32(2), TBoolean, fp) == Ok(Boolean(false))
    ensures ConvValue(Int32(1), TBoolean, fp) == Ok(Boolean(true))
  {
  }

  /** A Double converts to true exactly when it is 1.0, bit for bit. */
  lemma ConvDoubleToBoolean(x: F64, fp: FloatSemantics)
    ensures ConvValue(Double(x), TBoolean, fp) == Ok(Boolean(x == ONE64))
  {
    EqualOne64(x);
  }

  /** Between the integer widths, and from Boolean, conversion to a width
      keeps the value modulo 2^width: widening preserves it, narrowing keeps
      the low bits, and false and true become 0 and 1. */
  lemma {:induction false} ConvBetweenIntegers(v: GMValue, w: Width, fp: FloatSemantics)
    requires IsInteger(v) || v.Boolean?
    ensures var x := if v.Boolean? then BoolToInt(v.b) else IntValue(v);
      ConvValue(v, TypeOf(MakeInt(w, Wrap(w, x))), fp) == Ok(MakeInt(w, Wrap(w, x)))
    ensures IsInteger(v) && Bits(WidthOf(v)) <= Bits(w) ==>
      ConvValue(v, TypeOf(MakeInt(w, 0)), fp) == Ok(MakeInt(w, IntValue(v)))
  {
    var x := if v.Boolean? then BoolToInt(v.b) else IntValue(v);
    if v.Boolean? || Bits(WidthOf(v)) <= Bits(w) {
      WrapIdentity(w, x);
    }
    if IsInteger(v) {
      WrapIdentity(WidthOf(v), x);
    }
  }

  /** Int64 to Double goes through an i32 cast first. */
  lemma ConvInt64ToDouble(x: int64, fp: FloatSemantics)
    ensures ConvValue(Int64(x), TDouble, fp) == ConvValue(Int32(Wrap(W32, x)), TDouble, fp)
  {
  }

  /** Widening an integer to Int64 and converting back restores it. */
  lemma ConvWidenNarrowRoundTrip(v: GMValue, fp: FloatSemantics)
    requires IsInteger(v)
    ensures ConvValue(v, TInt64, fp).Ok?
    ensures ConvValue(ConvValue(v, TInt64, fp).value, TypeOf(v), fp) == Ok(v)
  {
    WrapIdentity(WidthOf(v), IntValue(v));
  }

  /** `conv` on the stack contents. */
  function ConvStep(s: seq<GMValue>, target: DataType, fp: FloatSemantics): (st: Step<()>)
    ensures |s| == 0 ==> st == Step(s, Err(StackUnderflow))
    ensures st.result.Ok? <==> |s| > 0 && IsConvTarget(target) && (IsNumeric(s[|s| - 1]) || s[|s| - 1].Boolean?)
    ensures st.result.Ok? ==> |st.items| == |s| && st.items[..|s| - 1] == s[..|s| - 1]
    ensures st.result.Ok? ==> TypeOf(st.items[|s| - 1]) == target
    ensures |s| > 0 && st.result.Err? ==> st.items == s[..|s| - 1]
  {
    if |s| == 0 then Step(s, Err(StackUnderflow)) else PushOutcome(s[..|s| - 1], ConvValue(s[|s| - 1], target, fp))
  }

  method Conv(stack: GMStack, target: DataType, fp: FloatSemantics) returns (r: Result<()>)
    modifies stack
    ensures Step(stack.items, r) == ConvStep(old(stack.items), target, fp)
  {
    var value :- stack.Pop();
    var converted :- ConvValue(value, target, fp);
    stack.Push(converted);
    return Ok(());
  }

  predicate IsArithOpcode(op: Opcode) {
    op == Mul || op == Div || op == Rem || op == Mod || op == Add || op == Sub
  }

  predicate IsShiftOpcode(op: Opcode) {
    op == Shl || op == Shr
  }

  predicate IsBinaryOpcode(op: Opcode) {
    IsArithOpcode(op) || IsBitwiseOpcode(op) || IsShiftOpcode(op)
  }

  predicate IsDivisionOpcode(op: Opcode) {
    op == Div || op == Rem || op == Mod
  }

  /** `rem` uses `rem_euclid` on floats and `mod_` uses `%`. */
  function FloatOpOf(op: Opcode): FloatOp
    requires IsArithOpcode(op)
  {
    if op == Mul then FMul
    else if op == Div then FDiv
    else if op == Rem then FRemEuclid
    else if op == Mod then FRem
    else if op == Add then FAdd
    else FSub
  }

  /** `*`, `+` or `-` on unbounded integers. */
  function ExactArith(op: Opcode, a: int, b: int): int {
    if op == Mul then a * b else if op == Add then a + b else a - b
  }

  /** Integer arithmetic of one width: `*`, `+` and `-` wrap; `div` is
      checked truncating division; `rem` and `mod_` are both `checked_rem`. */
  function IntArith(op: Opcode, w: Width, a: int, b: int): (r: Option<int>)
    requires IsArithOpcode(op) && InRange(w, a) && InRange(w, b)
    ensures r.Some? ==> InRange(w, r.value)
    ensures r.None? <==> IsDivisionOpcode(op) && (b == 0 || (a == -Half(w) && b == -1))
    ensures op == Mul ==> r.Some? && (r.value - a * b) % Modulus(w) == 0
    ensures op == Add ==> r.Some? && (r.value - (a + b)) % Modulus(w) == 0
    ensures op == Sub ==> r.Some? && (r.value - (a - b)) % Modulus(w) == 0
    ensures !IsDivisionOpcode(op) && InRange(w, ExactArith(op, a, b)) ==> r == Some(ExactArith(op, a, b))
    ensures op == Div && r.Some? ==> r.value == TDiv(a, b)
    ensures (op == Rem || op == Mod) && r.Some? ==> r.value == TRem(a, b)
  {
    WrapIdentity(w, ExactArith(op, a, b));
    if op == Mul then Some(Wrap(w, a * b))
    else if op == Add then Some(Wrap(w, a + b))
    else if op == Sub then Some(Wrap(w, a - b))
    else if op == Div then CheckedDiv(w, a, b)
    else CheckedRem(w, a, b)
  }

  /** `mul`, `div`, `rem`, `mod_`, `add` and `sub` on the left operand (popped
      first) and the right operand (popped second). Both must have the same
      numeric variant, and the result has that variant. */
  function ArithValues(op: Opcode, lhs: GMValue, rhs: GMValue, fp: FloatSemantics): (r: Result<GMValue>)
    requires IsArithOpcode(op)
    ensures r.Ok? ==> TypeOf(lhs) == TypeOf(rhs) && IsNumeric(lhs) && TypeOf(r.value) == TypeOf(lhs)
    ensures TypeOf(lhs) != TypeOf(rhs) || !IsNumeric(lhs) ==> r == Err(TypeMismatch(op, lhs, rhs))
    ensures r.Err? && TypeOf(lhs) == TypeOf(rhs) && IsNumeric(lhs) ==>
      IsInteger(lhs) && IsDivisionOpcode(op) && r.error == DivisionByZero(op, lhs, rhs) &&
      (IntValue(rhs) == 0 || (IntValue(lhs) == -Half(WidthOf(lhs)) && IntValue(rhs) == -1))
  {
    if lhs.Double? && rhs.Double? then Ok(Double(fp.arith64(FloatOpOf(op), lhs.d, rhs.d)))
    else if lhs.Float? && rhs.Float? then Ok(Float(fp.arith32(FloatOpOf(op), lhs.f, rhs.f)))
    else if IsInteger(lhs) && IsInteger(rhs) && WidthOf(lhs) == WidthOf(rhs) then
      var w := WidthOf(lhs);
      var x := IntArith(op, w, IntValue(lhs), IntValue(rhs));
      if x.Some? then Ok(MakeInt(w, x.value)) else Err(DivisionByZero(op, lhs, rhs))
    else Err(TypeMismatch(op, lhs, rhs))
  }

  /** Integer `div`, `rem` and `mod_`: a zero divisor (or MIN / -1) is an
      error at every width; otherwise the quotient truncates toward zero and
      the remainder takes the sign of the dividend. */
  lemma IntegerDivision(lhs: GMValue, rhs: GMValue, fp: FloatSemantics)
    requires IsInteger(lhs) && IsInteger(rhs) && WidthOf(lhs) == WidthOf(rhs)
    ensures IntValue(rhs) == 0 ==>
      ArithValues(Div, lhs, rhs, fp) == Err(DivisionByZero(Div, lhs, rhs)) &&
      ArithValues(Rem, lhs, rhs, fp) == Err(DivisionByZero(Rem, lhs, rhs)) &&
      ArithValues(Mod, lhs, rhs, fp) == Err(DivisionByZero(Mod, lhs, rhs))
    ensures IntValue(lhs) == -Half(WidthOf(lhs)) && IntValue(rhs) == -1 ==>
      ArithValues(Div, lhs, rhs, fp).Err? && ArithValues(Rem, lhs, rhs, fp).Err?
    ensures ArithValues(Div, lhs, rhs, fp).Ok? ==>
      var a, b := IntValue(lhs), IntValue(rhs);
      var q := IntValue(ArithValues(Div, lhs, rhs, fp).value);
      var r := IntValue(ArithValues(Rem, lhs, rhs, fp).value);
      && ArithValues(Rem, lhs, rhs, fp).Ok?
      && a == q * b + r
      && Abs(r) < Abs(b)
      && Abs(q) * Abs(b) <= Abs(a)
      && (r != 0 ==> ((r < 0) <==> (a < 0)))
  {
  }

  /** On integers `rem` and `mod_` compute the same value and fail on the
      same inputs, since both are `checked_rem`. */
  lemma RemModAgree(lhs: GMValue, rhs: GMValue, fp: FloatSemantics)
    requires IsInteger(lhs)
    ensures ArithValues(Rem, lhs, rhs, fp).Ok? <==> ArithValues(Mod, lhs, rhs, fp).Ok?
    ensures ArithValues(Rem, lhs, rhs, fp).Ok? ==>
      ArithValues(Rem, lhs, rhs, fp).value == ArithValues(Mod, lhs, rhs, fp).value
    ensures ArithValues(Rem, lhs, rhs, fp) == Err(DivisionByZero(Rem, lhs, rhs)) <==>
      ArithValues(Mod, lhs, rhs, fp) == Err(DivisionByZero(Mod, lhs, rhs))
  {
  }

  /** `and`, `or` and `xor`: two integers of one width, or two Booleans. */
  function BitwiseValues(op: Opcode, lhs: GMValue, rhs: GMValue): (r: Result<GMValue>)
    requires IsBitwiseOpcode(op)
    ensures r.Ok? <==> (IsInteger(lhs) && IsInteger(rhs) && WidthOf(lhs) == WidthOf(rhs)) || (lhs.Boolean? && rhs.Boolean?)
    ensures r.Ok? ==> TypeOf(r.value) == TypeOf(lhs)
    ensures r.Err? ==> r.error == TypeMismatch(op, lhs, rhs)
    ensures lhs.Boolean? && rhs.Boolean? && op == And ==> r == Ok(Boolean(lhs.b && rhs.b))
    ensures lhs.Boolean? && rhs.Boolean? && op == Or ==> r == Ok(Boolean(lhs.b || rhs.b))
    ensures lhs.Boolean? && rhs.Boolean? && op == Xor ==> r == Ok(Boolean(lhs.b != rhs.b))
  {
    if IsInteger(lhs) && IsInteger(rhs) && WidthOf(lhs) == WidthOf(rhs) then
      var w := WidthOf(lhs);
      Ok(MakeInt(w, Bitwise(op, w, IntValue(lhs), IntValue(rhs))))
    else if lhs.Boolean? && rhs.Boolean? then
      Ok(Boolean(BitOp(op, lhs.b, rhs.b)))
    else Err(TypeMismatch(op, lhs, rhs))
  }

  /** `shl` and `shr`: the left operand is an integer of any width, the
      amount an integer of any width cast `as u32`; the result keeps the left
      operand's width. Two Booleans give their exclusive or. */
  function ShiftValues(op: Opcode, lhs: GMValue, rhs: GMValue): (r: Result<GMValue>)
    requires IsShiftOpcode(op)
    ensures r.Ok? ==> TypeOf(r.value) == TypeOf(lhs)
    ensures IsInteger(lhs) && IsInteger(rhs) ==>
      (r.Err? <==> AsU32(IntValue(rhs)) >= Bits(WidthOf(lhs)))
    ensures IsInteger(lhs) && IsInteger(rhs) && r.Err? ==> r.error == ShiftOverflow(op, lhs, rhs)
    ensures lhs.Boolean? && rhs.Boolean? ==> r == Ok(Boolean(lhs.b != rhs.b))
    ensures !(IsInteger(lhs) && IsInteger(rhs)) && !(lhs.Boolean? && rhs.Boolean?) ==>
      r == Err(TypeMismatch(op, lhs, rhs))
  {
    if IsInteger(lhs) && IsInteger(rhs) then
      var w, n := WidthOf(lhs), AsU32(IntValue(rhs));
      var shifted := if op == Shl then CheckedShl(w, IntValue(lhs), n) else CheckedShr(w, IntValue(lhs), n);
      match shifted
      case Some(x) => Ok(MakeInt(w, x))
      case None => Err(ShiftOverflow(op, lhs, rhs))
    else if lhs.Boolean? && rhs.Boolean? then Ok(Boolean(lhs.b != rhs.b))
    else Err(TypeMismatch(op, lhs, rhs))
  }

  /** Negative 16- and 32-bit shift amounts become `u32` amounts of at
      least 2^31 and fail. */
  lemma NegativeShiftAmount(op: Opcode, lhs: GMValue, rhs: GMValue)
    requires IsShiftOpcode(op) && IsInteger(lhs)
    requires (rhs.Int16? || rhs.Int32?) && IntValue(rhs) < 0
    ensures ShiftValues(op, lhs, rhs) == Err(ShiftOverflow(op, lhs, rhs))
  {
    var n := AsU32(IntValue(rhs));
    assert n == IntValue(rhs) + U32_MODULUS by {
      DivModUnique(IntValue(rhs), U32_MODULUS, -1, IntValue(rhs) + U32_MODULUS);
    }
  }

  /** A 64-bit amount keeps only its low 32 bits: -2^32 shifts by 0. */
  lemma Int64AmountLowBits(op: Opcode, lhs: GMValue)
    requires IsShiftOpcode(op) && IsInteger(lhs)
    ensures ShiftValues(op, lhs, Int64(-0x1_0000_0000)) == Ok(lhs)
  {
    assert AsU32(-0x1_0000_0000) == 0 by {
      DivModUnique(-0x1_0000_0000, U32_MODULUS, -1, 0);
    }
    assert Pow2(0) == 1;
    WrapIdentity(WidthOf(lhs), IntValue(lhs));
    if op == Shr {
      DivModUnique(IntValue(lhs), 1, IntValue(lhs), 0);
    }
  }

  /** Bits shifted past the width are dropped without error, but an amount
      equal to the width is an error. */
  lemma ShiftPastWidth()
    ensures ShiftValues(Shl, Int16(0x4000), Int16(2)) == Ok(Int16(0))
    ensures ShiftValues(Shl, Int16(1), Int16(16)) == Err(ShiftOverflow(Shl, Int16(1), Int16(16)))
  {
    assert AsU32(2) == 2 && AsU32(16) == 16;
    assert Pow2(2) == 4;
    assert Wrap(W16, 0x1_0000) == 0;
  }

  /** The pure part of every binary handler. */
  function Apply(op: Opcode, lhs: GMValue, rhs: GMValue, fp: FloatSemantics): Result<GMValue>
    requires IsBinaryOpcode(op)
  {
    if IsArithOpcode(op) then ArithValues(op, lhs, rhs, fp)
    else if IsBitwiseOpcode(op) then BitwiseValues(op, lhs, rhs)
    else ShiftValues(op, lhs, rhs)
  }

  /** A binary handler on the stack contents: pop the left operand, pop the
      right one, push the result. Both pops happen before any type check,
      so on an error both operands are gone. */
  function BinaryStep(s: seq<GMValue>, op: Opcode, fp: FloatSemantics): (st: Step<()>)
    requires IsBinaryOpcode(op)
    ensures |s| < 2 ==> st == Step([], Err(StackUnderflow))
    ensures st.result.Ok? ==> |st.items| == |s| - 1 && st.items[..|s| - 2] == s[..|s| - 2]
    ensures IsArithOpcode(op) && st.result.Ok? ==> TypeOf(st.items[|s| - 2]) == TypeOf(s[|s| - 1])
    ensures |s| >= 2 && st.result.Err? ==> st.items == s[..|s| - 2]
  {
    if |s| == 0 then Step(s, Err(StackUnderflow))
    else if |s| == 1 then Step([], Err(StackUnderflow))
    else PushOutcome(s[..|s| - 2], Apply(op, s[|s| - 1], s[|s| - 2], fp))
  }

  /** The value popped first is the left operand. */
  lemma FirstPoppedIsLeft(s: seq<GMValue>, second: GMValue, top: GMValue, op: Opcode, fp: FloatSemantics)
    requires IsBinaryOpcode(op)
    ensures BinaryStep(s + [second, top], op, fp) == PushOutcome(s, Apply(op, top, second, fp))
  {
    assert (s + [second, top])[..|s|] == s;
  }

  /** On two integers of one width, `sub` pushes top minus second, wrapped
      to the width. */
  lemma SubIsTopMinusSecondWrapped(s: seq<GMValue>, second: GMValue, top: GMValue, fp: FloatSemantics)
    requires IsInteger(second) && IsInteger(top) && WidthOf(second) == WidthOf(top)
    ensures BinaryStep(s + [second, top], Sub, fp) ==
      Step(s + [MakeInt(WidthOf(top), Wrap(WidthOf(top), IntValue(top) - IntValue(second)))], Ok(()))
  {
    FirstPoppedIsLeft(s, second, top, Sub, fp);
    var w, a, b := WidthOf(top), IntValue(top), IntValue(second);
    var x := IntArith(Sub, w, a, b);
    WrapCongruent(w, x.value, a - b);
    WrapIdentity(w, x.value);
  }

  /** `sub` computes top minus second: 10 on top of 3 gives 7. */
  lemma SubIsTopMinusSecond(s: seq<GMValue>, fp: FloatSemantics)
    ensures BinaryStep(s + [Int32(3), Int32(10)], Sub, fp) == Step(s + [Int32(7)], Ok(()))
  {
    FirstPoppedIsLeft(s, Int32(3), Int32(10), Sub, fp);
    assert IntArith(Sub, W32, 10, 3) == Some(7) by {
      WrapIdentity(W32, 7);
    }
    assert Apply(Sub, Int32(10), Int32(3), fp) == Ok(Int32(7)) by {
      assert ArithValues(Sub, Int32(10), Int32(3), fp) == Ok(MakeInt(W32, 7));
    }
  }

  /** Handles `mul`, `div`, `rem`, `mod_`, `add`, `sub`, `and`, `or`, `xor`,
      `shl` and `shr`, which share one shape. */
  method Binary(stack: GMStack, op: Opcode, fp: FloatSemantics) returns (r: Result<()>)
    requires IsBinaryOpcode(op)
    modifies stack
    ensures Step(stack.items, r) == BinaryStep(old(stack.items), op, fp)
  {
    ghost var s := stack.items;
    var lhs :- stack.Pop();
    var rhs :- stack.Pop();
    assert |s| >= 2 && s[|s| - 1] == lhs && s[|s| - 2] == rhs && stack.items == s[..|s| - 2];
    var result :- Apply(op, lhs, rhs, fp);
    stack.Push(result);
    return Ok(());
  }
}
