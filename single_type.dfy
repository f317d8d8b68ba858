/** The single-type instruction handlers of src/code/instructions/single_type.rs:
    `neg`, `not`, `dup`, `ret` and `popz`. The draft src/gm_code.rs:81-117
    holds the same five functions, character for character, so they are
    modelled once. Each handler works on the stack in place; the value
    mapping of `neg` and `not` is a pure function. */
module SingleTypeOps {
  import opened Floats
  import opened Gm
  import opened IntOps
  import opened Stack

  /** The value `neg` pushes in place of `v`. Integers negate with
      wrap-around; Variable has an error of its own, because a variable
      descriptor never belongs on the stack. */
  function NegValue(v: GMValue): (r: Result<GMValue>)
    ensures r.Ok? <==> IsNumeric(v)
    ensures r.Ok? ==> TypeOf(r.value) == TypeOf(v)
    ensures v.Variable? ==> r == Err(VariableOnStack)
    ensures v.Boolean? || v.String? ==> r == Err(CannotNegate(v))
  {
    match v
    case Double(x) => Ok(Double(Negate64(x)))
    case Float(x) => Ok(Float(Negate32(x)))
    case Int16(x) => Ok(Int16(Wrap(W16, -(x as int))))
    case Int32(x) => Ok(Int32(Wrap(W32, -(x as int))))
    case Int64(x) => Ok(Int64(Wrap(W64, -(x as int))))
    case Boolean(_) => Err(CannotNegate(v))
    case String(_) => Err(CannotNegate(v))
    case Variable(_) => Err(VariableOnStack)
  }

  /** `neg` negates an integer exactly, except the width's minimum, which it
      leaves as it is. */
  lemma NegInteger(v: GMValue)
    requires IsInteger(v)
    ensures NegValue(v).Ok? && IsInteger(NegValue(v).value)
    ensures IntValue(v) != -Half(WidthOf(v)) ==> IntValue(NegValue(v).value) == -IntValue(v)
    ensures IntValue(v) == -Half(WidthOf(v)) ==> NegValue(v) == Ok(v)
  {
    WrappingNegInvolutive(WidthOf(v), IntValue(v));
  }

  /** Negating twice gives back every numeric value, the integer minimum
      and float NaNs included. */
  lemma NegInvolutive(v: GMValue)
    requires IsNumeric(v)
    ensures NegValue(NegValue(v).value) == Ok(v)
  {
    match v
    case Double(x) =>
      assert (x.bits ^ SIGN64) ^ SIGN64 == x.bits;
    case Float(x) =>
      assert (x.bits ^ SIGN32) ^ SIGN32 == x.bits;
    case Int16(x) => WrappingNegInvolutive(W16, x);
    case Int32(x) => WrappingNegInvolutive(W32, x);
    case Int64(x) => WrappingNegInvolutive(W64, x);
  }

  /** The value `not` pushes in place of `v`: Booleans only. */
  function NotValue(v: GMValue): (r: Result<GMValue>)
    ensures r.Ok? <==> v.Boolean?
    ensures r.Ok? ==> r.value.Boolean? && r.value.b != v.b
    ensures r.Err? ==> r.error == CannotNot(v)
  {
    match v
    case Boolean(x) => Ok(Boolean(!x))
    case _ => Err(CannotNot(v))
  }

  /** `neg` on the stack contents. */
  function NegStep(s: seq<GMValue>): (st: Step<()>)
    ensures st.result.Ok? <==> |s| > 0 && IsNumeric(s[|s| - 1])
    ensures |s| == 0 ==> st == Step(s, Err(StackUnderflow))
    ensures st.result.Ok? ==> |st.items| == |s| && st.items[..|s| - 1] == s[..|s| - 1]
    ensures st.result.Ok? ==> TypeOf(st.items[|s| - 1]) == TypeOf(s[|s| - 1])
    ensures |s| > 0 && st.result.Err? ==> st.items == s[..|s| - 1]
  {
    if |s| == 0 then Step(s, Err(StackUnderflow)) else PushOutcome(s[..|s| - 1], NegValue(s[|s| - 1]))
  }

  /** `not` on the stack contents. */
  function NotStep(s: seq<GMValue>): (st: Step<()>)
    ensures st.result.Ok? <==> |s| > 0 && s[|s| - 1].Boolean?
    ensures |s| == 0 ==> st == Step(s, Err(StackUnderflow))
    ensures st.result.Ok? ==> |st.items| == |s| && st.items[..|s| - 1] == s[..|s| - 1]
    ensures st.result.Ok? ==> st.items[|s| - 1] == Boolean(!s[|s| - 1].b)
    ensures |s| > 0 && st.result.Err? ==> st.items == s[..|s| - 1]
  {
    if |s| == 0 then Step(s, Err(StackUnderflow)) else PushOutcome(s[..|s| - 1], NotValue(s[|s| - 1]))
  }

  /** `dup` on the stack contents: one more element, equal to the old top. */
  function DupStep(s: seq<GMValue>): (st: Step<()>)
    ensures |s| == 0 ==> st == Step(s, Err(StackUnderflow))
    ensures |s| > 0 ==> st.result.Ok? && |st.items| == |s| + 1
    ensures |s| > 0 ==> st.items[..|s|] == s && st.items[|s|] == st.items[|s| - 1]
  {
    if |s| == 0 then Step(s, Err(StackUnderflow)) else Step(s + [s[|s| - 1]], Ok(()))
  }

  method Neg(stack: GMStack) returns (r: Result<()>)
    modifies stack
    ensures Step(stack.items, r) == NegStep(old(stack.items))
  {
    var value :- stack.Pop();
    var negated :- NegValue(value);
    stack.Push(negated);
    return Ok(());
  }

  method Not(stack: GMStack) returns (r: Result<()>)
    modifies stack
    ensures Step(stack.items, r) == NotStep(old(stack.items))
  {
    var value :- stack.Pop();
    var flipped :- NotValue(value);
    stack.Push(flipped);
    return Ok(());
  }

  method Dup(stack: GMStack) returns (r: Result<()>)
    modifies stack
    ensures Step(stack.items, r) == DupStep(old(stack.items))
  {
    var value :- stack.Peek();
    stack.Push(value);
    return Ok(());
  }

  /** `ret` is a pop whose value is handed back to the dispatcher. */
  method Ret(stack: GMStack) returns (r: Result<GMValue>)
    modifies stack
    ensures Step(stack.items, r) == PopStep(old(stack.items))
  {
    r := stack.Pop();
  }

  /** `popz` pops and discards. */
  method Popz(stack: GMStack) returns (r: Result<()>)
    modifies stack
    ensures stack.items == PopStep(old(stack.items)).items
    ensures r == if |old(stack.items)| == 0 then Err(StackUnderflow) else Ok(())
  {
    var _ :- stack.Pop();
    return Ok(());
  }

  /** Depth bookkeeping: `dup` adds one element, `ret` and `popz` remove one,
      and a successful `neg` or `not` keeps the depth. */
  lemma DepthBookkeeping(s: seq<GMValue>)
    ensures |s| > 0 ==> |DupStep(s).items| == |s| + 1 && |PopStep(s).items| == |s| - 1
    ensures NegStep(s).result.Ok? ==> |NegStep(s).items| == |s|
    ensures NotStep(s).result.Ok? ==> |NotStep(s).items| == |s|
  {
  }
}
