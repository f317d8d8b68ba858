/** The dispatcher of src/code/run.rs: `App::run_instruction` routes one
    instruction to its handler, and `App::run_code` runs a code object's
    instructions in order until one returns a value or fails. */
module Run {
  import opened Floats
  import opened Gm
  import opened Stack
  import SingleTypeOps
  import DoubleTypeOps
  import OtherOps

  /** The instruction shapes of a code object. Only the single- and
      double-type forms do anything here; the payloads of the others are
      never looked at. */
  datatype Instruction =
    | SingleType(opcode: Opcode, dataType: DataType)
    | DoubleType(opcode: Opcode, type1: DataType, type2: DataType)
    | Comparison(comparison: ComparisonType, type1: DataType, type2: DataType)
    | Goto(offset: int)
    | Pop(instanceType: InstanceType, variable: nat)
    | Push(value: GMValue)
    | Call(callee: nat, arguments: nat)
    | Break(code: int)

  datatype GMCode = GMCode(name: string, instructions: seq<Instruction>)

  /** An instruction's outcome: `Some(v)` is a returned value, which ends the run. */
  type Outcome = Step<Option<GMValue>>

  /** A handler that returns nothing, as `run_instruction` sees it. */
  function Continue(st: Step<()>): (o: Outcome)
    ensures o.items == st.items
    ensures o.result.Ok? <==> st.result.Ok?
    ensures o.result.Ok? ==> o.result.value == None
    ensures st.result.Err? ==> o.result == Err(st.result.error)
  {
    match st.result
    case Ok(_) => Step(st.items, Ok(None))
    case Err(e) => Step(st.items, Err(e))
  }

  predicate IsSingleTypeHandled(op: Opcode) {
    op == Neg || op == Not || op == Dup || op == Ret || op == Exit || op == Popz
  }

  predicate IsDoubleTypeHandled(op: Opcode) {
    op == Conv || DoubleTypeOps.IsBinaryOpcode(op)
  }

  /** What `run_instruction` does to the stack contents, and what it returns. */
  function Exec(s: seq<GMValue>, instr: Instruction, fp: FloatSemantics): (o: Outcome)
    ensures o.result.Ok? && o.result.value.Some? ==>
      (instr.SingleType? && instr.opcode == Ret && |s| > 0 && o == Step(s[..|s| - 1], Ok(Some(s[|s| - 1]))))
    ensures instr.SingleType? && !IsSingleTypeHandled(instr.opcode) ==>
      o == Step(s, Err(InvalidSingleTypeOpcode(instr.opcode)))
    ensures instr.DoubleType? && !IsDoubleTypeHandled(instr.opcode) ==>
      o == Step(s, Err(InvalidDoubleTypeOpcode(instr.opcode)))
    ensures !instr.SingleType? && !instr.DoubleType? ==> o == Step(s, Ok(None))
  {
    match instr
    case SingleType(op, _) =>
      if op == Neg then Continue(SingleTypeOps.NegStep(s))
      else if op == Not then Continue(SingleTypeOps.NotStep(s))
      else if op == Dup then Continue(SingleTypeOps.DupStep(s))
      else if op == Ret then
        var popped := PopStep(s);
        (match popped.result
         case Ok(v) => Step(popped.items, Ok(Some(v)))
         case Err(e) => Step(popped.items, Err(e)))
      else if op == Exit then Step(s, Ok(None))
      else if op == Popz then
        var popped := PopStep(s);
        Step(popped.items, if popped.result.Ok? then Ok(None) else Err(popped.result.error))
      else Step(s, Err(InvalidSingleTypeOpcode(op)))
    case DoubleType(op, _, type2) =>
      if op == Conv then Continue(DoubleTypeOps.ConvStep(s, type2, fp))
      else if DoubleTypeOps.IsBinaryOpcode(op) then Continue(DoubleTypeOps.BinaryStep(s, op, fp))
      else Step(s, Err(InvalidDoubleTypeOpcode(op)))
    case _ => Step(s, Ok(None))
  }

  /** Whether a run stops after this outcome: on an error or a returned value. */
  predicate Stops(o: Outcome) {
    o.result.Err? || o.result.value.Some?
  }

  /** What `run_code` does to the stack contents, and what it returns. */
  function RunCode(s: seq<GMValue>, code: seq<Instruction>, fp: FloatSemantics): (o: Outcome)
    ensures code == [] ==> o == Step(s, Ok(None))
    ensures o.result.Ok? && o.result.value.Some? ==> exists i :: 0 <= i < |code| && code[i].SingleType? && code[i].opcode == Ret
    decreases |code|
  {
    if code == [] then Step(s, Ok(None))
    else
      var first := Exec(s, code[0], fp);
      if Stops(first) then first
      else
        var rest := RunCode(first.items, code[1..], fp);
        assert rest.result.Ok? && rest.result.value.Some? ==> exists i :: 1 <= i < |code| && code[i].SingleType? && code[i].opcode == Ret by {
          if rest.result.Ok? && rest.result.value.Some? {
            var i :| 0 <= i < |code[1..]| && code[1..][i].SingleType? && code[1..][i].opcode == Ret;
            assert code[i + 1] == code[1..][i];
          }
        }
        rest
  }

  /** Running `a + b` runs `a`, then `b` from where `a` left the stack,
      unless `a` stopped. */
  lemma {:induction false} RunAppend(s: seq<GMValue>, a: seq<Instruction>, b: seq<Instruction>, fp: FloatSemantics)
    ensures RunCode(s, a + b, fp) ==
      var r := RunCode(s, a, fp);
      if Stops(r) then r else RunCode(r.items, b, fp)
    decreases |a|
  {
    if a == [] {
      assert a + b == b;
    } else {
      assert (a + b)[0] == a[0];
      assert (a + b)[1..] == a[1..] + b;
      var first := Exec(s, a[0], fp);
      if !Stops(first) {
        RunAppend(first.items, a[1..], b, fp);
      }
    }
  }

  /** The first `Ret` reached ends the run with the value it pops; the
      instructions after it are not executed. */
  lemma RetEndsRun(s: seq<GMValue>, prefix: seq<Instruction>, dt: DataType, rest: seq<Instruction>, fp: FloatSemantics)
    requires RunCode(s, prefix, fp).result == Ok(None)
    requires |RunCode(s, prefix, fp).items| > 0
    ensures var t := RunCode(s, prefix, fp).items;
      RunCode(s, prefix + [SingleType(Ret, dt)] + rest, fp) == Step(t[..|t| - 1], Ok(Some(t[|t| - 1])))
  {
    RunAppend(s, prefix, [SingleType(Ret, dt)] + rest, fp);
    assert prefix + [SingleType(Ret, dt)] + rest == prefix + ([SingleType(Ret, dt)] + rest);
    var t := RunCode(s, prefix, fp).items;
    assert ([SingleType(Ret, dt)] + rest)[0] == SingleType(Ret, dt);
  }

  /** `Exit` returns no value, so the loop goes on with the next instruction. */
  lemma ExitDoesNotStop(s: seq<GMValue>, dt: DataType, rest: seq<Instruction>, fp: FloatSemantics)
    ensures RunCode(s, [SingleType(Exit, dt)] + rest, fp) == RunCode(s, rest, fp)
  {
    assert ([SingleType(Exit, dt)] + rest)[1..] == rest;
  }

  /** Comparison, Goto, Pop, Push, Call and Break leave the stack as it is. */
  lemma NoOpInstructions(s: seq<GMValue>, instr: Instruction, rest: seq<Instruction>, fp: FloatSemantics)
    requires !instr.SingleType? && !instr.DoubleType?
    ensures RunCode(s, [instr] + rest, fp) == RunCode(s, rest, fp)
  {
    assert ([instr] + rest)[1..] == rest;
  }

  /** `conv` takes its target from the instruction's second data type. */
  lemma ConvUsesType2(s: seq<GMValue>, type1: DataType, type2: DataType, fp: FloatSemantics)
    ensures Exec(s, DoubleType(Conv, type1, type2), fp) == Continue(DoubleTypeOps.ConvStep(s, type2, fp))
    ensures Exec(s, DoubleType(Conv, type1, type2), fp) == Exec(s, DoubleType(Conv, type2, type2), fp)
  {
  }

  /** 10 - 3 computed by `sub` with 10 on top, then returned; the `neg`
      after the `ret` does not run. */
  lemma SubThenRet(fp: FloatSemantics)
    ensures RunCode([Int32(3), Int32(10)],
      [DoubleType(Sub, TInt32, TInt32), SingleType(Ret, TInt32), SingleType(Neg, TInt32)], fp)
      == Step([], Ok(Some(Int32(7))))
  {
    var code := [DoubleType(Sub, TInt32, TInt32), SingleType(Ret, TInt32), SingleType(Neg, TInt32)];
    DoubleTypeOps.SubIsTopMinusSecond([], fp);
    assert [] + [Int32(3), Int32(10)] == [Int32(3), Int32(10)] && [] + [Int32(7)] == [Int32(7)];
    assert Exec([Int32(3), Int32(10)], code[0], fp) == Step([Int32(7)], Ok(None));
    assert RunCode([Int32(3), Int32(10)], code, fp) == RunCode([Int32(7)], code[1..], fp);
    assert code[1..][0] == SingleType(Ret, TInt32);
    assert Exec([Int32(7)], code[1..][0], fp) == Step([], Ok(Some(Int32(7))));
  }

  /** The interpreter state the dispatcher works on. */
  class App {
    const stack: GMStack
    const variables: OtherOps.Variables

    constructor ()
      ensures fresh(stack) && fresh(variables) && stack.items == []
      ensures variables.Contents() == OtherOps.Store(map[], map[], map[])
    {
      stack := new GMStack();
      variables := new OtherOps.Variables();
    }

    method RunInstruction(instr: Instruction, fp: FloatSemantics) returns (r: Result<Option<GMValue>>)
      modifies stack
      ensures Step(stack.items, r) == Exec(old(stack.items), instr, fp)
    {
      match instr {
        case SingleType(op, _) =>
          if op == Neg {
            var x :- SingleTypeOps.Neg(stack);
          } else if op == Not {
            var x :- SingleTypeOps.Not(stack);
          } else if op == Dup {
            var x :- SingleTypeOps.Dup(stack);
          } else if op == Ret {
            var v :- SingleTypeOps.Ret(stack);
            return Ok(Some(v));
          } else if op == Exit {
            return Ok(None);
          } else if op == Popz {
            var x :- SingleTypeOps.Popz(stack);
          } else {
            return Err(InvalidSingleTypeOpcode(op));
          }
        case DoubleType(op, _, type2) =>
          if op == Conv {
            var x :- DoubleTypeOps.Conv(stack, type2, fp);
          } else if DoubleTypeOps.IsBinaryOpcode(op) {
            var x :- DoubleTypeOps.Binary(stack, op, fp);
          } else {
            return Err(InvalidDoubleTypeOpcode(op));
          }
        case Comparison(_, _, _) =>
        case Goto(_) =>
        case Pop(_, _) =>
        case Push(_) =>
        case Call(_, _) =>
        case Break(_) =>
      }
      return Ok(None);
    }

    method Run(code: GMCode, fp: FloatSemantics) returns (r: Result<Option<GMValue>>)
      modifies stack
      ensures Step(stack.items, r) == RunCode(old(stack.items), code.instructions, fp)
    {
      var instructions := code.instructions;
      for i := 0 to |instructions|
        invariant RunCode(old(stack.items), instructions, fp) == RunCode(stack.items, instructions[i..], fp)
      {
        assert instructions[i..][0] == instructions[i];
        assert instructions[i..][1..] == instructions[i + 1..];
        var returned :- RunInstruction(instructions[i], fp);
        if returned.Some? {
          return Ok(returned);
        }
      }
      assert instructions[|instructions|..] == [];
      return Ok(None);
    }
  }
}
