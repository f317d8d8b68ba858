/** The earlier draft of the engine in src/gm_code.rs. Its stack struct and
    its `neg`, `not`, `dup`, `ret`, `popz` and `conv` are the same code as in
    src/code/run.rs and the instruction files, so they are the same Dafny
    members here. What differs is `run_code`: it runs every instruction,
    throws away whatever `run_instruction` returns, and stops only at an
    error. Its double-type arms are unfinished, so code containing a
    double-type instruction is outside this model. */
module GmCode {
  import opened Floats
  import opened Gm
  import opened Stack
  import opened Run

  /** Code the draft can run: no double-type instruction. */
  predicate DraftRunnable(code: seq<Instruction>) {
    forall i :: 0 <= i < |code| ==> !code[i].DoubleType?
  }

  predicate HasNoRet(code: seq<Instruction>) {
    forall i :: 0 <= i < |code| ==> !(code[i].SingleType? && code[i].opcode == Ret)
  }

  /** What the draft's `run_code` does to the stack contents, and what it
      returns. */
  function DraftRunCode(s: seq<GMValue>, code: seq<Instruction>, fp: FloatSemantics): (o: Step<()>)
    requires DraftRunnable(code)
    decreases |code|
  {
    if code == [] then Step(s, Ok(()))
    else
      var first := Exec(s, code[0], fp);
      if first.result.Err? then Step(first.items, Err(first.result.error))
      else DraftRunCode(first.items, code[1..], fp)
  }

  /** Running `a + b` is running `a`, then `b` from where `a` left the
      stack, unless `a` failed. */
  lemma {:induction false} DraftAppend(s: seq<GMValue>, a: seq<Instruction>, b: seq<Instruction>, fp: FloatSemantics)
    requires DraftRunnable(a) && DraftRunnable(b)
    ensures DraftRunnable(a + b)
    ensures DraftRunCode(s, a + b, fp) ==
      var r := DraftRunCode(s, a, fp);
      if r.result.Err? then r else DraftRunCode(r.items, b, fp)
    decreases |a|
  {
    assert forall i :: 0 <= i < |a + b| ==> (a + b)[i] == if i < |a| then a[i] else b[i - |a|];
    if a == [] {
      assert a + b == b;
    } else {
      assert (a + b)[0] == a[0];
      assert (a + b)[1..] == a[1..] + b;
      var first := Exec(s, a[0], fp);
      assert DraftRunnable(a[1..]) by {
        forall i | 0 <= i < |a[1..]| ensures !a[1..][i].DoubleType? {
          assert a[1..][i] == a[i + 1];
        }
      }
      if first.result.Ok? {
        DraftAppend(first.items, a[1..], b, fp);
      }
    }
  }

  /** `ret` pops the value and the draft carries on with the rest of the
      code; on an empty stack it stops with the pop error. */
  lemma DraftRunsThroughRet(s: seq<GMValue>, dt: DataType, rest: seq<Instruction>, fp: FloatSemantics)
    requires DraftRunnable(rest)
    ensures DraftRunnable([SingleType(Ret, dt)] + rest)
    ensures DraftRunCode(s, [SingleType(Ret, dt)] + rest, fp) ==
      if s == [] then Step([], Err(StackUnderflow)) else DraftRunCode(s[..|s| - 1], rest, fp)
  {
    var code := [SingleType(Ret, dt)] + rest;
    assert code[1..] == rest;
    assert forall i :: 1 <= i < |code| ==> code[i] == rest[i - 1];
  }

  /** Without `ret`, the draft and the dispatcher of src/code/run.rs do the
      same thing to the stack and fail on the same code. */
  lemma {:induction false} DraftAgreesWithoutRet(s: seq<GMValue>, code: seq<Instruction>, fp: FloatSemantics)
    requires DraftRunnable(code) && HasNoRet(code)
    ensures DraftRunCode(s, code, fp).items == RunCode(s, code, fp).items
    ensures DraftRunCode(s, code, fp).result.Ok? <==> RunCode(s, code, fp).result == Ok(None)
    ensures DraftRunCode(s, code, fp).result.Err? ==>
      RunCode(s, code, fp).result == Err(DraftRunCode(s, code, fp).result.error)
    decreases |code|
  {
    if code != [] {
      var first := Exec(s, code[0], fp);
      assert !(code[0].SingleType? && code[0].opcode == Ret);
      assert DraftRunnable(code[1..]) && HasNoRet(code[1..]) by {
        forall i | 0 <= i < |code[1..]| ensures code[1..][i] == code[i + 1] { }
      }
      if first.result.Ok? {
        DraftAgreesWithoutRet(first.items, code[1..], fp);
      }
    }
  }

  /** With 1 below 2 on the stack, two `ret`s: the dispatcher of
      src/code/run.rs returns 2 and leaves 1, while the draft pops both and
      returns nothing. */
  lemma DraftIgnoresReturnedValues(fp: FloatSemantics)
    ensures RunCode([Int32(1), Int32(2)], [SingleType(Ret, TInt32), SingleType(Ret, TInt32)], fp) ==
      Step([Int32(1)], Ok(Some(Int32(2))))
    ensures DraftRunnable([SingleType(Ret, TInt32), SingleType(Ret, TInt32)])
    ensures DraftRunCode([Int32(1), Int32(2)], [SingleType(Ret, TInt32), SingleType(Ret, TInt32)], fp) ==
      Step([], Ok(()))
  {
    var code := [SingleType(Ret, TInt32), SingleType(Ret, TInt32)];
    assert code[1..] == [SingleType(Ret, TInt32)];
    assert [Int32(1), Int32(2)][..1] == [Int32(1)];
    DraftRunsThroughRet([Int32(1), Int32(2)], TInt32, [SingleType(Ret, TInt32)], fp);
    DraftRunsThroughRet([Int32(1)], TInt32, [], fp);
    assert [SingleType(Ret, TInt32)] + [] == [SingleType(Ret, TInt32)];
  }

  /** The draft's `run_code` on an interpreter. */
  method DraftRun(app: App, code: seq<Instruction>, fp: FloatSemantics) returns (r: Result<()>)
    requires DraftRunnable(code)
    modifies app.stack
    ensures Step(app.stack.items, r) == DraftRunCode(old(app.stack.items), code, fp)
  {
    for i := 0 to |code|
      invariant DraftRunnable(code[i..])
      invariant DraftRunCode(old(app.stack.items), code, fp) == DraftRunCode(app.stack.items, code[i..], fp)
    {
      assert code[i..][0] == code[i];
      assert code[i..][1..] == code[i + 1..];
      var ignored :- app.RunInstruction(code[i], fp);
    }
    assert code[|code|..] == [];
    return Ok(());
  }
}
