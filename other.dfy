/** The handlers of src/code/instructions/other.rs: `cmp` with its pure
    helper `compare`, the branch-condition tests `bt` and `bf`, and `pop`,
    which moves the top of the stack into one of the three variable maps. */
module OtherOps {
  import opened Floats
  import opened Gm
  import opened Stack

  /** `compare` on a totally ordered type (the integers, and the Booleans
      read as 0 and 1). */
  function CompareOrdered(a: int, b: int, ct: ComparisonType): bool {
    match ct
    case LT => a < b
    case LTE => a <= b
    case EQ => a == b
    case NEQ => a != b
    case GTE => a >= b
    case GT => a > b
  }

  /** `compare` through `PartialOrd`, given `a < b`, `b < a` and `a == b`:
      `<=` and `>=` are "less or equal" and "greater or equal", and `!=` is
      the negation of `==`. */
  function ComparePartial(less: bool, greater: bool, equal: bool, ct: ComparisonType): bool {
    match ct
    case LT => less
    case LTE => less || equal
    case EQ => equal
    case NEQ => !equal
    case GTE => greater || equal
    case GT => greater
  }

  /** The operand pairs `cmp` accepts: two values of one numeric or Boolean variant. */
  predicate Comparable(lhs: GMValue, rhs: GMValue) {
    TypeOf(lhs) == TypeOf(rhs) && (IsNumeric(lhs) || lhs.Boolean?)
  }

  /** The Boolean `cmp` pushes for `lhs REL rhs`. */
  function CompareValues(lhs: GMValue, rhs: GMValue, ct: ComparisonType): (r: Result<bool>)
    ensures r.Ok? <==> Comparable(lhs, rhs)
    ensures r.Err? ==> r.error == Incomparable(lhs, rhs)
  {
    if lhs.Double? && rhs.Double? then
      Ok(ComparePartial(Less64(lhs.d, rhs.d), Less64(rhs.d, lhs.d), Equal64(lhs.d, rhs.d), ct))
    else if lhs.Float? && rhs.Float? then
      Ok(ComparePartial(Less32(lhs.f, rhs.f), Less32(rhs.f, lhs.f), Equal32(lhs.f, rhs.f), ct))
    else if IsInteger(lhs) && TypeOf(lhs) == TypeOf(rhs) then
      Ok(CompareOrdered(IntValue(lhs), IntValue(rhs), ct))
    else if lhs.Boolean? && rhs.Boolean? then
      Ok(CompareOrdered(BoolToInt(lhs.b), BoolToInt(rhs.b), ct))
    else Err(Incomparable(lhs, rhs))
  }

  /** On integers and Booleans the six relations are related as on a total
      order: NEQ is not EQ, GTE is not LT, GT is not LTE, and swapping the
      operands turns LT into GT. Booleans order false before true. */
  lemma TotalOrderComparisons(lhs: GMValue, rhs: GMValue)
    requires (IsInteger(lhs) || lhs.Boolean?) && TypeOf(lhs) == TypeOf(rhs)
    ensures CompareValues(lhs, rhs, NEQ) == Ok(!CompareValues(lhs, rhs, EQ).value)
    ensures CompareValues(lhs, rhs, GTE) == Ok(!CompareValues(lhs, rhs, LT).value)
    ensures CompareValues(lhs, rhs, GT) == Ok(!CompareValues(lhs, rhs, LTE).value)
    ensures CompareValues(lhs, rhs, LT) == CompareValues(rhs, lhs, GT)
    ensures lhs.Boolean? ==> CompareValues(lhs, rhs, LT) == Ok(!lhs.b && rhs.b)
  {
  }

  /** For floats only NEQ is the negation of EQ: a NaN operand makes every
      other relation false, so GTE is not the negation of LT. */
  lemma FloatComparisons(lhs: GMValue, rhs: GMValue)
    requires (lhs.Double? || lhs.Float?) && TypeOf(lhs) == TypeOf(rhs)
    ensures CompareValues(lhs, rhs, NEQ) == Ok(!CompareValues(lhs, rhs, EQ).value)
    ensures CompareValues(lhs, rhs, LT) == CompareValues(rhs, lhs, GT)
    ensures lhs.Double? && IsNaN64(lhs.d) ==>
      CompareValues(lhs, rhs, LT) == Ok(false) && CompareValues(lhs, rhs, GTE) == Ok(false) &&
      CompareValues(lhs, rhs, EQ) == Ok(false) && CompareValues(lhs, rhs, NEQ) == Ok(true)
  {
  }

  /** `cmp` on the stack contents: the first value popped (the top) is the
      left operand, and a Boolean replaces the two operands. */
  function CmpStep(s: seq<GMValue>, ct: ComparisonType): (st: Step<()>)
    ensures |s| < 2 ==> st == Step([], Err(StackUnderflow))
    ensures st.result.Ok? <==> |s| >= 2 && Comparable(s[|s| - 1], s[|s| - 2])
    ensures st.result.Ok? ==>
      st.items == s[..|s| - 2] + [Boolean(CompareValues(s[|s| - 1], s[|s| - 2], ct).value)]
    ensures |s| >= 2 && st.result.Err? ==>
      st.items == s[..|s| - 2] && st.result == Err(Incomparable(s[|s| - 1], s[|s| - 2]))
  {
    if |s| == 0 then Step(s, Err(StackUnderflow))
    else if |s| == 1 then Step([], Err(StackUnderflow))
    else
      var rest := s[..|s| - 2];
      match CompareValues(s[|s| - 1], s[|s| - 2], ct)
      case Ok(b) => Step(rest + [Boolean(b)], Ok(()))
      case Err(e) => Step(rest, Err(e))
  }

  /** With 1 below 2 on the stack, `cmp LT` asks whether 2 < 1. */
  lemma CmpOperandOrder(s: seq<GMValue>)
    ensures CmpStep(s + [Int32(1), Int32(2)], LT) == Step(s + [Boolean(false)], Ok(()))
    ensures CmpStep(s + [Int32(1), Int32(2)], GT) == Step(s + [Boolean(true)], Ok(()))
  {
    assert (s + [Int32(1), Int32(2)])[..|s|] == s;
  }

  method Cmp(stack: GMStack, ct: ComparisonType) returns (r: Result<()>)
    modifies stack
    ensures Step(stack.items, r) == CmpStep(old(stack.items), ct)
  {
    var lhs :- stack.Pop();
    var rhs :- stack.Pop();
    var result :- CompareValues(lhs, rhs, ct);
    stack.Push(Boolean(result));
    return Ok(());
  }

  /** `bt` (jumpIfTrue) and `bf` (not jumpIfTrue) on the stack contents:
      pop a Boolean and say whether to jump. */
  function BranchStep(s: seq<GMValue>, jumpIfTrue: bool): (st: Step<bool>)
    ensures |s| == 0 ==> st == Step(s, Err(StackUnderflow))
    ensures |s| > 0 ==> st.items == s[..|s| - 1]
    ensures st.result.Ok? <==> |s| > 0 && s[|s| - 1].Boolean?
    ensures st.result.Ok? ==> st.result.value == (s[|s| - 1].b == jumpIfTrue)
    ensures |s| > 0 && !s[|s| - 1].Boolean? ==> st.result == Err(NotABoolean(s[|s| - 1]))
  {
    if |s| == 0 then Step(s, Err(StackUnderflow))
    else
      var v := s[|s| - 1];
      Step(s[..|s| - 1], if v.Boolean? then Ok(if jumpIfTrue then v.b else !v.b) else Err(NotABoolean(v)))
  }

  /** Whether `bt` jumps. */
  method Bt(stack: GMStack) returns (r: Result<bool>)
    modifies stack
    ensures Step(stack.items, r) == BranchStep(old(stack.items), true)
  {
    var value :- stack.Pop();
    if !value.Boolean? {
      return Err(NotABoolean(value));
    }
    return Ok(value.b);
  }

  /** Whether `bf` jumps. */
  method Bf(stack: GMStack) returns (r: Result<bool>)
    modifies stack
    ensures Step(stack.items, r) == BranchStep(old(stack.items), false)
  {
    var value :- stack.Pop();
    if !value.Boolean? {
      return Err(NotABoolean(value));
    }
    return Ok(!value.b);
  }

  /** One entry of the variable store: a global by variable index, an
      instance variable by (variable, object), a local by (variable, code). */
  datatype Slot = GlobalSlot(variable: nat) | InstanceSlot(variable: nat, obj: nat) | LocalSlot(variable: nat, code: nat)

  /** The contents of the three maps of `Variables`. */
  datatype Store = Store(globals: map<nat, GMValue>, instances: map<(nat, nat), GMValue>, locals: map<(nat, nat), GMValue>)

  function Lookup(store: Store, slot: Slot): Option<GMValue> {
    match slot
    case GlobalSlot(v) => if v in store.globals then Some(store.globals[v]) else None
    case InstanceSlot(v, o) => if (v, o) in store.instances then Some(store.instances[(v, o)]) else None
    case LocalSlot(v, c) => if (v, c) in store.locals then Some(store.locals[(v, c)]) else None
  }

  /** A map insert into the store: the slot now holds the value and every
      other slot reads as before. */
  function Assign(store: Store, slot: Slot, value: GMValue): (r: Store)
    ensures Lookup(r, slot) == Some(value)
    ensures forall other :: other != slot ==> Lookup(r, other) == Lookup(store, other)
  {
    match slot
    case GlobalSlot(v) => store.(globals := store.globals[v := value])
    case InstanceSlot(v, o) => store.(instances := store.instances[(v, o) := value])
    case LocalSlot(v, c) => store.(locals := store.locals[(v, c) := value])
  }

  /** The slot `pop` writes for an instance type, or None for the instance
      types it rejects. */
  function SlotFor(instanceType: InstanceType, variable: nat, codeIndex: nat, objectIndex: nat): Option<Slot> {
    match instanceType
    case Instance(Some(obj)) => Some(InstanceSlot(variable, obj))
    case Instance(None) => Some(InstanceSlot(variable, objectIndex))
    case Global => Some(GlobalSlot(variable))
    case Local => Some(LocalSlot(variable, codeIndex))
    case _ => None
  }

  /** What `pop` does to the stack and the store, and what it returns. */
  datatype PopOutcome = PopOutcome(items: seq<GMValue>, store: Store, result: Result<()>)

  /** `pop` on the stack contents and the store. The value leaves the stack
      before the instance type is examined, so it is gone on that error too. */
  function PopVariableStep(s: seq<GMValue>, store: Store, instanceType: InstanceType,
                           variable: nat, codeIndex: nat, objectIndex: nat): (o: PopOutcome)
    ensures o.items == PopStep(s).items
    ensures |s| == 0 ==> o.store == store && o.result == Err(StackUnderflow)
    ensures o.result.Ok? <==> |s| > 0 && (instanceType.Instance? || instanceType == Global || instanceType == Local)
    ensures |s| > 0 && instanceType == Global ==>
      o.store == Assign(store, GlobalSlot(variable), s[|s| - 1])
    ensures |s| > 0 && instanceType.Instance? && instanceType.obj.Some? ==>
      o.store == Assign(store, InstanceSlot(variable, instanceType.obj.value), s[|s| - 1])
    ensures |s| > 0 && instanceType == Instance(None) ==>
      o.store == Assign(store, InstanceSlot(variable, objectIndex), s[|s| - 1])
    ensures |s| > 0 && instanceType == Local ==>
      o.store == Assign(store, LocalSlot(variable, codeIndex), s[|s| - 1])
    ensures o.result.Err? && |s| > 0 ==>
      o.store == store && o.result == Err(InvalidInstanceType(instanceType, s[|s| - 1]))
  {
    var popped := PopStep(s);
    match popped.result
    case Err(e) => PopOutcome(popped.items, store, Err(e))
    case Ok(value) =>
      match SlotFor(instanceType, variable, codeIndex, objectIndex)
      case Some(slot) => PopOutcome(popped.items, Assign(store, slot, value), Ok(()))
      case None => PopOutcome(popped.items, store, Err(InvalidInstanceType(instanceType, value)))
  }

  /** A global write leaves the instance and local maps as they were, and
      reading the variable back gives the popped value. */
  lemma PopGlobal(s: seq<GMValue>, store: Store, variable: nat, codeIndex: nat, objectIndex: nat, value: GMValue)
    ensures var o := PopVariableStep(s + [value], store, Global, variable, codeIndex, objectIndex);
      && o == PopOutcome(s, o.store, Ok(()))
      && o.store.globals == store.globals[variable := value]
      && o.store.instances == store.instances
      && o.store.locals == store.locals
  {
    assert (s + [value])[..|s|] == s;
  }

  /** The variable store of the interpreter. */
  class Variables {
    var globals: map<nat, GMValue>
    var instances: map<(nat, nat), GMValue>
    var locals: map<(nat, nat), GMValue>

    constructor ()
      ensures globals == map[] && instances == map[] && locals == map[]
    {
      globals, instances, locals := map[], map[], map[];
    }

    function Contents(): Store
      reads this
    {
      Store(globals, instances, locals)
    }
  }

  /** `pop`: moves the top of the stack into the variable `variable` of the
      scope `instanceType` selects. */
  method PopVariable(variables: Variables, stack: GMStack, codeIndex: nat, objectIndex: nat,
                     instanceType: InstanceType, variable: nat) returns (r: Result<()>)
    modifies variables, stack
    ensures var o := PopVariableStep(old(stack.items), old(variables.Contents()), instanceType, variable, codeIndex, objectIndex);
      stack.items == o.items && variables.Contents() == o.store && r == o.result
  {
    var value :- stack.Pop();
    r := Ok(());
    match instanceType {
      case Instance(Some(obj)) =>
        variables.instances := variables.instances[(variable, obj) := value];
      case Instance(None) =>
        variables.instances := variables.instances[(variable, objectIndex) := value];
      case Global =>
        variables.globals := variables.globals[variable := value];
      case Local =>
        variables.locals := variables.locals[(variable, codeIndex) := value];
      case _ =>
        r := Err(InvalidInstanceType(instanceType, value));
    }
  }
}
