/** The operand stack `GMStack` (src/code/run.rs; the draft in src/gm_code.rs
    declares the same struct): a vector of values with push, pop and peek,
    where pop and peek fail on an empty stack. */
module Stack {
  import opened Gm

  /** What `pop` does to the contents: remove and return the last element. */
  function PopStep(s: seq<GMValue>): (st: Step<GMValue>)
    ensures st.result.Err? <==> |s| == 0
    ensures |s| == 0 ==> st == Step(s, Err(StackUnderflow))
    ensures st.result.Ok? ==> st.items + [st.result.value] == s
  {
    if |s| == 0 then Step(s, Err(StackUnderflow)) else Step(s[..|s| - 1], Ok(s[|s| - 1]))
  }

  /** What `peek` returns: a copy of the last element. */
  function PeekResult(s: seq<GMValue>): (r: Result<GMValue>)
    ensures r.Ok? <==> |s| > 0
    ensures r.Ok? ==> PopStep(s) == Step(s[..|s| - 1], r)
    ensures r.Err? ==> r.error == StackUnderflow
  {
    if |s| == 0 then Err(StackUnderflow) else Ok(s[|s| - 1])
  }

  /** Push the value an operation produced onto `rest`, or report the
      operation's error with `rest` as the stack. */
  function PushOutcome(rest: seq<GMValue>, r: Result<GMValue>): Step<()> {
    match r
    case Ok(v) => Step(rest + [v], Ok(()))
    case Err(e) => Step(rest, Err(e))
  }

  class GMStack {
    var items: seq<GMValue>

    constructor ()
      ensures items == []
    {
      items := [];
    }

    method Push(value: GMValue)
      modifies this
      ensures items == old(items) + [value]
    {
      items := items + [value];
    }

    method Pop() returns (r: Result<GMValue>)
      modifies this
      ensures Step(items, r) == PopStep(old(items))
    {
      if |items| == 0 {
        return Err(StackUnderflow);
      }
      r := Ok(items[|items| - 1]);
      items := items[..|items| - 1];
    }

    method Peek() returns (r: Result<GMValue>)
      ensures r == PeekResult(items)
    {
      if |items| == 0 {
        return Err(StackUnderflow);
      }
      return Ok(items[|items| - 1]);
    }
  }

  /** The values of `vs` in the opposite order. */
  function Reverse(vs: seq<GMValue>): (r: seq<GMValue>)
    ensures |r| == |vs|
    ensures forall i :: 0 <= i < |vs| ==> r[i] == vs[|vs| - 1 - i]
  {
    if vs == [] then [] else [vs[|vs| - 1]] + Reverse(vs[..|vs| - 1])
  }

  /** `n` pops in a row, collecting the popped values in the order they come
      off; the first failing pop ends the run with its error. */
  function PopMany(s: seq<GMValue>, n: nat): Step<seq<GMValue>>
  {
    if n == 0 then Step(s, Ok([]))
    else
      var first := PopStep(s);
      if first.result.Err? then Step(first.items, Err(first.result.error))
      else
        var rest := PopMany(first.items, n - 1);
        if rest.result.Err? then rest
        else Step(rest.items, Ok([first.result.value] + rest.result.value))
  }

  /** The first of `n + 1` pops after pushing `v` gives `v` back. */
  lemma PopAfterPush(s: seq<GMValue>, v: GMValue, n: nat)
    ensures PopMany(s + [v], n + 1) ==
      var rest := PopMany(s, n);
      if rest.result.Err? then rest else Step(rest.items, Ok([v] + rest.result.value))
  {
    assert PopStep(s + [v]) == Step(s, Ok(v));
  }

  /** Pushing `vs` and then popping `k` more values than were pushed gives
      back `vs` reversed, followed by what the `k` extra pops give. */
  lemma {:induction false} PushesThenPops(s: seq<GMValue>, vs: seq<GMValue>, k: nat)
    ensures PopMany(s + vs, |vs| + k) ==
      var t := PopMany(s, k);
      if t.result.Err? then t else Step(t.items, Ok(Reverse(vs) + t.result.value))
  {
    if vs != [] {
      var init, last := vs[..|vs| - 1], vs[|vs| - 1];
      assert s + vs == (s + init) + [last];
      PopAfterPush(s + init, last, |init| + k);
      PushesThenPops(s, init, k);
      var t := PopMany(s, k);
      if t.result.Ok? {
        assert Reverse(vs) == [last] + Reverse(init);
        assert Reverse(vs) + t.result.value == [last] + (Reverse(init) + t.result.value);
      }
    } else {
      assert s + vs == s;
      var t := PopMany(s, k);
      if t.result.Ok? {
        assert Reverse(vs) + t.result.value == t.result.value;
      }
    }
  }

  /** n pushes onto a stack followed by n pops give the values back in
      reverse order and restore the stack. */
  lemma PushesThenPopsReverse(s: seq<GMValue>, vs: seq<GMValue>)
    ensures PopMany(s + vs, |vs|) == Step(s, Ok(Reverse(vs)))
  {
    PushesThenPops(s, vs, 0);
    assert Reverse(vs) + [] == Reverse(vs);
  }

  /** On an empty stack, the pop after n pops of n pushed values fails. */
  lemma ExtraPopFails(vs: seq<GMValue>)
    ensures PopMany(vs, |vs| + 1) == Step([], Err(StackUnderflow))
  {
    var t := PopMany([], 1);
    assert t == Step([], Err(StackUnderflow));
    PushesThenPops([], vs, 1);
    assert PopMany([] + vs, |vs| + 1) == t;
    assert [] + vs == vs;
  }

  /** Push followed by pop returns the pushed value and the old contents. */
  lemma PushThenPop(s: seq<GMValue>, v: GMValue)
    ensures PopStep(s + [v]) == Step(s, Ok(v))
  {
    assert (s + [v])[..|s|] == s;
  }
}
