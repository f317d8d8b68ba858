/** Rust's fixed-width signed integer operations on the three widths the
    interpreter uses: wrap-around (release-mode `+`, `-`, `*`, unary `-`, and
    narrowing `as` casts), `checked_div` and `checked_rem` (which truncate
    toward zero), `checked_shl` and `checked_shr`, the `as u32` cast of a shift
    amount, and the bitwise operators. */
module IntOps {
  import opened Gm

  function Modulus(w: Width): int {
    2 * Half(w)
  }

  function Abs(x: int): nat {
    if x < 0 then -x else x
  }

  /** Two's-complement wrap-around to width `w`: the one value of the width
      that is congruent to `x` modulo 2^Bits(w). */
  function Wrap(w: Width, x: int): (r: int)
    ensures InRange(w, r)
    ensures (r - x) % Modulus(w) == 0
  {
    var m := Modulus(w);
    var k := (x + Half(w)) / m;
    assert (x + Half(w)) % m == x + Half(w) - k * m;
    assert (x + Half(w)) % m - Half(w) - x == -k * m;
    (x + Half(w)) % m - Half(w)
  }

  /** Values of the width are left alone. */
  lemma WrapIdentity(w: Width, x: int)
    ensures InRange(w, x) ==> Wrap(w, x) == x
  {
  }

  /** Wrap depends only on the residue of its argument. */
  lemma WrapCongruent(w: Width, x: int, y: int)
    requires (x - y) % Modulus(w) == 0
    ensures Wrap(w, x) == Wrap(w, y)
  {
    var m := Modulus(w);
    var k := (x - y) / m;
    assert x - y == k * m;
    assert x + Half(w) == (y + Half(w)) + k * m;
    ModuloShift(y + Half(w), k, m);
  }

  lemma ModuloShift(a: int, k: int, m: int)
    requires m > 0
    ensures (a + k * m) % m == a % m
  {
    var q, r := a / m, a % m;
    assert a + k * m == (q + k) * m + r by {
      assert (q + k) * m == q * m + k * m;
    }
    DivModUnique(a + k * m, m, q + k, r);
  }

  /** Euclidean quotient and remainder are the only pair with the remainder in [0, m). */
  lemma DivModUnique(x: int, m: int, q: int, r: int)
    requires m > 0 && 0 <= r < m
    requires x == q * m + r
    ensures x / m == q && x % m == r
  {
    var q', r' := x / m, x % m;
    assert (q - q') * m == r' - r by {
      assert q * m - q' * m == (q - q') * m;
    }
    assert (q' - q) * m == -((q - q') * m);
    if q - q' >= 1 {
      MulAtLeast(m, q - q');
    } else if q' - q >= 1 {
      MulAtLeast(m, q' - q);
    }
  }

  /** Negation that wraps: `-MIN` is `MIN`, as a release build computes. */
  lemma {:induction false} WrappingNegInvolutive(w: Width, x: int)
    requires InRange(w, x)
    ensures Wrap(w, -Wrap(w, -x)) == x
    ensures x != -Half(w) ==> Wrap(w, -x) == -x
    ensures Wrap(w, -(-Half(w))) == -Half(w)
  {
    NegWrapCongruent(w, x);
    WrapIdentity(w, x);
    WrapIdentity(w, -x);
    MinNegatesToMin(w);
  }

  lemma NegWrapCongruent(w: Width, x: int)
    ensures Wrap(w, -Wrap(w, -x)) == Wrap(w, x)
  {
    var y := Wrap(w, -x);
    var k := (y - (-x)) / Modulus(w);
    assert y - (-x) == k * Modulus(w);
    assert -y - x == (-k) * Modulus(w);
    DivModUnique(-y - x, Modulus(w), -k, 0);
    WrapCongruent(w, -y, x);
  }

  lemma MinNegatesToMin(w: Width)
    ensures Wrap(w, -(-Half(w))) == -Half(w)
  {
    DivModUnique(Half(w) - (-Half(w)), Modulus(w), 1, 0);
    WrapCongruent(w, Half(w), -Half(w));
    WrapIdentity(w, -Half(w));
  }

  /** Division truncating toward zero, as Rust's `/` on signed integers. */
  function TDiv(a: int, b: int): (q: int)
    requires b != 0
    ensures Abs(q) * Abs(b) <= Abs(a) < (Abs(q) + 1) * Abs(b)
    ensures q != 0 ==> ((q < 0) <==> ((a < 0) != (b < 0)))
  {
    var m := Abs(a) / Abs(b);
    DivBounds(Abs(a), Abs(b));
    if (a < 0) == (b < 0) then m else -m
  }

  lemma DivBounds(x: nat, y: nat)
    requires y > 0
    ensures x / y >= 0
    ensures (x / y) * y <= x < (x / y + 1) * y
  {
    assert x == (x / y) * y + x % y;
    assert (x / y + 1) * y == (x / y) * y + y;
  }

  /** Remainder of truncating division, as Rust's `%`: it takes the sign of
      the dividend. */
  function TRem(a: int, b: int): (r: int)
    requires b != 0
    ensures a == TDiv(a, b) * b + r
    ensures Abs(r) < Abs(b)
    ensures r != 0 ==> ((r < 0) <==> (a < 0))
  {
    var m := Abs(a) % Abs(b);
    var d := Abs(a) / Abs(b);
    assert Abs(a) == d * Abs(b) + m;
    assert TDiv(a, b) * b == if a < 0 then -(d * Abs(b)) else d * Abs(b) by {
      if (a < 0) == (b < 0) {
        if b < 0 { assert d * b == -(d * Abs(b)); }
      } else {
        if b < 0 { assert -d * b == d * Abs(b); } else { assert -d * b == -(d * Abs(b)); }
      }
    }
    if a < 0 then -m else m
  }

  lemma MulAtLeast(x: nat, y: nat)
    requires y >= 1
    ensures x * y >= x && y * x >= x
  {
  }

  /** `checked_div`: None for a zero divisor and for MIN / -1. */
  function CheckedDiv(w: Width, a: int, b: int): (r: Option<int>)
    requires InRange(w, a) && InRange(w, b)
    ensures r.None? <==> b == 0 || (a == -Half(w) && b == -1)
    ensures r.Some? ==> InRange(w, r.value) && r.value == TDiv(a, b)
  {
    if b == 0 || (a == -Half(w) && b == -1) then None
    else
      var q := TDiv(a, b);
      MulAtLeast(Abs(q), Abs(b));
      assert Abs(q) <= Abs(a);
      assert q == Half(w) ==> a == -Half(w) && Abs(b) == 1 && b < 0;
      Some(q)
  }

  /** `checked_rem`: None exactly where `checked_div` is None. */
  function CheckedRem(w: Width, a: int, b: int): (r: Option<int>)
    requires InRange(w, a) && InRange(w, b)
    ensures r.None? <==> b == 0 || (a == -Half(w) && b == -1)
    ensures r.Some? ==> InRange(w, r.value) && r.value == TRem(a, b)
  {
    if b == 0 || (a == -Half(w) && b == -1) then None else Some(TRem(a, b))
  }

  function Pow2(n: nat): (p: nat)
    ensures p >= 1
  {
    if n == 0 then 1 else 2 * Pow2(n - 1)
  }

  const U32_MODULUS: int := 0x1_0000_0000

  /** `as u32` on a signed integer: keeps the low 32 bits, so negative
      amounts become large ones and 64-bit amounts lose their high half. */
  function AsU32(x: int): (n: nat)
    ensures n < U32_MODULUS
    ensures (n - x) % U32_MODULUS == 0
  {
    var k := x / U32_MODULUS;
    assert x % U32_MODULUS - x == -k * U32_MODULUS;
    x % U32_MODULUS
  }

  /** `checked_shl`: None when the amount is not below the bit width;
      otherwise the bits shifted out of the width are lost. */
  function CheckedShl(w: Width, a: int, n: nat): (r: Option<int>)
    ensures r.None? <==> n >= Bits(w)
    ensures r.Some? ==> InRange(w, r.value) && (r.value - a * Pow2(n)) % Modulus(w) == 0
  {
    if n >= Bits(w) then None else Some(Wrap(w, a * Pow2(n)))
  }

  /** `checked_shr` on a signed integer: an arithmetic shift, which rounds
      toward negative infinity. */
  function CheckedShr(w: Width, a: int, n: nat): (r: Option<int>)
    requires InRange(w, a)
    ensures r.None? <==> n >= Bits(w)
    ensures r.Some? ==> InRange(w, r.value) && r.value * Pow2(n) <= a < (r.value + 1) * Pow2(n)
  {
    if n >= Bits(w) then None
    else
      var p := Pow2(n);
      var q := a / p;
      assert q * p <= a < (q + 1) * p;
      ShiftRightInRange(w, a, p, q);
      Some(q)
  }

  lemma ShiftRightInRange(w: Width, a: int, p: nat, q: int)
    requires InRange(w, a) && p >= 1
    requires q * p <= a < (q + 1) * p
    ensures InRange(w, q)
  {
    if q >= 0 {
      MulAtLeast(q, p);
      assert q <= q * p;
    } else {
      assert (q + 1) * p <= q + 1 by {
        if q + 1 < 0 {
          MulAtLeast(-(q + 1), p);
          assert (q + 1) * p == -((-(q + 1)) * p);
        }
      }
    }
  }

  lemma {:induction false} Pow2Add(a: nat, b: nat)
    ensures Pow2(a + b) == Pow2(a) * Pow2(b)
    decreases a
  {
    if a > 0 {
      Pow2Add(a - 1, b);
      assert Pow2(a + b) == 2 * (Pow2(a - 1) * Pow2(b));
    }
  }

  /** A width's modulus is 2 to the number of its bits. */
  lemma Pow2Bits(w: Width)
    ensures Pow2(Bits(w)) == Modulus(w)
  {
    Pow2Widths();
  }

  lemma Pow2Widths()
    ensures Pow2(16) == 0x1_0000 && Pow2(32) == 0x1_0000_0000 && Pow2(64) == 0x1_0000_0000_0000_0000
  {
    assert Pow2(4) == 16 by {
      assert Pow2(2) == 4;
    }
    Pow2Add(4, 4);
    assert Pow2(8) == 0x100;
    Pow2Add(8, 8);
    assert Pow2(16) == 0x1_0000;
    Pow2Add(16, 16);
    assert Pow2(32) == 0x1_0000_0000;
    Pow2Add(32, 32);
  }

  /** The two's-complement encoding of `x` in width `w`: its bits read as an
      unsigned number, which is its residue modulo 2^Bits(w). */
  function Unsigned(w: Width, x: int): (u: nat)
    ensures u < Modulus(w)
    ensures (u - x) % Modulus(w) == 0
  {
    var k := x / Modulus(w);
    assert x % Modulus(w) - x == -k * Modulus(w);
    x % Modulus(w)
  }

  /** `Wrap` decodes what `Unsigned` encodes, and the reverse: the two are
      the two's-complement encoding of the width and its inverse. */
  lemma EncodingRoundTrip(w: Width, x: int, u: nat)
    requires InRange(w, x) && u < Modulus(w)
    ensures Wrap(w, Unsigned(w, x)) == x
    ensures Unsigned(w, Wrap(w, u)) == u
  {
    WrapCongruent(w, Unsigned(w, x), x);
    WrapIdentity(w, x);
    var v := Wrap(w, u);
    var k := (v - u) / Modulus(w);
    assert v == u + k * Modulus(w);
    ModuloShift(u, k, Modulus(w));
    DivModUnique(u, Modulus(w), 0, u);
  }

  /** Bit `i` of the unsigned number `u`, counting from the lowest. */
  function Bit(u: nat, i: nat): bool
    decreases i
  {
    if i == 0 then u % 2 == 1 else Bit(u / 2, i - 1)
  }

  predicate IsBitwiseOpcode(op: Opcode) {
    op == And || op == Or || op == Xor
  }

  /** `&`, `|` and `^` on single bits, which are also the operators on
      Booleans. */
  function BitOp(op: Opcode, p: bool, q: bool): bool
    requires IsBitwiseOpcode(op)
  {
    if op == And then p && q else if op == Or then p || q else p != q
  }

  /** `&`, `|` or `^` on the low `k` bits of two unsigned numbers, lowest bit
      first. */
  function BitwiseNat(op: Opcode, x: nat, y: nat, k: nat): (r: nat)
    requires IsBitwiseOpcode(op)
    ensures r < Pow2(k)
    decreases k
  {
    if k == 0 then 0
    else (if BitOp(op, x % 2 == 1, y % 2 == 1) then 1 else 0) + 2 * BitwiseNat(op, x / 2, y / 2, k - 1)
  }

  /** `&`, `|` and `^` on the two's-complement bits of the width. */
  function Bitwise(op: Opcode, w: Width, a: int, b: int): (r: int)
    requires IsBitwiseOpcode(op)
    requires InRange(w, a) && InRange(w, b)
    ensures InRange(w, r)
    ensures Unsigned(w, r) == BitwiseNat(op, Unsigned(w, a), Unsigned(w, b), Bits(w))
  {
    var u := BitwiseNat(op, Unsigned(w, a), Unsigned(w, b), Bits(w));
    Pow2Bits(w);
    EncodingRoundTrip(w, 0, u);
    Wrap(w, u)
  }

  /** The lowest bit of the combination is the operator on the lowest bits,
      and the others are the combination of the operands halved. */
  lemma LowestBit(op: Opcode, x: nat, y: nat, k: nat)
    requires IsBitwiseOpcode(op) && k > 0
    ensures Bit(BitwiseNat(op, x, y, k), 0) == BitOp(op, Bit(x, 0), Bit(y, 0))
    ensures BitwiseNat(op, x, y, k) / 2 == BitwiseNat(op, x / 2, y / 2, k - 1)
  {
    var bit := if BitOp(op, x % 2 == 1, y % 2 == 1) then 1 else 0;
    var rest := BitwiseNat(op, x / 2, y / 2, k - 1);
    assert BitwiseNat(op, x, y, k) == rest * 2 + bit;
    DivModUnique(BitwiseNat(op, x, y, k), 2, rest, bit);
  }

  /** Bit `i` of the result is the operator applied to bit `i` of each operand. */
  lemma {:induction false} BitwiseNatBits(op: Opcode, x: nat, y: nat, k: nat, i: nat)
    requires IsBitwiseOpcode(op) && i < k
    ensures Bit(BitwiseNat(op, x, y, k), i) == BitOp(op, Bit(x, i), Bit(y, i))
    decreases i
  {
    LowestBit(op, x, y, k);
    if i > 0 {
      BitwiseNatBits(op, x / 2, y / 2, k - 1, i - 1);
    }
  }

  /** For each of the width's bits, bit `i` of `a op b` is bit `i` of `a`
      combined with bit `i` of `b`. */
  lemma BitwiseBits(op: Opcode, w: Width, a: int, b: int, i: nat)
    requires IsBitwiseOpcode(op) && InRange(w, a) && InRange(w, b) && i < Bits(w)
    ensures Bit(Unsigned(w, Bitwise(op, w, a, b)), i) == BitOp(op, Bit(Unsigned(w, a), i), Bit(Unsigned(w, b), i))
  {
    BitwiseNatBits(op, Unsigned(w, a), Unsigned(w, b), Bits(w), i);
  }

  lemma {:induction false} BitwiseNatCommutes(op: Opcode, x: nat, y: nat, k: nat)
    requires IsBitwiseOpcode(op)
    ensures BitwiseNat(op, x, y, k) == BitwiseNat(op, y, x, k)
    decreases k
  {
    if k > 0 {
      BitwiseNatCommutes(op, x / 2, y / 2, k - 1);
    }
  }

  /** `x & x` and `x | x` are `x`, `x ^ x` is 0, `x & 11…1` is `x` and
      `x | 0` is `x`, on the low `k` bits. */
  lemma {:induction false} BitwiseNatLaws(x: nat, k: nat)
    requires x < Pow2(k)
    ensures BitwiseNat(And, x, x, k) == x && BitwiseNat(Or, x, x, k) == x
    ensures BitwiseNat(Xor, x, x, k) == 0
    ensures BitwiseNat(And, x, Pow2(k) - 1, k) == x
    ensures BitwiseNat(Or, x, 0, k) == x
    decreases k
  {
    if k > 0 {
      assert x == x % 2 + 2 * (x / 2);
      assert x / 2 < Pow2(k - 1);
      var ones := Pow2(k) - 1;
      assert ones == 1 + 2 * (Pow2(k - 1) - 1);
      DivModUnique(ones, 2, Pow2(k - 1) - 1, 1);
      BitwiseNatLaws(x / 2, k - 1);
    }
  }

  /** The identities of `&`, `|` and `^` on integers of one width. */
  lemma BitwiseLaws(w: Width, a: int, b: int)
    requires InRange(w, a) && InRange(w, b)
    ensures Bitwise(And, w, a, b) == Bitwise(And, w, b, a)
    ensures Bitwise(Or, w, a, b) == Bitwise(Or, w, b, a)
    ensures Bitwise(Xor, w, a, b) == Bitwise(Xor, w, b, a)
    ensures Bitwise(And, w, a, a) == a && Bitwise(Or, w, a, a) == a
    ensures Bitwise(Xor, w, a, a) == 0
    ensures Bitwise(And, w, a, -1) == a
    ensures Bitwise(Or, w, a, 0) == a
  {
    var x, y := Unsigned(w, a), Unsigned(w, b);
    BitwiseNatCommutes(And, x, y, Bits(w));
    BitwiseNatCommutes(Or, x, y, Bits(w));
    BitwiseNatCommutes(Xor, x, y, Bits(w));
    Pow2Bits(w);
    BitwiseNatLaws(x, Bits(w));
    DivModUnique(-1, Modulus(w), -1, Modulus(w) - 1);
    DivModUnique(0, Modulus(w), 0, 0);
    EncodingRoundTrip(w, a, 0);
    WrapIdentity(w, 0);
  }
}
