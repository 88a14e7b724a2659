/** Bitwise operations on unbounded naturals, defined bit by bit from the
    least significant end. They give the C operators `&`, `|` and `^` on
    bytes their meaning without bit-vector arithmetic. */
module Bits {

  function Pow2(n: nat): (r: nat)
    ensures r >= 1
  {
    if n == 0 then 1 else 2 * Pow2(n - 1)
  }

  lemma Pow2Byte()
    ensures Pow2(7) == 0x80 && Pow2(8) == 0x100
  {
    assert Pow2(1) == 2 && Pow2(2) == 4 && Pow2(3) == 8 && Pow2(4) == 16;
    assert Pow2(5) == 32 && Pow2(6) == 64;
  }

  /** Bit `k` of `a`, bit 0 being the least significant. */
  predicate Bit(a: nat, k: nat)
  {
    (a / Pow2(k)) % 2 == 1
  }

  datatype Op = AndOp | OrOp | XorOp

  /** What an operator does to one pair of bits. */
  predicate Combine(op: Op, p: bool, q: bool)
  {
    match op
    case AndOp => p && q
    case OrOp => p || q
    case XorOp => p != q
  }

  /** The operator applied to the low `n` bits of `a` and `b`. */
  function Bitwise(op: Op, a: nat, b: nat, n: nat): (r: nat)
    ensures r < Pow2(n)
  {
    if n == 0 then 0
    else 2 * Bitwise(op, a / 2, b / 2, n - 1) + (if Combine(op, a % 2 == 1, b % 2 == 1) then 1 else 0)
  }

  /** Bit `k + 1` of `a` is bit `k` of `a / 2`. */
  lemma BitHalf(a: nat, k: nat)
    ensures Bit(a, k + 1) == Bit(a / 2, k)
  {
    HalfDiv(a, Pow2(k));
  }

  /** Dividing by `2 * c` is halving, then dividing by `c`. */
  lemma HalfDiv(a: nat, c: nat)
    requires c > 0
    ensures a / (2 * c) == (a / 2) / c
  {
    var q, r := (a / 2) / c, (a / 2) % c;
    assert a / 2 == q * c + r;
    assert a == q * (2 * c) + (2 * r + a % 2);
    DivMod(a, 2 * c, q, 2 * r + a % 2);
  }

  /** Quotient and remainder are determined by any decomposition. */
  lemma DivMod(w: int, d: int, q: int, r: int)
    requires 0 < d && 0 <= r < d && w == q * d + r
    ensures w / d == q && w % d == r
  {
    var q', r' := w / d, w % d;
    assert (q - q') * d == r' - r;
    if q > q' {
      MulAtLeast(q - q', d);
    } else if q < q' {
      MulAtLeast(q' - q, d);
    }
  }

  lemma MulAtLeast(k: int, d: int)
    requires 1 <= k && 0 < d
    ensures k * d >= d
  {
  }

  /** The result's bit `k` is the operator applied to the operands' bit `k`:
      `Bitwise` is the bitwise operator. */
  lemma {:induction false} BitwiseBit(op: Op, a: nat, b: nat, n: nat, k: nat)
    requires k < n
    ensures Bit(Bitwise(op, a, b, n), k) == Combine(op, Bit(a, k), Bit(b, k))
    decreases k
  {
    var low := if Combine(op, a % 2 == 1, b % 2 == 1) then 1 else 0;
    var r := Bitwise(op, a, b, n);
    var h := Bitwise(op, a / 2, b / 2, n - 1);
    assert r == h * 2 + low;
    DivMod(r, 2, h, low);
    if k == 0 {
      assert Pow2(0) == 1;
      assert Bit(r, 0) == (low == 1) && Bit(a, 0) == (a % 2 == 1) && Bit(b, 0) == (b % 2 == 1);
    } else {
      BitwiseBit(op, a / 2, b / 2, n - 1, k - 1);
      BitHalf(r, k - 1);
      BitHalf(a, k - 1);
      BitHalf(b, k - 1);
    }
  }

  /** XOR with the same operand twice gives back the low bits of the
      original. */
  lemma {:induction false} XorTwice(a: nat, b: nat, n: nat)
    ensures Bitwise(XorOp, Bitwise(XorOp, a, b, n), b, n) == a % Pow2(n)
  {
    if n > 0 {
      var once := Bitwise(XorOp, a, b, n);
      assert once / 2 == Bitwise(XorOp, a / 2, b / 2, n - 1);
      assert once % 2 == (if (a % 2 == 1) != (b % 2 == 1) then 1 else 0);
      XorTwice(a / 2, b / 2, n - 1);
      LowBits(a, n);
    }
  }

  /** The low `n` bits of `a` are its last bit and the low `n - 1` bits of
      `a / 2`. */
  lemma LowBits(a: nat, n: nat)
    requires n > 0
    ensures a % Pow2(n) == 2 * ((a / 2) % Pow2(n - 1)) + a % 2
  {
    var p := Pow2(n - 1);
    var q, r := (a / 2) / p, (a / 2) % p;
    assert a / 2 == q * p + r;
    assert a == q * Pow2(n) + (2 * r + a % 2);
    DivMod(a, Pow2(n), q, 2 * r + a % 2);
  }

  /** AND keeps only bits of its first operand. */
  lemma {:induction false} AndAtMost(a: nat, b: nat, n: nat)
    ensures Bitwise(AndOp, a, b, n) <= a % Pow2(n)
  {
    if n > 0 {
      AndAtMost(a / 2, b / 2, n - 1);
      LowBits(a, n);
    }
  }

  /** The operators are symmetric in their operands. */
  lemma {:induction false} BitwiseSymmetric(op: Op, a: nat, b: nat, n: nat)
    ensures Bitwise(op, a, b, n) == Bitwise(op, b, a, n)
  {
    if n > 0 {
      BitwiseSymmetric(op, a / 2, b / 2, n - 1);
    }
  }
}
