// Bitwise operations on natural numbers of any width.
module BitOps {

  /** a and b combined bit by bit; op gives 0 on two zeros. */
  function Bits(op: (nat, nat) -> nat, a: nat, b: nat): nat {
    if a == 0 && b == 0 then 0 else op(a % 2, b % 2) + 2 * Bits(op, a / 2, b / 2)
  }

  function AndBit(x: nat, y: nat): nat { if x == 1 && y == 1 then 1 else 0 }
  function OrBit(x: nat, y: nat): nat { if x == 1 || y == 1 then 1 else 0 }
  function XorBit(x: nat, y: nat): nat { if x != y then 1 else 0 }

  function And(a: nat, b: nat): nat { Bits(AndBit, a, b) }
  function Or(a: nat, b: nat): nat { Bits(OrBit, a, b) }
  function Xor(a: nat, b: nat): nat { Bits(XorBit, a, b) }

  /** x shifted left by j. */
  function Shl(x: nat, j: nat): nat { if j == 0 then x else 2 * Shl(x, j - 1) }

  /** Trailing zeros of a non-zero number. */
  function Ctz(n: nat): nat
    requires n > 0
  {
    if n % 2 == 1 then 0 else 1 + Ctz(n / 2)
  }

  ghost predicate IsBitOp(op: (nat, nat) -> nat) { op(0, 0) == 0 && forall x, y :: op(x, y) <= 1 }

  lemma HalfStep(x: nat, q: nat)
    ensures (x + 2 * q) % 2 == x % 2 && (x + 2 * q) / 2 == x / 2 + q
  {
  }

  lemma BitsStep(op: (nat, nat) -> nat, x: nat, p: nat, y: nat, q: nat)
    requires op(0, 0) == 0
    ensures Bits(op, x + 2 * p, y + 2 * q) == op(x % 2, y % 2) + 2 * Bits(op, x / 2 + p, y / 2 + q)
  {
    HalfStep(x, p);
    HalfStep(y, q);
    if x + 2 * p == 0 && y + 2 * q == 0 { assert x / 2 + p == 0 && y / 2 + q == 0; }
  }

  lemma SplitStep(op: (nat, nat) -> nat, x: nat, p: nat, y: nat, q: nat, h: nat)
    requires op(0, 0) == 0 && Bits(op, x / 2 + p, y / 2 + q) == Bits(op, x / 2, y / 2) + h
    ensures Bits(op, x + 2 * p, y + 2 * q) == Bits(op, x, y) + 2 * h
  {
    BitsStep(op, x, p, y, q);
    BitsStep(op, x, 0, y, 0);
  }

  /** The low j bits and the bits above them are combined separately. */
  lemma {:induction false} Split(op: (nat, nat) -> nat, x: nat, X: nat, y: nat, Y: nat, j: nat)
    requires IsBitOp(op) && x < Shl(1, j) && y < Shl(1, j)
    ensures Bits(op, x + Shl(X, j), y + Shl(Y, j)) == Bits(op, x, y) + Shl(Bits(op, X, Y), j)
    decreases j
  {
    if j > 0 {
      Split(op, x / 2, X, y / 2, Y, j - 1);
      SplitStep(op, x, Shl(X, j - 1), y, Shl(Y, j - 1), Shl(Bits(op, X, Y), j - 1));
    }
  }

  lemma {:induction false} ShlZero(X: nat, j: nat)
    ensures Shl(X, j) == 0 <==> X == 0
  {
    if j > 0 { ShlZero(X, j - 1); }
  }

  lemma {:induction false} BitsBound(op: (nat, nat) -> nat, a: nat, b: nat, k: nat)
    requires IsBitOp(op) && a < Shl(1, k) && b < Shl(1, k)
    ensures Bits(op, a, b) < Shl(1, k)
    decreases k
  {
    if k > 0 { BitsBound(op, a / 2, b / 2, k - 1); }
  }

  lemma {:induction false} AndNone(a: nat)
    ensures And(a, 0) == 0
  {
    if a > 0 { AndNone(a / 2); }
  }

  lemma {:induction false} AndAll(a: nat, k: nat)
    requires a < Shl(1, k)
    ensures And(a, Shl(1, k) - 1) == a
    decreases k
  {
    if k > 0 {
      HalfStep(1, Shl(1, k - 1) - 1);
      AndAll(a / 2, k - 1);
    }
  }

  lemma {:induction false} OrZero(a: nat, b: nat)
    ensures Or(a, b) == 0 <==> a == 0 && b == 0
  {
    if a > 0 || b > 0 { OrZero(a / 2, b / 2); }
  }

  lemma {:induction false} XorZero(a: nat, b: nat)
    ensures Xor(a, b) == 0 <==> a == b
  {
    if a > 0 || b > 0 { XorZero(a / 2, b / 2); }
  }

  lemma {:induction false} CtzShift(m: nat, j: nat)
    requires m > 0
    ensures Shl(m, j) > 0 && Ctz(Shl(m, j)) == j + Ctz(m)
  {
    if j > 0 { CtzShift(m, j - 1); }
  }

  lemma {:induction false} CtzLow(x: nat, m: nat, j: nat)
    requires 0 < x < Shl(1, j)
    ensures Ctz(x + Shl(m, j)) < j
    decreases j
  {
    if j > 0 {
      HalfStep(x, Shl(m, j - 1));
      if x % 2 == 0 { CtzLow(x / 2, m, j - 1); }
    }
  }
}
