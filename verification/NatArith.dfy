// The arithmetic primitives (src/kam.cpp, src/nbe.cpp): each meets the laws of the operation it stands for.
module NatArith {
  import opened Names
  import opened Terms
  import opened Conversion
  import BitOps

  /** The primitive on numerals a and b answers the numeral r. */
  predicate Computes(op: string, a: nat, b: nat, r: nat) { NatBinop(NatFn(op), a, b) == Some(Lit(NatLit(r))) }

  ghost predicate Divides(d: nat, n: nat) { exists q: nat :: n == q * d }

  /** Binary digit i of n. */
  predicate Bit(n: nat, i: nat) { if i == 0 then n % 2 == 1 else Bit(n / 2, i - 1) }

  const DIGIT_OPS := {"land", "lor", "xor", "shiftLeft"}
  const NUMERAL_OPS := {"add", "sub", "mul", "pow", "gcd", "mod", "div", "shiftRight"} + DIGIT_OPS
  const WORD := 0x1_0000_0000_0000_0000

  /** What digit i of an operation on digits is, from the digits of its arguments. */
  predicate Digit(op: string, a: nat, b: nat, i: nat) {
    match op
    case "land" => Bit(a, i) && Bit(b, i)
    case "lor" => Bit(a, i) || Bit(b, i)
    case "xor" => Bit(a, i) != Bit(b, i)
    case _ => i >= b && Bit(a, i - b)
  }

  /** q is the whole part of a / p. */
  predicate Quotient(a: nat, p: nat, q: nat) { q * p <= a < q * p + p }

  ghost predicate IsRemainder(a: nat, b: nat, r: nat) { r < b && exists q: nat :: a == b * q + r }

  ghost predicate IsGcd(a: nat, b: nat, r: nat) {
    Divides(r, a) && Divides(r, b) && forall d: nat :: Divides(d, a) && Divides(d, b) ==> Divides(d, r)
  }

  // The operations, by the laws that fix their results: recursion equations for sums, products and powers.
  predicate SumLaw(a: nat, b: nat, r: nat) { if b == 0 then r == a else r > 0 && Computes("add", a, b - 1, r - 1) }
  predicate DifferenceLaw(a: nat, b: nat, r: nat) { if a >= b then r + b == a else r == 0 }
  predicate ProductLaw(a: nat, b: nat, r: nat) { if b == 0 then r == 0 else r >= a && Computes("mul", a, b - 1, r - a) }
  ghost predicate PowerLaw(a: nat, b: nat, r: nat) {
    if b == 0 then r == 1 else exists p: nat :: Computes("pow", a, b - 1, p) && r == p * a
  }
  ghost predicate ModLaw(a: nat, b: nat, r: nat) { if b == 0 then r == a else IsRemainder(a, b, r) }
  predicate DivLaw(a: nat, b: nat, r: nat) { if b == 0 then r == 0 else Quotient(a, b, r) }
  ghost predicate ShiftRightLaw(a: nat, b: nat, r: nat) {
    if b >= WORD then r == 0 else exists p: nat :: Computes("pow", 2, b, p) && Quotient(a, p, r)
  }
  ghost predicate DigitLaw(op: string, a: nat, b: nat, r: nat) { forall i: nat :: Bit(r, i) == Digit(op, a, b, i) }

  ghost predicate Meets(op: string, a: nat, b: nat, r: nat) {
    match op
    case "add" => SumLaw(a, b, r)
    case "sub" => DifferenceLaw(a, b, r)
    case "mul" => ProductLaw(a, b, r)
    case "pow" => PowerLaw(a, b, r)
    case "gcd" => IsGcd(a, b, r)
    case "mod" => ModLaw(a, b, r)
    case "div" => DivLaw(a, b, r)
    case "shiftRight" => ShiftRightLaw(a, b, r)
    case _ => DigitLaw(op, a, b, r)
  }

  // ---------------------------------------------------------------- quotients and divisors

  lemma TimesMono(m: nat, n: nat, p: nat)
    ensures m <= n ==> m * p <= n * p
  {
  }

  lemma QuotientUnique(a: nat, p: nat, q: nat, r: nat)
    requires Quotient(a, p, q) && Quotient(a, p, r)
    ensures q == r
  {
    TimesMono(q + 1, r, p);
    TimesMono(r + 1, q, p);
  }

  lemma DivMod(a: nat, b: nat)
    requires b > 0
    ensures Quotient(a, b, a / b) && IsRemainder(a, b, a % b)
  {
    assert a == b * (a / b) + a % b;
  }

  lemma RemainderUnique(a: nat, b: nat, r: nat)
    requires b > 0 && IsRemainder(a, b, r)
    ensures r == a % b
  {
    var q: nat :| a == b * q + r;
    DivMod(a, b);
    QuotientUnique(a, b, q, a / b);
  }

  lemma DividesSum(d: nat, m: nat, n: nat)
    requires Divides(d, m) && Divides(d, n)
    ensures Divides(d, m + n)
  {
    var p: nat, q: nat :| m == p * d && n == q * d;
    assert m + n == (p + q) * d;
  }

  lemma DividesTimes(d: nat, m: nat, k: nat)
    requires Divides(d, m)
    ensures Divides(d, k * m)
  {
    var p: nat :| m == p * d;
    assert k * m == (k * p) * d;
  }

  lemma DividesRest(d: nat, m: nat, n: nat)
    requires Divides(d, m) && Divides(d, m + n)
    ensures Divides(d, n)
  {
    var p: nat, q: nat :| m == p * d && m + n == q * d;
    if q >= p {
      assert n == (q - p) * d;
    } else {
      assert (p - q) * d >= 0;
      assert n == 0 * d;
    }
  }

  /** One step of the algorithm keeps the common divisors. */
  lemma GcdStep(d: nat, a: nat, b: nat)
    requires b > 0 && Divides(d, b)
    ensures Divides(d, a) <==> Divides(d, a % b)
  {
    DividesTimes(d, b, a / b);
    assert a == a / b * b + a % b;
    if Divides(d, a) { DividesRest(d, a / b * b, a % b); }
    if Divides(d, a % b) { DividesSum(d, a / b * b, a % b); }
  }

  lemma {:induction false} GcdIs(a: nat, b: nat)
    ensures IsGcd(a, b, Gcd(a, b))
    decreases b
  {
    var r := Gcd(a, b);
    if b == 0 {
      assert a == 1 * a && 0 == 0 * a;
    } else {
      GcdIs(b, a % b);
      GcdStep(r, a, b);
      forall d: nat | Divides(d, a) && Divides(d, b) ensures Divides(d, r) { GcdStep(d, a, b); }
    }
  }

  lemma DividesBoth(m: nat, n: nat)
    requires Divides(m, n) && Divides(n, m)
    ensures m == n
  {
    var p: nat, q: nat :| n == p * m && m == q * n;
    TimesMono(1, q, n);
    TimesMono(1, p, m);
  }

  lemma GcdUnique(a: nat, b: nat, r: nat)
    requires IsGcd(a, b, r)
    ensures r == Gcd(a, b)
  {
    GcdIs(a, b);
    DividesBoth(r, Gcd(a, b));
  }

  // ---------------------------------------------------------------- binary digits

  lemma {:induction false} NoBits(n: nat)
    requires forall i: nat :: !Bit(n, i)
    ensures n == 0
  {
    if n > 0 {
      assert !Bit(n, 0);
      forall i: nat ensures !Bit(n / 2, i) { assert !Bit(n, i + 1); }
      NoBits(n / 2);
    }
  }

  lemma {:induction false} ZeroBits(i: nat)
    ensures !Bit(0, i)
  {
    if i > 0 { ZeroBits(i - 1); }
  }

  /** A numeral is fixed by its digits. */
  lemma {:induction false} BitsUnique(m: nat, n: nat)
    requires forall i: nat :: Bit(m, i) == Bit(n, i)
    ensures m == n
    decreases m
  {
    if m == 0 {
      forall i: nat ensures !Bit(n, i) { ZeroBits(i); }
      NoBits(n);
    } else {
      assert Bit(m, 0) == Bit(n, 0);
      forall i: nat ensures Bit(m / 2, i) == Bit(n / 2, i) { assert Bit(m, i + 1) == Bit(n, i + 1); }
      BitsUnique(m / 2, n / 2);
    }
  }

  /** Digit i of a bitwise combination comes from the two digits i. */
  lemma {:induction false} BitsAt(op: (nat, nat) -> nat, a: nat, b: nat, i: nat)
    requires BitOps.IsBitOp(op)
    ensures Bit(BitOps.Bits(op, a, b), i) == (op(if Bit(a, i) then 1 else 0, if Bit(b, i) then 1 else 0) == 1)
    decreases i
  {
    if a == 0 && b == 0 {
      ZeroBits(i);
    } else if i == 0 {
      assert op(a % 2, b % 2) <= 1;
    } else {
      BitsAt(op, a / 2, b / 2, i - 1);
      var low, high := op(a % 2, b % 2), BitOps.Bits(op, a / 2, b / 2);
      assert low <= 1;
      assert (low + 2 * high) / 2 == high;
    }
  }

  lemma BitwiseIs(a: nat, b: nat, i: nat)
    ensures Bit(BitOps.And(a, b), i) == (Bit(a, i) && Bit(b, i))
    ensures Bit(BitOps.Or(a, b), i) == (Bit(a, i) || Bit(b, i))
    ensures Bit(BitOps.Xor(a, b), i) == (Bit(a, i) != Bit(b, i))
  {
    BitsAt(BitOps.AndBit, a, b, i);
    BitsAt(BitOps.OrBit, a, b, i);
    BitsAt(BitOps.XorBit, a, b, i);
  }

  // ---------------------------------------------------------------- shifts

  lemma PowTwice(a: nat, b: nat)
    requires b > 0
    ensures a * Pow(2, b) == 2 * (a * Pow(2, b - 1))
  {
    assert Pow(2, b) == 2 * Pow(2, b - 1);
    assert a * (2 * Pow(2, b - 1)) == 2 * (a * Pow(2, b - 1));
  }

  lemma {:induction false} ShiftLeftBit(a: nat, b: nat, i: nat)
    ensures Bit(a * Pow(2, b), i) == (i >= b && Bit(a, i - b))
    decreases b
  {
    if b > 0 {
      PowTwice(a, b);
      if i > 0 { ShiftLeftBit(a, b - 1, i - 1); }
    }
  }

  lemma {:induction false} ShiftRightIs(a: nat, b: nat)
    requires b < WORD
    ensures Quotient(a, Pow(2, b), ShiftRight(a, b))
    decreases b
  {
    if b > 0 {
      ShiftRightIs(a / 2, b - 1);
      var q := ShiftRight(a, b);
      PowTwice(1, b);
      PowTwice(q, b);
    }
  }

  // ---------------------------------------------------------------- the primitives

  function Answer(op: string, a: nat, b: nat): nat {
    match op
    case "add" => a + b
    case "sub" => if a >= b then a - b else 0
    case "mul" => a * b
    case "pow" => Pow(a, b)
    case "gcd" => Gcd(a, b)
    case "mod" => if b == 0 then a else a % b
    case "div" => if b == 0 then 0 else a / b
    case "land" => BitOps.And(a, b)
    case "lor" => BitOps.Or(a, b)
    case "xor" => BitOps.Xor(a, b)
    case "shiftLeft" => a * Pow(2, b)
    case _ => ShiftRight(a, b)
  }

  lemma Answers(op: string, a: nat, b: nat, r: nat)
    requires op in NUMERAL_OPS
    ensures Computes(op, a, b, r) <==> r == Answer(op, a, b)
  {
    hide Pow, Gcd, ShiftRight, BitOps.And, BitOps.Or, BitOps.Xor;
  }

  lemma SumExact(a: nat, b: nat, r: nat)
    ensures r == a + b <==> SumLaw(a, b, r)
  {
    hide Computes;
    if b > 0 && r > 0 { Answers("add", a, b - 1, r - 1); }
  }

  lemma ProductExact(a: nat, b: nat, r: nat)
    ensures r == a * b <==> ProductLaw(a, b, r)
  {
    hide Computes;
    if b > 0 {
      assert a * b == a * (b - 1) + a;
      if r >= a { Answers("mul", a, b - 1, r - a); }
    }
  }

  lemma PowerExact(a: nat, b: nat, r: nat)
    ensures r == Pow(a, b) <==> PowerLaw(a, b, r)
  {
    hide Computes;
    if b > 0 {
      var c: nat := b - 1;
      var p := Pow(a, c);
      forall q: nat ensures Computes("pow", a, c, q) <==> q == p { Answers("pow", a, c, q); }
      assert p * a == Pow(a, b);
    }
  }

  lemma GcdExact(a: nat, b: nat, r: nat)
    ensures r == Gcd(a, b) <==> IsGcd(a, b, r)
  {
    GcdIs(a, b);
    if IsGcd(a, b, r) { GcdUnique(a, b, r); }
  }

  lemma ModExact(a: nat, b: nat, r: nat)
    ensures r == (if b == 0 then a else a % b) <==> ModLaw(a, b, r)
  {
    if b > 0 {
      DivMod(a, b);
      if IsRemainder(a, b, r) { RemainderUnique(a, b, r); }
    }
  }

  lemma DivExact(a: nat, b: nat, r: nat)
    ensures r == (if b == 0 then 0 else a / b) <==> DivLaw(a, b, r)
  {
    if b > 0 {
      DivMod(a, b);
      if Quotient(a, b, r) { QuotientUnique(a, b, r, a / b); }
    }
  }

  lemma ShiftRightExact(a: nat, b: nat, r: nat)
    ensures r == ShiftRight(a, b) <==> ShiftRightLaw(a, b, r)
  {
    hide Computes, Quotient;
    if b < WORD {
      var p := Pow(2, b);
      forall q: nat ensures Computes("pow", 2, b, q) <==> q == p { Answers("pow", 2, b, q); }
      ShiftRightIs(a, b);
      if Quotient(a, p, r) { QuotientUnique(a, p, r, ShiftRight(a, b)); }
    }
  }

  lemma DigitsExact(op: string, a: nat, b: nat, r: nat)
    requires op in DIGIT_OPS
    ensures r == Answer(op, a, b) <==> DigitLaw(op, a, b, r)
  {
    hide Bit, Pow, BitOps.Bits;
    var v := Answer(op, a, b);
    forall i: nat ensures Bit(v, i) == Digit(op, a, b, i) { BitwiseIs(a, b, i); ShiftLeftBit(a, b, i); }
    if DigitLaw(op, a, b, r) { BitsUnique(r, v); }
  }

  /** A numeral primitive answers r on a and b if and only if r meets the operation's laws. */
  lemma PrimitiveExact(op: string, a: nat, b: nat, r: nat)
    requires op in NUMERAL_OPS
    ensures Computes(op, a, b, r) <==> Meets(op, a, b, r)
  {
    hide Computes, SumLaw, ProductLaw, PowerLaw, IsGcd, ModLaw, DivLaw, ShiftRightLaw, DigitLaw;
    hide Pow, Gcd, ShiftRight, BitOps.And, BitOps.Or, BitOps.Xor;
    Answers(op, a, b, r);
    if op in DIGIT_OPS { DigitsExact(op, a, b, r); }
    SumExact(a, b, r);
    ProductExact(a, b, r);
    PowerExact(a, b, r);
    GcdExact(a, b, r);
    ModExact(a, b, r);
    DivExact(a, b, r);
    ShiftRightExact(a, b, r);
  }

  /** The two tests answer the Boolean constants. */
  lemma TestsExact(a: nat, b: nat)
    ensures NatBinop(NatFn("beq"), a, b) == Some(Const(BOOL_TRUE, [])) <==> a == b
    ensures NatBinop(NatFn("beq"), a, b) == Some(Const(BOOL_FALSE, [])) <==> a != b
    ensures NatBinop(NatFn("ble"), a, b) == Some(Const(BOOL_TRUE, [])) <==> exists k: nat :: Computes("add", a, k, b)
    ensures NatBinop(NatFn("ble"), a, b) == Some(Const(BOOL_FALSE, [])) <==>
            exists k: nat :: k > 0 && Computes("add", b, k, a)
  {
    hide Computes;
    forall k: nat ensures (Computes("add", a, k, b) <==> b == a + k) && (Computes("add", b, k, a) <==> a == b + k) {
      Answers("add", a, k, b);
      Answers("add", b, k, a);
    }
    if a <= b { assert Computes("add", a, b - a, b); } else { assert Computes("add", b, a - b, a); }
  }

  /** Which names are primitives does not depend on the numerals. */
  lemma PrimitiveNames(n: Name, a: nat, b: nat)
    ensures NatBinop(n, a, b).Some? <==>
            n.Str? && n.parent == NAT && n.s in NUMERAL_OPS + {"beq", "ble"}
  {
    hide Pow, Gcd, ShiftRight, BitOps.And, BitOps.Or, BitOps.Xor;
  }
}
