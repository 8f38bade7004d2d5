// Reading a number eight bytes at a time (src/loader.cpp), with words as natural numbers below 2^64: it
// consumes the digits, and gives the value, of the loop that reads one digit after the other.
module NumParse {
  import opened BitOps

  const W64: nat := 0x1_0000_0000_0000_0000
  const HI: nat := 0xF0F0_F0F0_F0F0_F0F0
  const LO: nat := 0x0F0F_0F0F_0F0F_0F0F
  const THREES: nat := 0x3030_3030_3030_3030
  const SIXES: nat := 0x0606_0606_0606_0606
  const PAIRS: nat := 0x00FF_00FF_00FF_00FF
  const QUADS: nat := 0x0000_FFFF_0000_FFFF

  // ---------------------------------------------------------------- lanes

  /** The word whose bytes, lowest first, are these. */
  function Word(ls: seq<nat>): nat {
    if ls == [] then 0 else ls[0] + 256 * Word(ls[1..])
  }

  ghost predicate AreBytes(ls: seq<nat>) { forall i :: 0 <= i < |ls| ==> ls[i] < 256 }

  ghost function Lanes(op: (nat, nat) -> nat, xs: seq<nat>, ys: seq<nat>): (r: seq<nat>)
    requires |xs| == |ys|
    ensures |r| == |xs| && forall i :: 0 <= i < |xs| ==> r[i] == Bits(op, xs[i], ys[i])
  {
    seq(|xs|, i requires 0 <= i < |xs| => Bits(op, xs[i], ys[i]))
  }

  lemma Shl8(x: nat)
    ensures Shl(x, 4) == 16 * x && Shl(x, 8) == 256 * x
  {
    var x2 := Shl(x, 2);
    assert x2 == 2 * Shl(x, 1);
    var x4 := Shl(x, 4);
    assert x4 == 2 * Shl(x, 3) && Shl(x, 3) == 2 * x2;
    assert Shl(x, 6) == 2 * Shl(x, 5) && Shl(x, 5) == 2 * x4;
    assert Shl(x, 8) == 2 * Shl(x, 7) && Shl(x, 7) == 2 * Shl(x, 6);
  }

  /** A bitwise operation acts on each byte separately. */
  lemma {:induction false} LanesOf(op: (nat, nat) -> nat, xs: seq<nat>, ys: seq<nat>)
    requires IsBitOp(op) && |xs| == |ys| && AreBytes(xs) && AreBytes(ys)
    ensures Bits(op, Word(xs), Word(ys)) == Word(Lanes(op, xs, ys))
    decreases |xs|
  {
    if xs != [] {
      LanesOf(op, xs[1..], ys[1..]);
      SplitByte(op, xs[0], Word(xs[1..]), ys[0], Word(ys[1..]));
      assert Lanes(op, xs, ys)[1..] == Lanes(op, xs[1..], ys[1..]);
    }
  }

  lemma SplitByte(op: (nat, nat) -> nat, x: nat, X: nat, y: nat, Y: nat)
    requires IsBitOp(op) && x < 256 && y < 256
    ensures Bits(op, x + 256 * X, y + 256 * Y) == Bits(op, x, y) + 256 * Bits(op, X, Y)
  {
    Shl8(1);
    Shl8(X);
    Shl8(Y);
    Shl8(Bits(op, X, Y));
    Split(op, x, X, y, Y, 8);
  }

  lemma LanesBound(op: (nat, nat) -> nat, xs: seq<nat>, ys: seq<nat>)
    requires IsBitOp(op) && |xs| == |ys| && AreBytes(xs) && AreBytes(ys)
    ensures AreBytes(Lanes(op, xs, ys))
  {
    forall i | 0 <= i < |xs| ensures Bits(op, xs[i], ys[i]) < 256 {
      Shl8(1);
      BitsBound(op, xs[i], ys[i], 8);
    }
  }

  /** A byte's low half. */
  lemma LowNibble(b: nat)
    requires b < 256
    ensures And(b, 15) == b % 16
  {
    var x, X := b % 16, b / 16;
    Shl8(1);
    Shl8(X);
    Shl8(0);
    AndNone(X);
    AndAll(x, 4);
    Split(AndBit, x, X, 15, 0, 4);
    assert b == x + Shl(X, 4);
  }

  /** A byte's high half, in place. */
  lemma HighNibble(b: nat)
    requires b < 256
    ensures And(b, 240) == b / 16 * 16
  {
    var x, X, y, Y := b % 16, b / 16, 0, 15;
    AndNone(x);
    Shl8(1);
    AndAll(X, 4);
    AndNibbles(x, X, y, Y);
  }

  lemma AndNibbles(x: nat, X: nat, y: nat, Y: nat)
    requires x < 16 && y < 16
    ensures And(x + 16 * X, y + 16 * Y) == And(x, y) + 16 * And(X, Y)
  {
    Shl8(1);
    Shl8(X);
    Shl8(Y);
    Shl8(And(X, Y));
    Split(AndBit, x, X, y, Y, 4);
  }

  predicate IsDigit(b: nat) { 48 <= b <= 57 }

  // ---------------------------------------------------------------- the run of digits

  function NotDigits(w: nat): nat {
    Or(Xor(And(w, HI), THREES), And((And(w, LO) + SIXES) % W64, HI))
  }

  function Repeat(b: nat, n: nat): (r: seq<nat>)
    ensures |r| == n && forall i :: 0 <= i < n ==> r[i] == b
  {
    seq(n, i => b)
  }

  lemma RepeatWord(b: nat)
    ensures Word(Repeat(b, 8)) == b * 0x0101_0101_0101_0101
  {
    Word8(Repeat(b, 8));
  }

  lemma Word8(ls: seq<nat>)
    requires |ls| == 8
    ensures Word(ls) == ls[0] + 0x100 * ls[1] + 0x1_0000 * ls[2] + 0x100_0000 * ls[3] + 0x1_0000_0000 * ls[4]
                        + 0x100_0000_0000 * ls[5] + 0x1_0000_0000_0000 * ls[6] + 0x100_0000_0000_0000 * ls[7]
  {
    var s1 := ls[1..];
    var s2 := s1[1..];
    var s3 := s2[1..];
    var s4 := s3[1..];
    var s5 := s4[1..];
    var s6 := s5[1..];
    var s7 := s6[1..];
    assert s7 == [ls[7]] && s7[1..] == [];
    assert Word(s7) == ls[7];
    assert Word(s6) == ls[6] + 256 * Word(s7);
    assert Word(s5) == ls[5] + 256 * Word(s6);
    assert Word(s4) == ls[4] + 256 * Word(s5);
    assert Word(s3) == ls[3] + 256 * Word(s4);
    assert Word(s2) == ls[2] + 256 * Word(s3);
    assert Word(s1) == ls[1] + 256 * Word(s2);
  }

  ghost function Plus(xs: seq<nat>, c: nat): (r: seq<nat>)
    ensures |r| == |xs| && forall i :: 0 <= i < |xs| ==> r[i] == xs[i] + c
  {
    seq(|xs|, i requires 0 <= i < |xs| => xs[i] + c)
  }

  lemma {:induction false} AddLanes(xs: seq<nat>, c: nat)
    ensures Word(xs) + Word(Repeat(c, |xs|)) == Word(Plus(xs, c))
    decreases |xs|
  {
    if xs != [] {
      AddLanes(xs[1..], c);
      assert Repeat(c, |xs|)[1..] == Repeat(c, |xs[1..]|);
      assert Plus(xs, c)[1..] == Plus(xs[1..], c);
    }
  }

  lemma WordBound(ls: seq<nat>)
    requires |ls| == 8 && AreBytes(ls)
    ensures Word(ls) < W64
  {
    Word8(ls);
  }

  ghost function HighHalves(bs: seq<nat>): (r: seq<nat>)
    ensures |r| == |bs| && forall i :: 0 <= i < |bs| ==> r[i] == bs[i] / 16 * 16
  {
    seq(|bs|, i requires 0 <= i < |bs| => bs[i] / 16 * 16)
  }

  ghost function LowHalves(bs: seq<nat>): (r: seq<nat>)
    ensures |r| == |bs| && forall i :: 0 <= i < |bs| ==> r[i] == bs[i] % 16
  {
    seq(|bs|, i requires 0 <= i < |bs| => bs[i] % 16)
  }

  lemma HighLaneSeq(bs: seq<nat>)
    requires |bs| == 8 && AreBytes(bs)
    ensures Lanes(AndBit, bs, Repeat(240, 8)) == HighHalves(bs)
  {
    var ls := Lanes(AndBit, bs, Repeat(240, 8));
    forall i | 0 <= i < 8 ensures ls[i] == HighHalves(bs)[i] { HighNibble(bs[i]); }
  }

  lemma LowLaneSeq(bs: seq<nat>)
    requires |bs| == 8 && AreBytes(bs)
    ensures Lanes(AndBit, bs, Repeat(15, 8)) == LowHalves(bs)
  {
    var ls := Lanes(AndBit, bs, Repeat(15, 8));
    forall i | 0 <= i < 8 ensures ls[i] == LowHalves(bs)[i] { LowNibble(bs[i]); }
  }

  lemma HighLanes(bs: seq<nat>)
    requires |bs| == 8 && AreBytes(bs)
    ensures And(Word(bs), HI) == Word(HighHalves(bs))
  {
    RepeatWord(240);
    LanesOf(AndBit, bs, Repeat(240, 8));
    HighLaneSeq(bs);
  }

  lemma LowLanes(bs: seq<nat>)
    requires |bs| == 8 && AreBytes(bs)
    ensures And(Word(bs), LO) == Word(LowHalves(bs))
  {
    RepeatWord(15);
    LanesOf(AndBit, bs, Repeat(15, 8));
    LowLaneSeq(bs);
  }

  /** The low halves plus six reach sixteen exactly past nine, and carry nowhere. */
  lemma SixLanes(bs: seq<nat>) returns (y: seq<nat>)
    requires |bs| == 8 && AreBytes(bs)
    ensures |y| == 8 && AreBytes(y) && And((And(Word(bs), LO) + SIXES) % W64, HI) == Word(y)
    ensures forall i :: 0 <= i < 8 ==> (y[i] == 0 <==> bs[i] % 16 <= 9)
  {
    var l6 := Plus(LowHalves(bs), 6);
    SixesAdded(bs);
    WordBound(l6);
    NoWrap(And(Word(bs), LO) + SIXES);
    HighLanes(l6);
    y := HighHalves(l6);
  }

  lemma SixesAdded(bs: seq<nat>)
    requires |bs| == 8 && AreBytes(bs)
    ensures var l6 := Plus(LowHalves(bs), 6); AreBytes(l6) && And(Word(bs), LO) + SIXES == Word(l6)
  {
    var l6 := Plus(LowHalves(bs), 6);
    SixesWord();
    LowLanes(bs);
    AddLanes(LowHalves(bs), 6);
  }

  lemma SixesWord()
    ensures Word(Repeat(6, 8)) == SIXES
  {
    RepeatWord(6);
  }

  lemma NoWrap(w: nat)
    requires w < W64
    ensures w % W64 == w
  {
  }

  lemma ThreeLanes(bs: seq<nat>) returns (x: seq<nat>)
    requires |bs| == 8 && AreBytes(bs)
    ensures |x| == 8 && AreBytes(x) && Xor(And(Word(bs), HI), THREES) == Word(x)
    ensures forall i :: 0 <= i < 8 ==> (x[i] == 0 <==> bs[i] / 16 == 3)
  {
    RepeatWord(48);
    HighLanes(bs);
    var h, t := HighHalves(bs), Repeat(48, 8);
    LanesOf(XorBit, h, t);
    LanesBound(XorBit, h, t);
    x := Lanes(XorBit, h, t);
    forall i | 0 <= i < 8 ensures x[i] == 0 <==> bs[i] / 16 == 3 { XorZero(h[i], 48); }
  }

  /** Each byte of the mask is zero exactly where there is a digit. */
  lemma NotDigitsLanes(bs: seq<nat>) returns (ms: seq<nat>)
    requires |bs| == 8 && AreBytes(bs)
    ensures |ms| == 8 && AreBytes(ms) && NotDigits(Word(bs)) == Word(ms)
    ensures forall i :: 0 <= i < 8 ==> (ms[i] == 0 <==> IsDigit(bs[i]))
  {
    var x := ThreeLanes(bs);
    var y := SixLanes(bs);
    LanesOf(OrBit, x, y);
    LanesBound(OrBit, x, y);
    ms := Lanes(OrBit, x, y);
    forall i | 0 <= i < 8 ensures ms[i] == 0 <==> IsDigit(bs[i]) { OrZero(x[i], y[i]); }
  }

  /** The lowest set bit lies in the first non-zero byte. */
  lemma {:induction false} CtzLane(ms: seq<nat>, k: nat)
    requires AreBytes(ms) && k < |ms| && ms[k] != 0 && forall i :: 0 <= i < k ==> ms[i] == 0
    ensures Word(ms) > 0 && Ctz(Word(ms)) / 8 == k
    decreases k
  {
    var m := Word(ms[1..]);
    Shl8(m);
    if k == 0 {
      CtzLow(ms[0], m, 8);
    } else {
      CtzLane(ms[1..], k - 1);
      CtzShift(m, 8);
    }
  }

  lemma {:induction false} WordZero(ms: seq<nat>)
    ensures Word(ms) == 0 <==> forall i :: 0 <= i < |ms| ==> ms[i] == 0
    decreases |ms|
  {
    if ms != [] {
      WordZero(ms[1..]);
      assert forall i :: 0 <= i < |ms[1..]| ==> ms[1..][i] == ms[i + 1];
    }
  }
  /** Where the digits from i on end. */
  function RunEnd(buf: seq<nat>, i: nat): (r: nat)
    requires i <= |buf|
    ensures i <= r <= |buf| && (forall j :: i <= j < r ==> IsDigit(buf[j])) && (r < |buf| ==> !IsDigit(buf[r]))
    decreases |buf| - i
  {
    if i < |buf| && IsDigit(buf[i]) then RunEnd(buf, i + 1) else i
  }

  lemma {:induction false} RunEndIs(buf: seq<nat>, i: nat, r: nat)
    requires i <= r <= |buf| && (forall j :: i <= j < r ==> IsDigit(buf[j])) && (r < |buf| ==> !IsDigit(buf[r]))
    ensures RunEnd(buf, i) == r
    decreases r - i
  {
    if i < r { RunEndIs(buf, i + 1, r); }
  }

  /** The digits before the first byte that is not one. */
  function DigitCount(w: nat): nat {
    var nd := NotDigits(w);
    if nd == 0 then 8 else Ctz(nd) / 8
  }

  lemma DigitCountIs(bs: seq<nat>)
    requires |bs| == 8 && AreBytes(bs)
    ensures DigitCount(Word(bs)) == RunEnd(bs, 0)
  {
    var ms := NotDigitsLanes(bs);
    var k := RunEnd(bs, 0);
    if k == 8 {
      WordZero(ms);
    } else {
      CtzLane(ms, k);
    }
  }

  // ---------------------------------------------------------------- the value of the digits

  /** The number written by decimal digits, most significant first. */
  function Dec(ds: seq<nat>): nat {
    if ds == [] then 0 else 10 * Dec(ds[..|ds| - 1]) + ds[|ds| - 1]
  }

  /** The digits' own values, for the bytes of a run. */
  function Values(bs: seq<nat>): (r: seq<nat>)
    ensures |r| == |bs| && forall i :: 0 <= i < |bs| ==> r[i] == if bs[i] >= 48 then bs[i] - 48 else 0
  {
    seq(|bs|, i requires 0 <= i < |bs| => if bs[i] >= 48 then bs[i] - 48 else 0)
  }

  function Decimal(bs: seq<nat>): nat { Dec(Values(bs)) }

  lemma {:induction false} ShlAdd(x: nat, i: nat, j: nat)
    ensures Shl(x, i + j) == Shl(Shl(x, i), j)
  {
    if j > 0 { ShlAdd(x, i, j - 1); }
  }

  lemma DoubleMod(y: nat)
    ensures (2 * y) % W64 == (2 * (y % W64)) % W64
  {
    var q, r := y / W64, y % W64;
    assert 2 * y == 2 * r + W64 * (2 * q);
    ModDrop(2 * r, 2 * q);
  }

  lemma ModDrop(a: nat, t: nat)
    ensures (a + W64 * t) % W64 == a % W64
  {
  }

  lemma {:induction false} ShlMod(x: nat, j: nat)
    ensures Shl(x, j) % W64 == Shl(x % W64, j) % W64
  {
    if j > 0 {
      ShlMod(x, j - 1);
      DoubleMod(Shl(x, j - 1));
      DoubleMod(Shl(x % W64, j - 1));
    }
  }

  lemma ShiftByte(bs: seq<nat>)
    requires |bs| == 8 && AreBytes(bs)
    ensures Shl(Word(bs), 8) % W64 == Word([0] + bs[..7])
  {
    var cs := [0] + bs[..7];
    ShiftedWord(bs);
    Shl8(Word(bs));
    WordBound(cs);
    DropTop(Word(cs), bs[7]);
  }

  lemma ShiftedWord(bs: seq<nat>)
    requires |bs| == 8
    ensures 256 * Word(bs) == Word([0] + bs[..7]) + W64 * bs[7]
  {
    Word8(bs);
    Word8([0] + bs[..7]);
  }

  lemma DropTop(lo: nat, t: nat)
    requires lo < W64
    ensures (lo + W64 * t) % W64 == lo
  {
  }

  /** The shift brings the k digits to the top and zeros below them. */
  lemma {:induction false} ShiftTop(bs: seq<nat>, m: nat)
    requires |bs| == 8 && AreBytes(bs) && m <= 8
    ensures Shl(Word(bs), 8 * m) % W64 == Word(Repeat(0, m) + bs[..8 - m])
    decreases m
  {
    if m == 0 {
      WordBound(bs);
      assert Repeat(0, 0) + bs[..8] == bs;
    } else {
      var cs := [0] + bs[..7];
      ShlAdd(Word(bs), 8, 8 * (m - 1));
      ShlMod(Shl(Word(bs), 8), 8 * (m - 1));
      ShiftByte(bs);
      ShiftTop(cs, m - 1);
      assert Repeat(0, m - 1) + cs[..8 - (m - 1)] == Repeat(0, m) + bs[..8 - m];
    }
  }

  ghost function Kept(xs: seq<nat>, mask: seq<nat>): (r: seq<nat>)
    requires |xs| == |mask|
    ensures |r| == |xs| && forall i :: 0 <= i < |xs| ==> r[i] == if mask[i] == 0 then 0 else xs[i]
  {
    seq(|xs|, i requires 0 <= i < |xs| => if mask[i] == 0 then 0 else xs[i])
  }

  lemma ByteMask(x: nat)
    requires x < 256
    ensures And(x, 0) == 0 && And(x, 255) == x
  {
    Shl8(1);
    AndNone(x);
    AndAll(x, 8);
  }

  ghost predicate IsMask(mask: seq<nat>) { forall i :: 0 <= i < |mask| ==> mask[i] == 0 || mask[i] == 255 }

  /** The bytes under the mask, kept. */
  lemma KeepLanes(xs: seq<nat>, mask: seq<nat>)
    requires |xs| == |mask| && AreBytes(xs) && IsMask(mask)
    ensures Lanes(AndBit, xs, mask) == Kept(xs, mask)
  {
    forall i | 0 <= i < |xs| ensures Lanes(AndBit, xs, mask)[i] == Kept(xs, mask)[i] { ByteMask(xs[i]); }
  }

  lemma MaskedWord(xs: seq<nat>, mask: seq<nat>)
    requires |xs| == 8 && |mask| == 8 && AreBytes(xs) && IsMask(mask)
    ensures And(Word(xs), Word(mask)) == Word(Kept(xs, mask))
  {
    LanesOf(AndBit, xs, mask);
    KeepLanes(xs, mask);
  }

  lemma PairMask(xs: seq<nat>)
    requires |xs| == 8 && AreBytes(xs)
    ensures And(Word(xs), PAIRS) == xs[0] + 0x1_0000 * xs[2] + 0x1_0000_0000 * xs[4] + 0x1_0000_0000_0000 * xs[6]
  {
    var mask := [255, 0, 255, 0, 255, 0, 255, 0];
    Word8(mask);
    MaskedWord(xs, mask);
    Word8(Kept(xs, mask));
  }

  lemma QuadMask(xs: seq<nat>)
    requires |xs| == 8 && AreBytes(xs)
    ensures And(Word(xs), QUADS) == xs[0] + 0x100 * xs[1] + 0x1_0000_0000 * xs[4] + 0x100_0000_0000 * xs[5]
  {
    var mask := [255, 255, 0, 0, 255, 255, 0, 0];
    Word8(mask);
    MaskedWord(xs, mask);
    Word8(Kept(xs, mask));
  }

  /** The three multiplications: neighbouring digits, then pairs, then fours. */
  function Combine(w0: nat): nat {
    var w1 := (w0 * 2561) % W64 / 256;
    var w2 := (And(w1, PAIRS) * 6553601) % W64 / 0x1_0000;
    (And(w2, QUADS) * 42949672960001) % W64 / 0x1_0000_0000
  }

  predicate AreDigits(es: seq<nat>) { forall i :: 0 <= i < |es| ==> es[i] <= 9 }

  function Two(es: seq<nat>, i: nat): nat
    requires i + 1 < |es|
  {
    10 * es[i] + es[i + 1]
  }

  /** What a multiplication leaves above its lowest byte, pair or four of bytes. */
  lemma Drop1(lo: nat, x: nat, t: nat)
    requires lo < 0x100 && x < 0x100_0000_0000_0000
    ensures (lo + 0x100 * x + W64 * t) % W64 / 0x100 == x
  {
  }

  lemma Drop2(lo: nat, x: nat, t: nat)
    requires lo < 0x1_0000 && x < 0x1_0000_0000_0000
    ensures (lo + 0x1_0000 * x + W64 * t) % W64 / 0x1_0000 == x
  {
  }

  lemma Drop4(lo: nat, x: nat, t: nat)
    requires lo < 0x1_0000_0000 && x < 0x1_0000_0000
    ensures (lo + 0x1_0000_0000 * x + W64 * t) % W64 / 0x1_0000_0000 == x
  {
  }

  function PairLanes(es: seq<nat>): seq<nat>
    requires |es| == 8
  {
    [Two(es, 0), Two(es, 1), Two(es, 2), Two(es, 3), Two(es, 4), Two(es, 5), Two(es, 6), 0]
  }

  lemma PairProduct(es: seq<nat>)
    requires |es| == 8 && AreDigits(es)
    ensures (Word(es) * 2561) % W64 / 256 == Word(PairLanes(es))
  {
    var xs := PairLanes(es);
    Word8(es);
    Word8(xs);
    assert Word(es) * 2561 == es[0] + 0x100 * Word(xs) + W64 * (10 * es[7]);
    Drop1(es[0], Word(xs), 10 * es[7]);
  }

  lemma CombinePairs(es: seq<nat>)
    requires |es| == 8 && AreDigits(es)
    ensures And((Word(es) * 2561) % W64 / 256, PAIRS)
         == Two(es, 0) + 0x1_0000 * Two(es, 2) + 0x1_0000_0000 * Two(es, 4) + 0x1_0000_0000_0000 * Two(es, 6)
  {
    PairProduct(es);
    PairMask(PairLanes(es));
  }

  function QuadLanes(p: nat, q: nat, r: nat): seq<nat> {
    [p % 256, p / 256, q % 256, q / 256, r % 256, r / 256, 0, 0]
  }

  lemma QuadProduct(a: nat, b: nat, c: nat, d: nat)
    requires a < 100 && b < 100 && c < 100 && d < 100
    ensures ((a + 0x1_0000 * b + 0x1_0000_0000 * c + 0x1_0000_0000_0000 * d) * 6553601) % W64 / 0x1_0000
         == Word(QuadLanes(100 * a + b, 100 * b + c, 100 * c + d))
  {
    var w := a + 0x1_0000 * b + 0x1_0000_0000 * c + 0x1_0000_0000_0000 * d;
    var p, q, r := 100 * a + b, 100 * b + c, 100 * c + d;
    QuadWord(p, q, r);
    var x := p + 0x1_0000 * q + 0x1_0000_0000 * r;
    QuadSum(a, b, c, d);
    Drop2(a, x, 100 * d);
  }

  lemma QuadSum(a: nat, b: nat, c: nat, d: nat)
    ensures (a + 0x1_0000 * b + 0x1_0000_0000 * c + 0x1_0000_0000_0000 * d) * 6553601
         == a + 0x1_0000 * ((100 * a + b) + 0x1_0000 * (100 * b + c) + 0x1_0000_0000 * (100 * c + d)) + W64 * (100 * d)
  {
  }

  lemma QuadWord(p: nat, q: nat, r: nat)
    ensures Word(QuadLanes(p, q, r)) == p + 0x1_0000 * q + 0x1_0000_0000 * r
  {
    Word8(QuadLanes(p, q, r));
  }

  lemma CombineQuads(a: nat, b: nat, c: nat, d: nat)
    requires a < 100 && b < 100 && c < 100 && d < 100
    ensures And(((a + 0x1_0000 * b + 0x1_0000_0000 * c + 0x1_0000_0000_0000 * d) * 6553601) % W64 / 0x1_0000, QUADS)
         == (100 * a + b) + 0x1_0000_0000 * (100 * c + d)
  {
    QuadProduct(a, b, c, d);
    QuadMask(QuadLanes(100 * a + b, 100 * b + c, 100 * c + d));
  }

  lemma Dec8(es: seq<nat>)
    requires |es| == 8
    ensures Dec(es) == 10000 * (100 * Two(es, 0) + Two(es, 2)) + 100 * Two(es, 4) + Two(es, 6)
  {
    assert es[..7][..6] == es[..6] && es[..6][..5] == es[..5] && es[..5][..4] == es[..4];
    assert es[..4][..3] == es[..3] && es[..3][..2] == es[..2] && es[..2][..1] == es[..1] && es[..1][..0] == [];
    assert Dec(es[..1]) == es[0] && Dec(es[..2]) == 10 * Dec(es[..1]) + es[1];
    assert Dec(es[..3]) == 10 * Dec(es[..2]) + es[2] && Dec(es[..4]) == 10 * Dec(es[..3]) + es[3];
    assert Dec(es[..5]) == 10 * Dec(es[..4]) + es[4] && Dec(es[..6]) == 10 * Dec(es[..5]) + es[5];
    assert Dec(es[..7]) == 10 * Dec(es[..6]) + es[6];
  }

  lemma LastProduct(p: nat, r: nat)
    requires p < 10000 && r < 10000
    ensures ((p + 0x1_0000_0000 * r) * 42949672960001) % W64 / 0x1_0000_0000 == 10000 * p + r
  {
    assert (p + 0x1_0000_0000 * r) * 42949672960001 == p + 0x1_0000_0000 * (10000 * p + r) + W64 * (10000 * r);
    Drop4(p, 10000 * p + r, 10000 * r);
  }

  /** The three multiplications add up eight digits. */
  lemma CombineIs(es: seq<nat>)
    requires |es| == 8 && AreDigits(es)
    ensures Combine(Word(es)) == Dec(es)
  {
    var a, b, c, d := Two(es, 0), Two(es, 2), Two(es, 4), Two(es, 6);
    CombinePairs(es);
    CombineQuads(a, b, c, d);
    LastProduct(100 * a + b, 100 * c + d);
    Dec8(es);
  }

  lemma {:induction false} DecZeros(m: nat, ds: seq<nat>)
    ensures Dec(Repeat(0, m) + ds) == Dec(ds)
    decreases m + |ds|
  {
    var all := Repeat(0, m) + ds;
    if ds != [] {
      assert all[..|all| - 1] == Repeat(0, m) + ds[..|ds| - 1];
      DecZeros(m, ds[..|ds| - 1]);
    } else if m > 0 {
      assert all[..|all| - 1] == Repeat(0, m - 1) + [];
      DecZeros(m - 1, []);
    }
  }

  /** The first k digits of a word, as a number. */
  function TopDigits(w: nat, k: nat): nat
    requires k <= 8
  {
    Combine(And(if k == 8 then w else Shl(w, 64 - 8 * k) % W64, LO))
  }

  lemma TopValues(bs: seq<nat>, k: nat)
    requires |bs| == 8 && k <= 8 && forall i :: 0 <= i < k ==> IsDigit(bs[i])
    ensures LowHalves(Repeat(0, 8 - k) + bs[..k]) == Repeat(0, 8 - k) + Values(bs[..k])
  {
  }

  lemma TopDigitsIs(bs: seq<nat>, k: nat)
    requires |bs| == 8 && AreBytes(bs) && k <= 8 && forall i :: 0 <= i < k ==> IsDigit(bs[i])
    ensures TopDigits(Word(bs), k) == Decimal(bs[..k])
  {
    var top := Repeat(0, 8 - k) + bs[..k];
    TopWord(bs, k);
    LowLanes(top);
    TopValues(bs, k);
    TopDec(Repeat(0, 8 - k) + Values(bs[..k]), Values(bs[..k]), 8 - k);
  }

  lemma TopDec(es: seq<nat>, ds: seq<nat>, m: nat)
    requires |es| == 8 && es == Repeat(0, m) + ds && AreDigits(ds)
    ensures Combine(Word(es)) == Dec(ds)
  {
    CombineIs(es);
    DecZeros(m, ds);
  }

  lemma TopWord(bs: seq<nat>, k: nat)
    requires |bs| == 8 && AreBytes(bs) && k <= 8
    ensures (if k == 8 then Word(bs) else Shl(Word(bs), 64 - 8 * k) % W64) == Word(Repeat(0, 8 - k) + bs[..k])
  {
    ShiftTop(bs, 8 - k);
    assert k == 8 ==> Repeat(0, 8 - k) + bs[..k] == bs;
  }

  // ---------------------------------------------------------------- the two readers

  lemma DecimalSnoc(bs: seq<nat>, b: nat)
    requires IsDigit(b)
    ensures Decimal(bs + [b]) == 10 * Decimal(bs) + (b - 48)
  {
    assert Values(bs + [b])[..|bs|] == Values(bs);
  }

  lemma ModStep(x: nat, d: nat)
    ensures (x % W64 * 10 + d) % W64 == (10 * x + d) % W64
  {
  }

  lemma NextDigit(buf: seq<nat>, start: nat, q: nat)
    requires start <= q < |buf| && IsDigit(buf[q])
    ensures Decimal(buf[start..q + 1]) % W64 == (Decimal(buf[start..q]) % W64 * 10 + (buf[q] - 48)) % W64
  {
    assert buf[start..q + 1] == buf[start..q] + [buf[q]];
    DecimalSnoc(buf[start..q], buf[q]);
    ModStep(Decimal(buf[start..q]), buf[q] - 48);
  }

  /** The digit loop, going on from the value of the digits already read. */
  method ReadDigits(buf: seq<nat>, start: nat, p: nat, x: nat) returns (v: nat, q: nat)
    requires start <= p <= |buf| && x == Decimal(buf[start..p]) % W64
    ensures q == RunEnd(buf, p) && v == Decimal(buf[start..q]) % W64
  {
    v, q := x, p;
    while q < |buf| && IsDigit(buf[q])
      invariant p <= q <= |buf| && v == Decimal(buf[start..q]) % W64
      invariant forall j :: p <= j < q ==> IsDigit(buf[j])
    {
      NextDigit(buf, start, q);
      v := (v * 10 + (buf[q] - 48)) % W64;
      q := q + 1;
    }
    RunEndIs(buf, p, q);
  }

  lemma {:induction false} RunEndJoin(buf: seq<nat>, p: nat, k: nat)
    requires p + 8 <= |buf| && k == RunEnd(buf[p..p + 8], 0)
    ensures k < 8 ==> RunEnd(buf, p) == p + k
    ensures k == 8 ==> RunEnd(buf, p) == RunEnd(buf, p + 8)
  {
    forall j | p <= j < p + k ensures IsDigit(buf[j]) { assert buf[p..p + 8][j - p] == buf[j]; }
    if k < 8 {
      assert buf[p..p + 8][k] == buf[p + k];
      RunEndIs(buf, p, p + k);
    } else {
      RunEndIs(buf, p, RunEnd(buf, p + 8));
    }
  }

  /**
   * A number at p: nothing if there is no digit, else the digits up to the first other byte, and their
   * value modulo 2^64, for every buffer.
   */
  method Num(buf: seq<nat>, p: nat) returns (ok: bool, v: nat, q: nat)
    requires p <= |buf| && AreBytes(buf)
    ensures ok <==> p < |buf| && IsDigit(buf[p])
    ensures ok ==> q == RunEnd(buf, p) && v == Decimal(buf[p..q]) % W64
    ensures !ok ==> q == p
  {
    if |buf| - p >= 8 {
      ok, v, q := FastNum(buf, p);
      return;
    }
    if p >= |buf| || !IsDigit(buf[p]) { return false, 0, p; }
    assert buf[p..p] == [];
    v, q := ReadDigits(buf, p, p, 0);
    ok := true;
  }

  /** Eight bytes at once: the run of digits found with byte masks, its value with three multiplications. */
  method FastNum(buf: seq<nat>, p: nat) returns (ok: bool, v: nat, q: nat)
    requires p + 8 <= |buf| && AreBytes(buf)
    ensures ok <==> IsDigit(buf[p])
    ensures ok ==> q == RunEnd(buf, p) && v == Decimal(buf[p..q]) % W64
    ensures !ok ==> q == p
  {
    var w := Word(buf[p..p + 8]);
    var k := DigitCount(w);
    DigitCountIs(buf[p..p + 8]);
    RunEndJoin(buf, p, k);
    if k == 0 { return false, 0, p; }
    w := TopDigits(w, k);
    FirstDigits(buf, p, k);
    if k < 8 { return true, w, p + k; }
    v, q := ReadDigits(buf, p, p + 8, w);
    ok := true;
  }

  lemma FirstDigits(buf: seq<nat>, p: nat, k: nat)
    requires p + 8 <= |buf| && AreBytes(buf) && k == RunEnd(buf[p..p + 8], 0)
    ensures TopDigits(Word(buf[p..p + 8]), k) == Decimal(buf[p..p + k]) % W64
  {
    var bs := buf[p..p + 8];
    TopDigitsIs(bs, k);
    assert bs[..k] == buf[p..p + k];
    SmallDecimal(bs[..k]);
    SmallMod(Decimal(bs[..k]));
  }

  lemma SmallMod(d: nat)
    requires d < W64
    ensures d % W64 == d
  {
  }

  lemma {:induction false} SmallDecimal(bs: seq<nat>)
    requires |bs| <= 8 && forall i :: 0 <= i < |bs| ==> IsDigit(bs[i])
    ensures Decimal(bs) < W64
  {
    DecBound(Values(bs));
  }

  lemma {:induction false} DecBound(ds: seq<nat>)
    requires |ds| <= 8 && AreDigits(ds)
    ensures Dec(ds) < 100000000
    decreases |ds|
  {
    DecZeros(8 - |ds|, ds);
    Dec8(Repeat(0, 8 - |ds|) + ds);
  }
}
