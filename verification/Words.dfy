/** 32-bit unsigned words as bounded integers, with C's wrap-around arithmetic, shifts and bitwise operators. */
module Words {
  type word = x: int | 0 <= x < 0x1_0000_0000
  type byte = x: int | 0 <= x < 0x100
  type half = x: int | 0 <= x < 0x1_0000
  type bit = x: int | 0 <= x < 2

  function Wrap(x: int): word { x % 0x1_0000_0000 }

  function Add(a: int, b: int): word { Wrap(a + b) }

  function Sub(a: int, b: int): word { Wrap(a - b) }

  /** The int32_t that a word converts to. */
  function Signed(x: word): int
  {
    if x < 0x8000_0000 then x else x - 0x1_0000_0000
  }

  function Pow2(n: nat): (p: nat)
    ensures p > 0
  {
    if n == 0 then 1 else 2 * Pow2(n - 1)
  }

  function GetBit(x: nat, i: nat): bit { x / Pow2(i) % 2 }

  /** C's << on uint32_t. */
  function Shl(x: word, n: nat): word { Wrap(x * Pow2(n)) }

  /** C's >> on uint32_t. */
  function Shr(x: word, n: nat): (r: word)
  {
    ShrBound(x, Pow2(n));
    x / Pow2(n)
  }

  function Not(x: word): word { 0xFFFF_FFFF - x }

  lemma WrapWord(x: word)
    ensures Wrap(x) == x
  {
  }

  lemma WrapAdd(x: int, k: int)
    ensures Wrap(Wrap(x) + k) == Wrap(x + k) && Wrap(Wrap(x) - k) == Wrap(x - k)
    ensures Add(Wrap(x), k) == Wrap(x + k) && Sub(Wrap(x), k) == Wrap(x - k)
  {
  }

  lemma WrapDifference(x: int, y: int)
    ensures Wrap(Wrap(x) - Wrap(y)) == Wrap(x - y) == Sub(Wrap(x), Wrap(y))
  {
  }

  lemma WrapCancel(x: int, y: int, d: int)
    ensures Wrap(x + d) == Wrap(y + d) <==> Wrap(x) == Wrap(y)
  {
    hide Wrap;
    WrapAdd(x, d);
    WrapAdd(y, d);
    WrapAdd(x + d, d);
    WrapAdd(y + d, d);
  }

  lemma AddAdd(a: word, b: nat, c: nat)
    ensures Add(Add(a, b), c) == Add(a, b + c)
  {
  }

  lemma AddNothing(a: word)
    ensures Add(a, 0) == a
  {
  }

  // ---- Bitwise operators, digit by digit ----

  datatype BitOp = AND | OR | XOR

  function Digit(op: BitOp, a: bit, b: bit): bit
  {
    match op
    case AND => if a == 1 && b == 1 then 1 else 0
    case OR => if a == 1 || b == 1 then 1 else 0
    case XOR => if a != b then 1 else 0
  }

  function Bitwise(op: BitOp, x: nat, y: nat): nat
  {
    if x == 0 && y == 0 then 0
    else 2 * Bitwise(op, x / 2, y / 2) + Digit(op, x % 2, y % 2)
  }

  function And(x: word, y: word): word { BitwiseIsWord(AND, x, y); Bitwise(AND, x, y) }

  function Or(x: word, y: word): word { BitwiseIsWord(OR, x, y); Bitwise(OR, x, y) }

  function Xor(x: word, y: word): word { BitwiseIsWord(XOR, x, y); Bitwise(XOR, x, y) }

  lemma {:induction false} BitwiseBound(op: BitOp, x: nat, y: nat, n: nat)
    requires x < Pow2(n) && y < Pow2(n)
    ensures Bitwise(op, x, y) < Pow2(n)
    decreases n
  {
    if x == 0 && y == 0 {
    } else {
      BitwiseBound(op, x / 2, y / 2, n - 1);
    }
  }

  lemma BitwiseIsWord(op: BitOp, x: word, y: word)
    ensures 0 <= Bitwise(op, x, y) < 0x1_0000_0000
  {
    Pow2_32();
    BitwiseBound(op, x, y, 32);
  }

  /** Every bit of the result is the operator applied to the two bits below it. */
  lemma {:induction false} BitwiseBit(op: BitOp, x: nat, y: nat, i: nat)
    ensures GetBit(Bitwise(op, x, y), i) == Digit(op, GetBit(x, i), GetBit(y, i))
    decreases i
  {
    if i == 0 {
    } else {
      BitwiseBit(op, x / 2, y / 2, i - 1);
      GetBitShift(x, i);
      GetBitShift(y, i);
      GetBitShift(Bitwise(op, x, y), i);
      assert Bitwise(op, x, y) / 2 == Bitwise(op, x / 2, y / 2);
    }
  }

  lemma GetBitShift(x: nat, i: nat)
    requires i > 0
    ensures GetBit(x, i) == GetBit(x / 2, i - 1)
  {
    DivDiv(x, 2, Pow2(i - 1));
  }

  // ---- Division ----

  lemma MulAtLeast(d: int, k: int)
    requires d > 0 && k > 0
    ensures d * k >= d
  {
  }

  lemma DivUnique(x: int, d: int, q: int, r: int)
    requires d > 0 && x == d * q + r && 0 <= r < d
    ensures x / d == q && x % d == r
  {
    var q', r' := x / d, x % d;
    assert d * (q' - q) == r - r' && d * (q - q') == r' - r;
    if q' > q {
      MulAtLeast(d, q' - q);
    } else if q' < q {
      MulAtLeast(d, q - q');
    }
  }

  lemma ShrBound(x: nat, d: nat)
    requires d > 0
    ensures 0 <= x / d <= x
  {
    var q := x / d;
    if q > 0 {
      MulAtLeast(q, d);
    }
  }

  lemma DivDiv(x: nat, a: nat, b: nat)
    requires a > 0 && b > 0
    ensures a * b > 0 && x / (a * b) == x / a / b
  {
    var q, r := x / a, x % a;
    var q', r' := q / b, q % b;
    MulAtLeast(a, b);
    MulAtLeast(a, b - r');
    Regroup(a, b, q', r', r);
    DivUnique(x, a * b, q', a * r' + r);
  }

  lemma Distribute(p: int, d: int, q: int)
    ensures p * (d - q) == p * d - p * q
  {
  }

  lemma MulMono(p: nat, a: int, b: int)
    requires a <= b
    ensures p * a <= p * b
  {
  }

  lemma SmallDiv(x: int, p: int)
    requires p > 0 && -p <= x < p
    ensures x / p == if x < 0 then -1 else 0
  {
    if x < 0 {
      DivUnique(x, p, -1, x + p);
    } else {
      DivUnique(x, p, 0, x);
    }
  }

  lemma QuotientBelow(x: nat, p: nat, q: nat)
    requires p > 0 && x < p * q
    ensures x / p < q
  {
    if x / p >= q {
      MulMono(p, q, x / p);
    }
  }

  lemma CancelStep(a: int, p: int, q: int, d: int, r: int)
    requires a == q * d + r && p >= 0 && r >= 0
    ensures a * p == (p * q) * d + r * p && p * (q - r) == p * q - r * p && r * p >= 0
  {
  }

  lemma MulDivCancel(a: nat, p: nat, q: nat)
    requires p > 0 && q > 0
    ensures p * q > 0 && a * p / (p * q) == a / q && a * p % (p * q) == a % q * p
  {
    var d, r := a / q, a % q;
    MulAtLeast(p, q);
    MulAtLeast(p, q - r);
    CancelStep(a, p, q, d, r);
    DivUnique(a * p, p * q, d, r * p);
  }

  lemma OnesModP(p: nat, q: nat)
    requires p > 0 && q > 0 && p * q == 0x1_0000_0000
    ensures 0xFFFF_FFFF % p == p - 1 && (p - 1) * q == 0x1_0000_0000 - q
  {
    Distribute(p, q, 1);
    DivUnique(0xFFFF_FFFF, p, q - 1, p - 1);
  }

  /** 0xFFFFFFFF << k and 0xFFFFFFFF >> n for complementary shift factors. */
  lemma OnesShifted(p: nat, q: nat)
    requires p > 0 && q > 0 && p * q == 0x1_0000_0000
    ensures Wrap(0xFFFF_FFFF * q) == (p - 1) * q == 0x1_0000_0000 - q
    ensures 0xFFFF_FFFF / p == q - 1
  {
    MulDivCancel(0xFFFF_FFFF, q, p);
    DivUnique(0xFFFF_FFFF, p, q - 1, p - 1);
    MulAtLeast(q, p);
    DivUnique(0xFFFF_FFFF, p, q - 1, p - 1);
    OnesModP(p, q);
  }

  lemma Regroup(a: int, b: int, q: int, r: int, s: int)
    ensures a * (b * q + r) + s == (a * b) * q + (a * r + s)
    ensures a * (b - r) == a * b - a * r
  {
  }

  lemma {:induction false} Pow2Add(m: nat, n: nat)
    ensures Pow2(m + n) == Pow2(m) * Pow2(n)
    decreases m
  {
    if m == 0 {
    } else {
      Pow2Add(m - 1, n);
      assert Pow2(m + n) == 2 * (Pow2(m - 1) * Pow2(n));
    }
  }

  lemma Pow2_32()
    ensures Pow2(8) == 0x100 && Pow2(16) == 0x1_0000 && Pow2(24) == 0x100_0000 && Pow2(32) == 0x1_0000_0000
    ensures Pow2(5) == 0x20 && Pow2(6) == 0x40 && Pow2(26) == 0x400_0000 && Pow2(28) == 0x1000_0000
    ensures Pow2(29) == 0x2000_0000 && Pow2(30) == 0x4000_0000 && Pow2(31) == 0x8000_0000
  {
    assert Pow2(4) == 16;
    Pow2Add(4, 4);
    Pow2Add(8, 8);
    Pow2Add(8, 16);
    Pow2Add(16, 16);
    Pow2Add(2, 24);
    Pow2Add(4, 24);
    Pow2Add(1, 28);
    Pow2Add(1, 29);
    Pow2Add(1, 30);
  }

  // ---- Masks ----

  /** Masking a k-bit number with k ones changes nothing. */
  lemma {:induction false} AndOnes(x: nat, m: nat, k: nat)
    requires x < m == Pow2(k)
    ensures Bitwise(AND, x, m - 1) == x
    decreases k
  {
    if k == 0 {
    } else {
      assert (m - 1) / 2 == m / 2 - 1 && (m - 1) % 2 == 1;
      AndOnes(x / 2, m / 2, k - 1);
    }
  }

  lemma {:induction false} AndZero(x: nat)
    ensures Bitwise(AND, x, 0) == 0 == Bitwise(AND, 0, x)
  {
    if x != 0 {
      AndZero(x / 2);
    }
  }

  /** A bitwise operator acts separately on the part above bit k and the part below it. */
  lemma {:induction false} BitwiseSplit(op: BitOp, xh: nat, xl: nat, yh: nat, yl: nat, p: nat, k: nat)
    requires p == Pow2(k) && xl < p && yl < p
    ensures xh * p >= 0 && yh * p >= 0
    ensures Bitwise(op, xh * p + xl, yh * p + yl) == Bitwise(op, xh, yh) * p + Bitwise(op, xl, yl)
    decreases k
  {
    hide Bitwise, Digit, Pow2;
    if k == 0 {
      SplitAtZero(op, xh, yh);
    } else {
      var p' := Pow2(k - 1);
      Pow2Doubles(k);
      SplitOnce(op, xh, xl, yh, yl, p');
      BitwiseSplit(op, xh, xl / 2, yh, yl / 2, p', k - 1);
      MulDouble(Bitwise(op, xh, yh), p', p);
    }
  }

  lemma SplitAtZero(op: BitOp, xh: nat, yh: nat)
    ensures Pow2(0) == 1 && xh * 1 == xh && yh * 1 == yh && Bitwise(op, xh, yh) * 1 == Bitwise(op, xh, yh)
    ensures Bitwise(op, 0, 0) == 0
  {
  }

  lemma Pow2Doubles(k: nat)
    requires k > 0
    ensures Pow2(k) == 2 * Pow2(k - 1)
  {
  }

  /** One digit of the split: the low digits of both parts go together. */
  lemma SplitOnce(op: BitOp, xh: nat, xl: nat, yh: nat, yl: nat, q: nat)
    ensures xh * q >= 0 && yh * q >= 0
    ensures Bitwise(op, xh * (2 * q) + xl, yh * (2 * q) + yl)
         == 2 * Bitwise(op, xh * q + xl / 2, yh * q + yl / 2) + Digit(op, xl % 2, yl % 2)
    ensures Bitwise(op, xl, yl) == 2 * Bitwise(op, xl / 2, yl / 2) + Digit(op, xl % 2, yl % 2)
  {
    hide Bitwise, Digit;
    MulDouble(xh, q, 2 * q);
    MulDouble(yh, q, 2 * q);
    HalfSplit(op, xh * q, xl, yh * q, yl);
  }

  lemma MulDouble(a: int, q: int, p: int)
    requires p == 2 * q
    ensures a * p == 2 * (a * q)
  {
  }

  lemma HalfSplit(op: BitOp, xh: nat, xl: nat, yh: nat, yl: nat)
    ensures Bitwise(op, 2 * xh + xl, 2 * yh + yl)
         == 2 * Bitwise(op, xh + xl / 2, yh + yl / 2) + Digit(op, xl % 2, yl % 2)
    ensures Bitwise(op, xl, yl) == 2 * Bitwise(op, xl / 2, yl / 2) + Digit(op, xl % 2, yl % 2)
  {
    assert (2 * xh + xl) / 2 == xh + xl / 2 && (2 * yh + yl) / 2 == yh + yl / 2;
  }

  lemma {:induction false} OrZero(x: nat)
    ensures Bitwise(OR, x, 0) == x == Bitwise(OR, 0, x)
  {
    if x != 0 {
      OrZero(x / 2);
    }
  }

  lemma {:induction false} BitwiseComm(op: BitOp, x: nat, y: nat)
    ensures Bitwise(op, x, y) == Bitwise(op, y, x)
    decreases x + y
  {
    if x > 0 || y > 0 {
      BitwiseComm(op, x / 2, y / 2);
    }
  }

  /** OR of two words with no common bit position is their sum. */
  lemma OrDisjoint(hi: nat, lo: nat, p: nat, k: nat)
    requires p == Pow2(k) && lo < p
    ensures hi * p >= 0 && Bitwise(OR, hi * p, lo) == hi * p + lo
  {
    BitwiseSplit(OR, hi, 0, 0, lo, p, k);
    OrZero(hi);
    OrZero(lo);
  }

  /** AND of two words with no common bit position is zero. */
  lemma AndDisjoint(hi: nat, lo: nat, p: nat, k: nat)
    requires p == Pow2(k) && lo < p
    ensures hi * p >= 0 && Bitwise(AND, lo, hi * p) == 0
  {
    BitwiseSplit(AND, 0, lo, hi, 0, p, k);
    AndZero(hi);
    AndZero(lo);
  }
}
