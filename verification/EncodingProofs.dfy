/** The get_bits macro of util.h against arithmetic, and every named instruction field against get_bits. */
module EncodingProofs {
  import opened Words
  import opened Encoding

  /** get_bits: shift right, then mask with the complement of all ones shifted past the field. */
  function GetBits(x: word, h: nat, l: nat): word
    requires l <= h < 32 && h - l < 31
  {
    And(Shr(x, l), Not(Shl(0xFFFF_FFFF, h - l + 1)))
  }

  /** The macro extracts a division and a remainder. */
  lemma GetBitsIsField(x: word, h: nat, l: nat)
    requires l <= h < 32 && h - l < 31
    ensures GetBits(x, h, l) == x / Pow2(l) % Pow2(h - l + 1)
  {
    hide Pow2, And, Shr, Wrap;
    var k := h - l + 1;
    Pow2Add(32 - k, k);
    Pow2_32();
    OnesShifted(Pow2(32 - k), Pow2(k));
    AndLow(Shr(x, l), Pow2(k), k);
    ShrValue(x, l);
  }

  lemma ShrValue(x: word, l: nat)
    ensures Shr(x, l) == x / Pow2(l)
  {
  }

  lemma AndLow(y: word, q: nat, k: nat)
    requires q == Pow2(k) && q <= 0x1_0000_0000
    ensures And(y, q - 1) == y % q
  {
    hide Pow2, Bitwise;
    AndOnes(y % q, q, k);
    BitwiseSplit(AND, y / q, y % q, 0, q - 1, q, k);
    AndZero(y / q);
    assert y == y / q * q + y % q;
  }

  /** Bit i of the field is bit l + i of the word, and nothing lies above bit h - l. */
  lemma GetBitsBit(x: word, h: nat, l: nat, i: nat)
    requires l <= h < 32 && h - l < 31
    ensures GetBit(GetBits(x, h, l), i) == if i <= h - l then GetBit(x, l + i) else 0
  {
    hide Pow2, GetBits, GetBit;
    var k, y := h - l + 1, x / Pow2(l);
    GetBitsIsField(x, h, l);
    ShrBound(x, Pow2(l));
    if i < k {
      BitOfField(y, k, i);
      BitOfQuotient(x, l, i);
    } else {
      SmallField(y % Pow2(k), k, i);
    }
  }

  lemma BitOfField(y: nat, k: nat, i: nat)
    requires i < k
    ensures GetBit(y % Pow2(k), i) == GetBit(y, i)
  {
    hide Pow2;
    Pow2Add(k - i, i);
    Pow2Doubles(k - i);
    FieldParity(y, Pow2(k), Pow2(i), Pow2(k - i - 1), Pow2(k - i));
  }

  lemma FieldParity(y: nat, m: nat, b: nat, p: nat, a: nat)
    requires p > 0 && b > 0 && a == 2 * p && m == a * b && m > 0
    ensures y % m / b % 2 == y / b % 2
  {
    LowField(y, a, b);
    EvenModulus(y / b, p);
  }

  lemma BitOfQuotient(x: nat, l: nat, i: nat)
    ensures x / Pow2(l) >= 0 && GetBit(x / Pow2(l), i) == GetBit(x, l + i)
  {
    hide Pow2;
    Pow2Add(l, i);
    ShrBound(x, Pow2(l));
    DivDiv(x, Pow2(l), Pow2(i));
  }

  lemma LowField(y: nat, a: nat, b: nat)
    requires a > 0 && b > 0
    ensures a * b > 0 && y % (a * b) / b == y / b % a
  {
    var d, r := y / b, y % b;
    var e, f := d / a, d % a;
    MulAtLeast(b, a);
    MulAtLeast(b, a - f);
    Regroup(b, a, e, f, r);
    assert y % (a * b) == b * f + r by { DivUnique(y, b * a, e, b * f + r); }
    DivUnique(b * f + r, b, f, r);
  }

  lemma EvenModulus(d: nat, p: nat)
    requires p > 0
    ensures d % (2 * p) % 2 == d % 2
  {
    var q, r := d / (2 * p), d % (2 * p);
    assert d == 2 * (p * q) + r by { Regroup(2, p, q, 0, r); }
    DivUnique(d, 2, p * q + r / 2, r % 2);
  }

  lemma SmallField(y: nat, k: nat, i: nat)
    requires k <= i && y < Pow2(k)
    ensures GetBit(y, i) == 0
  {
    hide Pow2;
    Pow2Add(i - k, k);
    MulMono(Pow2(k), 1, Pow2(i - k));
    SmallDiv(y, Pow2(i));
  }

  lemma FieldAt(x: word, h: nat, l: nat, p: nat, q: nat)
    requires l <= h < 32 && h - l < 31 && p == Pow2(l) && q == Pow2(h - l + 1)
    ensures GetBits(x, h, l) == x / p % q
  {
    hide GetBits;
    GetBitsIsField(x, h, l);
  }

  lemma Powers()
    ensures Pow2(0) == 1 && Pow2(1) == 2 && Pow2(2) == 4 && Pow2(3) == 8 && Pow2(4) == 0x10 && Pow2(5) == 0x20
    ensures Pow2(6) == 0x40 && Pow2(7) == 0x80 && Pow2(8) == 0x100 && Pow2(12) == 0x1000 && Pow2(16) == 0x1_0000
    ensures Pow2(20) == 0x10_0000 && Pow2(21) == 0x20_0000 && Pow2(22) == 0x40_0000 && Pow2(23) == 0x80_0000
    ensures Pow2(24) == 0x100_0000 && Pow2(25) == 0x200_0000 && Pow2(28) == 0x1000_0000
  {
    assert Pow2(4) == 0x10;
    hide Pow2;
    Pow2_32();
    Pow2Doubles(1);
    Pow2Doubles(2);
    Pow2Doubles(3);
    Pow2Doubles(4);
    Pow2Doubles(7);
    Pow2Doubles(8);
    Pow2Add(4, 8);
    Pow2Add(4, 16);
    Pow2Doubles(21);
    Pow2Doubles(22);
    Pow2Doubles(23);
    Pow2Doubles(25);
    Pow2Doubles(26);
  }

  /** The named fields are the bit ranges that the decoder's macros name. */
  lemma FieldsAreBitRanges(ins: word)
    ensures CondField(ins) == GetBits(ins, 31, 28) && TypeField(ins) == GetBits(ins, 27, 25)
    ensures IBit(ins) == GetBits(ins, 25, 25) && PBit(ins) == GetBits(ins, 24, 24) && UBit(ins) == GetBits(ins, 23, 23)
    ensures BBit(ins) == GetBits(ins, 22, 22) && WBit(ins) == GetBits(ins, 21, 21) && LBit(ins) == GetBits(ins, 20, 20)
    ensures Opcode(ins) == GetBits(ins, 24, 21) && Rn(ins) == GetBits(ins, 19, 16) && Rd(ins) == GetBits(ins, 15, 12)
    ensures Rs(ins) == GetBits(ins, 11, 8) && RotateImm(ins) == GetBits(ins, 11, 8) && Rm(ins) == GetBits(ins, 3, 0)
    ensures ShiftImm(ins) == GetBits(ins, 11, 7) && ShiftType(ins) == GetBits(ins, 6, 5)
    ensures Bits11To4(ins) == GetBits(ins, 11, 4) && Offset12(ins) == GetBits(ins, 11, 0)
    ensures Bit7(ins) == GetBits(ins, 7, 7) && Bit6(ins) == GetBits(ins, 6, 6) && Bit5(ins) == GetBits(ins, 5, 5)
    ensures Bit4(ins) == GetBits(ins, 4, 4)
  {
    hide Pow2, GetBits;
    Powers();
    FieldAt(ins, 31, 28, 0x1000_0000, 16);
    FieldAt(ins, 27, 25, 0x200_0000, 8);
    FieldAt(ins, 25, 25, 0x200_0000, 2);
    FieldAt(ins, 24, 24, 0x100_0000, 2);
    FieldAt(ins, 23, 23, 0x80_0000, 2);
    FieldAt(ins, 22, 22, 0x40_0000, 2);
    FieldAt(ins, 21, 21, 0x20_0000, 2);
    FieldAt(ins, 20, 20, 0x10_0000, 2);
    FieldAt(ins, 24, 21, 0x20_0000, 16);
    FieldAt(ins, 19, 16, 0x1_0000, 16);
    FieldAt(ins, 15, 12, 0x1000, 16);
    FieldAt(ins, 11, 8, 0x100, 16);
    FieldAt(ins, 3, 0, 1, 16);
    FieldAt(ins, 11, 7, 0x80, 32);
    FieldAt(ins, 6, 5, 0x20, 4);
    FieldAt(ins, 11, 4, 0x10, 0x100);
    FieldAt(ins, 11, 0, 1, 0x1000);
    FieldAt(ins, 7, 7, 0x80, 2);
    FieldAt(ins, 6, 6, 0x40, 2);
    FieldAt(ins, 5, 5, 0x20, 2);
    FieldAt(ins, 4, 4, 0x10, 2);
  }

  /** The fields above bit 19 of a word, from its top twelve bits. */
  lemma HighFields(ins: word, k: nat)
    requires ins / 0x10_0000 == k
    ensures CondField(ins) == k / 0x100 && TypeField(ins) == k / 0x20 % 8 && IBit(ins) == k / 0x20 % 2
    ensures PBit(ins) == k / 0x10 % 2 && UBit(ins) == k / 8 % 2 && BBit(ins) == k / 4 % 2
    ensures WBit(ins) == k / 2 % 2 && LBit(ins) == k % 2 && Opcode(ins) == k / 2 % 16
  {
    assert ins / 0x1000_0000 == k / 0x100 && ins / 0x200_0000 == k / 0x20 && ins / 0x100_0000 == k / 0x10;
    assert ins / 0x80_0000 == k / 8 && ins / 0x40_0000 == k / 4 && ins / 0x20_0000 == k / 2;
  }

  lemma FieldRange(ins: word)
    ensures CondField(ins) < 16
  {
  }
}
