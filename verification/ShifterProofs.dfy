/** The barrel shifter against arithmetic, and the two shifters of the simulator against each other (section A5.1). */
module ShifterProofs {
  import opened Words
  import opened Encoding
  import opened Core
  import opened Shifter
  import DataProcessing
  import LoadStore

  // ---- The shifter operations as arithmetic ----

  function ArmLsl(rm: word, n: nat, c: bit): Shifted
  {
    if n == 0 then Shifted(rm, c)
    else Shifted(Wrap(rm * Pow2(n)), rm * Pow2(n) / 0x1_0000_0000 % 2)
  }

  function ArmLsr(rm: word, n: nat, c: bit): Shifted
  {
    if n == 0 then Shifted(rm, c)
    else Shifted(Wrap(rm / Pow2(n)), rm / Pow2(n - 1) % 2)
  }

  /** Dafny's division by a positive number rounds down. */
  function ArmAsr(rm: word, n: nat, c: bit): Shifted
  {
    if n == 0 then Shifted(rm, c)
    else Shifted(Wrap(Signed(rm) / Pow2(n)), Signed(rm) / Pow2(n - 1) % 2)
  }

  /** The low n mod 32 bits move to the top; the carry is the top bit of the result. */
  function ArmRor(rm: word, n: nat, c: bit): Shifted
  {
    if n == 0 then Shifted(rm, c)
    else
      var k := n % 32;
      var operand := Wrap(rm / Pow2(k) + rm % Pow2(k) * Pow2(32 - k));
      Shifted(operand, operand / 0x8000_0000)
  }

  function ArmRrx(rm: word, c: bit): Shifted { Shifted(c * 0x8000_0000 + rm / 2, rm % 2) }

  function ArmShift(kind: nat, rm: word, n: nat, c: bit): Shifted
  {
    match kind
    case 0 => ArmLsl(rm, n, c)
    case 1 => ArmLsr(rm, n, c)
    case 2 => ArmAsr(rm, n, c)
    case _ => ArmRor(rm, n, c)
  }

  // ---- Powers and products ----

  /** For 0 < n < 32 the two shift factors of a word. */
  lemma Factors(n: nat)
    requires 0 < n < 32
    ensures Pow2(n) * Pow2(32 - n) == 0x1_0000_0000
    ensures Pow2(n) == 2 * Pow2(n - 1)
    ensures Pow2(n - 1) * Pow2(32 - n) == 0x8000_0000
  {
    hide Pow2;
    Pow2_32();
    Pow2Add(n, 32 - n);
    Pow2Add(n - 1, 32 - n);
    Pow2Doubles(n);
  }

  /** A word below 2^n divides to nothing. */
  lemma {:induction false} Pow2AtLeast(n: nat)
    requires n >= 32
    ensures Pow2(n) >= 0x1_0000_0000
    decreases n
  {
    if n == 32 {
      Pow2_32();
    } else {
      Pow2AtLeast(n - 1);
    }
  }

  // ---- LSL and LSR ----

  lemma LslMeaning(rm: word, n: byte, c: bit)
    ensures LslReg(rm, n, c) == ArmLsl(rm, n, c)
  {
    hide Pow2;
    if 0 < n < 32 {
      Factors(n);
      MulDivCancel(rm, Pow2(n), Pow2(32 - n));
    } else if n == 32 {
      Pow2_32();
      BitZero(rm);
      MulDivCancel(rm, 0x1_0000_0000, 1);
    } else if n > 32 {
      Pow2_32();
      Pow2Add(n - 32, 32);
      Pow2Doubles(n - 32);
      var p := Pow2(n - 33);
      Reassociate(rm, p);
      MulDivCancel(rm * (2 * p), 0x1_0000_0000, 1);
      EvenProduct(rm, p);
    }
  }

  lemma Reassociate(a: nat, p: nat)
    ensures a * (2 * p * 0x1_0000_0000) == a * (2 * p) * 0x1_0000_0000 && a * (2 * p) >= 0
  {
  }

  lemma EvenProduct(a: nat, p: nat)
    ensures a * (2 * p) % 2 == 0
  {
    assert a * (2 * p) == 2 * (a * p);
  }

  lemma BitZero(x: nat)
    ensures GetBit(x, 0) == x % 2
  {
  }

  lemma LsrMeaning(rm: word, n: byte, c: bit)
    ensures LsrReg(rm, n, c) == ArmLsr(rm, n, c)
  {
    hide Pow2;
    if 0 < n < 32 {
      ShrBound(rm, Pow2(n));
    } else if n == 32 {
      Pow2_32();
    } else if n > 32 {
      Pow2AtLeast(n - 1);
      Pow2AtLeast(n);
      SmallDiv(rm, Pow2(n - 1));
      SmallDiv(rm, Pow2(n));
    }
  }

  // ---- ASR ----

  /** For a negative word the ones ORed in at the top make the quotient round down. */
  lemma AsrNegative(rm: word, n: nat)
    requires 0 < n < 32 && rm >= 0x8000_0000
    ensures ArithmeticShiftRight(rm, n) == rm / Pow2(n) + 0x1_0000_0000 - Pow2(32 - n)
    ensures Signed(rm) / Pow2(n) == rm / Pow2(n) - Pow2(32 - n)
    ensures 0 <= rm / Pow2(n) < Pow2(32 - n)
  {
    hide Pow2, Bitwise;
    var p, q := Pow2(n), Pow2(32 - n);
    Factors(n);
    QuotientBelow(rm, p, q);
    OnesShifted(p, q);
    assert GetBit(rm, 31) == 1 by { Pow2_32(); }
    OrDisjoint(p - 1, rm / p, q, 32 - n);
    BitwiseComm(OR, rm / p, (p - 1) * q);
    var d, r := rm / p, rm % p;
    assert rm - 0x1_0000_0000 == p * (d - q) + r by { Distribute(p, d, q); }
    DivUnique(rm - 0x1_0000_0000, p, d - q, r);
  }

  lemma AsrPositive(rm: word, n: nat)
    requires 0 < n < 32 && rm < 0x8000_0000
    ensures ArithmeticShiftRight(rm, n) == rm / Pow2(n)
  {
    hide Pow2, Bitwise, GetBit;
    TopBitIsBit31(rm);
    OrZero(rm / Pow2(n));
  }

  /** Bit n - 1 is the same in a word and in its signed value. */
  lemma SignedBit(rm: word, n: nat)
    requires 0 < n <= 32
    ensures Signed(rm) / Pow2(n - 1) % 2 == GetBit(rm, n - 1)
  {
    hide Pow2;
    if rm >= 0x8000_0000 {
      Pow2_32();
      Pow2Add(n - 1, 32 - n);
      SignedParts(rm, Pow2(n - 1), Pow2(32 - n));
    }
  }

  lemma SignedParts(rm: word, h: nat, q: nat)
    requires h > 0 && h * q == 0x8000_0000
    ensures (rm - 0x1_0000_0000) / h % 2 == rm / h % 2
  {
    var d, r := rm / h, rm % h;
    SwapFactor(h, q);
    Distribute(h, d, 2 * q);
    DivUnique(rm - 0x1_0000_0000, h, d - 2 * q, r);
  }

  lemma SwapFactor(h: int, q: int)
    ensures h * (2 * q) == 2 * h * q == 2 * (h * q)
  {
  }

  /** The shift as a value, for both signs. */
  lemma AsrValue(rm: word, n: nat)
    requires 0 < n < 32
    ensures ArithmeticShiftRight(rm, n) == Wrap(Signed(rm) / Pow2(n))
  {
    hide Pow2, ArithmeticShiftRight, Wrap;
    if rm >= 0x8000_0000 {
      AsrNegative(rm, n);
      WrapNegative(rm / Pow2(n) - Pow2(32 - n), rm / Pow2(n) + 0x1_0000_0000 - Pow2(32 - n));
    } else {
      AsrPositive(rm, n);
      ShrBound(rm, Pow2(n));
      WrapWord(rm / Pow2(n));
    }
  }

  lemma AsrMeaning(rm: word, n: byte, c: bit)
    requires n < 32
    ensures AsrReg(rm, n, c) == ArmAsr(rm, n, c)
  {
    hide Pow2, ArithmeticShiftRight, GetBit, Wrap, Signed;
    if n > 0 {
      SignedBit(rm, n);
      AsrValue(rm, n);
    }
  }

  lemma WrapNegative(x: int, y: word)
    requires y == x + 0x1_0000_0000
    ensures Wrap(x) == y
  {
  }

  /** Shifting out all 32 bits leaves the sign. */
  lemma AsrAll(rm: word, n: nat, c: bit)
    requires n >= 32
    ensures ArmAsr(rm, n, c) == if rm < 0x8000_0000 then Shifted(0, 0) else Shifted(0xFFFF_FFFF, 1)
  {
    hide Pow2;
    Pow2AtLeast(n);
    SmallDiv(Signed(rm), Pow2(n));
    if n == 32 {
      Pow2_32();
    } else {
      Pow2AtLeast(n - 1);
      SmallDiv(Signed(rm), Pow2(n - 1));
    }
  }

  // ---- ROR ----

  lemma RotateValue(x: word, n: nat)
    requires 0 < n < 32
    ensures RotateRight(x, n) == x / Pow2(n) + x % Pow2(n) * Pow2(32 - n)
    ensures x / Pow2(n) + x % Pow2(n) * Pow2(32 - n) < 0x1_0000_0000
  {
    hide Pow2, Bitwise, Shl;
    var p, q := Pow2(n), Pow2(32 - n);
    Factors(n);
    QuotientBelow(x, p, q);
    ShiftedUp(x, n);
    OrDisjoint(x % p, x / p, q, 32 - n);
    BitwiseComm(OR, x / p, x % p * q);
  }

  /** The bits that a rotation by n moves to the top. */
  lemma ShiftedUp(x: word, n: nat)
    requires 0 < n < 32
    ensures Shl(x, 32 - n) == x % Pow2(n) * Pow2(32 - n)
  {
    hide Pow2, Wrap;
    var p, q := Pow2(n), Pow2(32 - n);
    Factors(n);
    MulDivCancel(x, q, p);
    WrapIsRemainder(x * q, q * p);
  }

  lemma WrapIsRemainder(x: int, m: int)
    requires m == 0x1_0000_0000
    ensures x % m == Wrap(x)
  {
  }

  /** The last bit rotated out is the top bit of the result. */
  lemma RotateCarry(x: word, n: nat)
    requires 0 < n < 32
    ensures RotateRight(x, n) / 0x8000_0000 == GetBit(x, n - 1)
  {
    hide Pow2, RotateRight;
    Factors(n);
    RotateValue(x, n);
    CarryOfRotation(x, Pow2(n - 1), Pow2(32 - n), RotateRight(x, n));
  }

  lemma CarryOfRotation(x: word, h: nat, q: nat, top: word)
    requires h > 0 && q > 0 && h * q == 0x8000_0000
    requires top == x / (2 * h) + x % (2 * h) * q
    ensures top / 0x8000_0000 == x / h % 2
  {
    assert 2 * h * q == 0x1_0000_0000 by { SwapFactor(h, q); }
    QuotientBelow(x, 2 * h, q);
    LowHalf(x, h);
    CarryCore(x / h % 2, h, x % h, q, x / (2 * h), x % (2 * h), top);
  }

  lemma CarryCore(b: bit, h: int, r: int, q: int, lo: int, m: int, top: word)
    requires h * q == 0x8000_0000 && 0 <= r < h && 0 <= lo < q && m == b * h + r
    requires top == lo + m * q
    ensures top / 0x8000_0000 == b
  {
    TopBit(b, h, r, q, lo);
    RoomBelow(h, r, q);
    DivUnique(top, 0x8000_0000, b, r * q + lo);
  }

  lemma RoomBelow(h: int, r: int, q: int)
    requires 0 <= r < h && q > 0
    ensures 0 <= r * q <= h * q - q
  {
    MulAtLeast(q, h - r);
    Distribute(q, h, r);
  }

  lemma TopBit(b: int, h: int, r: int, q: int, lo: int)
    requires h * q == 0x8000_0000
    ensures lo + (b * h + r) * q == b * 0x8000_0000 + (r * q + lo)
  {
    assert (b * h + r) * q == b * (h * q) + r * q;
  }

  /** The remainder modulo 2h, split at its top bit. */
  lemma LowHalf(x: nat, h: nat)
    requires h > 0
    ensures x % (2 * h) == x / h % 2 * h + x % h
  {
    var a, r := x / h, x % h;
    assert x == (2 * h) * (a / 2) + (a % 2 * h + r) by { HalfParts(h, a, r); }
    DivUnique(x, 2 * h, a / 2, a % 2 * h + r);
  }

  lemma HalfParts(h: int, a: int, r: int)
    ensures h * a + r == (2 * h) * (a / 2) + (a % 2 * h + r)
  {
    var b, e := a / 2, a % 2;
    assert h * (2 * b + e) == (2 * h) * b + e * h;
  }

  lemma RorMeaning(rm: word, n: byte, c: bit)
    ensures RorReg(rm, n, c) == ArmRor(rm, n, c)
  {
    hide Pow2, RotateRight, GetBit, Wrap;
    var k := n % 32;
    if n > 0 && k == 0 {
      NoRotation(rm);
    } else if n > 0 {
      RotateValue(rm, k);
      RotateCarry(rm, k);
      WrapWord(RotateRight(rm, k));
    }
  }

  lemma NoRotation(rm: word)
    ensures Wrap(rm / Pow2(0) + rm % Pow2(0) * Pow2(32)) == rm && GetBit(rm, 31) == rm / 0x8000_0000
  {
    Pow2_32();
  }

  lemma RrxMeaning(rm: word, c: bit)
    ensures Rrx(rm, c) == ArmRrx(rm, c)
  {
    hide Bitwise;
    Pow2_32();
    assert Pow2(1) == 2;
    BitZero(rm);
    OrDisjoint(c, rm / 2, 0x8000_0000, 31);
  }

  // ---- The two theorems ----

  /** Immediate shifts: encoding 0 stands for 32 in LSR and ASR, and for RRX in ROR. */
  lemma ImmediateShiftIsArithmetic(kind: nat, rm: word, n: nat, c: bit)
    requires kind < 4 && n < 32
    ensures ShiftedByImm(kind, rm, n, c)
         == if kind == 3 && n == 0 then ArmRrx(rm, c)
            else ArmShift(kind, rm, if n == 0 && kind > 0 then 32 else n, c)
  {
    hide Pow2, ArmLsl, ArmLsr, ArmAsr, ArmRor, ArmRrx, Rrx, ArithmeticShiftRight, RotateRight, Shl, Shr, GetBit;
    TopBitIsBit31(rm);
    LslMeaning(rm, n, c);
    LsrMeaning(rm, if n == 0 then 32 else n, c);
    AsrMeaning(rm, n, c);
    AsrAll(rm, 32, c);
    RorMeaning(rm, n, c);
    RrxMeaning(rm, c);
  }

  /** Register shifts, exactly: only ASR by 32 of a negative word and ASR by more than 32 go wrong. */
  lemma RegisterShiftIsArithmetic(kind: nat, rm: word, n: byte, c: bit)
    requires kind < 4
    ensures ShiftedByReg(kind, rm, n, c) == ArmShift(kind, rm, n, c)
       <==> !(kind == 2 && (n > 32 || (n == 32 && rm >= 0x8000_0000)))
  {
    hide Pow2, ArmLsl, ArmLsr, ArmAsr, ArmRor, ArithmeticShiftRight, RotateRight, LslReg, LsrReg, RorReg;
    LslMeaning(rm, n, c);
    LsrMeaning(rm, n, c);
    RorMeaning(rm, n, c);
    if n < 32 {
      AsrMeaning(rm, n, c);
    } else {
      AsrAll(rm, n, c);
      Pow2_32();
    }
  }

  /** Inputs at which register ASR goes wrong: 33 positions make 1 all ones, and 32 positions lose the sign of 2^31. */
  lemma RegisterAsrCanFail(c: bit)
    ensures AsrReg(1, 33, c).operand == 0xFFFF_FFFF && ArmAsr(1, 33, c).operand == 0
    ensures AsrReg(0x8000_0000, 32, c).operand == 0 && ArmAsr(0x8000_0000, 32, c).operand == 0xFFFF_FFFF
  {
    hide Pow2;
    AsrAll(1, 33, c);
    AsrAll(0x8000_0000, 32, c);
  }

  /** An 8-bit immediate rotated right by twice its rotate field. */
  lemma ImmediateOperandIsRotation(imm8: byte, rotate: nat, c: bit)
    requires rotate < 16
    ensures ImmediateOperand(imm8, rotate, c) == ArmRor(imm8, 2 * rotate, c)
  {
    hide Pow2, RotateRight, GetBit;
    if rotate > 0 {
      RotateValue(imm8, 2 * rotate);
      TopBitIsBit31(RotateRight(imm8, 2 * rotate));
    } else {
      RotateByNothing(imm8);
    }
  }

  lemma TopBitIsBit31(x: word)
    ensures GetBit(x, 31) == x / 0x8000_0000
  {
    Pow2_32();
  }

  lemma RotateByNothing(x: word)
    ensures RotateRight(x, 0) == x
  {
    hide Bitwise;
    Pow2_32();
    MulDivCancel(x, 0x1_0000_0000, 1);
    OrZero(x);
  }

  /** The shifter operand of a data-processing word, form by form. */
  lemma OperandMeaning(s: State, ins: word)
    requires TypeField(ins) <= 1
    ensures var rm, c, n := s.Reg(Rm(ins)), FlagC(s.Cpsr()), ShiftImm(ins);
            && (TypeField(ins) == 1 ==> DataProcessing.Operand(s, ins) == ArmRor(ins % 0x100, 2 * RotateImm(ins), c))
            && (TypeField(ins) == 0 && Bit4(ins) == 0 ==>
                  DataProcessing.Operand(s, ins) == if ShiftType(ins) == 3 && n == 0 then ArmRrx(rm, c)
                                     else ArmShift(ShiftType(ins), rm,
                                                   if n == 0 && ShiftType(ins) > 0 then 32 else n, c))
            && (TypeField(ins) == 0 && Bit4(ins) == 1 && Bit7(ins) == 0 ==>
                  var amount: byte := s.Reg(Rs(ins)) % 0x100;
                  (DataProcessing.Operand(s, ins) == ArmShift(ShiftType(ins), rm, amount, c)
              <==> !(ShiftType(ins) == 2 && (amount > 32 || (amount == 32 && rm >= 0x8000_0000)))))
  {
    hide ShiftedByImm, ShiftedByReg, ImmediateOperand, ArmShift, ArmRor, ArmRrx, TypeField, Bit4, Bit7, State.Reg, Rm,
      Rs, FlagC;
    ImmediateShiftIsArithmetic(ShiftType(ins), s.Reg(Rm(ins)), ShiftImm(ins), FlagC(s.Cpsr()));
    RegisterShiftIsArithmetic(ShiftType(ins), s.Reg(Rm(ins)), s.Reg(Rs(ins)) % 0x100, FlagC(s.Cpsr()));
    ImmediateOperandIsRotation(ins % 0x100, RotateImm(ins), FlagC(s.Cpsr()));
  }

  /** The address shifter of mode 2 agrees with the data-processing shifter except in exactly two cases. */
  lemma TwoShiftersAgree(kind: nat, rm: word, n: nat, c: bit)
    requires kind < 4 && n < 32
    ensures ScaledIndex(kind, rm, n, c) == ShiftedByImm(kind, rm, n, c).operand
       <==> !(kind == 1 && n == 0 && rm != 0) && !(kind == 2 && n > 0 && rm >= 0x8000_0000)
  {
    hide Pow2, RotateRight, Bitwise, ArithmeticShiftRight;
    TopBitIsBit31(rm);
    Unshifted(rm);
    if kind == 2 && n > 0 {
      if rm >= 0x8000_0000 {
        var p, q := Pow2(n), Pow2(32 - n);
        Factors(n);
        AsrNegative(rm, n);
        OnesShifted(p, q);
        AndDisjoint(p - 1, rm / p, q, 32 - n);
        MulAtLeast(q, p);
      } else {
        AsrPositive(rm, n);
      }
    }
  }

  /** The scaled index as arithmetic, departures included: LSR #0 shifts nothing, ASR of a negative word is 0. */
  function ScaledValue(kind: nat, rm: word, n: nat, c: bit): int
    requires n < 32
  {
    match kind
    case 0 => Wrap(rm * Pow2(n))
    case 1 => rm / Pow2(n)
    case 2 =>
      if n == 0 then if rm < 0x8000_0000 then 0 else 0xFFFF_FFFF
      else if rm < 0x8000_0000 then rm / Pow2(n) else 0
    case _ => if n == 0 then c * 0x8000_0000 + rm / 2 else rm / Pow2(n) + rm % Pow2(n) * Pow2(32 - n)
  }

  lemma ScaledIndexMeaning(kind: nat, rm: word, n: nat, c: bit)
    requires kind < 4 && n < 32
    ensures ScaledIndex(kind, rm, n, c) == ScaledValue(kind, rm, n, c)
  {
    hide Pow2, RotateRight, Bitwise, Rrx;
    TopBitIsBit31(rm);
    RrxMeaning(rm, c);
    RrxIsScaled(rm, c);
    if 0 < n {
      RotateValue(rm, n);
      if kind == 2 && rm >= 0x8000_0000 {
        var p, q := Pow2(n), Pow2(32 - n);
        Factors(n);
        AsrNegative(rm, n);
        OnesShifted(p, q);
        AndDisjoint(p - 1, rm / p, q, 32 - n);
      }
    }
  }

  lemma RrxIsScaled(rm: word, c: bit)
    ensures ScaledIndex(3, rm, 0, c) == Rrx(rm, c).operand
  {
    hide Or, Shl, Shr;
  }

  /** One input for each of the two cases: LSR #32 of 1, and ASR #1 of 2^31. */
  lemma TwoShiftersCanDiffer(c: bit)
    ensures ScaledIndex(1, 1, 0, c) != ShiftedByImm(1, 1, 0, c).operand
    ensures ScaledIndex(2, 0x8000_0000, 1, c) != ShiftedByImm(2, 0x8000_0000, 1, c).operand
  {
    hide ScaledIndex, ShiftedByImm;
    TwoShiftersAgree(1, 1, 0, c);
    TwoShiftersAgree(2, 0x8000_0000, 1, c);
  }

  lemma Unshifted(rm: word)
    ensures Shl(rm, 0) == rm == Shr(rm, 0)
  {
  }

  /** The same comparison between two instructions that name the same shift of the same register. */
  lemma ScaledOffsetAgainstOperand(s: State, ls: word, dp: word)
    requires IBit(ls) == 1 && Bits11To4(ls) != 0 && TypeField(dp) == 0 && Bit4(dp) == 0
    requires Rm(ls) == Rm(dp) && ShiftType(ls) == ShiftType(dp) && ShiftImm(ls) == ShiftImm(dp)
    ensures LoadStore.Index2(s, ls) == DataProcessing.Operand(s, dp).operand
       <==> (&& !(ShiftType(dp) == 1 && ShiftImm(dp) == 0 && s.Reg(Rm(dp)) != 0)
             && !(ShiftType(dp) == 2 && ShiftImm(dp) > 0 && s.Reg(Rm(dp)) >= 0x8000_0000))
  {
    hide ScaledIndex, ShiftedByImm, TypeField, Bit4, Bits11To4, State.Reg, Rm;
    TwoShiftersAgree(ShiftType(dp), s.Reg(Rm(dp)), ShiftImm(dp), FlagC(s.Cpsr()));
  }
}
