/** What the data-processing instructions leave in Rd and the flags, and where C and the manual part ways. */
module FlagProofs {
  import opened Words
  import opened Encoding
  import opened RegisterFile
  import opened Core
  import opened DataProcessing
  import opened Instruction
  import opened DecodeProofs
  import ConditionProofs
  import RegisterProofs
  import Shifter
  import ShifterProofs
  import StepProofs

  // ---- Reading a status word back ----

  /** The four flags written are the four flags read, and bits 27:0, so the mode too, are as before. */
  lemma NzcvReadBack(s: State, n: bit, z: bit, c: bit, v: bit)
    ensures var w := WithNzcv(s, n, z, c, v).Cpsr();
            FlagN(w) == n && FlagZ(w) == z && FlagC(w) == c && FlagV(w) == v
    ensures WithNzcv(s, n, z, c, v).Cpsr() % 0x1000_0000 == s.Cpsr() % 0x1000_0000
    ensures WithNzcv(s, n, z, c, v).Mode() == s.Mode()
  {
    var k, lo := 8 * n + 4 * z + 2 * c + v, s.Cpsr() % 0x1000_0000;
    var w := WithNzcv(s, n, z, c, v).Cpsr();
    DivUnique(w, 0x1000_0000, k, lo);
    DivUnique(w, 0x2000_0000, 4 * n + 2 * z + c, v * 0x1000_0000 + lo);
    DivUnique(w, 0x4000_0000, 2 * n + z, c * 0x2000_0000 + v * 0x1000_0000 + lo);
    DivUnique(w, 0x8000_0000, n, z * 0x4000_0000 + c * 0x2000_0000 + v * 0x1000_0000 + lo);
    StepProofs.LowBitsOnly(k, s.Cpsr());
  }

  /** Nothing changed but Rd and the flags: the result, N and Z of it, and the given C and V. */
  ghost predicate ResultAndFlags(s: State, t: State, rd: RegNo, result: word, c: bit, v: bit)
  {
    && t == s.WithReg(rd, result).WithCpsr(t.Cpsr())
    && t.Reg(rd) == result
    && (forall r: RegNo | r != rd :: t.Reg(r) == s.Reg(r))
    && FlagN(t.Cpsr()) == (if result >= 0x8000_0000 then 1 else 0)
    && FlagZ(t.Cpsr()) == (if result == 0 then 1 else 0)
    && FlagC(t.Cpsr()) == c
    && FlagV(t.Cpsr()) == v
    && t.Cpsr() % 0x1000_0000 == s.Cpsr() % 0x1000_0000
  }

  lemma WrittenWithFlags(s: State, rd: RegNo, result: word, c: bit, v: bit)
    requires rd != 15
    ensures ResultAndFlags(s, WithNzcv(s.WithReg(rd, result), Negative(result), Zero(result), c, v), rd, result, c, v)
  {
    hide FlagN, FlagZ, FlagC, FlagV, ModeOf, Add, ClearBit1;
    var u := s.WithReg(rd, result);
    NzcvReadBack(u, Negative(result), Zero(result), c, v);
    assert u.Cpsr() == s.Cpsr() && u.Mode() == s.Mode();
    forall r: RegNo | r != rd
      ensures CellOf(s.Mode(), r) != CellOf(s.Mode(), rd)
    {
      CellsDistinct(s.Mode(), r, rd);
    }
  }

  // ---- Arithmetic ----

  /** The integer that an arithmetic opcode computes before it wraps. */
  function ArithmeticValue(opcode: nat, rn: word, operand: word, c: bit): int
  {
    match opcode
    case 4 => rn + operand
    case 5 => rn + operand + c
    case 2 => rn - operand
    case 6 => rn - operand - (1 - c)
    case 3 => operand - rn
    case _ => operand - rn - (1 - c)
  }

  lemma CalcsWraps(opcode: nat, rn: word, operand: word, c: bit)
    requires 2 <= opcode <= 7
    ensures CalcsResult(opcode, rn, operand, c) == Wrap(ArithmeticValue(opcode, rn, operand, c))
  {
    hide Wrap;
    WrapAdd(rn + operand, c);
    WrapAdd(rn - operand, c - 1);
    WrapAdd(operand - rn, c - 1);
  }

  // ---- Carry and overflow ----

  predicate Top(x: word) { x >= 0x8000_0000 }

  function FlipTop(x: word): word { if Top(x) then x - 0x8000_0000 else x + 0x8000_0000 }

  /** get_carry compares as signed numbers, so it sees the carry of a sum with one top bit flipped. */
  lemma CarryIsOfFlippedSum(a: word, b: word, c: bit)
    ensures GetCarry(c, a, b, 1) == 1 <==> a + FlipTop(b) >= 0x1_0000_0000
  {
    WrapSignedCases(0x7FFF_FFFF - Signed(a));
  }

  lemma WrapSignedCases(x: int)
    requires -0x1_0000_0000 <= x < 0x1_0000_0000
    ensures WrapSigned(x) == if x >= 0x8000_0000 then x - 0x1_0000_0000
                             else if x < -0x8000_0000 then x + 0x1_0000_0000 else x
  {
  }

  /** The C flag that each arithmetic opcode leaves: of a sum with one top bit flipped, of a signed order, or NOT N. */
  predicate ArithmeticCarry(opcode: nat, rn: word, operand: word, c: bit)
  {
    match opcode
    case 4 => rn + FlipTop(operand) >= 0x1_0000_0000
    case 5 => rn + FlipTop(Add(operand, c)) >= 0x1_0000_0000
    case 2 => Signed(rn) >= Signed(operand)
    case 3 => Signed(operand) >= Signed(rn)
    case _ => !Top(Wrap(ArithmeticValue(opcode, rn, operand, c)))
  }

  lemma CalcsCarryMeaning(opcode: nat, rn: word, operand: word, c: bit)
    requires 2 <= opcode <= 7
    ensures CalcsCarry(opcode, rn, operand, c) == 1 <==> ArithmeticCarry(opcode, rn, operand, c)
  {
    hide FlipTop, Add, Wrap;
    CarryIsOfFlippedSum(rn, operand, c);
    CarryIsOfFlippedSum(rn, Add(operand, c), c);
    CarryWithCarry(rn, operand, c);
    BorrowWithBorrow(rn, operand, c);
    BorrowWithBorrow(operand, rn, c);
  }

  lemma CarryWithCarry(a: word, b: word, c: bit)
    ensures GetCarry(c, a, b, 2) == GetCarry(c, a, Add(b, c), 1)
  {
  }

  lemma BorrowWithBorrow(a: word, b: word, c: bit)
    ensures GetBorrow(c, a, b, 2) == 1 <==> Top(Wrap(a - b - (1 - c)))
  {
    assert Wrap(Signed(a) - Signed(b) - (1 - c)) == Wrap(a - b - (1 - c));
  }

  /** get_overflow_flag looks at bit 7 of both operands and of the result. */
  predicate Bit7Overflow(rn: word, operand: word, result: word)
  {
    GetBit(rn, 7) == GetBit(operand, 7) != GetBit(result, 7)
  }

  lemma OverflowMeaning(rn: word, operand: word, result: word)
    ensures GetOverflowFlag(rn, operand, result) == 1 <==> Bit7Overflow(rn, operand, result)
  {
    Bit7Value(rn);
    Bit7Value(operand);
    Bit7Value(result);
    hide GetBit;
  }

  lemma Bit7Value(x: word)
    ensures GetBit(x, 7) == x / 0x80 % 2
  {
    assert Pow2(4) == 16;
    Pow2Add(4, 3);
  }

  function BitIf(b: bool): bit { if b then 1 else 0 }

  /**
   * ADD, ADC, SUB, SBC, RSB and RSC: the result modulo 2^32. With S = 0 nothing else changes; with S = 1 the flags are
   * N and Z of the result, C of ArithmeticCarry and V of the bits 7.
   */
  lemma ArithmeticInstruction(s: State, ins: word, stale: byte)
    requires s.Passed(ins) && IsDataProcessing(ins) && 2 <= Opcode(ins) <= 7 && Rd(ins) != 15
    ensures var t, rn, operand := AfterInstruction(s, ins, stale), s.Reg(Rn(ins)), Operand(s, ins).operand;
            var c := FlagC(s.Cpsr());
            var result := Wrap(ArithmeticValue(Opcode(ins), rn, operand, c));
            if LBit(ins) == 1 then
              ResultAndFlags(s, t, Rd(ins), result, BitIf(ArithmeticCarry(Opcode(ins), rn, operand, c)),
                             BitIf(Bit7Overflow(rn, operand, result)))
            else t == s.WithReg(Rd(ins), result)
  {
    hide ConditionCode, Opcode, LBit, Rd, Rn, Operand, GetOverflowFlag, WithNzcv, State.WithReg, State.Reg, CalcsCarry,
      FlagC, FlagV, FlagN, FlagZ, Negative, Zero, CalcsResult, Wrap, AfterInstruction, IsDataProcessing, ResultAndFlags,
      ArithmeticCarry, Bit7Overflow;
    OpcodeBits(ins);
    DecodesAsDataProcessing(s, ins, stale);
    var rn, operand, c := s.Reg(Rn(ins)), Operand(s, ins).operand, FlagC(s.Cpsr());
    CalcsWraps(Opcode(ins), rn, operand, c);
    CalcsCarryMeaning(Opcode(ins), rn, operand, c);
    var result := CalcsResult(Opcode(ins), rn, operand, c);
    OverflowMeaning(rn, operand, result);
    WrittenWithFlags(s, Rd(ins), result, CalcsCarry(Opcode(ins), rn, operand, c), GetOverflowFlag(rn, operand, result));
  }

  /** Written to R15, a result becomes the program counter; with S the status word comes back from the SPSR. */
  lemma ResultToPc(s: State, ins: word, stale: byte)
    requires s.Passed(ins) && IsDataProcessing(ins) && Rd(ins) == 15 && (Opcode(ins) < 8 || Opcode(ins) >= 12)
    ensures var t, rn, operand := AfterInstruction(s, ins, stale), s.Reg(Rn(ins)), Operand(s, ins).operand;
            && t == s.WithReg(15, t.Stored(15))
                     .WithCpsr(if LBit(ins) == 1 then RegisterProofs.RestoredStatus(s) else s.Cpsr())
            && (if 2 <= Opcode(ins) <= 7
                then t.Stored(15) == Wrap(ArithmeticValue(Opcode(ins), rn, operand, FlagC(s.Cpsr())))
                else IsLogical(t.Stored(15), Opcode(ins), rn, operand))
  {
    hide ConditionCode, Opcode, LBit, Rd, Rn, Operand, CalcsResult, BitwiseResult, Wrap, AfterInstruction,
      IsDataProcessing, FlagC, ModeOf, State.Reg, SpsrIn, IsLogical, RegisterProofs.RestoredStatus, CellOf,
      State.SpsrRestored;
    OpcodeBits(ins);
    DecodesAsDataProcessing(s, ins, stale);
    var rn, operand, c := s.Reg(Rn(ins)), Operand(s, ins).operand, FlagC(s.Cpsr());
    OpcodeRange(ins);
    if 2 <= Opcode(ins) <= 7 {
      CalcsWraps(Opcode(ins), rn, operand, c);
      StoredToPc(s, CalcsResult(Opcode(ins), rn, operand, c));
    } else {
      LogicalResult(Opcode(ins), rn, operand);
      StoredToPc(s, BitwiseResult(Opcode(ins), rn, operand));
    }
  }

  lemma OpcodeRange(ins: word)
    ensures 0 <= Opcode(ins) < 16
  {
  }

  lemma StoredToPc(s: State, v: word)
    ensures var t := s.WithReg(15, v);
            && t.SpsrRestored() == t.WithCpsr(RegisterProofs.RestoredStatus(s))
            && t.WithCpsr(s.Cpsr()) == t && t.Stored(15) == v && t.SpsrRestored().Stored(15) == v
  {
    hide ModeOf, CellOf, State.SpsrRestored;
    var t := s.WithReg(15, v);
    PcCell(s.Mode(), 15);
    RegisterProofs.StatusMeaning(t);
    assert RegisterProofs.RestoredStatus(t) == RegisterProofs.RestoredStatus(s);
    assert t.cells[31 := t.cells[31]] == t.cells;
    PcCell(t.SpsrRestored().Mode(), 15);
  }

  /**
   * CMP and CMN: N and Z of the difference or sum, V kept, nothing but the flags changed. C is not the manual's: of CMP
   * it is that of ADC on the same operands, of CMN a signed order.
   */
  lemma CompareInstruction(s: State, ins: word, stale: byte)
    requires s.Passed(ins) && IsDataProcessing(ins) && LBit(ins) == 1 && (Opcode(ins) == 10 || Opcode(ins) == 11)
    ensures var t, rn, operand := AfterInstruction(s, ins, stale), s.Reg(Rn(ins)), Operand(s, ins).operand;
            var w, result := t.Cpsr(), if Opcode(ins) == 10 then Sub(rn, operand) else Add(rn, operand);
            && t == s.WithCpsr(w) && w % 0x1000_0000 == s.Cpsr() % 0x1000_0000
            && FlagN(w) == BitIf(Top(result)) && FlagZ(w) == BitIf(result == 0)
            && (Opcode(ins) == 10 ==> (FlagZ(w) == 1 <==> rn == operand))
            && FlagC(w) == BitIf(if Opcode(ins) == 10 then ArithmeticCarry(5, rn, operand, FlagC(s.Cpsr()))
                                 else Signed(rn) < Signed(operand))
            && FlagV(w) == FlagV(s.Cpsr())
  {
    hide ConditionCode, Opcode, LBit, Rn, Operand, CmptstCarry, AfterInstruction, IsDataProcessing, FlagC, FlagV, FlagN,
      FlagZ, ModeOf, State.Reg, Sub, Add, ArithmeticCarry;
    DecodesAsDataProcessing(s, ins, stale);
    var rn, shifted, c := s.Reg(Rn(ins)), Operand(s, ins), FlagC(s.Cpsr());
    var result := if Opcode(ins) == 10 then Sub(rn, shifted.operand) else Add(rn, shifted.operand);
    NzcvReadBack(s, Negative(result), Zero(result), CmptstCarry(Opcode(ins), rn, shifted, c), FlagV(s.Cpsr()));
    DifferenceZero(rn, shifted.operand);
    CalcsCarryMeaning(5, rn, shifted.operand, c);
    CompareCarry(rn, shifted, c);
  }

  lemma CompareCarry(rn: word, shifted: Shifter.Shifted, c: bit)
    ensures CmptstCarry(10, rn, shifted, c) == CalcsCarry(5, rn, shifted.operand, c)
    ensures CmptstCarry(11, rn, shifted, c) == BitIf(Signed(rn) < Signed(shifted.operand))
  {
  }

  lemma DifferenceZero(a: word, b: word)
    ensures Sub(a, b) == 0 <==> a == b
  {
  }

  /** An input for each: CMP of 0 with 0 leaves C clear, and so does CMN of 1 with 2^32 - 1. */
  lemma CompareCarryCanFail()
    ensures !ArithmeticCarry(5, 0, 0, 0) && !(Signed(1) < Signed(0xFFFF_FFFF)) && 1 + 0xFFFF_FFFF >= 0x1_0000_0000
  {
  }

  // ---- ADDS and ADCS ----

  /** ADDS: C is the carry of the sum exactly when operand and result have one top bit; V is that of the low bytes. */
  lemma AddsCarry(s: State, ins: word, stale: byte)
    requires s.Passed(ins) && IsDataProcessing(ins) && Opcode(ins) == 4 && LBit(ins) == 1 && Rd(ins) != 15
    ensures var rn, operand, t := s.Reg(Rn(ins)), Operand(s, ins).operand, AfterInstruction(s, ins, stale);
            var result := Add(rn, operand);
            && ResultAndFlags(s, t, Rd(ins), result, FlagC(t.Cpsr()), FlagV(t.Cpsr()))
            && (FlagC(t.Cpsr()) == 1 <==> rn + FlipTop(operand) >= 0x1_0000_0000)
            && ((FlagC(t.Cpsr()) == 1 <==> rn + operand >= 0x1_0000_0000) <==> (Top(operand) <==> Top(result)))
            && (FlagV(t.Cpsr()) == 1 <==> !IsSignedByte(SignedByte(rn % 0x100) + SignedByte(operand % 0x100)))
  {
    hide AfterInstruction, IsDataProcessing, ConditionCode, Opcode, LBit, Rd, Rn, Operand, State.Reg, State.WithReg,
      FlagC, FlagV, FlagN, FlagZ, Wrap, FlipTop, Top, Bit7Overflow, GetOverflowFlag;
    var rn, operand := s.Reg(Rn(ins)), Operand(s, ins).operand;
    ArithmeticInstruction(s, ins, stale);
    FlippedCarry(rn, operand);
    OverflowMeaning(rn, operand, Add(rn, operand));
    OverflowOfLowBytes(rn, operand);
  }

  lemma FlippedCarry(a: word, b: word)
    ensures (a + FlipTop(b) >= 0x1_0000_0000 <==> a + b >= 0x1_0000_0000) <==> (Top(b) <==> Top(Add(a, b)))
  {
    assert Add(a, b) == if a + b >= 0x1_0000_0000 then a + b - 0x1_0000_0000 else a + b;
  }

  /** ADCS: the same with the operand and the old carry added, unless they wrap to 0: then C is the top bit of Rn. */
  lemma AdcsCarryAgrees(rn: word, operand: word, c: bit)
    ensures var b := Add(operand, c);
            ((ArithmeticCarry(5, rn, operand, c) <==> rn + operand + c >= 0x1_0000_0000)
        <==> if operand + c == 0x1_0000_0000 then Top(rn) else (Top(b) <==> Top(Add(rn, b))))
  {
    hide FlipTop, Top;
    FlippedCarry(rn, Add(operand, c));
    FlippedZero(rn);
  }

  lemma FlippedZero(a: word)
    ensures a + FlipTop(0) >= 0x1_0000_0000 <==> Top(a)
  {
  }

  /** An input at which C after ADDS is not the carry, and one at which V is not the overflow, of the sum. */
  lemma AddsFlagsCanFail(c: bit)
    ensures GetCarry(c, 0x7FFF_FFFF, 1, 1) == 1 && 0x7FFF_FFFF + 1 < 0x1_0000_0000
    ensures GetOverflowFlag(0x7F, 1, 0x80) == 1 && Signed(0x7F) + Signed(1) == Signed(0x80)
  {
  }

  /** The int8_t that a byte converts to. */
  function SignedByte(x: byte): int { if x < 0x80 then x else x - 0x100 }

  predicate IsSignedByte(x: int) { -0x80 <= x < 0x80 }

  /** get_overflow_flag looks at bit 7, so after an addition it tells of the signed overflow of the low bytes. */
  lemma OverflowOfLowBytes(a: word, b: word)
    ensures GetOverflowFlag(a, b, Add(a, b)) == 1
       <==> !IsSignedByte(SignedByte(a % 0x100) + SignedByte(b % 0x100))
  {
    var x, y := a % 0x100, b % 0x100;
    LowByteOfSum(a, b);
    Bit7OfByte(a);
    Bit7OfByte(b);
    Bit7OfByte(Add(a, b));
    ByteOverflow(x, y);
  }

  lemma Bit7OfByte(a: word)
    ensures a / 0x80 % 2 == a % 0x100 / 0x80
  {
    var q, r := a / 0x100, a % 0x100;
    DivUnique(a, 0x80, 2 * q + r / 0x80, r % 0x80);
    DivUnique(2 * q + r / 0x80, 2, q, r / 0x80);
  }

  lemma LowByteOfSum(a: word, b: word)
    ensures Add(a, b) % 0x100 == (a % 0x100 + b % 0x100) % 0x100
  {
    assert Add(a, b) == a + b || Add(a, b) == a + b - 0x1_0000_0000;
  }

  lemma ByteOverflow(x: byte, y: byte)
    ensures var r := (x + y) % 0x100;
            ((x / 0x80 == 0 && y / 0x80 == 0 && r / 0x80 == 1) || (x / 0x80 == 1 && y / 0x80 == 1 && r / 0x80 == 0)
        <==> !IsSignedByte(SignedByte(x) + SignedByte(y)))
  {
  }

  // ---- SUBS, RSBS, SBCS and RSCS ----

  /** An input at which C after SUBS is not NOT-borrow: 0 - 2^31. */
  lemma SubsCarryCanFail(c: bit)
    ensures 1 - GetBorrow(c, 0, 0x8000_0000, 1) == 1 && 0 < 0x8000_0000
  {
  }

  lemma SignedOrder(a: word, b: word)
    ensures (Signed(a) >= Signed(b) <==> a >= b) <==> (Top(a) <==> Top(b))
  {
  }

  /** SUBS: Rd is the difference; C is NOT-borrow exactly when the operands have the same top bit. */
  lemma SubsCarry(s: State, ins: word, stale: byte)
    requires s.Passed(ins) && IsDataProcessing(ins) && Opcode(ins) == 2 && LBit(ins) == 1 && Rd(ins) != 15
    ensures var rn, operand, t := s.Reg(Rn(ins)), Operand(s, ins).operand, AfterInstruction(s, ins, stale);
            && ResultAndFlags(s, t, Rd(ins), Sub(rn, operand), FlagC(t.Cpsr()), FlagV(t.Cpsr()))
            && (FlagC(t.Cpsr()) == 1 <==> Signed(rn) >= Signed(operand))
            && ((FlagC(t.Cpsr()) == 1 <==> rn >= operand) <==> (Top(rn) <==> Top(operand)))
  {
    hide AfterInstruction, IsDataProcessing, ConditionCode, Opcode, LBit, Rd, Rn, Operand, State.Reg, State.WithReg,
      FlagC, FlagV, FlagN, FlagZ, Wrap, Top, Signed, Bit7Overflow;
    ArithmeticInstruction(s, ins, stale);
    SignedOrder(s.Reg(Rn(ins)), Operand(s, ins).operand);
  }

  /** RSBS: the same law with the operands exchanged. */
  lemma RsbsCarry(s: State, ins: word, stale: byte)
    requires s.Passed(ins) && IsDataProcessing(ins) && Opcode(ins) == 3 && LBit(ins) == 1 && Rd(ins) != 15
    ensures var rn, operand, t := s.Reg(Rn(ins)), Operand(s, ins).operand, AfterInstruction(s, ins, stale);
            && ResultAndFlags(s, t, Rd(ins), Sub(operand, rn), FlagC(t.Cpsr()), FlagV(t.Cpsr()))
            && (FlagC(t.Cpsr()) == 1 <==> Signed(operand) >= Signed(rn))
            && ((FlagC(t.Cpsr()) == 1 <==> operand >= rn) <==> (Top(rn) <==> Top(operand)))
  {
    hide AfterInstruction, IsDataProcessing, ConditionCode, Opcode, LBit, Rd, Rn, Operand, State.Reg, State.WithReg,
      FlagC, FlagV, FlagN, FlagZ, Wrap, Top, Signed, Bit7Overflow;
    ArithmeticInstruction(s, ins, stale);
    SignedOrder(Operand(s, ins).operand, s.Reg(Rn(ins)));
  }

  /** SBCS and RSCS: C, which is NOT N, is NOT-borrow exactly when the true difference fits in 32 bits with sign. */
  lemma SbcsCarryAgrees(rn: word, operand: word, c: bit)
    ensures var d := rn - operand - (1 - c);
            ((ArithmeticCarry(6, rn, operand, c) <==> d >= 0) <==> ConditionProofs.IsSigned(d))
    ensures ArithmeticCarry(7, operand, rn, c) == ArithmeticCarry(6, rn, operand, c)
  {
    WrapSignedCases(rn - operand - (1 - c));
  }

  /** RSBS on (a, b) leaves the state that SUBS on (b, a) leaves. */
  lemma RsbsIsSubsSwapped(s: State, sub: word, t: State, rsb: word, stale: byte)
    requires s.Passed(sub) && IsDataProcessing(sub) && Opcode(sub) == 2 && LBit(sub) == 1 && Rd(sub) != 15
    requires t.Passed(rsb) && IsDataProcessing(rsb) && Opcode(rsb) == 3 && LBit(rsb) == 1 && Rd(rsb) == Rd(sub)
    requires t.Reg(Rn(rsb)) == Operand(s, sub).operand && Operand(t, rsb).operand == s.Reg(Rn(sub))
    requires t.Cpsr() == s.Cpsr()
    ensures AfterInstruction(t, rsb, stale).Reg(Rd(rsb)) == AfterInstruction(s, sub, stale).Reg(Rd(sub))
    ensures AfterInstruction(t, rsb, stale).Cpsr() == AfterInstruction(s, sub, stale).Cpsr()
  {
    hide AfterInstruction, IsDataProcessing, ConditionCode, Opcode, LBit, Rd, Rn, Operand, GetBorrow, WithNzcv,
      State.Reg, FlagC, FlagV, FlagN, FlagZ, Negative, Zero, Sub, GetOverflowFlag;
    DecodesAsDataProcessing(s, sub, stale);
    DecodesAsDataProcessing(t, rsb, stale);
    var a, b, c := s.Reg(Rn(sub)), Operand(s, sub).operand, FlagC(s.Cpsr());
    var result := Sub(a, b);
    OverflowSymmetric(a, b, result);
    var v := GetOverflowFlag(a, b, result);
    WrittenWithFlags(s, Rd(sub), result, 1 - GetBorrow(c, a, b, 1), v);
    WrittenWithFlags(t, Rd(sub), result, 1 - GetBorrow(c, a, b, 1), v);
    SameCpsr(s.WithReg(Rd(sub), result), t.WithReg(Rd(sub), result), Negative(result), Zero(result),
             1 - GetBorrow(c, a, b, 1), v);
  }

  lemma OverflowSymmetric(a: word, b: word, r: word)
    ensures GetOverflowFlag(a, b, r) == GetOverflowFlag(b, a, r)
  {
  }

  lemma SameCpsr(s: State, t: State, n: bit, z: bit, c: bit, v: bit)
    requires s.Cpsr() == t.Cpsr()
    ensures WithNzcv(s, n, z, c, v).Cpsr() == WithNzcv(t, n, z, c, v).Cpsr()
  {
  }

  // ---- Logical instructions ----

  /** The bit that a logical opcode makes of one bit of Rn and one bit of the operand. */
  function LogicalBit(opcode: nat, a: bit, b: bit): bit
  {
    match opcode
    case 0 => if a == 1 && b == 1 then 1 else 0
    case 14 => if a == 1 && b == 0 then 1 else 0
    case 1 => if a != b then 1 else 0
    case 12 => if a == 1 || b == 1 then 1 else 0
    case 15 => 1 - b
    case _ => b
  }

  lemma NotBit(x: word, i: nat)
    requires i < 32
    ensures GetBit(Not(x), i) == 1 - GetBit(x, i)
  {
    hide Pow2;
    var p, q := Pow2(i), Pow2(31 - i);
    Pow2_32();
    Pow2Add(i, 31 - i);
    ShifterProofs.SwapFactor(p, q);
    Complement(x, p, 2 * q);
    OddComplement(q, x / p);
  }

  lemma OddComplement(q: int, d: int)
    ensures (2 * q - 1 - d) % 2 == 1 - d % 2
  {
  }

  lemma Complement(x: word, p: nat, q: nat)
    requires p > 0 && p * q == 0x1_0000_0000
    ensures Not(x) / p == q - 1 - x / p
  {
    var d, r := x / p, x % p;
    Distribute(p, q - 1, d);
    Distribute(p, q, 1);
    DivUnique(Not(x), p, q - 1 - d, p - 1 - r);
  }

  /** Every bit of v is what the opcode makes of the bits of a and b below it. */
  predicate IsLogical(v: word, opcode: nat, a: word, b: word)
  {
    forall i: nat | i < 32 :: GetBit(v, i) == LogicalBit(opcode, GetBit(a, i), GetBit(b, i))
  }

  lemma LogicalResultBit(opcode: nat, rn: word, operand: word, i: nat)
    requires i < 32
    ensures GetBit(BitwiseResult(opcode, rn, operand), i) == LogicalBit(opcode, GetBit(rn, i), GetBit(operand, i))
  {
    hide GetBit, Bitwise, Not;
    NotBit(operand, i);
    BitwiseBit(AND, rn, operand, i);
    BitwiseBit(AND, rn, Not(operand), i);
    BitwiseBit(OR, rn, operand, i);
    BitwiseBit(XOR, rn, operand, i);
  }

  lemma LogicalResult(opcode: nat, rn: word, operand: word)
    ensures IsLogical(BitwiseResult(opcode, rn, operand), opcode, rn, operand)
  {
    hide GetBit, LogicalBit, BitwiseResult;
    forall i: nat | i < 32
      ensures GetBit(BitwiseResult(opcode, rn, operand), i) == LogicalBit(opcode, GetBit(rn, i), GetBit(operand, i))
    {
      LogicalResultBit(opcode, rn, operand, i);
    }
  }

  /**
   * AND, EOR, ORR, BIC, MOV and MVN: the bitwise result. With S = 0 nothing else changes; with S = 1 N and Z tell of it,
   * C comes from the shifter and V is kept.
   */
  lemma LogicalInstruction(s: State, ins: word, stale: byte)
    requires s.Passed(ins) && IsDataProcessing(ins) && Opcode(ins) in {0, 1, 12, 13, 14, 15} && Rd(ins) != 15
    ensures var t, shifted := AfterInstruction(s, ins, stale), Operand(s, ins);
            && IsLogical(t.Reg(Rd(ins)), Opcode(ins), s.Reg(Rn(ins)), shifted.operand)
            && (if LBit(ins) == 1 then ResultAndFlags(s, t, Rd(ins), t.Reg(Rd(ins)), shifted.carry, FlagV(s.Cpsr()))
                else t == s.WithReg(Rd(ins), t.Reg(Rd(ins))))
  {
    hide AfterInstruction, IsDataProcessing, ConditionCode, Opcode, LBit, Rd, Rn, Operand, WithNzcv, State.WithReg,
      State.Reg, FlagC, FlagV, FlagN, FlagZ, Negative, Zero, BitwiseResult, IsLogical;
    DecodesAsDataProcessing(s, ins, stale);
    OpcodeBits(ins);
    var rn, shifted := s.Reg(Rn(ins)), Operand(s, ins);
    var result := BitwiseResult(Opcode(ins), rn, shifted.operand);
    LogicalResult(Opcode(ins), rn, shifted.operand);
    ReadAfterWrite(s, Rd(ins), result, Rd(ins));
    WrittenWithFlags(s, Rd(ins), result, shifted.carry, FlagV(s.Cpsr()));
  }

  /** TST and TEQ leave the status word that ANDS and EORS on the same operands would, and nothing else. */
  lemma TestsMatchLogicals(s: State, test: word, logical: word, stale: byte)
    requires s.Passed(test) && s.Passed(logical) && IsDataProcessing(test) && IsDataProcessing(logical)
    requires (Opcode(test) == 8 && Opcode(logical) == 0) || (Opcode(test) == 9 && Opcode(logical) == 1)
    requires Rn(test) == Rn(logical) && Operand(s, test) == Operand(s, logical)
    requires LBit(logical) == 1 && Rd(logical) != 15
    ensures AfterInstruction(s, test, stale) == s.WithCpsr(AfterInstruction(s, logical, stale).Cpsr())
  {
    hide AfterInstruction, IsDataProcessing, ConditionCode, Opcode, LBit, Rd, Rn, Operand, State.Reg, FlagC, FlagV,
      FlagN, FlagZ, Negative, Zero, And, Xor;
    DecodesAsDataProcessing(s, test, stale);
    DecodesAsDataProcessing(s, logical, stale);
  }
}
