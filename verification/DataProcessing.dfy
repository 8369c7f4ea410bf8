/** arm_data_processing.c: the shifter operand, the arithmetic, logical and comparison instructions, and their flags. */
module DataProcessing {
  import opened Words
  import opened Encoding
  import opened Core
  import opened Shifter

  // ---- Flags ----

  /** An int result, wrapped to int32_t. */
  function WrapSigned(x: int): int { Signed(Wrap(x)) }

  /** get_carry: condition 1 for ADD, 2 for ADC. */
  function GetCarry(c: bit, number1: word, number2: word, condition: nat): bit
  {
    var room := WrapSigned(0x7FFF_FFFF - Signed(number1));
    if condition == 1 then
      if Signed(number2) <= room then 0 else 1
    else if condition == 2 then
      if WrapSigned(Signed(number2) + c) <= room then 0 else 1
    else 1
  }

  /** get_borrow: condition 1 for SUB and RSB, 2 for SBC and RSC. */
  function GetBorrow(c: bit, number1: word, number2: word, condition: nat): bit
  {
    if condition == 1 then
      if Signed(number1) >= Signed(number2) then 0 else 1
    else if condition == 2 then
      if WrapSigned(Signed(number1) - Signed(number2) - (1 - c)) >= 0 then 0 else 1
    else 1
  }

  /** get_overflow_flag, which looks at bit 7 of its operands. */
  function GetOverflowFlag(number1: word, number2: word, res: word): bit
  {
    var a, b, r := number1 / 0x80 % 2, number2 / 0x80 % 2, res / 0x80 % 2;
    if (a == 0 && b == 0 && r == 1) || (a == 1 && b == 1 && r == 0) then 1 else 0
  }

  function WithNzcv(s: State, n: bit, z: bit, c: bit, v: bit): State
  {
    s.WithCpsr((8 * n + 4 * z + 2 * c + v) * 0x1000_0000 + s.Cpsr() % 0x1000_0000)
  }

  function Negative(x: word): bit { x / 0x8000_0000 }

  function Zero(x: word): bit { if x == 0 then 1 else 0 }

  // ---- Instruction classes ----

  predicate IsAdds(ins: word) { Opcode(ins) == 4 || Opcode(ins) == 5 }

  predicate IsSubs(ins: word) { Opcode(ins) == 2 || Opcode(ins) == 6 || Opcode(ins) == 3 || Opcode(ins) == 7 }

  predicate IsBitwises(ins: word)
  {
    Opcode(ins) == 0 || Opcode(ins) == 14 || Opcode(ins) == 1 || Opcode(ins) == 12 || Opcode(ins) == 15
    || Opcode(ins) == 13
  }

  predicate IsTest(ins: word) { Opcode(ins) == 9 || Opcode(ins) == 8 }

  predicate IsComp(ins: word) { (Opcode(ins) == 11 || Opcode(ins) == 10) && LBit(ins) == 1 }

  // ---- What the instructions do to the state ----

  function Operand(s: State, ins: word): Shifted
  {
    var c := FlagC(s.Cpsr());
    if TypeField(ins) == 1 then ImmediateOperand(ins % 0x100, RotateImm(ins), c)
    else if TypeField(ins) == 0 then
      if Bit4(ins) == 0 then ShiftedByImm(ShiftType(ins), s.Reg(Rm(ins)), ShiftImm(ins), c)
      else if Bit7(ins) == 0 then ShiftedByReg(ShiftType(ins), s.Reg(Rm(ins)), s.Reg(Rs(ins)) % 0x100, c)
      else Shifted(0, 0)
    else Shifted(0, 0)
  }

  function CalcsResult(opcode: nat, rn: word, operand: word, c: bit): word
  {
    match opcode
    case 4 => Add(rn, operand)
    case 5 => Add(Add(rn, operand), c)
    case 2 => Sub(rn, operand)
    case 6 => Sub(Sub(rn, operand), 1 - c)
    case 3 => Sub(operand, rn)
    case _ => Sub(Sub(operand, rn), 1 - c)
  }

  function CalcsCarry(opcode: nat, rn: word, operand: word, c: bit): bit
  {
    match opcode
    case 4 => GetCarry(c, rn, operand, 1)
    case 5 => GetCarry(c, rn, operand, 2)
    case 2 => 1 - GetBorrow(c, rn, operand, 1)
    case 3 => 1 - GetBorrow(c, operand, rn, 1)
    case 6 => 1 - GetBorrow(c, rn, operand, 2)
    case _ => 1 - GetBorrow(c, operand, rn, 2)
  }

  function AfterCalcs(s: State, ins: word): State
  {
    if !s.Passed(ins) then s else
    var rn, operand, c := s.Reg(Rn(ins)), Operand(s, ins).operand, FlagC(s.Cpsr());
    var result := CalcsResult(Opcode(ins), rn, operand, c);
    var t := s.WithReg(Rd(ins), result);
    if LBit(ins) == 0 then t
    else if Rd(ins) == 15 then t.SpsrRestored()
    else WithNzcv(t, Negative(result), Zero(result), CalcsCarry(Opcode(ins), rn, operand, c),
                  GetOverflowFlag(rn, operand, result))
  }

  function BitwiseResult(opcode: nat, rn: word, operand: word): word
  {
    match opcode
    case 0 => And(rn, operand)
    case 14 => And(rn, Not(operand))
    case 1 => Xor(rn, operand)
    case 12 => Or(rn, operand)
    case 15 => Not(operand)
    case _ => operand
  }

  function AfterBitwise(s: State, ins: word): State
  {
    if !s.Passed(ins) then s else
    var shifted := Operand(s, ins);
    var result := BitwiseResult(Opcode(ins), s.Reg(Rn(ins)), shifted.operand);
    var t := s.WithReg(Rd(ins), result);
    if LBit(ins) == 0 then t
    else if Rd(ins) == 15 then t.SpsrRestored()
    else WithNzcv(t, Negative(result), Zero(result), shifted.carry, FlagV(s.Cpsr()))
  }

  function CmptstResult(opcode: nat, rn: word, operand: word): word
  {
    match opcode
    case 8 => And(rn, operand)
    case 9 => Xor(rn, operand)
    case 10 => Sub(rn, operand)
    case _ => Add(rn, operand)
  }

  function CmptstCarry(opcode: nat, rn: word, shifted: Shifted, c: bit): bit
  {
    match opcode
    case 10 => GetCarry(c, rn, shifted.operand, 2)
    case 11 => GetBorrow(c, rn, shifted.operand, 1)
    case _ => shifted.carry
  }

  function AfterCmptst(s: State, ins: word): State
  {
    if !s.Passed(ins) then s else
    var shifted, rn := Operand(s, ins), s.Reg(Rn(ins));
    var result := CmptstResult(Opcode(ins), rn, shifted.operand);
    WithNzcv(s, Negative(result), Zero(result), CmptstCarry(Opcode(ins), rn, shifted, FlagC(s.Cpsr())),
             FlagV(s.Cpsr()))
  }

  function AfterDataProcessing(s: State, ins: word): State
  {
    if IsAdds(ins) || IsSubs(ins) then AfterCalcs(s, ins)
    else if IsBitwises(ins) then AfterBitwise(s, ins)
    else if IsComp(ins) || IsTest(ins) then AfterCmptst(s, ins)
    else s
  }

  // ---- The code ----

  function GetCflag(p: ArmCore): bit
    requires p.Valid()
    reads p.Footprint()
  {
    FlagC(p.ReadCpsr())
  }

  function GetOperandeAndCarryOut(p: ArmCore, ins: word): nat
    requires p.Valid()
    reads p.Footprint()
    ensures GetOperandeAndCarryOut(p, ins) == Pack(Operand(p.Abs(), ins))
  {
    ShiftFields(ins);
    var rm := p.ReadRegister(Rm(ins));
    if TypeField(ins) == 1 then Pack(ImmediateOperand(ins % 0x100, RotateImm(ins), GetCflag(p)))
    else if TypeField(ins) == 0 then
      if Bit4(ins) == 0 then
        if ins / 0x10 % 8 == 0 then Pack(LslImm(rm, ShiftImm(ins), GetCflag(p)))
        else if ins / 0x10 % 8 == 2 then Pack(LsrImm(rm, ShiftImm(ins), GetCflag(p)))
        else if ins / 0x10 % 8 == 4 then Pack(AsrImm(rm, ShiftImm(ins), GetCflag(p)))
        else Pack(RorImm(rm, ShiftImm(ins), GetCflag(p)))
      else
        var rs: byte := p.ReadRegister(Rs(ins)) % 0x100;
        if ins / 0x10 % 16 == 1 then Pack(LslReg(rm, rs, GetCflag(p)))
        else if ins / 0x10 % 16 == 3 then Pack(LsrReg(rm, rs, GetCflag(p)))
        else if ins / 0x10 % 16 == 5 then Pack(AsrReg(rm, rs, GetCflag(p)))
        else if ins / 0x10 % 16 == 7 then Pack(RorReg(rm, rs, GetCflag(p)))
        else 0
    else 0
  }

  /** Bits 6:4 and 7:4, as the code reads them, against the shift type and its two marker bits. */
  lemma ShiftFields(ins: word)
    ensures Bit4(ins) == 0 ==> ins / 0x10 % 8 == 2 * ShiftType(ins)
    ensures Bit4(ins) == 1 && Bit7(ins) == 0 ==> ins / 0x10 % 16 == 2 * ShiftType(ins) + 1
    ensures Bit4(ins) == 1 && Bit7(ins) == 1 ==> ins / 0x10 % 16 >= 8
  {
    var a := ins / 0x10;
    assert ins / 0x20 == a / 2 && ins / 0x80 == a / 8;
    LowBits(a);
  }

  lemma LowBits(a: nat)
    ensures a % 8 == 2 * (a / 2 % 4) + a % 2 && a % 16 == 8 * (a / 8 % 2) + a % 8
  {
  }

  method ModifyNzcv(p: ArmCore, n: bit, z: bit, c: bit, v: bit)
    requires p.Valid()
    modifies p.Footprint()
    ensures p.Valid() && p.Abs() == WithNzcv(old(p.Abs()), n, z, c, v)
  {
    var cpsrCurrent := And(p.ReadCpsr(), 0xFFF_FFFF);
    NzcvWord(p.ReadCpsr(), n, z, c, v);
    var newCpsr := Or(Or(Or(Or(n * 0x8000_0000, z * 0x4000_0000), c * 0x2000_0000), v * 0x1000_0000), cpsrCurrent);
    p.WriteCpsr(newCpsr);
  }

  lemma NzcvWord(w: word, n: bit, z: bit, c: bit, v: bit)
    ensures Or(Or(Or(Or(n * 0x8000_0000, z * 0x4000_0000), c * 0x2000_0000), v * 0x1000_0000), And(w, 0xFFF_FFFF))
         == (8 * n + 4 * z + 2 * c + v) * 0x1000_0000 + w % 0x1000_0000
  {
    hide Bitwise, Or, And;
    Pow2_32();
    var nz, nzc, nzcv := 2 * n + z, 4 * n + 2 * z + c, 8 * n + 4 * z + 2 * c + v;
    OrAdds(n, z * 0x4000_0000, 0x8000_0000, 31);
    OrAdds(nz, c * 0x2000_0000, 0x4000_0000, 30);
    OrAdds(nzc, v * 0x1000_0000, 0x2000_0000, 29);
    OrAdds(nzcv, w % 0x1000_0000, 0x1000_0000, 28);
    MaskLow28(w);
  }

  lemma OrAdds(hi: nat, lo: nat, p: nat, k: nat)
    requires p == Pow2(k) && lo < p && hi * p + lo < 0x1_0000_0000 && hi * p >= 0
    ensures Or(hi * p, lo) == hi * p + lo
  {
    OrDisjoint(hi, lo, p, k);
  }

  lemma MaskLow28(w: word)
    ensures And(w, 0xFFF_FFFF) == w % 0x1000_0000
  {
    Pow2_32();
    BitwiseSplit(AND, w / 0x1000_0000, w % 0x1000_0000, 0, 0xFFF_FFFF, 0x1000_0000, 28);
    AndZero(w / 0x1000_0000);
    AndOnes(w % 0x1000_0000, 0x1000_0000, 28);
  }

  lemma OpcodeOfCalcs(ins: word)
    requires IsAdds(ins) || IsSubs(ins)
    ensures 2 <= Opcode(ins) <= 7
  {
  }

  method CalcsProcedure(p: ArmCore, ins: word)
    requires p.Valid() && (IsAdds(ins) || IsSubs(ins))
    modifies p.Footprint()
    ensures p.Valid() && p.Abs() == AfterCalcs(old(p.Abs()), ins)
  {
    hide Add, Sub, GetCarry, GetBorrow, GetOverflowFlag, Operand, Pack, FlagC, ConditionCode, WithNzcv, Negative, Zero,
      IsAdds, IsSubs, Rd, Rn, LBit, Opcode;
    OpcodeOfCalcs(ins);
    var packaged := GetOperandeAndCarryOut(p, ins);
    Unpack(Operand(p.Abs(), ins));
    var shifterOperand := GetShifterOperand(packaged);
    var rnData := p.ReadRegister(Rn(ins));
    if p.ConditionPassed(ins) != 0 {
      var rdData: word := 0;
      if Opcode(ins) == 4 { rdData := Add(rnData, shifterOperand); }
      if Opcode(ins) == 5 { rdData := Add(Add(rnData, shifterOperand), GetCflag(p)); }
      if Opcode(ins) == 2 { rdData := Sub(rnData, shifterOperand); }
      if Opcode(ins) == 6 { rdData := Sub(Sub(rnData, shifterOperand), 1 - GetCflag(p)); }
      if Opcode(ins) == 3 { rdData := Sub(shifterOperand, rnData); }
      if Opcode(ins) == 7 { rdData := Sub(Sub(shifterOperand, rnData), 1 - GetCflag(p)); }
      assert rdData == CalcsResult(Opcode(ins), rnData, shifterOperand, GetCflag(p));
      p.WriteRegister(Rd(ins), rdData);
      if LBit(ins) == 1 && Rd(ins) == 15 {
        if p.CurrentModeHasSpsr() {
          p.WriteCpsr(p.ReadSpsr());
        }
      } else if LBit(ins) == 1 {
        var n := Negative(p.ReadRegister(Rd(ins)));
        var z := Zero(p.ReadRegister(Rd(ins)));
        var c: bit := 0;
        if Opcode(ins) == 4 { c := GetCarry(GetCflag(p), rnData, shifterOperand, 1); }
        if Opcode(ins) == 5 { c := GetCarry(GetCflag(p), rnData, shifterOperand, 2); }
        if Opcode(ins) == 2 { c := 1 - GetBorrow(GetCflag(p), rnData, shifterOperand, 1); }
        if Opcode(ins) == 3 { c := 1 - GetBorrow(GetCflag(p), shifterOperand, rnData, 1); }
        if Opcode(ins) == 6 { c := 1 - GetBorrow(GetCflag(p), rnData, shifterOperand, 2); }
        if Opcode(ins) == 7 { c := 1 - GetBorrow(GetCflag(p), shifterOperand, rnData, 2); }
        assert c == CalcsCarry(Opcode(ins), rnData, shifterOperand, GetCflag(p));
        var v := GetOverflowFlag(rnData, shifterOperand, rdData);
        ModifyNzcv(p, n, z, c, v);
      }
    }
  }

  method BitwiseProcedure(p: ArmCore, ins: word)
    requires p.Valid() && IsBitwises(ins)
    modifies p.Footprint()
    ensures p.Valid() && p.Abs() == AfterBitwise(old(p.Abs()), ins)
  {
    var packaged := GetOperandeAndCarryOut(p, ins);
    Unpack(Operand(p.Abs(), ins));
    var shifterOperand := GetShifterOperand(packaged);
    var rnData := p.ReadRegister(Rn(ins));
    if p.ConditionPassed(ins) != 0 {
      var rdData: word := 0;
      if Opcode(ins) == 0 { rdData := And(rnData, shifterOperand); }
      if Opcode(ins) == 14 { rdData := And(rnData, Not(shifterOperand)); }
      if Opcode(ins) == 1 { rdData := Xor(rnData, shifterOperand); }
      if Opcode(ins) == 12 { rdData := Or(rnData, shifterOperand); }
      if Opcode(ins) == 15 { rdData := Not(shifterOperand); }
      if Opcode(ins) == 13 { rdData := shifterOperand; }
      assert rdData == BitwiseResult(Opcode(ins), rnData, shifterOperand);
      p.WriteRegister(Rd(ins), rdData);
      if LBit(ins) == 1 && Rd(ins) == 15 {
        if p.CurrentModeHasSpsr() {
          p.WriteCpsr(p.ReadSpsr());
        }
      } else if LBit(ins) == 1 {
        var n := Negative(p.ReadRegister(Rd(ins)));
        var z := Zero(p.ReadRegister(Rd(ins)));
        var c := GetShifterCarryOut(packaged);
        var v := FlagV(p.ReadCpsr());
        ModifyNzcv(p, n, z, c, v);
      }
    }
  }

  method CmptstProcedure(p: ArmCore, ins: word)
    requires p.Valid() && (IsComp(ins) || IsTest(ins))
    modifies p.Footprint()
    ensures p.Valid() && p.Abs() == AfterCmptst(old(p.Abs()), ins)
  {
    var packaged := GetOperandeAndCarryOut(p, ins);
    Unpack(Operand(p.Abs(), ins));
    var shifterOperand := GetShifterOperand(packaged);
    var rnData := p.ReadRegister(Rn(ins));
    if p.ConditionPassed(ins) != 0 {
      var aluOut: word := 0;
      if Opcode(ins) == 8 { aluOut := And(rnData, shifterOperand); }
      if Opcode(ins) == 9 { aluOut := Xor(rnData, shifterOperand); }
      if Opcode(ins) == 10 { aluOut := Sub(rnData, shifterOperand); }
      if Opcode(ins) == 11 { aluOut := Add(rnData, shifterOperand); }
      assert aluOut == CmptstResult(Opcode(ins), rnData, shifterOperand);
      var n := Negative(aluOut);
      var z := Zero(aluOut);
      var c: bit := 0;
      if IsTest(ins) {
        c := GetShifterCarryOut(packaged);
      } else if Opcode(ins) == 10 {
        c := GetCarry(GetCflag(p), rnData, shifterOperand, 2);
      } else {
        c := GetBorrow(GetCflag(p), rnData, shifterOperand, 1);
      }
      var v := FlagV(p.ReadCpsr());
      ModifyNzcv(p, n, z, c, v);
    }
  }

  method ArmDataProcessing(p: ArmCore, ins: word)
    requires p.Valid()
    modifies p.Footprint()
    ensures p.Valid() && p.Abs() == AfterDataProcessing(old(p.Abs()), ins)
  {
    if IsAdds(ins) || IsSubs(ins) {
      CalcsProcedure(p, ins);
    } else if IsBitwises(ins) {
      BitwiseProcedure(p, ins);
    } else if IsComp(ins) || IsTest(ins) {
      CmptstProcedure(p, ins);
    }
  }
}
