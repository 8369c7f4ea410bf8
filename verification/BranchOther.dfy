/** arm_branch_other.c: branches, BLX, MRS, and the SWI that ends the simulation. */
module BranchOther {
  import opened Words
  import opened Encoding
  import opened Core

  /** calcBLTargetAddress: the sign-extended offset times 4; bit 24 enters it only in the BLX form. */
  function BranchOffset(ins: word, blx: bool): word
  {
    var imm := ins % 0x100_0000;
    if imm < 0x80_0000 then Wrap(imm * 4)
    else if blx then Wrap(Or(imm + 0xFF00_0000, PBit(ins) * 2) * 4)
    else Wrap((imm + 0xFF00_0000) * 4)
  }

  function AfterBlx1(s: State, ins: word): State
  {
    if !s.Passed(ins) then s else
    var blx := ConditionCode(s.Cpsr(), ins) == 15;
    var pc := s.Reg(15);
    var target := Add(pc, BranchOffset(ins, blx));
    var t := if PBit(ins) == 1 then s.WithReg(14, Sub(pc, 4)) else s;
    if !blx then t.WithReg(15, target)
    else t.WithReg(14, Sub(target, 4)).WithCpsr(SetT(s.Cpsr(), 1)).WithReg(15, Add(target, BranchOffset(ins, true)))
  }

  function AfterBlx2(s: State, ins: word): State
  {
    if !s.Passed(ins) then s else
    var target := s.Reg(Rm(ins));
    var t := if ins / 0x20 % 2 == 1 then s.WithReg(14, s.Reg(15)) else s;
    t.WithCpsr(SetT(s.Cpsr(), target % 2)).WithReg(15, ClearBit0(target))
  }

  function AfterMrs(s: State, ins: word): State
  {
    if !s.Passed(ins) then s
    else s.WithReg(Rd(ins), if BBit(ins) == 1 then s.Spsr() else s.Cpsr())
  }

  predicate IsHaltingSwi(ins: word) { PBit(ins) == 1 && ins % 0x100_0000 == 0x12_3456 }

  function AfterBranch(s: State, ins: word): State { if TypeField(ins) == 5 then AfterBlx1(s, ins) else s }

  function AfterBranchMisc(s: State, ins: word): State
  {
    if ins / 0x10_0000 % 0x100 == 0x12 then AfterBlx2(s, ins) else s
  }

  function AfterMiscellaneous(s: State, ins: word): State
  {
    if ins / 0x80_0000 % 0x20 == 2 && ins / 0x10_0000 % 4 == 0 then AfterMrs(s, ins) else s
  }

  // ---- The code ----

  function CalcBLTargetAddress(ins: word, mode: bool): word
    ensures CalcBLTargetAddress(ins, mode) == BranchOffset(ins, mode)
  {
    hide Or, Wrap;
    OrHighByte(ins % 0x100_0000);
    TopOf24(ins % 0x100_0000);
    var res: word := ins % 0x100_0000;
    if res / 0x80_0000 % 2 == 1 then
      if mode then Wrap(Or(Or(res, 0xFF00_0000), PBit(ins) * 2) * 4)
      else Wrap(Or(res, 0xFF00_0000) * 4)
    else Wrap(res * 4)
  }

  lemma TopOf24(imm: word)
    requires imm < 0x100_0000
    ensures imm / 0x80_0000 % 2 == 1 <==> imm >= 0x80_0000
  {
  }

  lemma OrHighByte(imm: word)
    requires imm < 0x100_0000
    ensures Or(imm, 0xFF00_0000) == imm + 0xFF00_0000
  {
    hide Bitwise, Pow2;
    Pow2_32();
    BitwiseSplit(OR, 0, imm, 0xFF, 0, 0x100_0000, 24);
    OrZero(0xFF);
    OrZero(imm);
  }

  method Blx1Procedure(p: ArmCore, ins: word)
    requires p.Valid()
    modifies p.Footprint()
    ensures p.Valid() && p.Abs() == AfterBlx1(old(p.Abs()), ins)
  {
    hide Add, Sub, BranchOffset, SetT, And, Or;
    var pc := p.ReadRegister(15);
    if p.ConditionPassed(ins) != 0 {
      if PBit(ins) == 1 {
        p.WriteRegister(14, Sub(pc, 4));
      }
      pc := Add(pc, CalcBLTargetAddress(ins, p.ConditionPassed(ins) == 15));
      p.WriteRegister(15, pc);
    }
    if p.ConditionPassed(ins) == 15 {
      p.WriteRegister(14, Sub(pc, 4));
      var cpsr := p.ReadCpsr();
      MaskT(cpsr, 1);
      cpsr := Or(And(cpsr, 0xFFFF_FFDF), 0x20);
      p.WriteCpsr(cpsr);
      pc := Add(pc, CalcBLTargetAddress(ins, true));
      p.WriteRegister(15, pc);
    }
  }

  method Blx2Procedure(p: ArmCore, ins: word)
    requires p.Valid()
    modifies p.Footprint()
    ensures p.Valid() && p.Abs() == AfterBlx2(old(p.Abs()), ins)
  {
    hide SetT, And, Or, State.Reg;
    if p.ConditionPassed(ins) != 0 {
      var rmData := p.ReadRegister(Rm(ins));
      var pc := p.ReadRegister(15);
      if ins / 0x20 % 2 == 1 {
        p.WriteRegister(14, pc);
      }
      var cpsr := p.ReadCpsr();
      MaskT(cpsr, rmData % 2);
      cpsr := Or(And(cpsr, 0xFFFF_FFDF), rmData % 2 * 0x20);
      p.WriteCpsr(cpsr);
      MaskBit0(rmData);
      pc := And(rmData, 0xFFFF_FFFE);
      p.WriteRegister(15, pc);
    }
  }

  method MrsProcedure(p: ArmCore, ins: word)
    requires p.Valid()
    modifies p.Footprint()
    ensures p.Valid() && p.Abs() == AfterMrs(old(p.Abs()), ins)
  {
    if p.ConditionPassed(ins) != 0 {
      var rd := Rd(ins);
      var val: word := 0;
      if BBit(ins) == 1 {
        val := p.ReadSpsr();
      } else {
        val := p.ReadCpsr();
      }
      p.WriteRegister(rd, val);
    }
  }

  method ArmBranch(p: ArmCore, ins: word)
    requires p.Valid()
    modifies p.Footprint()
    ensures p.Valid() && p.Abs() == AfterBranch(old(p.Abs()), ins)
  {
    if TypeField(ins) == 5 {
      Blx1Procedure(p, ins);
    }
  }

  method ArmBranchMisc(p: ArmCore, ins: word)
    requires p.Valid()
    modifies p.Footprint()
    ensures p.Valid() && p.Abs() == AfterBranchMisc(old(p.Abs()), ins)
  {
    if ins / 0x10_0000 % 0x100 == 0x12 {
      Blx2Procedure(p, ins);
    }
  }

  method ArmMiscellaneous(p: ArmCore, ins: word)
    requires p.Valid()
    modifies p.Footprint()
    ensures p.Valid() && p.Abs() == AfterMiscellaneous(old(p.Abs()), ins)
  {
    if ins / 0x80_0000 % 0x20 == 2 && ins / 0x10_0000 % 4 == 0 {
      MrsProcedure(p, ins);
    }
  }

  /** True when the program must exit; any other coprocessor or SWI word has no effect. */
  method ArmCoprocessorOthersSwi(ins: word) returns (exit: bool)
    ensures exit == IsHaltingSwi(ins)
  {
    exit := false;
    if PBit(ins) != 0 {
      if And(ins, 0xFF_FFFF) == 0x12_3456 {
        exit := true;
      }
      MaskLow24(ins);
    }
  }

  lemma MaskLow24(w: word)
    ensures And(w, 0xFF_FFFF) == w % 0x100_0000
  {
    hide Bitwise, Pow2;
    Pow2_32();
    BitwiseSplit(AND, w / 0x100_0000, w % 0x100_0000, 0, 0xFF_FFFF, 0x100_0000, 24);
    AndZero(w / 0x100_0000);
    AndOnes(w % 0x100_0000, 0x100_0000, 24);
  }
}
