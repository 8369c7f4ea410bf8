/** Branches, calls and returns, state changes by BX and BLX, MRS, and the SWI that exits. */
module BranchProofs {
  import opened Words
  import opened Encoding
  import opened RegisterFile
  import opened Core
  import opened Instruction
  import opened FetchProofs
  import BlockTransferProofs
  import BranchOther
  import DecodeProofs
  import EncodingProofs
  import RegisterProofs
  import StepProofs

  // ---- Branches ----

  function SignedOffset(ins: word): int
  {
    var imm := ins % 0x100_0000;
    if imm < 0x80_0000 then imm else imm - 0x100_0000
  }

  lemma BranchOffsetValue(ins: word, a: word)
    ensures Add(Wrap(a + 8), BranchOther.BranchOffset(ins, false)) == Wrap(a + 8 + 4 * SignedOffset(ins))
    ensures a / 2 % 2 == 0 ==> Wrap(a + 8 + 4 * SignedOffset(ins)) / 2 % 2 == 0
  {
    hide BranchOther.BranchOffset, Add, SignedOffset;
    OffsetWraps(ins);
    WrapSum(a + 8, 4 * SignedOffset(ins));
    if a / 2 % 2 == 0 {
      MovedByFours(a, 2 + SignedOffset(ins));
    }
  }

  lemma AddIsWrap(a: int, b: int)
    ensures Add(a, b) == Wrap(a + b)
  {
  }

  lemma OffsetWraps(ins: word)
    ensures BranchOther.BranchOffset(ins, false) == Wrap(4 * SignedOffset(ins))
    ensures -0x80_0000 <= SignedOffset(ins) < 0x80_0000
  {
  }

  lemma WrapSum(x: int, y: int)
    ensures Add(Wrap(x), Wrap(y)) == Wrap(x + y) && Add(x, y) == Wrap(x + y)
  {
  }

  /** A taken B or BL at A continues at A + 8 + 4 * offset; BL leaves A + 4 in R14; nothing else changes. */
  lemma TakenBranch(s: State, stale: byte)
    requires var ins := NextWord(s); TypeField(ins) == 5 && s.Passed(ins) && CondField(ins) != 15
    ensures var ins, a, t := NextWord(s), s.FetchAddress(), Step(s, stale).state;
            && Step(s, stale).Running?
            && t.FetchAddress() == Wrap(a + 8 + 4 * SignedOffset(ins))
            && t == s.(cells := (if PBit(ins) == 1 then s.cells[CellOf(s.Mode(), 14) := Add(a, 4)] else s.cells)
                                [30 := Wrap(a + 8 + 4 * SignedOffset(ins))],
                       cycles := Add(s.cycles, 1))
  {
    hide ConditionCode, CondField, TypeField, PBit, BranchOther.BranchOffset, SignedOffset, NextWord, Add, Sub, Wrap,
      ModeOf, State.FetchAddress, State.Stored, State.Reg, State.Fetched, CellOf;
    var ins, a, f := NextWord(s), s.FetchAddress(), s.Fetched();
    PcView(s);
    NotUnconditional(s.Cpsr(), ins);
    LinkValue(a);
    BranchOffsetValue(ins, a);
    AddIsWrap(a, 8);
    var target := Add(f.Reg(15), BranchOther.BranchOffset(ins, false));
    var u := if PBit(ins) == 1 then f.WithReg(14, Add(a, 4)) else f;
    var t := u.WithReg(15, target);
    FetchedCells(s);
    PcCell(s.Mode(), 14);
    PcCell(s.Mode(), 15);
    var linked := if PBit(ins) == 1 then s.cells[CellOf(s.Mode(), 14) := Add(a, 4)] else s.cells;
    assert t.cells == linked[30 := target];
    JumpReads(s, t, PBit(ins) == 1, Add(a, 4), target, 0);
    assert Step(s, stale) == Running(t);
    FetchesFrom(t);
  }

  lemma NotUnconditional(cpsr: word, ins: word)
    requires CondField(ins) != 15
    ensures ConditionCode(cpsr, ins) != 15
  {
  }

  /** MOV PC,LR, under any condition. */
  predicate IsReturn(ins: word) { ins % 0x1000_0000 == 0x1A0_F00E }

  lemma ReturnFields(ins: word)
    requires IsReturn(ins)
    ensures TypeField(ins) == 0 && Bit7(ins) == 0 && Bit4(ins) == 0 && LBit(ins) == 0
    ensures Opcode(ins) == 13 && UBit(ins) == 1
    ensures Rd(ins) == 15 && Rm(ins) == 14 && ShiftType(ins) == 0 && ShiftImm(ins) == 0
  {
    hide TypeField, LBit, Opcode, UBit;
    var c := ins / 0x1000_0000;
    TopOfReturn(ins, c);
    EncodingProofs.HighFields(ins, c * 0x100 + 0x1A);
    TypeOfReturn(c);
    LowOfReturn(ins, ins / 0x1000_0000);
  }

  lemma TopOfReturn(ins: word, c: nat)
    requires ins == c * 0x1000_0000 + 0x1A0_F00E
    ensures ins / 0x10_0000 == c * 0x100 + 0x1A && ins / 0x1000 == c * 0x1_0000 + 0x1A0F
  {
    DivUnique(ins, 0x10_0000, c * 0x100 + 0x1A, 0xF00E);
    DivUnique(ins, 0x1000, c * 0x1_0000 + 0x1A0F, 0xE);
  }

  lemma TypeOfReturn(c: nat)
    ensures var k := c * 0x100 + 0x1A; k / 0x20 % 8 == 0 && k % 2 == 0 && k / 2 % 16 == 13 && k / 8 % 2 == 1
  {
    var k := c * 0x100 + 0x1A;
    DivUnique(k, 0x20, c * 8, 0x1A);
    DivUnique(k, 2, c * 0x80 + 13, 0);
    DivUnique(k, 8, c * 0x20 + 3, 2);
  }

  lemma LowOfReturn(ins: word, c: nat)
    requires ins == c * 0x1000_0000 + 0x1A0_F00E
    ensures Bit7(ins) == 0 && Bit4(ins) == 0 && Rd(ins) == 15 && Rm(ins) == 14
    ensures ShiftType(ins) == 0 && ShiftImm(ins) == 0
  {
    DivUnique(ins, 0x1000, c * 0x1_0000 + 0x1A0F, 0xE);
    DivUnique(ins, 0x80, c * 0x20_0000 + 0x341E0, 0xE);
    DivUnique(ins, 0x20, c * 0x80_0000 + 0xD0780, 0xE);
    DivUnique(ins, 0x10, c * 0x100_0000 + 0x1A0F00, 0xE);
  }

  /** With A + 4 in R14, a passed MOV PC,LR continues at A + 4 and changes only the program counter. */
  lemma Return(s: State, stale: byte, a: word)
    requires IsReturn(NextWord(s)) && s.Passed(NextWord(s))
    requires a / 2 % 2 == 0 && s.Reg(14) == Add(a, 4)
    ensures var t := Step(s, stale).state;
            && Step(s, stale).Running? && t.FetchAddress() == Add(a, 4)
            && t == s.(cells := s.cells[30 := Add(a, 4)], cycles := Add(s.cycles, 1))
  {
    hide ConditionCode, TypeField, PBit, UBit, LBit, Bit7, Bit4, Opcode, Rd, Rm, Rn, ShiftType, ShiftImm, NextWord,
      Add, ModeOf, State.FetchAddress, State.Stored, State.Reg, State.Fetched, IsReturn, FlagC, CellOf;
    var ins, f := NextWord(s), s.Fetched();
    ReturnFields(ins);
    FetchedKeeps(s, 14);
    var target := Add(a, 4);
    var t := f.WithReg(15, target);
    FetchedCells(s);
    PcCell(s.Mode(), 15);
    assert t.cells == s.cells[30 := target];
    JumpReads(s, t, false, 0, target, 0);
    assert Step(s, stale) == Running(t);
    StillClear(a);
    FetchesFrom(t);
  }

  lemma StillClear(a: word)
    requires a / 2 % 2 == 0
    ensures Add(a, 4) / 2 % 2 == 0
  {
    hide Add, Sub, Wrap;
    WordSteps(a);
    MovedByFours(a, 1);
  }

  /** A call and, whenever the link register is intact again, a return: execution resumes just after the BL. */
  lemma CallAndReturn(s: State, u: State, stale: byte)
    requires var ins := NextWord(s); TypeField(ins) == 5 && s.Passed(ins) && CondField(ins) != 15 && PBit(ins) == 1
    requires IsReturn(NextWord(u)) && u.Passed(NextWord(u)) && u.Reg(14) == Step(s, stale).state.Reg(14)
    ensures Step(u, stale).state.FetchAddress() == Add(s.FetchAddress(), 4)
  {
    hide ConditionCode, TypeField, PBit, CondField, NextWord, Step, Add, State.FetchAddress, State.Reg, IsReturn,
      CellOf, ModeOf, Wrap;
    var a := s.FetchAddress();
    TakenBranch(s, stale);
    JumpReads(s, Step(s, stale).state, true, Add(a, 4), Wrap(a + 8 + 4 * SignedOffset(NextWord(s))), 0);
    PcView(s);
    Return(u, stale, s.FetchAddress());
  }

  // ---- Branch and exchange ----

  /** BX and BLX by register: R15 gets Rm less bit 0, the T bit that bit, and BLX leaves A + 8, not A + 4, in R14. */
  lemma BranchExchange(s: State, stale: byte)
    requires var ins := NextWord(s);
             ins / 0x10_0000 % 0x100 == 0x12 && Bit7(ins) == 0 && Bit4(ins) == 1 && s.Passed(ins)
    ensures var ins, a, t := NextWord(s), s.FetchAddress(), Step(s, stale).state;
            var target := if Rm(ins) == 15 then Add(a, 8) else s.Reg(Rm(ins));
            && Step(s, stale).Running?
            && t == s.(cells := (if Bit5(ins) == 1 then s.cells[CellOf(s.Mode(), 14) := Add(a, 8)] else s.cells)
                                [30 := ClearBit0(target)][31 := SetT(s.cells[31], target % 2)],
                       cycles := Add(s.cycles, 1))
  {
    hide ConditionCode, TypeField, Bit7, Bit4, NextWord, Add, Sub, ModeOf, State.FetchAddress, State.Stored, State.Reg,
      State.Fetched, CellOf, SetT, ClearBit0, Rm, PBit, UBit, LBit;
    var ins, a, f := NextWord(s), s.FetchAddress(), s.Fetched();
    ExchangeFields(ins);
    PcView(s);
    FetchedKeeps(s, Rm(ins));
    FetchedCells(s);
    PcCell(s.Mode(), 14);
    PcCell(s.Mode(), 15);
    var target := f.Reg(Rm(ins));
    StepProofs.SetTMode(s.Cpsr(), target % 2);
    var u := if Bit5(ins) == 1 then f.WithReg(14, Add(a, 8)) else f;
    var t := u.WithCpsr(SetT(f.Cpsr(), target % 2)).WithReg(15, ClearBit0(target));
    assert Step(s, stale) == Running(t);
    var linked: seq<word> := if Bit5(ins) == 1 then s.cells[CellOf(s.Mode(), 14) := Add(a, 8)] else s.cells;
    assert t.cells == linked[30 := ClearBit0(target)][31 := SetT(s.cells[31], target % 2)];
  }

  lemma ExchangeFields(ins: word)
    requires ins / 0x10_0000 % 0x100 == 0x12
    ensures TypeField(ins) == 0 && PBit(ins) == 1 && UBit(ins) == 0
  {
    var k := ins / 0x10_0000;
    assert ins / 0x200_0000 == k / 0x20 && ins / 0x100_0000 == k / 0x10 && ins / 0x80_0000 == k / 8;
    LowPart(k, k / 0x100);
  }

  lemma LowPart(k: nat, q: nat)
    requires k == 0x100 * q + 0x12
    ensures k / 0x20 % 8 == 0 && k / 0x10 % 2 == 1 && k / 8 % 2 == 0
  {
    assert k / 0x20 % 8 == 0 by {
      DivUnique(k, 0x20, 8 * q, 0x12);
      DivUnique(8 * q, 8, q, 0);
    }
    assert k / 0x10 % 2 == 1 by {
      DivUnique(k, 0x10, 16 * q + 1, 2);
      DivUnique(16 * q + 1, 2, 8 * q, 1);
    }
    assert k / 8 % 2 == 0 by {
      DivUnique(k, 8, 32 * q + 2, 2);
      DivUnique(32 * q + 2, 2, 16 * q + 1, 0);
    }
  }

  /** The offset of BLX with an immediate: with bit 24 set, a negative one has its bit 1 set before it is scaled. */
  function ExchangeOffset(ins: word): int
  {
    var v := SignedOffset(ins);
    if v < 0 && PBit(ins) == 1 && v / 2 % 2 == 0 then 4 * (v + 2) else 4 * v
  }

  lemma ExchangeOffsetWraps(ins: word)
    ensures BranchOther.BranchOffset(ins, true) == Wrap(ExchangeOffset(ins))
  {
    hide Bitwise;
    var imm := ins % 0x100_0000;
    if imm >= 0x80_0000 {
      var w: word := imm + 0xFF00_0000;
      OrTwo(w);
      OrZero(w);
      FlagRange(ins);
      assert w / 2 % 2 == (imm - 0x100_0000) / 2 % 2;
    }
  }

  lemma FlagRange(ins: word)
    ensures PBit(ins) != 0 ==> PBit(ins) == 1
  {
  }

  lemma OrTwo(w: nat)
    ensures Bitwise(OR, w, 2) == if w / 2 % 2 == 0 then w + 2 else w
  {
    assert Pow2(2) == 4;
    BitwiseSplit(OR, w / 4, w % 4, 0, 2, 4, 2);
    OrZero(w / 4);
    LowOrTwo(w % 4);
  }

  lemma LowOrTwo(r: nat)
    requires r < 4
    ensures Bitwise(OR, r, 2) == if r / 2 == 0 then r + 2 else r
  {
    assert Bitwise(OR, 0, 2) == 2 && Bitwise(OR, 1, 2) == 3 && Bitwise(OR, 2, 2) == 2 && Bitwise(OR, 3, 2) == 3;
  }

  /** BLX with an immediate applies its offset twice: once to the link, twice to R15; it sets the T bit. */
  lemma ImmediateExchange(s: State, stale: byte)
    requires var ins := NextWord(s); TypeField(ins) == 5 && CondField(ins) == 15
    ensures var ins, a, t := NextWord(s), s.FetchAddress(), Step(s, stale).state;
            var x := ExchangeOffset(ins);
            && Step(s, stale).Running?
            && t == s.(cells := s.cells[CellOf(s.Mode(), 14) := Wrap(a + 4 + x)][30 := Wrap(a + 8 + 2 * x)]
                                [31 := SetT(s.cells[31], 1)],
                       cycles := Add(s.cycles, 1))
  {
    hide CondField, TypeField, PBit, BranchOther.BranchOffset, ExchangeOffset, NextWord, Add, Sub, Wrap, ModeOf,
      State.FetchAddress, State.Stored, State.Reg, State.Fetched, CellOf, SetT, FlagN, FlagZ, FlagC, FlagV;
    var ins, a, f := NextWord(s), s.FetchAddress(), s.Fetched();
    PcView(s);
    FetchedCells(s);
    PcCell(s.Mode(), 14);
    PcCell(s.Mode(), 15);
    ExchangeOffsetWraps(ins);
    StepProofs.SetTMode(s.Cpsr(), 1);
    var x := ExchangeOffset(ins);
    TwiceMoved(a, x);
    var once := Add(f.Reg(15), BranchOther.BranchOffset(ins, true));
    var u := if PBit(ins) == 1 then f.WithReg(14, Sub(f.Reg(15), 4)) else f;
    var twice := Add(once, BranchOther.BranchOffset(ins, true));
    var t := u.WithReg(14, Sub(once, 4)).WithCpsr(SetT(f.Cpsr(), 1)).WithReg(15, twice);
    assert Step(s, stale) == Running(t);
    assert t.cells == s.cells[CellOf(s.Mode(), 14) := Wrap(a + 4 + x)][30 := Wrap(a + 8 + 2 * x)]
                      [31 := SetT(s.cells[31], 1)];
  }

  lemma TwiceMoved(a: word, x: int)
    ensures var once := Add(Add(a, 8), Wrap(x));
            Sub(once, 4) == Wrap(a + 4 + x) && Add(once, Wrap(x)) == Wrap(a + 8 + 2 * x)
  {
    hide Add, Sub, Wrap;
    AddIsWrap(a, 8);
    WrapSum(a + 8, x);
    WrapSum(a + 8 + x, x);
    WrapAdd(a + 8 + x, 4);
  }

  /** So it lands where the manual says, at A + 8 + 4 * offset + 2 * H, exactly when offset and H (bit 24) are zero. */
  lemma ImmediateExchangeAgrees(ins: word, a: word)
    ensures (Wrap(a + 8 + 2 * ExchangeOffset(ins)) == Wrap(a + 8 + 4 * SignedOffset(ins) + 2 * PBit(ins)))
       <==> ins % 0x200_0000 == 0
  {
    hide Wrap;
    OffsetWraps(ins);
    FlagRange(ins);
    BlockTransferProofs.WrapNear(a + 8 + 2 * ExchangeOffset(ins), a + 8 + 4 * SignedOffset(ins) + 2 * PBit(ins));
    assert ins % 0x200_0000 == PBit(ins) * 0x100_0000 + ins % 0x100_0000;
  }

  // ---- Status words and the SWI ----

  /** MRS: Rd gets the status word, or with R (bit 22) the SPSR of the mode, all ones where there is none. */
  lemma StatusToRegister(s: State, ins: word, stale: byte)
    requires TypeField(ins) == 0 && ins / 0x80_0000 % 4 == 2 && ins / 0x10_0000 % 4 == 0 && Bit4(ins) == 0
    requires s.Passed(ins)
    ensures AfterInstruction(s, ins, stale)
         == s.WithReg(Rd(ins), if BBit(ins) == 1 then RegisterProofs.SavedStatus(s) else s.cells[31])
  {
    hide ConditionCode, Bit7, Bit4, BBit, Rd, State.WithReg, RegisterProofs.SavedStatus, State.Spsr;
    RegisterProofs.StatusMeaning(s);
    MiscellaneousFields(ins);
  }

  lemma MiscellaneousFields(ins: word)
    requires TypeField(ins) == 0 && ins / 0x80_0000 % 4 == 2 && ins / 0x10_0000 % 4 == 0
    ensures PBit(ins) == 1 && UBit(ins) == 0 && LBit(ins) == 0 && ins / 0x80_0000 % 0x20 == 2
  {
    var k := ins / 0x80_0000;
    assert ins / 0x200_0000 == k / 4 && ins / 0x100_0000 == k / 2;
    assert ins / 0x10_0000 % 2 == ins / 0x10_0000 % 4 % 2;
  }

  /** Exactly SWI 0x123456, under any condition field, exits; other SWI and coprocessor words have no effect. */
  lemma ExitsExactly(s: State, stale: byte)
    ensures Step(s, stale).Halted? <==> NextWord(s) % 0x1000_0000 == 0xF12_3456
    ensures Step(s, stale).Halted? ==> Step(s, stale).state == s.Fetched()
    ensures Step(s, stale).Running? && TypeField(NextWord(s)) >= 6 ==> Step(s, stale) == Running(s.Fetched())
  {
    hide NextWord, State.Fetched, AfterInstruction, Halts;
    var ins := NextWord(s);
    HaltingWord(ins);
    if TypeField(ins) >= 6 {
      DecodeProofs.WithoutEffect(s.Fetched(), ins, stale);
    }
  }

  lemma HaltingWord(ins: word)
    ensures Halts(ins) <==> ins % 0x1000_0000 == 0xF12_3456
  {
    var k := ins / 0x100_0000;
    assert ins / 0x200_0000 == k / 2;
    assert ins % 0x1000_0000 == k % 16 * 0x100_0000 + ins % 0x100_0000;
    TopNibble(k);
  }

  lemma TopNibble(k: nat)
    ensures k / 2 % 8 == 7 && k % 2 == 1 <==> k % 16 == 15
  {
  }
}
