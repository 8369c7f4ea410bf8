/** The decoder: which words reach which handler, and which have no effect. */
module DecodeProofs {
  import opened Words
  import opened Encoding
  import opened Core
  import opened Instruction
  import BranchOther
  import DataProcessing
  import LoadStore
  import LoadStoreMultiple
  import StepProofs

  /** The words the decoder takes for data processing: comparisons only with S set and no register shift. */
  predicate IsDataProcessing(ins: word)
  {
    || TypeField(ins) == 1
    || (&& TypeField(ins) == 0 && !(Bit7(ins) == 1 && Bit4(ins) == 1)
        && (8 <= Opcode(ins) < 12 ==> LBit(ins) == 1 && Bit4(ins) == 0))
  }

  lemma DecodesAsDataProcessing(s: State, ins: word, stale: byte)
    requires IsDataProcessing(ins)
    ensures AfterInstruction(s, ins, stale) == DataProcessing.AfterDataProcessing(s, ins)
  {
    hide DataProcessing.AfterDataProcessing, TypeField, Bit7, Bit4, LBit, PBit, UBit, Opcode;
    OpcodeBits(ins);
  }

  lemma OpcodeBits(ins: word)
    ensures PBit(ins) == 1 && UBit(ins) == 0 <==> 8 <= Opcode(ins) < 12
    ensures LBit(ins) != 0 ==> LBit(ins) == 1
  {
    var a := ins / 0x20_0000;
    assert ins / 0x80_0000 == a / 4 && ins / 0x100_0000 == a / 8;
    TopTwo(a);
  }

  lemma TopTwo(a: nat)
    ensures a / 8 % 2 == 1 && a / 4 % 2 == 0 <==> 8 <= a % 16 < 12
  {
    var q, r := a / 16, a % 16;
    DivUnique(a, 8, 2 * q + r / 8, r % 8);
    DivUnique(a, 4, 4 * q + r / 4, r % 4);
    EvenParts(q, r / 8, r / 4);
  }

  lemma EvenParts(q: nat, x: nat, y: nat)
    ensures (2 * q + x) % 2 == x % 2 && (4 * q + y) % 2 == y % 2
  {
  }

  /** Where the decoder sends every other word. */
  lemma DecodesElsewhere(s: State, ins: word, stale: byte)
    requires !IsDataProcessing(ins)
    ensures AfterInstruction(s, ins, stale) ==
              match TypeField(ins)
              case 0 => if StepProofs.IsExtra(ins) then LoadStore.AfterLoadStoreExtra(s, ins, stale)
                        else if Bit4(ins) == 1 then BranchOther.AfterBranchMisc(s, ins)
                        else BranchOther.AfterMiscellaneous(s, ins)
              case 4 => LoadStoreMultiple.AfterLoadStoreMultiple(s, ins)
              case 5 => BranchOther.AfterBranch(s, ins)
              case 6 => s
              case 7 => s
              case _ => LoadStore.AfterLoadStore(s, ins, stale)
  {
    hide DataProcessing.AfterDataProcessing, LoadStore.AfterLoadStoreExtra, LoadStore.AfterLoadStore,
      LoadStoreMultiple.AfterLoadStoreMultiple, BranchOther.AfterBranch, BranchOther.AfterBranchMisc,
      BranchOther.AfterMiscellaneous, TypeField, Bit7, Bit4, LBit, PBit, UBit, Opcode;
    OpcodeBits(ins);
    FieldRanges(ins);
  }

  /** The words that change nothing, passed or not: what the simulator does not implement, and what it decodes amiss. */
  predicate IsWithoutEffect(ins: word)
  {
    || TypeField(ins) >= 6                                                     // coprocessor and SWI
    || (TypeField(ins) == 1 && Opcode(ins) in {10, 11} && LBit(ins) == 0)      // CMP and CMN without S
    || (TypeField(ins) == 4 && BBit(ins) == 1 && LBit(ins) == 0 && WBit(ins) == 1)
    || (TypeField(ins) == 0 && Bit7(ins) == 1 && Bit4(ins) == 1 && Bit6(ins) == 0 && Bit5(ins) == 0)  // MUL, MLA, SWP
    || (TypeField(ins) == 0 && 8 <= Opcode(ins) < 12 && Bit4(ins) == 0 && LBit(ins) == 0 && WBit(ins) == 1)  // MSR
    || (TypeField(ins) == 0 && 8 <= Opcode(ins) < 12 && Bit4(ins) == 1 && Bit7(ins) == 0
        && ins / 0x10_0000 % 0x100 != 0x12)                                    // comparisons by a register shift
  }

  /** They leave the whole state as the fetch left it. */
  lemma WithoutEffect(s: State, ins: word, stale: byte)
    requires IsWithoutEffect(ins)
    ensures AfterInstruction(s, ins, stale) == s
  {
    hide TypeField, Bit7, Bit6, Bit5, Bit4, Opcode, LBit, WBit, BBit, ConditionCode, BranchOther.AfterBlx2,
      BranchOther.AfterMrs, DataProcessing.AfterCalcs, DataProcessing.AfterBitwise, DataProcessing.AfterCmptst,
      LoadStoreMultiple.AfterLdm1, LoadStoreMultiple.AfterLdm2, LoadStoreMultiple.AfterLdm3, LoadStoreMultiple.AfterStm,
      LoadStore.AfterLoadStore;
    FieldRanges(ins);
    OpcodeBits(ins);
    WritebackField(ins);
  }

  lemma FieldRanges(ins: word)
    ensures 0 <= TypeField(ins) < 8
    ensures Bit4(ins) != 0 ==> Bit4(ins) == 1
    ensures Bit7(ins) != 0 ==> Bit7(ins) == 1
    ensures WBit(ins) != 0 ==> WBit(ins) == 1
    ensures BBit(ins) != 0 ==> BBit(ins) == 1
  {
  }

  lemma WritebackField(ins: word)
    ensures ins / 0x10_0000 % 4 == 2 * WBit(ins) + LBit(ins)
  {
    var a := ins / 0x10_0000;
    assert ins / 0x20_0000 == a / 2;
  }

  /** TST, TEQ, CMP and CMN by a register-specified shift do nothing at all. */
  lemma ComparesByRegisterDoNothing(s: State, ins: word, stale: byte)
    requires TypeField(ins) == 0 && Bit4(ins) == 1 && Bit7(ins) == 0 && 8 <= Opcode(ins) < 12 && LBit(ins) == 1
    ensures AfterInstruction(s, ins, stale) == s
  {
    hide TypeField, Bit7, Bit4, Opcode, AfterInstruction;
    assert ins / 0x10_0000 % 2 == 1;
    ParityOfField(ins / 0x10_0000);
    WithoutEffect(s, ins, stale);
  }

  lemma ParityOfField(a: nat)
    ensures a % 0x100 % 2 == a % 2
  {
  }
}
