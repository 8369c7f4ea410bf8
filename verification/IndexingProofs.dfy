/** Addressing modes 2 and 3: the access address, the final base, and what is left alone (sections A5.2, A5.3). */
module IndexingProofs {
  import opened Words
  import opened Encoding
  import opened RegisterFile
  import opened MemoryArea
  import opened Core
  import Shifter
  import opened LoadStore
  import opened Instruction
  import ConditionProofs
  import MemoryProofs
  import RegisterProofs
  import ShifterProofs
  import StepProofs

  // ---- The forms of indexing ----

  /** By bits P and W. NEITHER, P = 0 with W = 1, selects the user-mode transfers of mode 2 and is no form of mode 3. */
  datatype Form = OFFSET | PRE | POST | NEITHER

  function FormOf(ins: word): Form
  {
    if PBit(ins) == 1 then
      if WBit(ins) == 1 then PRE else OFFSET
    else
      if WBit(ins) == 1 then NEITHER else POST
  }

  /** The base moved up or down by the index. */
  function Moved(base: word, up: bool, index: int): word { if up then Add(base, index) else Sub(base, index) }

  function Accessed(f: Form, base: word, moved: word): word
  {
    match f
    case POST => base
    case NEITHER => 0
    case _ => moved
  }

  predicate MovesBase(f: Form) { f == PRE || f == POST }

  function FinalBase(f: Form, base: word, moved: word): word { if MovesBase(f) then moved else base }

  /** t with the base register moved, unless the form leaves it alone. */
  function WithBase(t: State, f: Form, rn: RegNo, moved: word): State
  {
    if MovesBase(f) then t.WithReg(rn, moved) else t
  }

  /** Writeback, whenever the index it computes again for a post-indexed access is still the one used. */
  lemma WritebackMeaning(t: State, ins: word, base: word, moved: word, again: word)
    requires FormOf(ins) == POST ==> again == moved
    ensures WrittenBack(t, ins, Accessed(FormOf(ins), base, moved), again) == WithBase(t, FormOf(ins), Rn(ins), moved)
  {
    hide PBit, WBit, Rn, State.WithReg;
    FieldBits(ins);
  }

  lemma FieldBits(ins: word)
    ensures PBit(ins) != 0 ==> PBit(ins) == 1
    ensures WBit(ins) != 0 ==> WBit(ins) == 1
  {
  }

  lemma AddressMeaning(s: State, ins: word, indexed: word)
    ensures Address(s, ins, indexed) == Accessed(FormOf(ins), s.Reg(Rn(ins)), indexed)
  {
    hide PBit, WBit, State.Reg, Rn;
    FieldBits(ins);
  }

  /** The base as a register reads it afterwards; everything else is as in t. */
  lemma BaseReads(t: State, f: Form, rn: RegNo, moved: word, q: RegNo)
    ensures var u := WithBase(t, f, rn, moved);
            q != rn ==> u.Stored(q) == t.Stored(q) && u.Reg(q) == t.Reg(q)
    ensures rn != 15 ==> WithBase(t, f, rn, moved).Reg(rn) == FinalBase(f, t.Reg(rn), moved)
    ensures WithBase(t, f, rn, moved).Cpsr() == t.Cpsr()
  {
    hide State.Reg, State.Stored, ModeOf;
    ReadAfterWrite(t, rn, moved, q);
    ReadAfterWrite(t, rn, moved, rn);
  }

  // ---- The index ----

  /** The index of mode 2 by its fields: 12-bit immediate, register, or register shifted by an immediate. */
  function Index2Of(s: State, ins: word): int
  {
    var rm := s.Reg(ins % 16);
    if ins / 0x200_0000 % 2 == 0 then ins % 0x1000
    else if ins / 0x10 % 0x100 == 0 then rm
    else ShifterProofs.ScaledValue(ins / 0x20 % 4, rm, ins / 0x80 % 32, GetBit(s.Cpsr(), 29))
  }

  lemma Index2Meaning(s: State, ins: word)
    ensures Index2(s, ins) == Index2Of(s, ins)
  {
    hide Shifter.ScaledIndex, ShifterProofs.ScaledValue, State.Reg, GetBit, FlagC;
    ConditionProofs.FlagBits(s.Cpsr());
    ShifterProofs.ScaledIndexMeaning(ShiftType(ins), s.Reg(Rm(ins)), ShiftImm(ins), FlagC(s.Cpsr()));
  }

  lemma ImmediateIndex(s: State, ins: word)
    ensures IBit(ins) == 0 ==> Index2Of(s, ins) == Offset12(ins)
  {
    hide State.Reg, GetBit, ShifterProofs.ScaledValue;
  }

  /** The index of mode 3 by its fields: the two nibbles of an 8-bit immediate, or a register. */
  function Index3Of(s: State, ins: word): int
  {
    if ins / 0x40_0000 % 2 == 1 then ins / 0x100 % 16 * 16 + ins % 16 else s.Reg(ins % 16)
  }

  lemma Index3Meaning(s: State, ins: word)
    ensures Index3(s, ins) == Index3Of(s, ins)
  {
    hide State.Reg;
  }

  /** The base plus or minus the index of mode 2 or 3. */
  function Moved2(s: State, ins: word): word { Moved(s.Reg(Rn(ins)), UBit(ins) == 1, Index2Of(s, ins)) }

  function Moved3(s: State, ins: word): word { Moved(s.Reg(Rn(ins)), UBit(ins) == 1, Index3Of(s, ins)) }

  function Accessed2(s: State, ins: word): word { Accessed(FormOf(ins), s.Reg(Rn(ins)), Moved2(s, ins)) }

  function Accessed3(s: State, ins: word): word { Accessed(FormOf(ins), s.Reg(Rn(ins)), Moved3(s, ins)) }

  lemma MovedMeaning(s: State, ins: word)
    ensures Offset2(s, ins) == Moved2(s, ins) && Offset3(s, ins) == Moved3(s, ins)
  {
    hide Index2, Index3, Index2Of, Index3Of, State.Reg, Add, Sub, Rn, UBit;
    Index2Meaning(s, ins);
    Index3Meaning(s, ins);
  }

  lemma Address3Meaning(s: State, ins: word)
    ensures Address3(s, ins) == Accessed3(s, ins)
  {
    hide Offset3, Moved3, State.Reg, Rn, FormOf, Accessed;
    MovedMeaning(s, ins);
    AddressMeaning(s, ins, Offset3(s, ins));
  }

  /** An even register whose successor is not R15. */
  predicate IsEvenPair(r: RegNo)
    ensures IsEvenPair(r) ==> r + 1 < 16
  {
    r % 2 == 0 && r != 14
  }

  lemma FieldMeanings(ins: word)
    ensures IsTranslated(ins) <==> FormOf(ins) == NEITHER
    ensures IsPairBase(Rd(ins)) <==> IsEvenPair(Rd(ins))
    ensures BBit(ins) != 0 ==> BBit(ins) == 1
  {
    hide Rd;
    FieldBits(ins);
  }

  // ---- Stores ----

  /** What the store instructions of mode 2 write at an address. */
  function Stored2(s: State, ins: word, addr: word): Bytes
  {
    if BBit(ins) == 1 then PutByte(s.bytes, addr, s.Reg(Rd(ins)) % 0x100)
    else PutWord(s.bytes, s.big, addr, s.Reg(Rd(ins)))
  }

  /** t is s with memory m and the base as the form leaves it, which is also how an instruction then reads it. */
  ghost predicate StoredAndMoved(s: State, t: State, ins: word, m: Bytes, moved: word)
  {
    && t == WithBase(s.(bytes := m), FormOf(ins), Rn(ins), moved)
    && (Rn(ins) != 15 ==> t.Reg(Rn(ins)) == FinalBase(FormOf(ins), s.Reg(Rn(ins)), moved))
  }

  lemma StoredThenMoved(s: State, ins: word, m: Bytes, moved: word)
    ensures StoredAndMoved(s, WithBase(s.(bytes := m), FormOf(ins), Rn(ins), moved), ins, m, moved)
  {
    hide Rn, WithBase, FormOf, State.Reg, State.Stored;
    SameCells(s, s.(bytes := m), Rn(ins));
    BaseReads(s.(bytes := m), FormOf(ins), Rn(ins), moved, 0);
  }

  /** STR and STRB: the bytes go to the accessed address, the base ends as its form says, nothing else changes. */
  lemma StoreIndexing(s: State, ins: word, stale: byte)
    requires s.Passed(ins) && TypeField(ins) / 2 == 1 && LBit(ins) == 0 && FormOf(ins) != NEITHER
    ensures StoredAndMoved(s, AfterInstruction(s, ins, stale), ins, Stored2(s, ins, Accessed2(s, ins)), Moved2(s, ins))
  {
    hide ConditionCode, PBit, WBit, UBit, BBit, LBit, TypeField, Rn, Rd, Index2, PutWord, PutByte, WrittenBack, Address,
      FormOf, Add, Sub, State.Reg, WithBase, StoredAndMoved;
    var base, moved := s.Reg(Rn(ins)), Offset2(s, ins);
    FieldMeanings(ins);
    MovedMeaning(s, ins);
    AddressMeaning(s, ins, moved);
    var m := Stored2(s, ins, Accessed(FormOf(ins), base, moved));
    var t := s.(bytes := m);
    SameCells(s, t, Rn(ins));
    SameCells(s, t, Rm(ins));
    SameIndex2(s, t, ins);
    WritebackMeaning(t, ins, base, moved, Offset2(t, ins));
    StoredThenMoved(s, ins, m, moved);
  }

  lemma SameIndex2(s: State, t: State, ins: word)
    requires IsImmediateOffset(ins) || t.Reg(Rm(ins)) == s.Reg(Rm(ins))
    requires t.Reg(Rn(ins)) == s.Reg(Rn(ins)) && FlagC(t.Cpsr()) == FlagC(s.Cpsr())
    ensures Index2(t, ins) == Index2(s, ins) && Offset2(t, ins) == Offset2(s, ins)
  {
    hide Shifter.ScaledIndex, FlagC, State.Reg, Add, Sub, ShiftType, ShiftImm;
  }

  lemma SameIndex3(s: State, t: State, ins: word)
    requires BBit(ins) == 1 || t.Reg(Rm(ins)) == s.Reg(Rm(ins))
    requires t.Reg(Rn(ins)) == s.Reg(Rn(ins))
    ensures Index3(t, ins) == Index3(s, ins) && Offset3(t, ins) == Offset3(s, ins)
  {
    hide State.Reg, Add, Sub, Offset8;
  }

  /** STRH: the same for an even address; an odd one changes nothing. */
  lemma StoreHalfIndexing(s: State, ins: word, stale: byte)
    requires StepProofs.IsExtra(ins) && LBit(ins) == 0 && Bit6(ins) == 0 && Bit5(ins) == 1
    requires s.Passed(ins)
    ensures var t, moved, addr := AfterInstruction(s, ins, stale), Moved3(s, ins), Accessed3(s, ins);
            if addr % 2 == 1 then t == s
            else StoredAndMoved(s, t, ins, PutHalf(s.bytes, s.big, addr, s.Reg(Rd(ins)) % 0x1_0000), moved)
  {
    hide ConditionCode, PBit, WBit, UBit, LBit, TypeField, Bit7, Bit6, Bit5, Bit4, Rn, Rd, Index3, PutHalf, WrittenBack,
      Address, FormOf, Add, Sub, State.Reg, WithBase, StoredAndMoved;
    var base, moved := s.Reg(Rn(ins)), Offset3(s, ins);
    FieldMeanings(ins);
    MovedMeaning(s, ins);
    AddressMeaning(s, ins, moved);
    var addr := Accessed(FormOf(ins), base, moved);
    var t := s.WithHalf(addr, s.Reg(Rd(ins)) % 0x1_0000);
    SameCells(s, t, Rn(ins));
    SameCells(s, t, Rm(ins));
    SameIndex3(s, t, ins);
    WritebackMeaning(t, ins, base, moved, Offset3(t, ins));
    StoredThenMoved(s, ins, t.bytes, moved);
  }

  // ---- Loads ----

  /** A post-indexed load computes its index again afterwards, so it must not load the base or the index register. */
  predicate IndexSurvives(ins: word, rd: RegNo, immediate: bool)
  {
    FormOf(ins) == POST ==> rd != Rn(ins) && (immediate || rd != Rm(ins))
  }

  /** What the load instructions of mode 2 read at an address. */
  function Loaded2(s: State, ins: word, addr: word, stale: byte): word
  {
    if BBit(ins) == 0 then WordAt(s.bytes, s.big, addr)
    else if addr in s.bytes then s.bytes[addr] else stale
  }

  lemma Loaded2Meaning(s: State, ins: word, addr: word, stale: byte)
    ensures Loaded2(s, ins, addr, stale) == if BBit(ins) == 1 then s.Byte(addr, stale) else s.Word(addr)
  {
    hide WordAt, BBit;
    ByteBit(ins);
  }

  /** t is s with v in Rd and the base as the form leaves it; when the two are apart both can be read back. */
  ghost predicate LoadedAndMoved(s: State, t: State, ins: word, v: word, moved: word)
  {
    && t == WithBase(s.WithReg(Rd(ins), v), FormOf(ins), Rn(ins), moved)
    && (Rd(ins) != Rn(ins) ==> t.Stored(Rd(ins)) == v)
    && (Rd(ins) != Rn(ins) && Rn(ins) != 15 ==>
          t.Reg(Rn(ins)) == FinalBase(FormOf(ins), s.Reg(Rn(ins)), moved))
  }

  lemma LoadedThenMoved(s: State, ins: word, v: word, moved: word)
    ensures var t := WithBase(s.WithReg(Rd(ins), v), FormOf(ins), Rn(ins), moved);
            LoadedAndMoved(s, t, ins, v, moved) && (Rd(ins) != Rn(ins) ==> t.Stored(Rd(ins)) == v)
  {
    hide Rn, Rd, WithBase, FormOf, State.Reg, State.Stored, State.WithReg;
    ReadAfterWrite(s, Rd(ins), v, Rn(ins));
    ReadAfterWrite(s, Rd(ins), v, Rd(ins));
    BaseReads(s.WithReg(Rd(ins), v), FormOf(ins), Rn(ins), moved, Rd(ins));
  }

  /** LDR and LDRB, an LDR into R15 apart: Rd, R15 included, gets the value at the accessed address. */
  lemma LoadIndexing(s: State, ins: word, stale: byte)
    requires s.Passed(ins) && TypeField(ins) / 2 == 1 && LBit(ins) == 1 && FormOf(ins) != NEITHER
    requires Rd(ins) != 15 || BBit(ins) == 1
    requires IndexSurvives(ins, Rd(ins), IBit(ins) == 0)
    ensures LoadedAndMoved(s, AfterInstruction(s, ins, stale), ins, Loaded2(s, ins, Accessed2(s, ins), stale),
                           Moved2(s, ins))
  {
    hide ConditionCode, PBit, WBit, UBit, BBit, LBit, TypeField, Rn, Rd, Rm, Index2, WrittenBack, Address, FormOf,
      Add, Sub, State.Word, State.Byte, State.WithReg, State.Reg, State.Stored, WithBase, LoadedAndMoved, FlagC,
      Loaded2;
    var base, moved := s.Reg(Rn(ins)), Offset2(s, ins);
    FieldMeanings(ins);
    MovedMeaning(s, ins);
    AddressMeaning(s, ins, moved);
    Loaded2Meaning(s, ins, Accessed2(s, ins), stale);
    var v := Loaded2(s, ins, Accessed2(s, ins), stale);
    var t := s.WithReg(Rd(ins), v);
    ReadAfterWrite(s, Rd(ins), v, Rn(ins));
    ReadAfterWrite(s, Rd(ins), v, Rm(ins));
    if FormOf(ins) == POST {
      SameIndex2(s, t, ins);
    }
    WritebackMeaning(t, ins, base, moved, Offset2(t, ins));
    LoadedThenMoved(s, ins, v, moved);
  }

  lemma ByteBit(ins: word)
    ensures BBit(ins) != 0 ==> BBit(ins) == 1
  {
  }

  /** A post-indexed load with an immediate offset ends with the right base unless it loads another value into it. */
  lemma PostIndexedBase(s: State, ins: word, stale: byte)
    requires s.Passed(ins) && TypeField(ins) / 2 == 1 && LBit(ins) == 1 && FormOf(ins) == POST && IBit(ins) == 0
    requires Rn(ins) != 15 && (Rd(ins) != 15 || BBit(ins) == 1)
    ensures var base := s.Reg(Rn(ins));
            (AfterInstruction(s, ins, stale).Reg(Rn(ins)) == Moved(base, UBit(ins) == 1, Offset12(ins))
        <==> Rd(ins) != Rn(ins) || Loaded2(s, ins, base, stale) == base)
  {
    hide ConditionCode, PBit, WBit, UBit, BBit, LBit, TypeField, Rn, Rd, Add, Sub, State.Word, State.Byte,
      State.WithReg, State.Reg, State.Stored, Loaded2;
    ByteBit(ins);
    var base := s.Reg(Rn(ins));
    Loaded2Meaning(s, ins, base, stale);
    FieldMeanings(ins);
    var v := Loaded2(s, ins, base, stale);
    var t := s.WithReg(Rd(ins), v);
    ReadAfterWrite(s, Rd(ins), v, Rn(ins));
    ReadAfterWrite(t, Rn(ins), Offset2(t, ins), Rn(ins));
    assert AfterInstruction(s, ins, stale) == t.WithReg(Rn(ins), Offset2(t, ins));
    MovedApart(v, base, UBit(ins) == 1, Offset12(ins));
  }

  lemma MovedApart(a: word, b: word, up: bool, k: word)
    ensures Moved(a, up, k) == Moved(b, up, k) <==> a == b
  {
    hide Wrap;
    var d: int := k;
    WrapCancel(a, b, d);
    WrapCancel(a, b, -d);
    WrapWord(a);
    WrapWord(b);
  }

  /** LDR into R15: the loaded word, less bit 0, becomes the program counter, and bit 0 the T bit. */
  lemma LoadPcIndexing(s: State, ins: word, stale: byte)
    requires s.Passed(ins) && TypeField(ins) / 2 == 1 && LBit(ins) == 1 && BBit(ins) == 0 && FormOf(ins) != NEITHER
    requires Rd(ins) == 15 && IndexSurvives(ins, 15, IBit(ins) == 0)
    ensures var f, base, t := FormOf(ins), s.Reg(Rn(ins)), AfterInstruction(s, ins, stale);
            var moved, v := Moved2(s, ins), WordAt(s.bytes, s.big, Accessed2(s, ins));
            && t == WithBase(s.WithReg(15, ClearBit0(v)).WithCpsr(SetT(s.Cpsr(), v % 2)), f, Rn(ins), moved)
            && (Rn(ins) != 15 ==> t.Stored(15) == ClearBit0(v) && t.Reg(Rn(ins)) == FinalBase(f, base, moved))
  {
    hide ConditionCode, PBit, WBit, UBit, BBit, LBit, TypeField, Rn, Rd, Rm, Index2, WrittenBack, Address, FormOf,
      Add, Sub, WordAt, State.Reg, State.Stored, FlagC, SetT, WithBase, State.WithReg, State.WithCpsr, ClearBit0;
    var base, moved := s.Reg(Rn(ins)), Offset2(s, ins);
    FieldMeanings(ins);
    MovedMeaning(s, ins);
    AddressMeaning(s, ins, moved);
    var v := s.Word(Accessed(FormOf(ins), base, moved));
    var t := s.WithReg(15, ClearBit0(v)).WithCpsr(SetT(s.Cpsr(), v % 2));
    ReadAfterWrite(s, 15, ClearBit0(v), 15);
    ReadAfterPc(s, v, 15);
    ReadAfterPc(s, v, Rn(ins));
    ReadAfterPc(s, v, Rm(ins));
    if FormOf(ins) == POST {
      SameIndex2(s, t, ins);
    }
    WritebackMeaning(t, ins, base, moved, Offset2(t, ins));
    BaseReads(t, FormOf(ins), Rn(ins), moved, 15);
  }

  /** A load into R15 moves the T bit but neither the mode nor the carry. */
  lemma ReadAfterPc(s: State, v: word, q: RegNo)
    ensures var t := s.WithReg(15, ClearBit0(v)).WithCpsr(SetT(s.Cpsr(), v % 2));
            && s.PcLoaded(v) == t && FlagC(t.Cpsr()) == FlagC(s.Cpsr()) && t.Mode() == s.Mode()
            && (q != 15 ==> t.Reg(q) == s.Reg(q)) && t.Stored(15) == ClearBit0(v)
  {
    hide ModeOf, ClearBit1, Add, FlagC, FlagN, FlagZ, FlagV, SetT, CellOf;
    PcCell(s.Mode(), q);
    StepProofs.SetTMode(s.Cpsr(), v % 2);
    SetTKeepsFlags(s.Cpsr(), v % 2);
    FlagsFromNibble(SetT(s.Cpsr(), v % 2), s.Cpsr());
  }

  /** The number that LDRH, LDRSB and LDRSH (S and H bits 6 and 5) read: unsigned, or signed by its top bit. */
  function Loaded3(s: State, ins: word, addr: word, stale: byte): int
  {
    var b, h := if addr in s.bytes then s.bytes[addr] else stale, HalfAt(s.bytes, s.big, addr);
    if Bit6(ins) == 0 then h
    else if Bit5(ins) == 0 then
      if b < 0x80 then b else b - 0x100
    else
      if h < 0x8000 then h else h - 0x1_0000
  }

  /** The word written is that number as a 32-bit signed one, or unsigned for LDRH. */
  lemma SignExtension(s: State, ins: word, addr: word, stale: byte)
    ensures var v := if Bit6(ins) == 0 then s.Half(addr)
                     else if Bit5(ins) == 0 then SignExtendByte(s.Byte(addr, stale)) else SignExtendHalf(s.Half(addr));
            v == Wrap(Loaded3(s, ins, addr, stale)) && Signed(v) == Loaded3(s, ins, addr, stale)
  {
    hide HalfAt, Bit6, Bit5;
  }

  /** LDRH, LDRSB and LDRSH into any register, R15 included; a halfword access to an odd address changes nothing. */
  lemma LoadExtraIndexing(s: State, ins: word, stale: byte)
    requires StepProofs.IsExtra(ins) && LBit(ins) == 1 && (Bit6(ins) == 1 || Bit5(ins) == 1)
    requires s.Passed(ins) && IndexSurvives(ins, Rd(ins), BBit(ins) == 1)
    ensures var t, moved, addr := AfterInstruction(s, ins, stale), Moved3(s, ins), Accessed3(s, ins);
            if addr % 2 == 1 && Bit5(ins) == 1 then t == s
            else
              && LoadedAndMoved(s, t, ins, Wrap(Loaded3(s, ins, addr, stale)), moved)
              && (Rd(ins) != Rn(ins) ==> Signed(t.Stored(Rd(ins))) == Loaded3(s, ins, addr, stale))
  {
    hide ConditionCode, PBit, WBit, UBit, BBit, LBit, TypeField, Bit7, Bit6, Bit5, Bit4, Rn, Rd, Rm, Index3,
      WrittenBack, Address, FormOf, Add, Sub, State.Half, State.Byte, State.WithReg, State.Reg,
      State.Stored, SignExtendByte, SignExtendHalf, LoadedAndMoved, WithBase;
    SizeBits(ins);
    var base, moved := s.Reg(Rn(ins)), Offset3(s, ins);
    FieldMeanings(ins);
    MovedMeaning(s, ins);
    AddressMeaning(s, ins, moved);
    SignExtension(s, ins, Accessed(FormOf(ins), base, moved), stale);
    var v := Wrap(Loaded3(s, ins, Accessed(FormOf(ins), base, moved), stale));
    var t := s.WithReg(Rd(ins), v);
    ReadAfterWrite(s, Rd(ins), v, Rn(ins));
    ReadAfterWrite(s, Rd(ins), v, Rm(ins));
    if FormOf(ins) == POST {
      SameIndex3(s, t, ins);
    }
    WritebackMeaning(t, ins, base, moved, Offset3(t, ins));
    LoadedThenMoved(s, ins, v, moved);
  }

  lemma SizeBits(ins: word)
    ensures Bit6(ins) != 0 ==> Bit6(ins) == 1
    ensures Bit5(ins) != 0 ==> Bit5(ins) == 1
  {
  }

  // ---- User-mode transfers ----

  /** STRT and STRBT: the user register goes to the base address, the base always moves, nothing else changes. */
  lemma StoreTranslated(s: State, ins: word, stale: byte)
    requires s.Passed(ins) && TypeField(ins) / 2 == 1 && LBit(ins) == 0 && FormOf(ins) == NEITHER
    ensures var base, v, t := s.Reg(Rn(ins)), RegisterProofs.UserReg(s, Rd(ins)), AfterInstruction(s, ins, stale);
            && t == s.(bytes := t.bytes).WithReg(Rn(ins), Moved2(s, ins))
            && t.bytes == (if BBit(ins) == 1 then PutByte(s.bytes, base, v % 0x100)
                           else PutWord(s.bytes, s.big, base, v))
  {
    hide ConditionCode, PBit, WBit, UBit, BBit, LBit, TypeField, Rn, Rd, Index2, PutWord, PutByte, Add,
      Sub, State.Reg, State.UsrReg, State.WithReg, FormOf, RegisterProofs.UserReg, Moved2;
    var base, moved := s.Reg(Rn(ins)), Offset2(s, ins);
    FieldMeanings(ins);
    MovedMeaning(s, ins);
    var v := s.UsrReg(Rd(ins));
    RegisterProofs.UsrRegMeaning(s, Rd(ins));
    var t := if BBit(ins) == 1 then s.WithByte(base, v % 0x100) else s.WithWord(base, v);
    SameCells(s, t, Rn(ins));
    SameCells(s, t, Rm(ins));
    SameIndex2(s, t, ins);
    StepProofs.WithRegOnly(t, Rn(ins), moved);
  }

  /** LDRT and LDRBT, R15 included, into a user cell that is neither the base's nor the index's in the current mode. */
  lemma LoadTranslated(s: State, ins: word, stale: byte)
    requires s.Passed(ins) && TypeField(ins) / 2 == 1 && LBit(ins) == 1 && FormOf(ins) == NEITHER
    requires CellOf(16, Rd(ins)) != CellOf(s.Mode(), Rn(ins))
    requires IBit(ins) == 0 || CellOf(16, Rd(ins)) != CellOf(s.Mode(), Rm(ins))
    ensures var base, t := s.Reg(Rn(ins)), AfterInstruction(s, ins, stale);
            && t == s.(cells := s.cells[CellOf(16, Rd(ins)) := Loaded2(s, ins, base, stale)])
                     .WithReg(Rn(ins), Moved2(s, ins))
            && t.cells[CellOf(16, Rd(ins))] == Loaded2(s, ins, base, stale)
  {
    hide ConditionCode, PBit, WBit, UBit, BBit, LBit, TypeField, Rn, Rd, Rm, Index2, Add, Sub, CellOf,
      UsrCellOf, State.Word, State.Byte, ModeOf, Loaded2, FormOf;
    var base, moved := s.Reg(Rn(ins)), Offset2(s, ins);
    MovedMeaning(s, ins);
    FieldMeanings(ins);
    Loaded2Meaning(s, ins, base, stale);
    var t := s.WithUsrReg(Rd(ins), Loaded2(s, ins, base, stale));
    RegisterProofs.UsrIsMode16(Rd(ins));
    PcCell(s.Mode(), Rn(ins));
    PcCell(s.Mode(), Rm(ins));
    SameIndex2(s, t, ins);
    assert AfterInstruction(s, ins, stale) == t.WithReg(Rn(ins), moved);
    assert t.Cpsr() == s.Cpsr() && t.Mode() == s.Mode();
  }

  // ---- Doublewords ----

  /** STRD: two consecutive words from an even pair, if the address is a multiple of 8; the base moves in any case. */
  lemma StoreDouble(s: State, ins: word, stale: byte)
    requires StepProofs.IsExtra(ins) && LBit(ins) == 0 && Bit6(ins) == 1 && Bit5(ins) == 1
    requires s.Passed(ins)
    ensures var t, moved, addr := AfterInstruction(s, ins, stale), Moved3(s, ins), Accessed3(s, ins);
            if !IsEvenPair(Rd(ins)) then t == s
            else
              StoredAndMoved(s, t, ins,
                             if addr % 8 != 0 then s.bytes
                             else PutWord(PutWord(s.bytes, s.big, addr, s.Reg(Rd(ins))),
                                          s.big, Add(addr, 4), s.Reg(Rd(ins) + 1)),
                             moved)
  {
    hide ConditionCode, LBit, TypeField, Bit7, Bit6, Bit5, Bit4, Rn, Rd, Add, Sub, State.Reg, PBit, WBit, UBit,
      IsPairBase, IsEvenPair, Index3, PutWord, WrittenBack, Address, FormOf, WithBase, StoredAndMoved;
    var base, moved := s.Reg(Rn(ins)), Offset3(s, ins);
    FieldMeanings(ins);
    MovedMeaning(s, ins);
    AddressMeaning(s, ins, moved);
    if IsEvenPair(Rd(ins)) {
      var addr := Accessed(FormOf(ins), base, moved);
      var t := if addr % 8 != 0 then s
               else s.WithWord(addr, s.Reg(Rd(ins))).WithWord(Add(addr, 4), s.Reg(Rd(ins) + 1));
      SameCells(s, t, Rn(ins));
      SameCells(s, t, Rm(ins));
      SameIndex3(s, t, ins);
      WritebackMeaning(t, ins, base, moved, Offset3(t, ins));
      StoredThenMoved(s, ins, t.bytes, moved);
    }
  }

  /** s with two consecutive words in the pair that starts at rd. */
  function WithPair(s: State, rd: RegNo, addr: word): State
    requires IsEvenPair(rd)
  {
    s.WithReg(rd, s.Word(addr)).WithReg(rd + 1, s.Word(Add(addr, 4)))
  }

  lemma PairReads(s: State, rd: RegNo, addr: word, q: RegNo)
    requires IsEvenPair(rd)
    ensures var t := WithPair(s, rd, addr);
            && t.Reg(rd) == s.Word(addr) && t.Reg(rd + 1) == s.Word(Add(addr, 4))
            && (q != rd && q != rd + 1 ==> t.Reg(q) == s.Reg(q)) && t.bytes == s.bytes
  {
    hide State.WithReg, State.Reg, State.Word, Add, State.Stored, IsEvenPair;
    var v, w := s.Word(addr), s.Word(Add(addr, 4));
    var u := s.WithReg(rd, v);
    PairRegisters(rd);
    ReadAfterWrite(s, rd, v, rd);
    ReadAfterWrite(s, rd, v, q);
    ReadAfterWrite(u, rd + 1, w, rd);
    ReadAfterWrite(u, rd + 1, w, rd + 1);
    ReadAfterWrite(u, rd + 1, w, q);
    StepProofs.WithRegOnly(s, rd, v);
    StepProofs.WithRegOnly(u, rd + 1, w);
  }

  /** LDRD: two consecutive words into an even pair, if the address is a multiple of 8; the base moves in any case. */
  lemma LoadDouble(s: State, ins: word, stale: byte)
    requires StepProofs.IsExtra(ins) && LBit(ins) == 0 && Bit6(ins) == 1 && Bit5(ins) == 0
    requires s.Passed(ins)
    requires IsEvenPair(Rd(ins)) ==>
               IndexSurvives(ins, Rd(ins), BBit(ins) == 1) && IndexSurvives(ins, Rd(ins) + 1, BBit(ins) == 1)
    ensures var t, moved, addr := AfterInstruction(s, ins, stale), Moved3(s, ins), Accessed3(s, ins);
            if !IsEvenPair(Rd(ins)) then t == s
            else t == WithBase(if addr % 8 != 0 then s else WithPair(s, Rd(ins), addr), FormOf(ins), Rn(ins), moved)
  {
    hide ConditionCode, LBit, TypeField, Bit7, Bit6, Bit5, Bit4, Rn, Rd, Rm, Add, Sub, State.Reg, State.WithReg, PBit,
      WBit, UBit, BBit, IsPairBase, IsEvenPair, Index3, State.Word, WrittenBack, Address, FormOf, WithBase;
    var base, moved := s.Reg(Rn(ins)), Offset3(s, ins);
    FieldMeanings(ins);
    MovedMeaning(s, ins);
    AddressMeaning(s, ins, moved);
    if IsEvenPair(Rd(ins)) {
      var addr := Accessed(FormOf(ins), base, moved);
      var t := if addr % 8 != 0 then s else WithPair(s, Rd(ins), addr);
      if FormOf(ins) == POST {
        PairReads(s, Rd(ins), addr, Rn(ins));
        PairReads(s, Rd(ins), addr, Rm(ins));
        SameIndex3(s, t, ins);
      }
      WritebackMeaning(t, ins, base, moved, Offset3(t, ins));
    }
  }

  lemma PairRegisters(r: RegNo)
    requires IsEvenPair(r)
    ensures r != 15 && r + 1 < 15
  {
  }

  /** The pair an LDRD of any form loads, unless it is also the base that the form moves. */
  lemma DoubleLoaded(s: State, ins: word, stale: byte)
    requires StepProofs.IsExtra(ins) && LBit(ins) == 0 && Bit6(ins) == 1 && Bit5(ins) == 0
    requires s.Passed(ins) && IsEvenPair(Rd(ins)) && Accessed3(s, ins) % 8 == 0
    requires MovesBase(FormOf(ins)) ==> Rd(ins) != Rn(ins) && Rd(ins) + 1 != Rn(ins)
    ensures var addr, t := Accessed3(s, ins), AfterInstruction(s, ins, stale);
            t.Reg(Rd(ins)) == s.Word(addr) && t.Reg(Rd(ins) + 1) == s.Word(Add(addr, 4))
  {
    hide ConditionCode, LBit, TypeField, Bit7, Bit6, Bit5, Bit4, Rn, Rd, Accessed3, Address3, Offset3, Add, State.Reg,
      State.WithReg, PBit, WBit, IsPairBase, IsEvenPair, State.Word, State.Stored;
    Address3Meaning(s, ins);
    FieldMeanings(ins);
    var t := WithPair(s, Rd(ins), Accessed3(s, ins));
    PairReads(s, Rd(ins), Accessed3(s, ins), 0);
    forall v: word
      ensures Rd(ins) != Rn(ins) ==> t.WithReg(Rn(ins), v).Reg(Rd(ins)) == t.Reg(Rd(ins))
      ensures Rd(ins) + 1 != Rn(ins) ==> t.WithReg(Rn(ins), v).Reg(Rd(ins) + 1) == t.Reg(Rd(ins) + 1)
    {
      ReadAfterWrite(t, Rn(ins), v, Rd(ins));
      ReadAfterWrite(t, Rn(ins), v, Rd(ins) + 1);
    }
  }

  /** The bytes that an STRD of any form to a multiple of 8 leaves. */
  lemma DoubleStored(s: State, ins: word, stale: byte)
    requires StepProofs.IsExtra(ins) && LBit(ins) == 0 && Bit6(ins) == 1 && Bit5(ins) == 1
    requires s.Passed(ins) && IsEvenPair(Rd(ins)) && Accessed3(s, ins) % 8 == 0
    ensures AfterInstruction(s, ins, stale).bytes
         == PutWord(PutWord(s.bytes, s.big, Accessed3(s, ins), s.Reg(Rd(ins))),
                    s.big, Add(Accessed3(s, ins), 4), s.Reg(Rd(ins) + 1))
  {
    hide ConditionCode, LBit, TypeField, Bit7, Bit6, Bit5, Bit4, Rn, Rd, Accessed3, Address3, Offset3, Add, State.Reg,
      PBit, WBit, IsPairBase, IsEvenPair, PutWord;
    Address3Meaning(s, ins);
    FieldMeanings(ins);
  }

  lemma EightBytes(a: word)
    ensures Add(Add(a, 4), 0) == Add(a, 4) && Add(Add(a, 4), 1) == Add(a, 5) && Add(Add(a, 4), 2) == Add(a, 6)
    ensures Add(Add(a, 4), 3) == Add(a, 7) && 4 <= Sub(a, Add(a, 4)) <= 0xFFFF_FFFC
  {
    assert 4 <= Sub(a, Add(a, 4)) <= 0xFFFF_FFFC;
    hide Add, Sub;
    AddAdd(a, 4, 0);
    AddAdd(a, 4, 1);
    AddAdd(a, 4, 2);
    AddAdd(a, 4, 3);
  }

  lemma PairReadsBack(m: Bytes, big: bool, a: word, v: word, w: word)
    requires forall i: nat | i < 8 :: Add(a, i) in m
    ensures var n := PutWord(PutWord(m, big, a, v), big, Add(a, 4), w);
            WordAt(n, big, a) == v && WordAt(n, big, Add(a, 4)) == w
  {
    hide PutWord, WordAt, Add, Sub;
    EightBytes(a);
    var n := PutWord(m, big, a, v);
    MemoryProofs.WordInRangeReadsBack(m, big, a, v);
    MemoryProofs.DisjointWords(n, big, Add(a, 4), w, a);
    MemoryProofs.WordInRangeReadsBack(n, big, Add(a, 4), w);
  }

  /** A pair stored in range by STRD is loaded back, in order, by an LDRD at the same address, whatever their forms. */
  lemma DoubleRoundTrip(s: State, strd: word, u: State, ldrd: word, stale: byte)
    requires StepProofs.IsExtra(strd) && LBit(strd) == 0 && Bit6(strd) == 1 && Bit5(strd) == 1
    requires StepProofs.IsExtra(ldrd) && LBit(ldrd) == 0 && Bit6(ldrd) == 1 && Bit5(ldrd) == 0
    requires s.Passed(strd) && u.Passed(ldrd)
    requires IsEvenPair(Rd(strd)) && IsEvenPair(Rd(ldrd))
    requires MovesBase(FormOf(ldrd)) ==> Rd(ldrd) != Rn(ldrd) && Rd(ldrd) + 1 != Rn(ldrd)
    requires var addr := Accessed3(s, strd);
             addr == Accessed3(u, ldrd) && addr % 8 == 0 && forall i: nat | i < 8 :: Add(addr, i) in s.bytes
    requires u.bytes == AfterInstruction(s, strd, stale).bytes && u.big == s.big
    ensures var t := AfterInstruction(u, ldrd, stale);
            t.Reg(Rd(ldrd)) == s.Reg(Rd(strd)) && t.Reg(Rd(ldrd) + 1) == s.Reg(Rd(strd) + 1)
  {
    hide ConditionCode, LBit, TypeField, StepProofs.IsExtra, Bit6, Bit5, Rn, Rd, Accessed3, Address3, Add, State.Reg,
      IsPairBase, IsEvenPair, AfterInstruction, PutWord, WordAt, IsPreIndexed, IsPostIndexed;
    DoubleStored(s, strd, stale);
    DoubleLoaded(u, ldrd, stale);
    PairReadsBack(s.bytes, s.big, Accessed3(s, strd), s.Reg(Rd(strd)), s.Reg(Rd(strd) + 1));
  }
}
