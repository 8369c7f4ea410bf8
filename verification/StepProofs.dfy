/** What every step keeps: failed conditions, the mode and the SPSRs, and memory outside a store's footprint. */
module StepProofs {
  import opened Words
  import opened Encoding
  import opened RegisterFile
  import opened MemoryArea
  import opened Core
  import opened DataProcessing
  import opened LoadStore
  import opened LoadStoreMultiple
  import opened BranchOther
  import opened Instruction

  // ---- Failed conditions ----

  lemma AlwaysPasses(s: State, ins: word)
    requires CondField(ins) >= 14
    ensures s.Passed(ins)
  {
  }

  lemma FailedInstruction(s: State, ins: word, stale: byte)
    requires !s.Passed(ins)
    ensures AfterInstruction(s, ins, stale) == s
  {
    hide ConditionCode, TypeField, PBit, UBit, BBit, WBit, LBit, Bit7, Bit6, Bit5, Bit4, Opcode, Address3;
  }

  /** Under a failed condition a step moves the program counter past the word, counts a cycle, and does nothing else. */
  lemma FailedConditionIsNoOp(s: State, stale: byte)
    requires !s.Passed(NextWord(s)) && !Halts(NextWord(s))
    ensures CondField(NextWord(s)) <= 13
    ensures Step(s, stale)
         == Running(s.(cells := s.cells[30 := Add(s.FetchAddress(), 4)], cycles := Add(s.cycles, 1)))
  {
    hide AfterInstruction, NextWord, Halts, FlagN, FlagZ, FlagC, FlagV, State.FetchAddress, Add;
    FailedInstruction(s.Fetched(), NextWord(s), stale);
  }

  // ---- Mode and SPSRs ----

  /** The five SPSR cells are untouched. */
  ghost predicate SpsrsKept(s: State, t: State) { t.cells[32..] == s.cells[32..] }

  /** The mode that an SPSR restore in mode m moves to; the modes credited with no SPSR stay. */
  function RestoredMode(cells: Cells, m: nat): nat
  {
    if ModeHasSpsr(m) then ModeOf(SpsrIn(cells, m)) else m
  }

  /** Nothing changed but general registers. */
  ghost predicate OnlyRegisters(s: State, t: State)
  {
    t.bytes == s.bytes && t.big == s.big && t.cycles == s.cycles && t.cells[31..] == s.cells[31..]
  }

  /** A status word with its condition flags 31:28 and its T bit 5 blanked: what no flag-setting may change. */
  function Control(w: word): word { SetT(w % 0x1000_0000, 0) }

  /** The status word keeps all but its flags and T bit, or is the mode's SPSR. */
  predicate CpsrStep(s: State, w: word) { Control(w) == Control(s.Cpsr()) || (s.HasSpsr() && w == s.Spsr()) }

  /** Nothing changed but general registers, the flags and T bit, or the whole status word by an SPSR restore. */
  ghost predicate OnlyProcessor(s: State, t: State)
  {
    && t.bytes == s.bytes && t.big == s.big && t.cycles == s.cycles
    && SpsrsKept(s, t)
    && CpsrStep(s, t.Cpsr())
  }

  /** So the mode stays or moves as RestoredMode says. */
  lemma ProcessorMode(s: State, t: State)
    requires OnlyProcessor(s, t)
    ensures t.Mode() == s.Mode() || t.Mode() == RestoredMode(s.cells, s.Mode())
  {
    hide SpsrIn, SetT, Control;
    ControlMode(s.Cpsr());
    ControlMode(t.Cpsr());
  }

  lemma ControlMode(w: word)
    ensures ModeOf(Control(w)) == ModeOf(w)
  {
    hide SetT;
    LowBitsOnly(w / 0x1000_0000, w);
    SetTKeepsFlags(w % 0x1000_0000, 0);
  }

  lemma RegistersAreProcessor(s: State, t: State)
    requires OnlyRegisters(s, t)
    ensures OnlyProcessor(s, t) && t.Cpsr() == s.Cpsr() && t.Mode() == s.Mode()
  {
    TailFrom(s, t);
  }

  lemma TailFrom(s: State, t: State)
    requires t.cells[31..] == s.cells[31..]
    ensures SpsrsKept(s, t) && t.Cpsr() == s.Cpsr()
  {
    assert t.cells[32..] == t.cells[31..][1..] && s.cells[32..] == s.cells[31..][1..];
    assert t.cells[31] == t.cells[31..][0] && s.cells[31] == s.cells[31..][0];
  }

  lemma WithRegOnly(s: State, r: RegNo, v: word)
    ensures OnlyRegisters(s, s.WithReg(r, v)) && OnlyRegisters(s, s.WithUsrReg(r, v))
  {
  }

  lemma OnlyRegistersThen(s: State, t: State, u: State)
    requires OnlyRegisters(s, t) && OnlyRegisters(t, u)
    ensures OnlyRegisters(s, u)
  {
  }

  lemma WithCpsrOnly(s: State, v: word)
    requires CpsrStep(s, v)
    ensures OnlyProcessor(s, s.WithCpsr(v))
  {
  }

  /** A processor-only change between register writes is a processor-only change. */
  lemma Sandwich(s: State, t: State, u: State, w: State)
    requires OnlyRegisters(s, t) && OnlyProcessor(t, u) && OnlyRegisters(u, w)
    ensures OnlyProcessor(s, w)
  {
    hide ModeOf, Control, SpsrIn;
    TailFrom(s, t);
    TailFrom(u, w);
    SpsrsSame(s, t);
  }

  lemma SpsrsSame(s: State, t: State)
    requires SpsrsKept(s, t)
    ensures forall m: nat :: SpsrIn(s.cells, m) == SpsrIn(t.cells, m)
    ensures forall m: nat :: RestoredMode(s.cells, m) == RestoredMode(t.cells, m)
  {
    assert forall i :: 32 <= i < 37 ==> s.cells[i] == s.cells[32..][i - 32] && t.cells[i] == t.cells[32..][i - 32];
  }

  lemma NzcvKeepsMode(s: State, n: bit, z: bit, c: bit, v: bit)
    ensures OnlyProcessor(s, WithNzcv(s, n, z, c, v))
  {
    hide SetT;
    var k := 8 * n + 4 * z + 2 * c + v;
    FlagsOver(k, s.Cpsr());
  }

  lemma FlagsOver(k: nat, w: word)
    ensures (k * 0x1000_0000 + w % 0x1000_0000) % 0x1000_0000 == w % 0x1000_0000
  {
    DivUnique(k * 0x1000_0000 + w % 0x1000_0000, 0x1000_0000, k, w % 0x1000_0000);
  }

  lemma LowBitsOnly(k: nat, w: word)
    ensures (k * 0x1000_0000 + w % 0x1000_0000) % 0x20 == w % 0x20
  {
    assert w == w / 0x1000_0000 * 0x1000_0000 + w % 0x1000_0000;
  }

  lemma RestoreOnly(s: State)
    ensures OnlyProcessor(s, s.SpsrRestored())
  {
    hide ModeOf, SpsrIn;
  }

  lemma PcLoadedOnly(s: State, v: word)
    ensures OnlyProcessor(s, s.PcLoaded(v))
  {
    hide SetT, ModeOf;
    var t := s.WithReg(15, ClearBit0(v));
    WithRegOnly(s, 15, ClearBit0(v));
    RegistersAreProcessor(s, t);
    SetTControl(t.Cpsr(), v % 2);
    WithCpsrOnly(t, SetT(t.Cpsr(), v % 2));
    SpsrsSame(s, t);
  }

  lemma SetTMode(w: word, t: bit)
    ensures ModeOf(SetT(w, t)) == ModeOf(w)
  {
    SetTKeepsFlags(w, t);
  }

  lemma SetTControl(w: word, t: bit)
    ensures Control(SetT(w, t)) == Control(w)
  {
    var hi, mid, lo := w / 0x1000_0000, w % 0x1000_0000 / 0x40, w % 0x20;
    var low: word := mid * 0x40 + w / 0x20 % 2 * 0x20 + lo;
    assert w == hi * 0x1000_0000 + low;
    DivUnique(SetT(w, t), 0x1000_0000, hi, mid * 0x40 + t * 0x20 + lo);
    BlankT(mid, t, lo);
    BlankT(mid, w / 0x20 % 2, lo);
  }

  lemma BlankT(mid: nat, t: bit, lo: nat)
    requires mid < 0x40_0000 && lo < 0x20
    ensures SetT(mid * 0x40 + t * 0x20 + lo, 0) == mid * 0x40 + lo
  {
    DivUnique(mid * 0x40 + t * 0x20 + lo, 0x20, 2 * mid + t, lo);
  }

  lemma AfterRegister(s: State, r: RegNo, v: word, u: State)
    requires OnlyProcessor(s.WithReg(r, v), u)
    ensures OnlyProcessor(s, u)
  {
    hide OnlyProcessor, OnlyRegisters, State.WithReg;
    WithRegOnly(s, r, v);
    UnchangedRegisters(u);
    Sandwich(s, s.WithReg(r, v), u, u);
  }

  lemma UnchangedRegisters(s: State)
    ensures OnlyRegisters(s, s) && OnlyProcessor(s, s)
  {
  }

  lemma DataProcessingOnly(s: State, ins: word)
    ensures OnlyProcessor(s, AfterDataProcessing(s, ins))
  {
    hide OnlyProcessor, State.WithReg, WithNzcv, State.SpsrRestored, ConditionCode, Operand, State.Reg, Opcode, LBit,
      Rd, CalcsResult, CalcsCarry, BitwiseResult, CmptstResult, CmptstCarry, GetOverflowFlag, Negative, Zero, FlagC,
      FlagV;
    UnchangedRegisters(s);
    if !s.Passed(ins) {
    } else if IsAdds(ins) || IsSubs(ins) {
      var rn, operand, c := s.Reg(Rn(ins)), Operand(s, ins).operand, FlagC(s.Cpsr());
      var result := CalcsResult(Opcode(ins), rn, operand, c);
      var t := s.WithReg(Rd(ins), result);
      UnchangedRegisters(t);
      RestoreOnly(t);
      NzcvKeepsMode(t, Negative(result), Zero(result), CalcsCarry(Opcode(ins), rn, operand, c),
                    GetOverflowFlag(rn, operand, result));
      AfterRegister(s, Rd(ins), result, AfterCalcs(s, ins));
    } else if IsBitwises(ins) {
      var shifted := Operand(s, ins);
      var result := BitwiseResult(Opcode(ins), s.Reg(Rn(ins)), shifted.operand);
      var t := s.WithReg(Rd(ins), result);
      UnchangedRegisters(t);
      RestoreOnly(t);
      NzcvKeepsMode(t, Negative(result), Zero(result), shifted.carry, FlagV(s.Cpsr()));
      AfterRegister(s, Rd(ins), result, AfterBitwise(s, ins));
    } else {
      var shifted, rn := Operand(s, ins), s.Reg(Rn(ins));
      var result := CmptstResult(Opcode(ins), rn, shifted.operand);
      NzcvKeepsMode(s, Negative(result), Zero(result), CmptstCarry(Opcode(ins), rn, shifted, FlagC(s.Cpsr())),
                    FlagV(s.Cpsr()));
    }
  }

  lemma WrittenBackOnly(s: State, ins: word, addr: word, indexed: word)
    ensures OnlyRegisters(s, WrittenBack(s, ins, addr, indexed))
  {
    hide PBit, WBit, Rn;
  }

  lemma LoadThenWriteBack(s: State, t: State, ins: word, addr: word, indexed: word)
    requires OnlyProcessor(s, t)
    ensures OnlyProcessor(s, WrittenBack(t, ins, addr, indexed))
  {
    hide OnlyProcessor, OnlyRegisters, WrittenBack;
    UnchangedRegisters(s);
    WrittenBackOnly(t, ins, addr, indexed);
    Sandwich(s, s, t, WrittenBack(t, ins, addr, indexed));
  }

  lemma WithLoadedOnly(s: State, r: RegNo, data: word)
    ensures OnlyProcessor(s, WithLoaded(s, r, data))
  {
    hide OnlyProcessor, OnlyRegisters, State.WithReg, State.PcLoaded;
    PcLoadedOnly(s, data);
    WithRegOnly(s, r, data);
    RegistersAreProcessor(s, s.WithReg(r, data));
  }

  // ---- Store footprints ----

  /** A contiguous range of addresses modulo 2^32. */
  datatype Range = Range(start: word, size: nat) {
    predicate Covers(a: word) { Sub(a, start) < size }
  }

  const NOTHING := Range(0, 0)

  /** The words the decoder takes for extra loads and stores. */
  predicate IsExtra(ins: word) { TypeField(ins) == 0 && Bit7(ins) == 1 && Bit4(ins) == 1 }

  /** STR, STRB, STRT and STRBT; STRH and STRD; STM(1) and STM(2). */
  predicate IsStore(ins: word)
  {
    || (TypeField(ins) / 2 == 1 && LBit(ins) == 0)
    || (IsExtra(ins) && LBit(ins) == 0 && Bit5(ins) == 1)
    || (TypeField(ins) == 4 && LBit(ins) == 0 && (BBit(ins) == 0 || WBit(ins) == 0))
  }

  /** The bytes that an instruction may write. */
  function StoreRange(s: State, ins: word): Range
  {
    if !s.Passed(ins) || LBit(ins) == 1 then NOTHING
    else if TypeField(ins) / 2 == 1 then
      Range(if IsTranslated(ins) then s.Reg(Rn(ins)) else Address2(s, ins), if BBit(ins) == 1 then 1 else 4)
    else if IsExtra(ins) && Bit5(ins) == 1 then
      var addr := Address3(s, ins);
      if Bit6(ins) == 0 then
        if addr % 2 == 0 then Range(addr, 2) else NOTHING
      else
        if IsPairBase(Rd(ins)) && addr % 8 == 0 then Range(addr, 8) else NOTHING
    else if TypeField(ins) == 4 && (BBit(ins) == 0 || WBit(ins) == 0) then
      Range(StartAddress(s, ins), 64)
    else NOTHING
  }

  /** t is s with changes only to the processor and to in-range bytes that r covers. */
  ghost predicate Effect(s: State, t: State, r: Range)
  {
    && OnlyProcessor(s, t.(bytes := s.bytes))
    && t.bytes.Keys == s.bytes.Keys
    && forall a | a in s.bytes && !r.Covers(a) :: t.bytes[a] == s.bytes[a]
  }

  lemma ProcessorEffect(s: State, t: State, r: Range)
    requires OnlyProcessor(s, t)
    ensures Effect(s, t, r)
  {
    assert t.(bytes := s.bytes) == t;
  }

  lemma StoreEffect(s: State, m: Bytes, t: State, r: Range)
    requires Effect(s, s.(bytes := m), r) && OnlyProcessor(s.(bytes := m), t)
    ensures Effect(s, t, r)
  {
    hide Range.Covers, ModeOf;
    var u := s.(bytes := m);
    assert OnlyProcessor(s, t.(bytes := s.bytes));
  }

  lemma PutWordEffect(s: State, a: word, v: word)
    ensures Effect(s, s.WithWord(a, v), Range(a, 4))
  {
    hide Sub, WordByte, ModeOf;
  }

  lemma PutHalfEffect(s: State, a: word, v: half)
    ensures Effect(s, s.WithHalf(a, v), Range(a, 2))
  {
    hide Sub, HalfByte, ModeOf;
  }

  lemma PutByteEffect(s: State, a: word, v: byte)
    ensures Effect(s, s.WithByte(a, v), Range(a, 1))
  {
    hide ModeOf;
  }

  lemma PutPairEffect(s: State, a: word, v: word, w: word)
    ensures Effect(s, s.WithWord(a, v).WithWord(Add(a, 4), w), Range(a, 8))
  {
    hide WordByte, ModeOf, Add, Sub;
    forall b: word
      ensures Sub(b, Add(a, 4)) < 4 ==> Sub(b, a) < 8
      ensures Sub(b, a) < 4 ==> Sub(b, a) < 8
    {
      if Sub(b, Add(a, 4)) < 4 {
        ShiftedOffset(b, a, 4, 4);
      }
    }
  }

  /** Addresses less than n above a + k are less than k + n above a. */
  lemma ShiftedOffset(b: word, a: word, k: nat, n: nat)
    requires k + n <= 0x1_0000_0000 && Sub(b, Add(a, k)) < n
    ensures Sub(b, a) == k + Sub(b, Add(a, k))
  {
  }

  lemma {:induction false} StoredUpToEffect(s: State, start: word, n: nat, usr: bool)
    requires n <= 16
    ensures Effect(s, s.(bytes := StoredUpTo(s, start, n, usr)), Range(start, 4 * n))
  {
    hide WordByte, ModeOf, Add, Sub, State.Reg, State.UsrReg;
    if n > 0 {
      StoredUpToEffect(s, start, n - 1, usr);
      forall b: word | Sub(b, Add(start, 4 * (n - 1))) < 4
        ensures Sub(b, start) < 4 * n
      {
        ShiftedOffset(b, start, 4 * (n - 1), 4);
      }
    }
  }

  /** A store into r followed by a base writeback. */
  lemma StoreThenWriteBack(s: State, m: Bytes, ins: word, addr: word, indexed: word, r: Range)
    requires Effect(s, s.(bytes := m), r)
    ensures Effect(s, WrittenBack(s.(bytes := m), ins, addr, indexed), r)
  {
    hide Effect, OnlyProcessor, OnlyRegisters, WrittenBack;
    var t := s.(bytes := m);
    WrittenBackOnly(t, ins, addr, indexed);
    RegistersAreProcessor(t, WrittenBack(t, ins, addr, indexed));
    StoreEffect(s, m, WrittenBack(t, ins, addr, indexed), r);
  }

  lemma StoreThenRegister(s: State, m: Bytes, i: RegNo, v: word, r: Range)
    requires Effect(s, s.(bytes := m), r)
    ensures Effect(s, s.(bytes := m).WithReg(i, v), r)
  {
    hide Effect, OnlyProcessor, OnlyRegisters, State.WithReg;
    var t := s.(bytes := m);
    WithRegOnly(t, i, v);
    RegistersAreProcessor(t, t.WithReg(i, v));
    StoreEffect(s, m, t.WithReg(i, v), r);
  }

  lemma LoadEffect(s: State, t: State, ins: word, addr: word, indexed: word, r: Range)
    requires OnlyProcessor(s, t)
    ensures Effect(s, WrittenBack(t, ins, addr, indexed), r)
  {
    hide Effect, OnlyProcessor, WrittenBack;
    LoadThenWriteBack(s, t, ins, addr, indexed);
    ProcessorEffect(s, WrittenBack(t, ins, addr, indexed), r);
  }

  lemma TwoRegistersOnly(s: State, i: RegNo, v: word, j: RegNo, w: word, usr: bool)
    ensures OnlyProcessor(s, (if usr then s.WithUsrReg(i, v) else s.WithReg(i, v)).WithReg(j, w))
  {
    hide OnlyProcessor, OnlyRegisters, State.WithReg, State.WithUsrReg;
    var t := if usr then s.WithUsrReg(i, v) else s.WithReg(i, v);
    WithRegOnly(s, i, v);
    WithRegOnly(t, j, w);
    OnlyRegistersThen(s, t, t.WithReg(j, w));
    RegistersAreProcessor(s, t.WithReg(j, w));
  }

  lemma LoadInstructionEffect(s: State, ins: word, stale: byte, r: Range)
    requires TypeField(ins) / 2 == 1 && LBit(ins) == 1
    ensures Effect(s, AfterLoadStore(s, ins, stale), r)
  {
    hide Effect, OnlyProcessor, ConditionCode, Offset2, Address2, WrittenBack, WithLoaded, State.WithReg,
      State.WithUsrReg, State.Reg, State.Word, State.Byte, TypeField, BBit, LBit, PBit, WBit, Rd, Rn;
    UnchangedRegisters(s);
    ProcessorEffect(s, s, r);
    var addr, base := Address2(s, ins), s.Reg(Rn(ins));
    if IsTranslated(ins) {
      var data: word := if BBit(ins) == 1 then s.Byte(base, stale) else s.Word(base);
      var t := s.WithUsrReg(Rd(ins), data);
      TwoRegistersOnly(s, Rd(ins), data, Rn(ins), Offset2(t, ins), true);
      ProcessorEffect(s, AfterTranslated(t, ins), r);
    } else if BBit(ins) == 1 {
      var t := s.WithReg(Rd(ins), s.Byte(addr, stale));
      WithRegOnly(s, Rd(ins), s.Byte(addr, stale));
      RegistersAreProcessor(s, t);
      LoadEffect(s, t, ins, addr, Offset2(t, ins), r);
    } else {
      var t := WithLoaded(s, Rd(ins), s.Word(addr));
      WithLoadedOnly(s, Rd(ins), s.Word(addr));
      LoadEffect(s, t, ins, addr, Offset2(t, ins), r);
    }
  }

  lemma StoreInstructionEffect(s: State, ins: word, stale: byte)
    requires TypeField(ins) / 2 == 1 && LBit(ins) == 0
    ensures Effect(s, AfterLoadStore(s, ins, stale), StoreRange(s, ins))
  {
    hide Effect, OnlyProcessor, ConditionCode, Offset2, Address2, WrittenBack, State.WithReg,
      State.Reg, State.UsrReg, TypeField, BBit, LBit, PBit, WBit, Rd, Rn, PutWord, PutByte;
    UnchangedRegisters(s);
    ProcessorEffect(s, s, StoreRange(s, ins));
    var addr, base, r := Address2(s, ins), s.Reg(Rn(ins)), StoreRange(s, ins);
    var v, u := s.Reg(Rd(ins)), s.UsrReg(Rd(ins));
    if !s.Passed(ins) {
    } else if IsTranslated(ins) && BBit(ins) == 1 {
      var t := s.WithByte(base, u % 0x100);
      PutByteEffect(s, base, u % 0x100);
      StoreThenRegister(s, t.bytes, Rn(ins), Offset2(t, ins), r);
    } else if IsTranslated(ins) {
      var t := s.WithWord(base, u);
      PutWordEffect(s, base, u);
      StoreThenRegister(s, t.bytes, Rn(ins), Offset2(t, ins), r);
    } else if BBit(ins) == 1 {
      var t := s.WithByte(addr, v % 0x100);
      PutByteEffect(s, addr, v % 0x100);
      StoreThenWriteBack(s, t.bytes, ins, addr, Offset2(t, ins), r);
    } else {
      var t := s.WithWord(addr, v);
      PutWordEffect(s, addr, v);
      StoreThenWriteBack(s, t.bytes, ins, addr, Offset2(t, ins), r);
    }
  }

  lemma ExtraLoadEffect(s: State, ins: word, stale: byte, r: Range)
    requires LBit(ins) == 1 || Bit5(ins) == 0
    ensures Effect(s, AfterLoadStoreExtra(s, ins, stale), r)
  {
    hide Effect, OnlyProcessor, ConditionCode, Offset3, Address3, WrittenBack, State.WithReg, State.Half, State.Byte,
      State.Word, TypeField, Bit4, Bit5, Bit6, Bit7, LBit, Rd, SignExtendByte, SignExtendHalf, IsPairBase;
    UnchangedRegisters(s);
    ProcessorEffect(s, s, r);
    var addr := Address3(s, ins);
    forall v: word
      ensures Effect(s, WrittenBack3(s.WithReg(Rd(ins), v), ins, addr), r)
    {
      var t := s.WithReg(Rd(ins), v);
      WithRegOnly(s, Rd(ins), v);
      RegistersAreProcessor(s, t);
      LoadEffect(s, t, ins, addr, Offset3(t, ins), r);
    }
    if IsPairBase(Rd(ins)) {
      PairFits(Rd(ins));
      var v, w := s.Word(addr), s.Word(Add(addr, 4));
      var t := s.WithReg(Rd(ins), v).WithReg(Rd(ins) + 1, w);
      TwoRegistersOnly(s, Rd(ins), v, Rd(ins) + 1, w, false);
      LoadEffect(s, t, ins, addr, Offset3(t, ins), r);
      LoadEffect(s, s, ins, addr, Offset3(s, ins), r);
    }
  }

  lemma PairFits(r: RegNo)
    requires IsPairBase(r)
    ensures r + 1 < 16
  {
  }

  lemma ExtraStoreEffect(s: State, ins: word, stale: byte)
    requires TypeField(ins) == 0 && Bit7(ins) == 1 && Bit4(ins) == 1 && LBit(ins) == 0 && Bit5(ins) == 1
    ensures Effect(s, AfterLoadStoreExtra(s, ins, stale), StoreRange(s, ins))
  {
    hide Effect, OnlyProcessor, ConditionCode, Offset3, Address3, WrittenBack, State.Reg, TypeField, Bit4, Bit5, Bit6,
      Bit7, LBit, Rd, IsPairBase, PutWord, PutHalf, Add;
    var addr, r := Address3(s, ins), StoreRange(s, ins);
    UnchangedRegisters(s);
    ProcessorEffect(s, s, r);
    LoadEffect(s, s, ins, addr, Offset3(s, ins), r);
    if Bit6(ins) == 0 {
      var t := s.WithHalf(addr, s.Reg(Rd(ins)) % 0x1_0000);
      PutHalfEffect(s, addr, s.Reg(Rd(ins)) % 0x1_0000);
      if s.Passed(ins) && addr % 2 == 0 {
        StoreThenWriteBack(s, t.bytes, ins, addr, Offset3(t, ins), r);
      }
    } else if IsPairBase(Rd(ins)) {
      PairFits(Rd(ins));
      var v, w := s.Reg(Rd(ins)), s.Reg(Rd(ins) + 1);
      var t := s.WithWord(addr, v).WithWord(Add(addr, 4), w);
      PutPairEffect(s, addr, v, w);
      if s.Passed(ins) && addr % 8 == 0 {
        StoreThenWriteBack(s, t.bytes, ins, addr, Offset3(t, ins), r);
      }
    }
  }

  lemma {:induction false} LoadedUpToOnly(s: State, ins: word, start: word, n: nat, usr: bool)
    requires n <= 15
    ensures OnlyRegisters(s, LoadedUpTo(s, ins, start, n, usr))
  {
    hide OnlyRegisters, State.WithReg, State.WithUsrReg, State.Word, Listed, SlotAddress;
    UnchangedRegisters(s);
    if n > 0 {
      LoadedUpToOnly(s, ins, start, n - 1, usr);
      var t, v := LoadedUpTo(s, ins, start, n - 1, usr), s.Word(SlotAddress(ins, start, n - 1));
      WithRegOnly(t, n - 1, v);
      OnlyRegistersThen(s, t, t.WithReg(n - 1, v));
      OnlyRegistersThen(s, t, t.WithUsrReg(n - 1, v));
    }
  }

  lemma ClosedOnly(t: State, ins: word, next: word)
    ensures OnlyRegisters(t, Closed(t, ins, next))
  {
    hide OnlyRegisters, State.WithReg, EndsAt;
    UnchangedRegisters(t);
    WithRegOnly(t, Rn(ins), Add(t.Reg(Rn(ins)), 4 * ListSize(ins)));
  }

  lemma LdmOnly(s: State, ins: word)
    ensures OnlyProcessor(s, AfterLdm1(s, ins)) && OnlyProcessor(s, AfterLdm2(s, ins))
    ensures OnlyProcessor(s, AfterLdm3(s, ins))
  {
    hide OnlyProcessor, OnlyRegisters, ConditionCode, LoadedUpTo, Closed, State.Word, SlotAddress, StartAddress, Listed,
      State.PcLoaded, State.SpsrRestored, State.WithReg, Add;
    UnchangedRegisters(s);
    var start := StartAddress(s, ins);
    var t, u := LoadedUpTo(s, ins, start, 15, false), LoadedUpTo(s, ins, start, 15, true);
    LoadedUpToOnly(s, ins, start, 15, false);
    LoadedUpToOnly(s, ins, start, 15, true);
    UnchangedRegisters(t);
    UnchangedRegisters(u);
    var v := s.Word(SlotAddress(ins, start, 15));
    var t1, next1 := Ldm1Loaded(s, ins), SlotAddress(ins, start, 16);
    PcLoadedOnly(t, v);
    ClosedOnly(t1, ins, next1);
    Sandwich(s, t, t1, Closed(t1, ins, next1));
    var next2 := SlotAddress(ins, start, 15);
    ClosedOnly(u, ins, next2);
    Sandwich(s, u, u, Closed(u, ins, next2));
    var r := t.SpsrRestored();
    RestoreOnly(t);
    WithRegOnly(r, 15, v);
    var t3 := r.WithReg(15, v);
    ClosedOnly(t3, ins, Add(next2, 4));
    OnlyRegistersThen(r, t3, Closed(t3, ins, Add(next2, 4)));
    Sandwich(s, t, r, Closed(t3, ins, Add(next2, 4)));
  }

  lemma BlockTransferEffect(s: State, ins: word)
    requires TypeField(ins) == 4
    ensures Effect(s, AfterLoadStoreMultiple(s, ins), StoreRange(s, ins))
  {
    hide Effect, OnlyProcessor, OnlyRegisters, ConditionCode, AfterLdm1, AfterLdm2, AfterLdm3, Listed, BBit, LBit, WBit,
      StartAddress, StoredUpTo, Closed, TypeField;
    var r := StoreRange(s, ins);
    UnchangedRegisters(s);
    ProcessorEffect(s, s, r);
    LdmOnly(s, ins);
    ProcessorEffect(s, AfterLdm1(s, ins), r);
    ProcessorEffect(s, AfterLdm2(s, ins), r);
    ProcessorEffect(s, AfterLdm3(s, ins), r);
    if s.Passed(ins) && LBit(ins) == 0 && (BBit(ins) == 0 || WBit(ins) == 0) {
      var usr := BBit(ins) == 1;
      var t, next := StmStored(s, ins, usr), Add(StartAddress(s, ins), 64);
      StoredUpToEffect(s, StartAddress(s, ins), 16, usr);
      ClosedOnly(t, ins, next);
      RegistersAreProcessor(t, Closed(t, ins, next));
      StoreEffect(s, t.bytes, Closed(t, ins, next), r);
    }
  }

  lemma BranchesOnly(s: State, ins: word)
    ensures OnlyProcessor(s, AfterBranch(s, ins)) && OnlyProcessor(s, AfterBranchMisc(s, ins))
    ensures OnlyProcessor(s, AfterMiscellaneous(s, ins))
  {
    hide BranchOffset, SetT, State.Reg, ConditionCode, TypeField, PBit, BBit, Add, Sub, SpsrIn, Rm, Rd;
    SetTControl(s.Cpsr(), 1);
    SetTControl(s.Cpsr(), s.Reg(Rm(ins)) % 2);
  }

  /** One instruction changes general registers, flags, perhaps the mode, and bytes of its store range only. */
  lemma InstructionEffect(s: State, ins: word, stale: byte)
    ensures Effect(s, AfterInstruction(s, ins, stale), StoreRange(s, ins))
  {
    hide Effect, OnlyProcessor, AfterDataProcessing, AfterLoadStore, AfterLoadStoreExtra, AfterLoadStoreMultiple,
      AfterBranch, AfterBranchMisc, AfterMiscellaneous, StoreRange, Bit7, Bit4, PBit, UBit, LBit, Bit5, TypeField;
    var r := StoreRange(s, ins);
    TypeRange(ins);
    UnchangedRegisters(s);
    ProcessorEffect(s, s, r);
    DataProcessingOnly(s, ins);
    ProcessorEffect(s, AfterDataProcessing(s, ins), r);
    BranchesOnly(s, ins);
    ProcessorEffect(s, AfterBranch(s, ins), r);
    ProcessorEffect(s, AfterBranchMisc(s, ins), r);
    ProcessorEffect(s, AfterMiscellaneous(s, ins), r);
    if TypeField(ins) == 0 && Bit7(ins) == 1 && Bit4(ins) == 1 {
      if LBit(ins) == 1 || Bit5(ins) == 0 {
        ExtraLoadEffect(s, ins, stale, r);
      } else {
        ExtraStoreEffect(s, ins, stale);
      }
    } else if TypeField(ins) == 4 {
      BlockTransferEffect(s, ins);
    } else if TypeField(ins) / 2 == 1 {
      if LBit(ins) == 1 {
        LoadInstructionEffect(s, ins, stale, r);
      } else {
        StoreInstructionEffect(s, ins, stale);
      }
    }
  }

  lemma TypeRange(ins: word)
    ensures 0 <= TypeField(ins) < 8
    ensures LBit(ins) != 1 ==> LBit(ins) == 0
    ensures Bit5(ins) != 0 ==> Bit5(ins) == 1
  {
  }

  // ---- Steps and runs ----

  /** The bytes that the next step may write. */
  function StepRange(s: State): Range { StoreRange(s.Fetched(), NextWord(s)) }

  /** A step writes at most one contiguous range of 0, 1, 2, 4, 8 or 64 bytes, and only for a passed store. */
  lemma StepFootprint(s: State, stale: byte)
    ensures var t := Step(s, stale).state;
            && t.bytes.Keys == s.bytes.Keys
            && forall a | a in s.bytes && !StepRange(s).Covers(a) :: t.bytes[a] == s.bytes[a]
    ensures StepRange(s).size in {0, 1, 2, 4, 8, 64}
    ensures StepRange(s).size > 0 ==> s.Passed(NextWord(s)) && IsStore(NextWord(s))
  {
    hide AfterInstruction, NextWord, StoreRange, Halts, State.FetchAddress, Range.Covers, ConditionCode, IsStore;
    InstructionEffect(s.Fetched(), NextWord(s), stale);
    RangeKinds(s.Fetched(), NextWord(s));
  }

  lemma RangeKinds(s: State, ins: word)
    ensures StoreRange(s, ins).size in {0, 1, 2, 4, 8, 64}
    ensures StoreRange(s, ins).size > 0 ==> s.Passed(ins) && IsStore(ins)
  {
    TypeRange(ins);
    hide ConditionCode, TypeField, Address2, Address3, StartAddress, State.Reg, LBit, BBit, WBit, PBit, Bit7, Bit6,
      Bit5, Bit4, Rd;
  }

  /** No step writes an SPSR, and the mode stays or moves along the one map RestoredMode. */
  lemma StepMode(s: State, stale: byte)
    ensures var t := Step(s, stale).state;
            SpsrsKept(s, t) && (t.Mode() == s.Mode() || t.Mode() == RestoredMode(s.cells, s.Mode()))
  {
    hide AfterInstruction, NextWord, StoreRange, Halts, State.FetchAddress, Range.Covers, ModeOf;
    var f, ins := s.Fetched(), NextWord(s);
    InstructionEffect(f, ins, stale);
    FetchedOnly(s);
    if !Halts(ins) {
      ProcessorMode(f, AfterInstruction(f, ins, stale).(bytes := f.bytes));
    }
  }

  lemma FetchedOnly(s: State)
    ensures SpsrsKept(s, s.Fetched()) && s.Fetched().Cpsr() == s.Cpsr() && s.Fetched().bytes == s.bytes
    ensures forall m: nat :: RestoredMode(s.cells, m) == RestoredMode(s.Fetched().cells, m)
  {
    hide ModeOf, State.FetchAddress;
    SpsrsSame(s, s.Fetched());
  }

  /** Every step of the run leaves the region out of its store range. */
  ghost predicate Misses(s: State, stales: seq<byte>, region: set<word>)
    decreases |stales|
  {
    hide Step, StepRange;
    stales == [] ||
    (&& (forall a | a in region :: !StepRange(s).Covers(a))
     && (Step(s, stales[0]).Running? ==> Misses(Step(s, stales[0]).state, stales[1..], region)))
  }

  /** Bytes that no store of a run covers are constant over the run; memory never grows or shrinks. */
  lemma {:induction false} RegionConstant(s: State, stales: seq<byte>, region: set<word>)
    requires Misses(s, stales, region)
    ensures var t := Run(s, stales).state;
            t.bytes.Keys == s.bytes.Keys && forall a | a in s.bytes && a in region :: t.bytes[a] == s.bytes[a]
    decreases |stales|
  {
    hide Step, StepRange, Range.Covers;
    if stales != [] {
      StepFootprint(s, stales[0]);
      if Step(s, stales[0]).Running? {
        RegionConstant(Step(s, stales[0]).state, stales[1..], region);
      }
    }
  }

  /** The mode after k restores. */
  function ModePath(cells: Cells, m: nat, k: nat): nat
    decreases k
  {
    if k == 0 then m else ModePath(cells, RestoredMode(cells, m), k - 1)
  }

  /** The state after n steps, or the last one if the program exits before. */
  function StateAt(s: State, stales: seq<byte>, n: nat): State
    requires n <= |stales|
  {
    Run(s, stales[..n]).state
  }

  /** Positions that start at 0 and move on by at most one at each step. */
  predicate Stutters(ks: seq<nat>)
  {
    ks != [] && ks[0] == 0 && forall i :: 0 <= i < |ks| - 1 ==> ks[i + 1] == ks[i] || ks[i + 1] == ks[i] + 1
  }

  /**
   * Over any run the SPSRs are constant and the modes are a stuttering walk along one path fixed at the start: after i
   * steps the mode is the ks[i]-th of the path.
   */
  lemma {:induction false} RunFollowsModePath(s: State, stales: seq<byte>) returns (ks: seq<nat>)
    ensures |ks| == |stales| + 1 && Stutters(ks)
    ensures forall i: nat | i <= |stales| ::
              var t := StateAt(s, stales, i); SpsrsKept(s, t) && t.Mode() == ModePath(s.cells, s.Mode(), ks[i])
    decreases |stales|
  {
    hide Step, ModeOf, RestoredMode;
    ks := [0];
    if stales != [] {
      var x, rest := stales[0], stales[1..];
      var t := Step(s, x).state;
      StepMode(s, x);
      SpsrsSame(s, t);
      var later := seq(|stales|, _ => 0);
      if Step(s, x).Running? {
        later := RunFollowsModePath(t, rest);
      }
      var d := if t.Mode() == s.Mode() then 0 else 1;
      ks := [0] + seq(|stales|, i requires 0 <= i < |stales| => later[i] + d);
      forall i: nat | i <= |stales|
        ensures var u := StateAt(s, stales, i); SpsrsKept(s, u) && u.Mode() == ModePath(s.cells, s.Mode(), ks[i])
      {
        if i > 0 {
          assert stales[..i] == [x] + rest[..i - 1];
          RunCons(s, x, rest[..i - 1]);
          PathFrom(s.cells, t.cells, t.Mode(), later[i - 1]);
        }
      }
    }
  }

  lemma {:induction false} PathFrom(c: Cells, d: Cells, m: nat, k: nat)
    requires forall i: nat :: RestoredMode(c, i) == RestoredMode(d, i)
    ensures ModePath(c, m, k) == ModePath(d, m, k)
    decreases k
  {
    hide RestoredMode;
    if k > 0 {
      PathFrom(c, d, RestoredMode(c, m), k - 1);
    }
  }

  /** A mode without an SPSR cell restores to SYS, except user mode, which stays; SYS stays too. */
  lemma ModesWithoutSpsr(cells: Cells, m: nat)
    requires SpsrCellOf(m) == 37
    ensures RestoredMode(cells, m) == if m == 0x10 then 0x10 else 0x1F
  {
  }

  /** Position along the path that starts in supervisor mode with zero SPSRs; 3 for modes off it. */
  function SvcPathRank(m: nat): nat
  {
    if m == 0x13 then 0 else if m == 0 then 1 else if m == 0x1F then 2 else 3
  }

  ghost predicate ZeroSpsrs(s: State) { forall i :: 32 <= i < 37 ==> s.cells[i] == 0 }

  /** With zero SPSRs, a machine in SVC, mode 0 or SYS only ever moves forward through those three. */
  lemma {:induction false} RunFromSvc(s: State, stales: seq<byte>)
    requires ZeroSpsrs(s) && SvcPathRank(s.Mode()) < 3
    ensures var t := Run(s, stales).state;
            ZeroSpsrs(t) && SvcPathRank(s.Mode()) <= SvcPathRank(t.Mode()) < 3
    decreases |stales|
  {
    hide Step, ModeOf;
    if stales != [] {
      var t := Step(s, stales[0]).state;
      StepMode(s, stales[0]);
      SpsrsZero(s, t);
      ZeroModes(s);
      if Step(s, stales[0]).Running? {
        RunFromSvc(t, stales[1..]);
      }
    }
  }

  lemma SpsrsZero(s: State, t: State)
    requires ZeroSpsrs(s) && SpsrsKept(s, t)
    ensures ZeroSpsrs(t)
  {
    forall i | 32 <= i < 37
      ensures t.cells[i] == 0
    {
      assert t.cells[i] == t.cells[32..][i - 32] == s.cells[32..][i - 32] == s.cells[i];
    }
  }

  lemma ZeroModes(s: State)
    requires ZeroSpsrs(s)
    ensures RestoredMode(s.cells, 0x13) == 0 && RestoredMode(s.cells, 0) == 0x1F && RestoredMode(s.cells, 0x1F) == 0x1F
  {
  }

  /** A run of a + b steps is a run of a steps continued for b, so the claims above hold between any two states. */
  lemma {:induction false} RunSplit(s: State, a: seq<byte>, b: seq<byte>)
    ensures Run(s, a + b) == match Run(s, a) case Halted(t) => Halted(t) case Running(t) => Run(t, b)
    decreases |a|
  {
    hide Step;
    if a == [] {
      assert a + b == b;
    } else {
      assert (a + b)[1..] == a[1..] + b;
      if Step(s, a[0]).Running? {
        RunSplit(Step(s, a[0]).state, a[1..], b);
      }
    }
  }

  lemma RunCons(s: State, x: byte, xs: seq<byte>)
    ensures Run(s, [x] + xs) == if Step(s, x).Halted? then Step(s, x) else Run(Step(s, x).state, xs)
    ensures xs == [] ==> Run(s, [x]) == Step(s, x)
  {
    hide Step;
    assert ([x] + xs)[1..] == xs;
    assert xs == [] ==> [x] + xs == [x];
  }

  // ---- Uninitialised data ----

  /** A passed LDRB, LDRBT or LDRSB from outside the memory loads whatever its local variable held. */
  predicate ReadsStale(s: State, ins: word)
  {
    && s.Passed(ins) && LBit(ins) == 1
    && ((TypeField(ins) / 2 == 1 && BBit(ins) == 1
         && (if IsTranslated(ins) then s.Reg(Rn(ins)) else Address2(s, ins)) !in s.bytes)
        || (IsExtra(ins) && Bit6(ins) == 1 && Bit5(ins) == 0 && Address3(s, ins) !in s.bytes))
  }

  /** Every other instruction is a function of the machine state alone. */
  lemma DeterministicUnlessStale(s: State, ins: word, x: byte, y: byte)
    requires !ReadsStale(s, ins)
    ensures AfterInstruction(s, ins, x) == AfterInstruction(s, ins, y)
  {
    hide ConditionCode, TypeField, PBit, BBit, WBit, LBit, Bit7, Bit6, Bit5, Bit4, Address2, Address3, State.Reg, Rn,
      Rd, WrittenBack2, WrittenBack3, State.WithReg, State.WithUsrReg, AfterTranslated, AfterDataProcessing,
      AfterLoadStoreMultiple, AfterBranch, AfterBranchMisc, AfterMiscellaneous;
  }

  /** No step of the run reads an uninitialised local. */
  ghost predicate NeverReadsStale(s: State, stales: seq<byte>)
    decreases |stales|
  {
    hide Step, ReadsStale;
    stales == [] ||
    (&& !ReadsStale(s.Fetched(), NextWord(s))
     && (Step(s, stales[0]).Running? ==> NeverReadsStale(Step(s, stales[0]).state, stales[1..])))
  }

  /** A run that never loads a byte from outside the memory is a function of its first state and its length. */
  lemma {:induction false} RunDeterministic(s: State, xs: seq<byte>, ys: seq<byte>)
    requires |xs| == |ys| && NeverReadsStale(s, xs)
    ensures Run(s, xs) == Run(s, ys)
    decreases |xs|
  {
    hide AfterInstruction, ReadsStale, NextWord, Halts, State.Fetched;
    if xs != [] {
      DeterministicUnlessStale(s.Fetched(), NextWord(s), xs[0], ys[0]);
      if Step(s, xs[0]).Running? {
        RunDeterministic(Step(s, xs[0]).state, xs[1..], ys[1..]);
      }
    }
  }
}
