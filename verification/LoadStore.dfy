/** arm_load_store.c, single and double transfers: addressing modes 2 and 3, the fourteen handlers, the dispatchers. */
module LoadStore {
  import opened Words
  import opened Encoding
  import opened Core
  import Shifter

  // ---- What the instructions do to the state ----

  /** The offset of addressing mode 2: an immediate, a register, or a shifted register. */
  function Index2(s: State, ins: word): word
  {
    if IsImmediateOffset(ins) then Offset12(ins)
    else if IsRegisterOffset(ins) then s.Reg(Rm(ins))
    else Shifter.ScaledIndex(ShiftType(ins), s.Reg(Rm(ins)), ShiftImm(ins), FlagC(s.Cpsr()))
  }

  /** The offset of addressing mode 3: an 8-bit immediate or a register. */
  function Index3(s: State, ins: word): word
  {
    if BBit(ins) == 1 then Offset8(ins) else s.Reg(Rm(ins))
  }

  /** The base plus or minus an index, as the U bit says. */
  function Offset(s: State, ins: word, index: word): word
  {
    if UBit(ins) == 1 then Add(s.Reg(Rn(ins)), index) else Sub(s.Reg(Rn(ins)), index)
  }

  function Offset2(s: State, ins: word): word { Offset(s, ins, Index2(s, ins)) }

  function Offset3(s: State, ins: word): word { Offset(s, ins, Index3(s, ins)) }

  /** The access address; 0 for P = 0 and W = 1, which addressing mode 3 does not define. */
  function Address(s: State, ins: word, indexed: word): word
  {
    if IsNormalIndexed(ins) || IsPreIndexed(ins) then indexed
    else if IsPostIndexed(ins) then s.Reg(Rn(ins))
    else 0
  }

  function Address2(s: State, ins: word): word { Address(s, ins, Offset2(s, ins)) }

  function Address3(s: State, ins: word): word { Address(s, ins, Offset3(s, ins)) }

  /** Base writeback: the access address when pre-indexed, the recomputed offset address when post-indexed. */
  function WrittenBack(s: State, ins: word, addr: word, indexed: word): State
  {
    if IsPreIndexed(ins) then s.WithReg(Rn(ins), addr)
    else if IsPostIndexed(ins) then s.WithReg(Rn(ins), indexed)
    else s
  }

  function WrittenBack2(s: State, ins: word, addr: word): State { WrittenBack(s, ins, addr, Offset2(s, ins)) }

  function WrittenBack3(s: State, ins: word, addr: word): State { WrittenBack(s, ins, addr, Offset3(s, ins)) }

  function WithLoaded(s: State, r: RegNo, data: word): State
  {
    if r == 15 then s.PcLoaded(data) else s.WithReg(r, data)
  }

  function AfterLoadWord(s: State, ins: word): State
  {
    if !s.Passed(ins) then s else
    var addr := Address2(s, ins);
    WrittenBack2(WithLoaded(s, Rd(ins), s.Word(addr)), ins, addr)
  }

  function AfterLoadByte(s: State, ins: word, stale: byte): State
  {
    if !s.Passed(ins) then s else
    var addr := Address2(s, ins);
    WrittenBack2(s.WithReg(Rd(ins), s.Byte(addr, stale)), ins, addr)
  }

  function AfterStoreWord(s: State, ins: word): State
  {
    if !s.Passed(ins) then s else
    var addr := Address2(s, ins);
    WrittenBack2(s.WithWord(addr, s.Reg(Rd(ins))), ins, addr)
  }

  function AfterStoreByte(s: State, ins: word): State
  {
    if !s.Passed(ins) then s else
    var addr := Address2(s, ins);
    WrittenBack2(s.WithByte(addr, s.Reg(Rd(ins)) % 0x100), ins, addr)
  }

  /** The user-mode forms always address the base and always write the offset address back. */
  function AfterTranslated(s: State, ins: word): State { s.WithReg(Rn(ins), Offset2(s, ins)) }

  function AfterLoadWordTrans(s: State, ins: word): State
  {
    if !IsTranslated(ins) || !s.Passed(ins) then s
    else AfterTranslated(s.WithUsrReg(Rd(ins), s.Word(s.Reg(Rn(ins)))), ins)
  }

  function AfterLoadByteTrans(s: State, ins: word, stale: byte): State
  {
    if !IsTranslated(ins) || !s.Passed(ins) then s
    else AfterTranslated(s.WithUsrReg(Rd(ins), s.Byte(s.Reg(Rn(ins)), stale)), ins)
  }

  function AfterStoreWordTrans(s: State, ins: word): State
  {
    if !IsTranslated(ins) || !s.Passed(ins) then s
    else AfterTranslated(s.WithWord(s.Reg(Rn(ins)), s.UsrReg(Rd(ins))), ins)
  }

  function AfterStoreByteTrans(s: State, ins: word): State
  {
    if !IsTranslated(ins) || !s.Passed(ins) then s
    else AfterTranslated(s.WithByte(s.Reg(Rn(ins)), s.UsrReg(Rd(ins)) % 0x100), ins)
  }

  /** An even register with a successor other than R15. */
  predicate IsPairBase(r: RegNo)
    ensures IsPairBase(r) ==> r + 1 < 16
  {
    r % 2 == 0 && r != 14
  }

  function AfterLoadDoubleWord(s: State, ins: word): State
  {
    hide ConditionCode, Rd, Address3, State.Word, Add, State.WithReg, WrittenBack3;
    if !s.Passed(ins) || !IsPairBase(Rd(ins)) then s else
    var addr := Address3(s, ins);
    var t := if addr % 8 == 0
             then s.WithReg(Rd(ins), s.Word(addr)).WithReg(Rd(ins) + 1, s.Word(Add(addr, 4)))
             else s;
    WrittenBack3(t, ins, addr)
  }

  function AfterStoreDoubleWord(s: State, ins: word): State
  {
    hide ConditionCode, Rd, Address3, State.Reg, Add, State.WithWord, WrittenBack3;
    if !s.Passed(ins) || !IsPairBase(Rd(ins)) then s else
    var addr := Address3(s, ins);
    var t := if addr % 8 == 0
             then s.WithWord(addr, s.Reg(Rd(ins))).WithWord(Add(addr, 4), s.Reg(Rd(ins) + 1))
             else s;
    WrittenBack3(t, ins, addr)
  }

  function SignExtendByte(v: byte): word { if v < 0x80 then v else v + 0xFFFF_FF00 }

  function SignExtendHalf(v: half): word { if v < 0x8000 then v else v + 0xFFFF_0000 }

  function AfterLoadHalf(s: State, ins: word): State
  {
    var addr := Address3(s, ins);
    if !s.Passed(ins) || addr % 2 == 1 then s
    else WrittenBack3(s.WithReg(Rd(ins), s.Half(addr)), ins, addr)
  }

  function AfterLoadSignedByte(s: State, ins: word, stale: byte): State
  {
    if !s.Passed(ins) then s else
    var addr := Address3(s, ins);
    WrittenBack3(s.WithReg(Rd(ins), SignExtendByte(s.Byte(addr, stale))), ins, addr)
  }

  function AfterLoadSignedHalf(s: State, ins: word): State
  {
    var addr := Address3(s, ins);
    if !s.Passed(ins) || addr % 2 == 1 then s
    else WrittenBack3(s.WithReg(Rd(ins), SignExtendHalf(s.Half(addr))), ins, addr)
  }

  function AfterStoreHalf(s: State, ins: word): State
  {
    var addr := Address3(s, ins);
    if !s.Passed(ins) || addr % 2 == 1 then s
    else WrittenBack3(s.WithHalf(addr, s.Reg(Rd(ins)) % 0x1_0000), ins, addr)
  }

  function AfterLoadStore(s: State, ins: word, stale: byte): State
  {
    if TypeField(ins) / 2 != 1 then s
    else if BBit(ins) == 1 && LBit(ins) == 1 then
      if IsTranslated(ins) then AfterLoadByteTrans(s, ins, stale) else AfterLoadByte(s, ins, stale)
    else if BBit(ins) == 1 then
      if IsTranslated(ins) then AfterStoreByteTrans(s, ins) else AfterStoreByte(s, ins)
    else if LBit(ins) == 1 then
      if IsTranslated(ins) then AfterLoadWordTrans(s, ins) else AfterLoadWord(s, ins)
    else
      if IsTranslated(ins) then AfterStoreWordTrans(s, ins) else AfterStoreWord(s, ins)
  }

  function AfterLoadStoreExtra(s: State, ins: word, stale: byte): State
  {
    if TypeField(ins) != 0 || Bit7(ins) == 0 || Bit4(ins) == 0 then s
    else if LBit(ins) == 0 then
      if Bit6(ins) == 1 && Bit5(ins) == 0 then AfterLoadDoubleWord(s, ins)
      else if Bit6(ins) == 1 then AfterStoreDoubleWord(s, ins)
      else if Bit5(ins) == 1 then AfterStoreHalf(s, ins)
      else s
    else
      if Bit6(ins) == 0 && Bit5(ins) == 1 then AfterLoadHalf(s, ins)
      else if Bit6(ins) == 1 && Bit5(ins) == 0 then AfterLoadSignedByte(s, ins, stale)
      else if Bit6(ins) == 1 then AfterLoadSignedHalf(s, ins)
      else s
  }

  // ---- Addressing mode 2 ----

  function AddrImmOffset(p: ArmCore, ins: word): word
    requires p.Valid()
    reads p.Footprint()
    ensures AddrImmOffset(p, ins) == Offset(p.Abs(), ins, Offset12(ins))
  {
    if UBit(ins) == 1 then Add(p.ReadRegister(Rn(ins)), Offset12(ins))
    else Sub(p.ReadRegister(Rn(ins)), Offset12(ins))
  }

  function AddrRegOffset(p: ArmCore, ins: word): word
    requires p.Valid()
    reads p.Footprint()
    ensures AddrRegOffset(p, ins) == Offset(p.Abs(), ins, p.Abs().Reg(Rm(ins)))
  {
    if UBit(ins) == 1 then Add(p.ReadRegister(Rn(ins)), p.ReadRegister(Rm(ins)))
    else Sub(p.ReadRegister(Rn(ins)), p.ReadRegister(Rm(ins)))
  }

  function AddrScaOffset(p: ArmCore, ins: word): word
    requires p.Valid()
    reads p.Footprint()
    ensures AddrScaOffset(p, ins) == Offset(p.Abs(), ins,
              Shifter.ScaledIndex(ShiftType(ins), p.Abs().Reg(Rm(ins)), ShiftImm(ins), FlagC(p.Abs().Cpsr())))
  {
    var index := Shifter.ScaledIndex(ShiftType(ins), p.ReadRegister(Rm(ins)), ShiftImm(ins), FlagC(p.ReadCpsr()));
    if UBit(ins) == 1 then Add(p.ReadRegister(Rn(ins)), index)
    else Sub(p.ReadRegister(Rn(ins)), index)
  }

  /** The offset address, by the form of the offset. */
  function AddrOffset(p: ArmCore, ins: word): word
    requires p.Valid()
    reads p.Footprint()
    ensures AddrOffset(p, ins) == Offset2(p.Abs(), ins)
  {
    if IsImmediateOffset(ins) then AddrImmOffset(p, ins)
    else if IsRegisterOffset(ins) then AddrRegOffset(p, ins)
    else AddrScaOffset(p, ins)
  }

  function GetAddrByOffset(p: ArmCore, ins: word): word
    requires p.Valid()
    reads p.Footprint()
    ensures GetAddrByOffset(p, ins) == Address2(p.Abs(), ins)
  {
    if IsNormalIndexed(ins) then AddrOffset(p, ins)
    else if IsPreIndexed(ins) then AddrOffset(p, ins)
    else if IsPostIndexed(ins) then p.ReadRegister(Rn(ins))
    else 0
  }

  method RefreshRnByOffset(p: ArmCore, ins: word, addr: word)
    requires p.Valid()
    modifies p.Footprint()
    ensures p.Valid()
    ensures p.Abs() == if old(p.Abs()).Passed(ins) then WrittenBack2(old(p.Abs()), ins, addr) else old(p.Abs())
  {
    if p.ConditionPassed(ins) != 0 {
      if IsPreIndexed(ins) {
        p.WriteRegister(Rn(ins), addr);
      } else if IsPostIndexed(ins) {
        p.WriteRegister(Rn(ins), AddrOffset(p, ins));
      }
    }
  }

  // ---- Addressing mode 3 ----

  function MiscImmOffset(p: ArmCore, ins: word): word
    requires p.Valid()
    reads p.Footprint()
    ensures MiscImmOffset(p, ins) == Offset(p.Abs(), ins, Offset8(ins))
  {
    if UBit(ins) == 1 then Add(p.ReadRegister(Rn(ins)), Offset8(ins))
    else Sub(p.ReadRegister(Rn(ins)), Offset8(ins))
  }

  function MiscRegOffset(p: ArmCore, ins: word): word
    requires p.Valid()
    reads p.Footprint()
    ensures MiscRegOffset(p, ins) == Offset(p.Abs(), ins, p.Abs().Reg(Rm(ins)))
  {
    if UBit(ins) == 1 then Add(p.ReadRegister(Rn(ins)), p.ReadRegister(Rm(ins)))
    else Sub(p.ReadRegister(Rn(ins)), p.ReadRegister(Rm(ins)))
  }

  function MiscOffset(p: ArmCore, ins: word): word
    requires p.Valid()
    reads p.Footprint()
    ensures MiscOffset(p, ins) == Offset3(p.Abs(), ins)
  {
    if BBit(ins) == 1 then MiscImmOffset(p, ins) else MiscRegOffset(p, ins)
  }

  function GetMiscAddrByOffset(p: ArmCore, ins: word): word
    requires p.Valid()
    reads p.Footprint()
    ensures GetMiscAddrByOffset(p, ins) == Address3(p.Abs(), ins)
  {
    if IsNormalIndexed(ins) then MiscOffset(p, ins)
    else if IsPreIndexed(ins) then MiscOffset(p, ins)
    else if IsPostIndexed(ins) then p.ReadRegister(Rn(ins))
    else 0
  }

  method RefreshMiscRnByOffset(p: ArmCore, ins: word, addr: word)
    requires p.Valid()
    modifies p.Footprint()
    ensures p.Valid()
    ensures p.Abs() == if old(p.Abs()).Passed(ins) then WrittenBack3(old(p.Abs()), ins, addr) else old(p.Abs())
  {
    if p.ConditionPassed(ins) != 0 {
      if IsPreIndexed(ins) {
        p.WriteRegister(Rn(ins), addr);
      } else if IsPostIndexed(ins) {
        p.WriteRegister(Rn(ins), MiscOffset(p, ins));
      }
    }
  }

  // ---- The handlers ----

  lemma LoadKeepsCondition(s: State, r: RegNo, data: word, ins: word)
    ensures WithLoaded(s, r, data).Passed(ins) == s.Passed(ins)
  {
    if r == 15 {
      SetTKeepsFlags(s.Cpsr(), data % 2);
      FlagsFromNibble(s.Cpsr(), SetT(s.Cpsr(), data % 2));
    }
  }

  /** The R15 case of LDR and LDM: PC = data & 0xFFFFFFFE, T bit = data[0]. */
  method LoadPc(p: ArmCore, data: word)
    requires p.Valid()
    modifies p.Footprint()
    ensures p.Valid() && p.Abs() == old(p.Abs()).PcLoaded(data)
  {
    hide SetT, And, Or;
    MaskBit0(data);
    p.WriteRegister(15, And(data, 0xFFFF_FFFE));
    MaskT(p.ReadCpsr(), data % 2);
    var cpsrModded := Or(And(p.ReadCpsr(), 0xFFFF_FFDF), data % 2 * 0x20);
    p.WriteCpsr(cpsrModded);
  }

  method LoadWord(p: ArmCore, ins: word)
    requires p.Valid()
    modifies p.Footprint()
    ensures p.Valid() && p.Abs() == AfterLoadWord(old(p.Abs()), ins)
  {
    hide Address2, WrittenBack2, ConditionCode, State.PcLoaded, State.Word;
    var addr := GetAddrByOffset(p, ins);
    var rd := Rd(ins);
    if p.ConditionPassed(ins) != 0 {
      var data := p.ReadWord(addr);
      LoadKeepsCondition(p.Abs(), rd, data, ins);
      if rd == 15 {
        LoadPc(p, data);
      } else {
        p.WriteRegister(rd, data);
      }
    }
    RefreshRnByOffset(p, ins, addr);
  }

  method LoadByte(p: ArmCore, ins: word, stale: byte)
    requires p.Valid()
    modifies p.Footprint()
    ensures p.Valid() && p.Abs() == AfterLoadByte(old(p.Abs()), ins, stale)
  {
    hide Address2, WrittenBack2, ConditionCode, State.Byte;
    var addr := GetAddrByOffset(p, ins);
    var rd := Rd(ins);
    if p.ConditionPassed(ins) != 0 {
      var data := p.ReadByte(addr, stale);
      p.WriteRegister(rd, data);
    }
    RefreshRnByOffset(p, ins, addr);
  }

  method LoadByteTrans(p: ArmCore, ins: word, stale: byte)
    requires p.Valid()
    modifies p.Footprint()
    ensures p.Valid() && p.Abs() == AfterLoadByteTrans(old(p.Abs()), ins, stale)
  {
    hide Offset2, ConditionCode, State.Byte;
    if PBit(ins) != 0 || WBit(ins) != 1 {
      return;
    }
    var addr := p.ReadRegister(Rn(ins));
    var rd := Rd(ins);
    if p.ConditionPassed(ins) != 0 {
      var data := p.ReadByte(addr, stale);
      p.WriteUsrRegister(rd, data);
    }
    if p.ConditionPassed(ins) != 0 {
      p.WriteRegister(Rn(ins), AddrOffset(p, ins));
    }
  }

  method LoadWordTrans(p: ArmCore, ins: word)
    requires p.Valid()
    modifies p.Footprint()
    ensures p.Valid() && p.Abs() == AfterLoadWordTrans(old(p.Abs()), ins)
  {
    hide Offset2, ConditionCode, State.Word;
    if PBit(ins) != 0 || WBit(ins) != 1 {
      return;
    }
    var addr := p.ReadRegister(Rn(ins));
    var rd := Rd(ins);
    if p.ConditionPassed(ins) != 0 {
      var data := p.ReadWord(addr);
      p.WriteUsrRegister(rd, data);
    }
    if p.ConditionPassed(ins) != 0 {
      p.WriteRegister(Rn(ins), AddrOffset(p, ins));
    }
  }

  method StoreWord(p: ArmCore, ins: word)
    requires p.Valid()
    modifies p.Footprint()
    ensures p.Valid() && p.Abs() == AfterStoreWord(old(p.Abs()), ins)
  {
    hide Address2, WrittenBack2, ConditionCode;
    var addr := GetAddrByOffset(p, ins);
    var rd := Rd(ins);
    if p.ConditionPassed(ins) != 0 {
      var data := p.ReadRegister(rd);
      p.WriteWord(addr, data);
    }
    RefreshRnByOffset(p, ins, addr);
  }

  method StoreByte(p: ArmCore, ins: word)
    requires p.Valid()
    modifies p.Footprint()
    ensures p.Valid() && p.Abs() == AfterStoreByte(old(p.Abs()), ins)
  {
    hide Address2, WrittenBack2, ConditionCode;
    var addr := GetAddrByOffset(p, ins);
    var rd := Rd(ins);
    if p.ConditionPassed(ins) != 0 {
      var data := p.ReadRegister(rd) % 0x100;
      p.WriteByte(addr, data);
    }
    RefreshRnByOffset(p, ins, addr);
  }

  method StoreByteTrans(p: ArmCore, ins: word)
    requires p.Valid()
    modifies p.Footprint()
    ensures p.Valid() && p.Abs() == AfterStoreByteTrans(old(p.Abs()), ins)
  {
    hide Offset2, ConditionCode;
    if PBit(ins) != 0 || WBit(ins) != 1 {
      return;
    }
    var addr := p.ReadRegister(Rn(ins));
    var rd := Rd(ins);
    if p.ConditionPassed(ins) != 0 {
      var data := p.ReadUsrRegister(rd) % 0x100;
      p.WriteByte(addr, data);
    }
    if p.ConditionPassed(ins) != 0 {
      p.WriteRegister(Rn(ins), AddrOffset(p, ins));
    }
  }

  method StoreWordTrans(p: ArmCore, ins: word)
    requires p.Valid()
    modifies p.Footprint()
    ensures p.Valid() && p.Abs() == AfterStoreWordTrans(old(p.Abs()), ins)
  {
    hide Offset2, ConditionCode;
    if PBit(ins) != 0 || WBit(ins) != 1 {
      return;
    }
    var addr := p.ReadRegister(Rn(ins));
    var rd := Rd(ins);
    if p.ConditionPassed(ins) != 0 {
      var data := p.ReadUsrRegister(rd);
      p.WriteWord(addr, data);
    }
    if p.ConditionPassed(ins) != 0 {
      p.WriteRegister(Rn(ins), AddrOffset(p, ins));
    }
  }

  method LoadDoubleWord(p: ArmCore, ins: word)
    requires p.Valid()
    modifies p.Footprint()
    ensures p.Valid() && p.Abs() == AfterLoadDoubleWord(old(p.Abs()), ins)
  {
    hide Address3, WrittenBack3, ConditionCode, State.Word, Add;
    var addr := GetMiscAddrByOffset(p, ins);
    var rd := Rd(ins);
    if p.ConditionPassed(ins) != 0 {
      if rd % 2 == 0 && rd != 14 {
        DoubleWordAligned(addr);
        if addr % 4 == 0 && addr / 4 % 2 == 0 {
          var data1 := p.ReadWord(addr);
          var data2 := p.ReadWord(Add(addr, 4));
          p.WriteRegister(rd, data1);
          p.WriteRegister(rd + 1, data2);
        }
      } else {
        return;
      }
    }
    RefreshMiscRnByOffset(p, ins, addr);
  }

  lemma DoubleWordAligned(addr: word)
    ensures addr % 4 == 0 && addr / 4 % 2 == 0 <==> addr % 8 == 0
  {
  }

  method StoreDoubleWord(p: ArmCore, ins: word)
    requires p.Valid()
    modifies p.Footprint()
    ensures p.Valid() && p.Abs() == AfterStoreDoubleWord(old(p.Abs()), ins)
  {
    hide Address3, WrittenBack3, ConditionCode, Add;
    var addr := GetMiscAddrByOffset(p, ins);
    var rd := Rd(ins);
    if p.ConditionPassed(ins) != 0 {
      if rd % 2 == 0 && rd != 14 {
        DoubleWordAligned(addr);
        if addr % 4 == 0 && addr / 4 % 2 == 0 {
          var data1 := p.ReadRegister(rd);
          var data2 := p.ReadRegister(rd + 1);
          p.WriteWord(addr, data1);
          p.WriteWord(Add(addr, 4), data2);
        }
      } else {
        return;
      }
    }
    RefreshMiscRnByOffset(p, ins, addr);
  }

  method LoadHalf(p: ArmCore, ins: word)
    requires p.Valid()
    modifies p.Footprint()
    ensures p.Valid() && p.Abs() == AfterLoadHalf(old(p.Abs()), ins)
  {
    hide Address3, WrittenBack3, ConditionCode, State.Half;
    var addr := GetMiscAddrByOffset(p, ins);
    var rd := Rd(ins);
    if p.ConditionPassed(ins) != 0 {
      if addr % 2 != 0 {
        return;
      }
      var data := p.ReadHalf(addr);
      p.WriteRegister(rd, data);
    }
    RefreshMiscRnByOffset(p, ins, addr);
  }

  /** The masks that extend a sign set the high bytes and leave the low ones. */
  lemma SignBytes(v: byte)
    ensures SignExtendByte(v) == if v / 0x80 % 2 == 0 then v else Or(v, 0xFFFF_FF00)
  {
    Pow2_32();
    hide Bitwise, Pow2;
    BitwiseSplit(OR, 0, v, 0xFF_FFFF, 0, 0x100, 8);
    OrZero(v);
    OrZero(0xFF_FFFF);
  }

  lemma SignHalves(v: half)
    ensures SignExtendHalf(v) == if v / 0x8000 % 2 == 0 then v else Or(v, 0xFFFF_0000)
  {
    Pow2_32();
    hide Bitwise, Pow2;
    BitwiseSplit(OR, 0, v, 0xFFFF, 0, 0x1_0000, 16);
    OrZero(v);
    OrZero(0xFFFF);
  }

  method LoadSignedByte(p: ArmCore, ins: word, stale: byte)
    requires p.Valid()
    modifies p.Footprint()
    ensures p.Valid() && p.Abs() == AfterLoadSignedByte(old(p.Abs()), ins, stale)
  {
    hide Address3, WrittenBack3, ConditionCode, State.Byte, SignExtendByte, Or;
    var addr := GetMiscAddrByOffset(p, ins);
    var rd := Rd(ins);
    if p.ConditionPassed(ins) != 0 {
      var data := p.ReadByte(addr, stale);
      SignBytes(data);
      var data32 := if data / 0x80 % 2 == 0 then data else Or(data, 0xFFFF_FF00);
      p.WriteRegister(rd, data32);
    }
    RefreshMiscRnByOffset(p, ins, addr);
  }

  method LoadSignedHalf(p: ArmCore, ins: word)
    requires p.Valid()
    modifies p.Footprint()
    ensures p.Valid() && p.Abs() == AfterLoadSignedHalf(old(p.Abs()), ins)
  {
    hide Address3, WrittenBack3, ConditionCode, State.Half, SignExtendHalf, Or;
    var addr := GetMiscAddrByOffset(p, ins);
    var rd := Rd(ins);
    if p.ConditionPassed(ins) != 0 {
      if addr % 2 != 0 {
        return;
      }
      var data := p.ReadHalf(addr);
      SignHalves(data);
      var data32 := if data / 0x8000 % 2 == 0 then data else Or(data, 0xFFFF_0000);
      p.WriteRegister(rd, data32);
    }
    RefreshMiscRnByOffset(p, ins, addr);
  }

  method StoreHalf(p: ArmCore, ins: word)
    requires p.Valid()
    modifies p.Footprint()
    ensures p.Valid() && p.Abs() == AfterStoreHalf(old(p.Abs()), ins)
  {
    hide Address3, WrittenBack3, ConditionCode;
    var addr := GetMiscAddrByOffset(p, ins);
    var rd := Rd(ins);
    if p.ConditionPassed(ins) != 0 {
      if addr % 2 != 0 {
        return;
      }
      var data := p.ReadRegister(rd) % 0x1_0000;
      p.WriteHalf(addr, data);
    }
    RefreshMiscRnByOffset(p, ins, addr);
  }

  // ---- The dispatchers ----

  method ArmLoadStore(p: ArmCore, ins: word, stale: byte)
    requires p.Valid()
    modifies p.Footprint()
    ensures p.Valid() && p.Abs() == AfterLoadStore(old(p.Abs()), ins, stale)
  {
    hide AfterLoadByte, AfterLoadByteTrans, AfterStoreByte, AfterStoreByteTrans, AfterLoadWord, AfterLoadWordTrans,
      AfterStoreWord, AfterStoreWordTrans;
    var bit27, bit26, bit22, bit20 := TypeField(ins) / 4, TypeField(ins) / 2 % 2, BBit(ins), LBit(ins);
    if bit27 == 0 && bit26 == 1 {
      if bit22 == 1 && bit20 == 1 {
        if PBit(ins) == 0 && WBit(ins) == 1 { LoadByteTrans(p, ins, stale); } else { LoadByte(p, ins, stale); }
      } else if bit22 == 1 && bit20 == 0 {
        if PBit(ins) == 0 && WBit(ins) == 1 { StoreByteTrans(p, ins); } else { StoreByte(p, ins); }
      } else if bit22 == 0 && bit20 == 1 {
        if PBit(ins) == 0 && WBit(ins) == 1 { LoadWordTrans(p, ins); } else { LoadWord(p, ins); }
      } else {
        if PBit(ins) == 0 && WBit(ins) == 1 { StoreWordTrans(p, ins); } else { StoreWord(p, ins); }
      }
    }
  }

  method ArmLoadStoreExtra(p: ArmCore, ins: word, stale: byte)
    requires p.Valid()
    modifies p.Footprint()
    ensures p.Valid() && p.Abs() == AfterLoadStoreExtra(old(p.Abs()), ins, stale)
  {
    hide AfterLoadDoubleWord, AfterStoreDoubleWord, AfterStoreHalf, AfterLoadHalf, AfterLoadSignedByte,
      AfterLoadSignedHalf;
    var bit20, bit6, bit5 := LBit(ins), Bit6(ins), Bit5(ins);
    if TypeField(ins) == 0 && Bit7(ins) == 1 && Bit4(ins) == 1 {
      if bit20 == 0 && bit6 == 1 && bit5 == 0 {
        LoadDoubleWord(p, ins);
      } else if bit20 == 1 && bit6 == 0 && bit5 == 1 {
        LoadHalf(p, ins);
      } else if bit20 == 1 && bit6 == 1 && bit5 == 0 {
        LoadSignedByte(p, ins, stale);
      } else if bit20 == 1 && bit6 == 1 && bit5 == 1 {
        LoadSignedHalf(p, ins);
      } else if bit20 == 0 && bit6 == 1 && bit5 == 1 {
        StoreDoubleWord(p, ins);
      } else if bit20 == 0 && bit6 == 0 && bit5 == 1 {
        StoreHalf(p, ins);
      }
    }
  }
}
