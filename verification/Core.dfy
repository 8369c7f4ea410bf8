/** arm_core.c: the processor state, its register and memory accessors, fetch, and condition codes. */
module Core {
  import opened Words
  import opened Encoding
  import opened RegisterFile
  import opened MemoryArea

  /** Bit 5 of a status word replaced: (w & 0xFFFFFFDF) | (t << 5). */
  function SetT(w: word, t: bit): word { w - w / 0x20 % 2 * 0x20 + t * 0x20 }

  /** Bit 0 cleared, as in w & 0xFFFFFFFE. */
  function ClearBit0(w: word): word { w - w % 2 }

  /** Bit 1 cleared, as in w & 0xFFFFFFFD. */
  function ClearBit1(w: word): word { w - w / 2 % 2 * 2 }

  function FlagN(cpsr: word): bit { cpsr / 0x8000_0000 }

  function FlagZ(cpsr: word): bit { cpsr / 0x4000_0000 % 2 }

  function FlagC(cpsr: word): bit { cpsr / 0x2000_0000 % 2 }

  function FlagV(cpsr: word): bit { cpsr / 0x1000_0000 % 2 }

  /** conditionPassed: 0 when the condition fails, 15 for the unconditional space, otherwise 1. */
  function ConditionCode(cpsr: word, ins: word): nat
  {
    var n, z, c, v := FlagN(cpsr), FlagZ(cpsr), FlagC(cpsr), FlagV(cpsr);
    var holds := match CondField(ins)
      case 0 => z == 1
      case 1 => z == 0
      case 2 => c == 1
      case 3 => c == 0
      case 4 => n == 1
      case 5 => n == 0
      case 6 => v == 1
      case 7 => v == 0
      case 8 => c == 1 && z == 0
      case 9 => c == 0 || z == 1
      case 10 => n == v
      case 11 => n != v
      case 12 => z == 0 && n == v
      case 13 => z == 1 || n != v
      case _ => true;
    if CondField(ins) == 15 then 15 else if holds then 1 else 0
  }

  function RotateRight(x: word, n: nat): word
    requires n <= 32
  {
    Or(Shr(x, n), Shl(x, 32 - n))
  }

  /** The machine state seen from outside: register cells, in-range memory, endianness, cycle count. */
  datatype State = State(cells: Cells, bytes: Bytes, big: bool, cycles: word) {

    function Cpsr(): word { cells[31] }

    function Mode(): nat { ModeOf(cells[31]) }

    predicate HasSpsr() { ModeHasSpsr(Mode()) }

    function Spsr(): word { SpsrIn(cells, Mode()) }

    /** The cell itself; for R15 the stored program counter. */
    function Stored(r: RegNo): word { cells[CellOf(Mode(), r)] }

    /** A register as an instruction reads it: R15 is the stored value plus 4 with bit 1 clear. */
    function Reg(r: RegNo): word { if r == 15 then ClearBit1(Add(Stored(15), 4)) else Stored(r) }

    function UsrReg(r: RegNo): word
    {
      if r == 15 then ClearBit1(Add(cells[UsrCellOf(15)], 4)) else cells[UsrCellOf(r)]
    }

    function WithReg(r: RegNo, v: word): State { this.(cells := cells[CellOf(Mode(), r) := v]) }

    function WithUsrReg(r: RegNo, v: word): State { this.(cells := cells[UsrCellOf(r) := v]) }

    function WithCpsr(v: word): State { this.(cells := cells[31 := v]) }

    function Byte(a: word, stale: byte): byte { if a in bytes then bytes[a] else stale }

    function Half(a: word): half { HalfAt(bytes, big, a) }

    function Word(a: word): word { WordAt(bytes, big, a) }

    function WithByte(a: word, v: byte): State { this.(bytes := PutByte(bytes, a, v)) }

    function WithHalf(a: word, v: half): State { this.(bytes := PutHalf(bytes, big, a, v)) }

    function WithWord(a: word, v: word): State { this.(bytes := PutWord(bytes, big, a, v)) }

    predicate Passed(ins: word) { ConditionCode(Cpsr(), ins) != 0 }

    /** The CPSR reloaded from the current mode's SPSR, in the modes the code credits with one. */
    function SpsrRestored(): State { if HasSpsr() then WithCpsr(Spsr()) else this }

    /** R15 loaded from memory: bit 0 goes to the T bit. */
    function PcLoaded(v: word): State
    {
      var t := WithReg(15, ClearBit0(v));
      t.WithCpsr(SetT(t.Cpsr(), v % 2))
    }

    /** The address the next instruction is fetched from. */
    function FetchAddress(): word { Sub(Reg(15), 4) }

    function Fetched(): State
    {
      WithReg(15, Add(FetchAddress(), 4)).(cycles := Add(cycles, 1))
    }
  }

  class ArmCore {
    var cycleCount: word
    const reg: Registers
    const mem: Memory

    /** arm_create, short of the RESET exception: zeroed registers over the given memory. */
    constructor (mem: Memory)
      requires mem.Valid()
      ensures Valid() && this.mem == mem && fresh(reg) && fresh(reg.cells)
      ensures Abs() == State(seq(37, _ => 0), mem.bytes, mem.Big(), 0)
    {
      this.mem := mem;
      reg := new Registers();
      cycleCount := 0;
      new;
      assert reg.cells[..] == seq(37, _ => 0);
    }

    ghost function Footprint(): set<object> { {this, reg.cells, mem, mem.data} }

    ghost predicate Valid()
      reads Footprint()
    {
      && reg.Valid()
      && mem.Valid()
      && (var a: object := reg.cells; var b: object := mem.data; a != b)
    }

    ghost function Abs(): State
      requires Valid()
      reads Footprint()
    {
      State(reg.cells[..], mem.bytes, mem.Big(), cycleCount)
    }

    function ReadRegister(r: RegNo): word
      requires Valid()
      reads Footprint()
      ensures ReadRegister(r) == Abs().Reg(r)
    {
      var value := reg.ReadRegister(r);
      MaskBit1(Add(value, 4));
      if r == 15 then And(Add(value, 4), 0xFFFF_FFFD) else value
    }

    function ReadUsrRegister(r: RegNo): word
      requires Valid()
      reads Footprint()
      ensures ReadUsrRegister(r) == Abs().UsrReg(r)
    {
      var value := reg.ReadUsrRegister(r);
      MaskBit1(Add(value, 4));
      if r == 15 then And(Add(value, 4), 0xFFFF_FFFD) else value
    }

    function ReadCpsr(): word
      requires Valid()
      reads Footprint()
      ensures ReadCpsr() == Abs().Cpsr()
    {
      reg.ReadCpsr()
    }

    function ReadSpsr(): word
      requires Valid()
      reads Footprint()
      ensures ReadSpsr() == Abs().Spsr()
    {
      reg.ReadSpsr()
    }

    predicate CurrentModeHasSpsr()
      requires Valid()
      reads Footprint()
      ensures CurrentModeHasSpsr() == Abs().HasSpsr()
    {
      ModeHasSpsr(reg.GetMode())
    }

    function ConditionPassed(ins: word): nat
      requires Valid()
      reads Footprint()
      ensures ConditionPassed(ins) == ConditionCode(Abs().Cpsr(), ins)
    {
      ConditionCode(ReadCpsr(), ins)
    }

    method WriteRegister(r: RegNo, value: word)
      requires Valid()
      modifies Footprint()
      ensures Valid() && Abs() == old(Abs()).WithReg(r, value)
    {
      reg.WriteRegister(r, value);
    }

    method WriteUsrRegister(r: RegNo, value: word)
      requires Valid()
      modifies Footprint()
      ensures Valid() && Abs() == old(Abs()).WithUsrReg(r, value)
    {
      reg.WriteUsrRegister(r, value);
    }

    method WriteCpsr(value: word)
      requires Valid()
      modifies Footprint()
      ensures Valid() && Abs() == old(Abs()).WithCpsr(value)
    {
      reg.WriteCpsr(value);
    }

    /** The word at the program counter, which then stands 4 beyond it. */
    method Fetch() returns (value: word)
      requires Valid()
      modifies Footprint()
      ensures Valid() && Abs() == old(Abs()).Fetched()
      ensures value == old(Abs()).Word(old(Abs()).FetchAddress())
    {
      cycleCount := Add(cycleCount, 1);
      var address := Sub(ReadRegister(15), 4);
      value := mem.ReadWord(address);
      WriteRegister(15, Add(address, 4));
    }

    method ReadByte(address: word, initial: byte) returns (value: byte)
      requires Valid()
      ensures value == Abs().Byte(address, initial)
    {
      value := mem.ReadByte(address, initial);
    }

    method ReadHalf(address: word) returns (value: half)
      requires Valid()
      ensures value == Abs().Half(address)
    {
      value := mem.ReadHalf(address);
    }

    method ReadWord(address: word) returns (value: word)
      requires Valid()
      ensures value == Abs().Word(address)
    {
      value := mem.ReadWord(address);
    }

    method WriteByte(address: word, value: byte)
      requires Valid()
      modifies Footprint()
      ensures Valid() && Abs() == old(Abs()).WithByte(address, value)
    {
      mem.WriteByte(address, value);
    }

    method WriteHalf(address: word, value: half)
      requires Valid()
      modifies Footprint()
      ensures Valid() && Abs() == old(Abs()).WithHalf(address, value)
    {
      mem.WriteHalf(address, value);
    }

    method WriteWord(address: word, value: word)
      requires Valid()
      modifies Footprint()
      ensures Valid() && Abs() == old(Abs()).WithWord(address, value)
    {
      mem.WriteWord(address, value);
    }
  }

  /** A T-bit update leaves the condition flags alone, so a later test of the condition agrees with the first. */
  lemma SetTKeepsFlags(w: word, t: bit)
    ensures SetT(w, t) / 0x1000_0000 == w / 0x1000_0000
    ensures SetT(w, t) % 0x20 == w % 0x20
  {
    var hi, mid, lo := w / 0x1000_0000, w % 0x1000_0000 / 0x40, w % 0x20;
    assert w == hi * 0x1000_0000 + mid * 0x40 + w / 0x20 % 2 * 0x20 + lo;
    DivUnique(SetT(w, t), 0x1000_0000, hi, mid * 0x40 + t * 0x20 + lo);
    DivUnique(SetT(w, t), 0x20, hi * 0x80_0000 + mid * 2 + t, lo);
  }

  // ---- Reads of changed states ----

  lemma SameCells(s: State, t: State, r: RegNo)
    requires t.cells == s.cells
    ensures t.Stored(r) == s.Stored(r) && t.Reg(r) == s.Reg(r)
  {
  }

  lemma SameStored(s: State, t: State, r: RegNo)
    requires t.Stored(r) == s.Stored(r)
    ensures t.Reg(r) == s.Reg(r)
  {
    hide State.Stored, ClearBit1, Add;
    if r == 15 {
      assert s.Reg(r) == ClearBit1(Add(s.Stored(15), 4)) && t.Reg(r) == ClearBit1(Add(t.Stored(15), 4));
    }
  }

  lemma SameWord(s: State, t: State, a: word)
    requires s.bytes == t.bytes && s.big == t.big
    ensures s.Word(a) == t.Word(a)
  {
  }

  lemma ReadAfterWrite(s: State, r: RegNo, v: word, q: RegNo)
    ensures s.WithReg(r, v).Stored(q) == if q == r then v else s.Stored(q)
    ensures s.WithReg(r, v).Cpsr() == s.Cpsr()
    ensures q != r ==> s.WithReg(r, v).Reg(q) == s.Reg(q)
    ensures r != 15 ==> s.WithReg(r, v).Reg(r) == v
  {
    hide ModeOf, ClearBit1, Add;
    CellsDistinct(s.Mode(), q, r);
  }

  lemma FlagsFromNibble(w: word, w': word)
    requires w / 0x1000_0000 == w' / 0x1000_0000
    ensures FlagN(w) == FlagN(w') && FlagZ(w) == FlagZ(w') && FlagC(w) == FlagC(w') && FlagV(w) == FlagV(w')
  {
    var a := w / 0x1000_0000;
    assert w / 0x2000_0000 == a / 2 == w' / 0x2000_0000;
    assert w / 0x4000_0000 == a / 4 == w' / 0x4000_0000;
    assert w / 0x8000_0000 == a / 8 == w' / 0x8000_0000;
  }

  lemma MaskBit0(w: word)
    ensures And(w, 0xFFFF_FFFE) == ClearBit0(w)
  {
    Pow2_32();
    AndOnes(w / 2, 0x8000_0000, 31);
  }

  lemma MaskBit1(w: word)
    ensures And(w, 0xFFFF_FFFD) == ClearBit1(w)
  {
    Pow2_32();
    AndOnes(w / 4, 0x4000_0000, 30);
    assert Bitwise(AND, w / 2, 0x7FFF_FFFE) == 2 * (w / 4);
  }

  /** The masks that load the T bit touch no other bit of the status word. */
  lemma MaskT(w: word, t: bit)
    ensures Or(And(w, 0xFFFF_FFDF), t * 0x20) == SetT(w, t)
  {
    var v, u, lo := w / 0x40, w / 0x20 % 2, w % 0x20;
    assert w == v * 0x40 + (u * 0x20 + lo);
    MaskOutT(v, u, lo);
    var kept: word := v * 0x40 + lo;
    assert And(w, 0xFFFF_FFDF) == kept;
    MaskInT(v, t, lo);
  }

  lemma MaskOutT(v: nat, u: bit, lo: nat)
    requires v < 0x400_0000 && lo < 0x20
    ensures Bitwise(AND, v * 0x40 + (u * 0x20 + lo), 0xFFFF_FFDF) == v * 0x40 + lo
  {
    hide Bitwise, Pow2;
    Pow2_32();
    BitwiseSplit(AND, v, u * 0x20 + lo, 0x3FF_FFFF, 0x1F, 0x40, 6);
    BitwiseSplit(AND, u, lo, 0, 0x1F, 0x20, 5);
    AndOnes(v, 0x400_0000, 26);
    AndOnes(lo, 0x20, 5);
    AndZero(u);
  }

  lemma MaskInT(v: nat, t: bit, lo: nat)
    requires lo < 0x20
    ensures Bitwise(OR, v * 0x40 + lo, t * 0x20) == v * 0x40 + t * 0x20 + lo
  {
    hide Bitwise;
    Pow2_32();
    BitwiseSplit(OR, 2 * v, lo, t, 0, 0x20, 5);
    BitwiseSplit(OR, v, 0, 0, t, 2, 1);
    OrZero(v);
    OrZero(t);
    OrZero(lo);
  }
}
