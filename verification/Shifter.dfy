/** The shifter operands of mode 1 (arm_data_processing.c) and the scaled index of mode 2 (arm_load_store.c). */
module Shifter {
  import opened Words
  import Core

  /** shifter_operand and shifter_carry_out. */
  datatype Shifted = Shifted(operand: word, carry: bit)

  /** packing_shifter: both halves in one 64-bit value. */
  function Pack(s: Shifted): nat { s.operand * 0x1_0000_0000 + s.carry }

  function GetShifterOperand(packed: nat): word { Wrap(packed / 0x1_0000_0000) }

  function GetShifterCarryOut(packed: nat): word { Wrap(packed) }

  lemma Unpack(s: Shifted)
    ensures GetShifterOperand(Pack(s)) == s.operand && GetShifterCarryOut(Pack(s)) == s.carry
  {
    hide Wrap;
    DivUnique(Pack(s), 0x1_0000_0000, s.operand, s.carry);
    WrapParts(s.operand, s.carry);
  }

  lemma WrapParts(x: word, c: bit)
    ensures Wrap(x) == x && Wrap(x * 0x1_0000_0000 + c) == c
  {
  }

  function ArithmeticShiftRight(value: word, shift: nat): word
    requires 0 < shift < 32
  {
    Or(Shr(value, shift), if GetBit(value, 31) == 1 then Shl(0xFFFF_FFFF, 32 - shift) else 0)
  }

  function ImmediateOperand(imm8: byte, rotate: nat, c: bit): Shifted
    requires rotate < 16
  {
    var operand := Core.RotateRight(imm8, 2 * rotate);
    Shifted(operand, if rotate == 0 then c else GetBit(operand, 31))
  }

  // ---- Shifts by a 5-bit immediate ----

  function LslImm(rm: word, n: nat, c: bit): Shifted
    requires n < 32
  {
    if n == 0 then Shifted(rm, c)
    else Shifted(Shl(rm, n), GetBit(rm, 32 - n))
  }

  function LsrImm(rm: word, n: nat, c: bit): Shifted
    requires n < 32
  {
    if n == 0 then Shifted(0, GetBit(rm, 31))
    else Shifted(Shr(rm, n), GetBit(rm, n - 1))
  }

  function AsrImm(rm: word, n: nat, c: bit): Shifted
    requires n < 32
  {
    if n == 0 then Shifted(if GetBit(rm, 31) == 0 then 0 else 0xFFFF_FFFF, GetBit(rm, 31))
    else Shifted(ArithmeticShiftRight(rm, n), GetBit(rm, n - 1))
  }

  function Rrx(rm: word, c: bit): Shifted
  {
    Shifted(Or(Shl(c, 31), Shr(rm, 1)), GetBit(rm, 0))
  }

  function RorImm(rm: word, n: nat, c: bit): Shifted
    requires n < 32
  {
    if n == 0 then Rrx(rm, c)
    else Shifted(Core.RotateRight(rm, n), GetBit(rm, n - 1))
  }

  function ShiftedByImm(kind: nat, rm: word, n: nat, c: bit): Shifted
    requires n < 32
  {
    match kind
    case 0 => LslImm(rm, n, c)
    case 1 => LsrImm(rm, n, c)
    case 2 => AsrImm(rm, n, c)
    case _ => RorImm(rm, n, c)
  }

  // ---- Shifts by the low byte of a register ----

  function LslReg(rm: word, n: byte, c: bit): Shifted
  {
    if n == 0 then Shifted(rm, c)
    else if n < 32 then Shifted(Shl(rm, n), GetBit(rm, 32 - n))
    else if n == 32 then Shifted(0, GetBit(rm, 0))
    else Shifted(0, 0)
  }

  function LsrReg(rm: word, n: byte, c: bit): Shifted
  {
    if n == 0 then Shifted(rm, c)
    else if n < 32 then Shifted(Shr(rm, n), GetBit(rm, n - 1))
    else if n == 32 then Shifted(0, GetBit(rm, 31))
    else Shifted(0, 0)
  }

  function AsrReg(rm: word, n: byte, c: bit): Shifted
  {
    if n == 0 then Shifted(rm, c)
    else if n < 32 then Shifted(ArithmeticShiftRight(rm, n), GetBit(rm, n - 1))
    else if n == 32 then Shifted(0, GetBit(rm, 31))
    else Shifted(0xFFFF_FFFF, 0)
  }

  function RorReg(rm: word, n: byte, c: bit): Shifted
  {
    if n == 0 then Shifted(rm, c)
    else if n % 32 == 0 then Shifted(rm, GetBit(rm, 31))
    else Shifted(Core.RotateRight(rm, n % 32), GetBit(rm, n % 32 - 1))
  }

  function ShiftedByReg(kind: nat, rm: word, n: byte, c: bit): Shifted
  {
    match kind
    case 0 => LslReg(rm, n, c)
    case 1 => LsrReg(rm, n, c)
    case 2 => AsrReg(rm, n, c)
    case _ => RorReg(rm, n, c)
  }

  // ---- The index of a scaled register offset ----

  function ScaledIndex(kind: nat, rm: word, n: nat, c: bit): word
    requires n < 32
  {
    match kind
    case 0 => Shl(rm, n)
    case 1 => Shr(rm, n)
    case 2 =>
      if n == 0 then
        if GetBit(rm, 31) == 1 then 0xFFFF_FFFF else 0
      else if GetBit(rm, 31) == 1 then And(Shr(rm, n), Not(Shr(0xFFFF_FFFF, n)))
      else Shr(rm, n)
    case _ =>
      if n == 0 then Or(Shl(c, 31), Shr(rm, 1)) else Core.RotateRight(rm, n)
  }
}
