/** Fields of an ARM instruction word, named after their use: get_bit and get_bits of util.h at constant positions. */
module Encoding {
  import opened Words

  type RegNo = r: nat | r < 16

  function CondField(ins: word): nat { ins / 0x1000_0000 }        // 31:28

  function TypeField(ins: word): nat { ins / 0x200_0000 % 8 }     // 27:25

  function IBit(ins: word): bit { ins / 0x200_0000 % 2 }          // 25

  function PBit(ins: word): bit { ins / 0x100_0000 % 2 }          // 24, also the link bit of a branch

  function UBit(ins: word): bit { ins / 0x80_0000 % 2 }           // 23

  function BBit(ins: word): bit { ins / 0x40_0000 % 2 }           // 22, also the S bit of LDM/STM

  function WBit(ins: word): bit { ins / 0x20_0000 % 2 }           // 21

  function LBit(ins: word): bit { ins / 0x10_0000 % 2 }           // 20, also the S bit of data processing

  function Opcode(ins: word): nat { ins / 0x20_0000 % 16 }        // 24:21

  function Rn(ins: word): RegNo { ins / 0x1_0000 % 16 }           // 19:16

  function Rd(ins: word): RegNo { ins / 0x1000 % 16 }             // 15:12

  function Rs(ins: word): RegNo { ins / 0x100 % 16 }              // 11:8

  function Rm(ins: word): RegNo { ins % 16 }                      // 3:0

  function RotateImm(ins: word): nat { ins / 0x100 % 16 }         // 11:8

  function ShiftImm(ins: word): nat { ins / 0x80 % 32 }           // 11:7

  function ShiftType(ins: word): nat { ins / 0x20 % 4 }           // 6:5

  function Bits11To4(ins: word): nat { ins / 0x10 % 0x100 }       // 11:4

  function Offset12(ins: word): nat { ins % 0x1000 }              // 11:0

  /** The split 8-bit immediate of addressing mode 3: bits 11:8 over bits 3:0. */
  function Offset8(ins: word): nat { ins / 0x100 % 16 * 16 + ins % 16 }

  function Bit7(ins: word): bit { ins / 0x80 % 2 }

  function Bit6(ins: word): bit { ins / 0x40 % 2 }

  function Bit5(ins: word): bit { ins / 0x20 % 2 }

  function Bit4(ins: word): bit { ins / 0x10 % 2 }

  // ---- Addressing-mode predicates of arm_load_store.c ----

  predicate IsImmediateOffset(ins: word) { IBit(ins) == 0 }

  predicate IsRegisterOffset(ins: word) { IBit(ins) == 1 && Bits11To4(ins) == 0 }

  predicate IsScaledOffset(ins: word) { IBit(ins) == 1 && Bits11To4(ins) != 0 }

  predicate IsNormalIndexed(ins: word) { PBit(ins) == 1 && WBit(ins) == 0 }

  predicate IsPreIndexed(ins: word) { PBit(ins) == 1 && WBit(ins) == 1 }

  predicate IsPostIndexed(ins: word) { PBit(ins) == 0 && WBit(ins) == 0 }

  /** P = 0 and W = 1: the user-mode ("T") forms of addressing mode 2. */
  predicate IsTranslated(ins: word) { PBit(ins) == 0 && WBit(ins) == 1 }

  // ---- The register list of LDM and STM ----

  predicate Listed(ins: nat, i: nat) { GetBit(ins, i) == 1 }

  /** How many of the registers 0 .. n-1 are listed. */
  function Count(ins: nat, n: nat): (c: nat)
    ensures c <= n
  {
    if n == 0 then 0 else Count(ins, n - 1) + GetBit(ins, n - 1)
  }
}
