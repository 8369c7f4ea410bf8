# A verified model of the Armator ARMv5 simulator

The simulator interprets ARMv5 machine code: a register file of 37 cells banked by processor mode, a byte memory with
an endianness flag, a cycle counter, and a step that fetches, decodes and executes one 32-bit word. This project models
that interpreter in Dafny and proves what it does, instruction by instruction and over whole runs. Section numbers
refer to the ARM Architecture Reference Manual (ARM DDI 0100).

## Layout

Every source file has a module with two layers.

* The code. `Registers`, `Memory` and `ArmCore` are classes over a 37-cell array, a byte buffer and both of them; the
  handlers are methods on an `ArmCore` with the branches, masks and loops of the C code.
* Its meaning. `State` is the abstract value of a core and each handler has a function `After...` from `State` to
  `State`. Every method ensures `p.Abs() == After...(old(p.Abs()), ...)`, so what is proved about the functions holds of
  the methods.

| file | models |
|---|---|
| Words, Encoding | `util.h`: words, C operators on them, instruction fields |
| RegisterFile, MemoryArea, Core | `registers.c`, `memory.c`, `arm_core.c` |
| Shifter, DataProcessing | `arm_data_processing.c` |
| LoadStore, LoadStoreMultiple | `arm_load_store.c` |
| BranchOther, Instruction | `arm_branch_other.c`, `arm_instruction.c` |

The `*Proofs` files hold the theorems: EncodingProofs (bit fields), RegisterProofs (banks), MemoryProofs (bytes of
words, histories of writes, byte order), ConditionProofs (condition codes), ShifterProofs (barrel shifter), DecodeProofs
(which words reach which handler), FlagProofs (results and flags), IndexingProofs (addressing modes 2 and 3),
BlockTransferProofs (LDM and STM), StepProofs (every step, every run), FetchProofs (the program counter), BranchProofs
(branches, calls, exchange, the exit), StackProofs (programs of pushes and pops) and ProgramProofs (a whole program).

The theorems say what an instruction does in terms of the word's bits, the cells and bytes before it, and integer
arithmetic, so that each function of the model is tied to something other than its own definition.

Words are integers below 2^32 with explicit wrap-around; `&`, `|` and `^` are defined digit by digit, and constant masks
are proved equal to the arithmetic they stand for. Signed C arithmetic wraps in two's complement. A byte read outside
memory leaves the C variable uninitialised in LDRB, LDRBT and LDRSB: that value is the parameter `stale`, one per step
of a run, and all theorems hold for every choice of it.

## Where the code departs from the manual

The model follows the code. The theorems say exactly how far it agrees:

* C after ADDS is the carry of the operands with one top bit flipped (`AddsCarry`), and V tells of the low bytes
  (`OverflowOfLowBytes`); `AddsFlagsCanFail` has an input for each. C after SUBS and RSBS compares as signed (`SubsCarry`,
  `RsbsCarry`, `SubsCarryCanFail`).
* ASR by a register amount is wrong from 32 on, except 32 on a non-negative word (`RegisterShiftIsArithmetic`,
  `RegisterAsrCanFail`).
* The index shifter of addressing mode 2 differs from the data-processing shifter in two cases (`TwoShiftersAgree`,
  `TwoShiftersCanDiffer`).
* C after ADCS and SBCS (RSCS) is the manual's exactly as `AdcsCarryAgrees` and `SbcsCarryAgrees` say; after CMP it is the
  C of ADCS, after CMN a signed order (`CompareInstruction`, `CompareCarryCanFail`). V of all arithmetic comes from the
  bits 7 (`ArithmeticInstruction`).
* TST, TEQ, CMP and CMN by a register-specified shift have no effect (`ComparesByRegisterDoNothing`); neither have the
  multiplies, the swaps, MSR from a register and the other words of `WithoutEffect`.
* BLX with an immediate applies its offset twice (`ImmediateExchange`), so it lands right only for offset zero
  (`ImmediateExchangeAgrees`); BLX by register links to A + 8 (`BranchExchange`).
* A post-indexed load computes its index after loading, so loading the base or index register disturbs it
  (`PostIndexedBase`).
* Four pairs of banked registers overlap (`SharedCells`, `SvcLrIsUndSp`).
* STM stores all sixteen registers whatever its list, and its end-address test, so its writeback, depends on the full
  list (`Stm1StoresEverything`). Writeback always adds, also for the decrementing forms: `Ldm1BaseAgrees` and
  `Stm1BaseAgrees` say exactly when the base is nevertheless the manual's. A base that is itself loaded moves only if it
  reads as before (`BaseTest`).
* A 16- or 32-bit access that straddles the end of memory drops or zero-fills single bytes (`WordReadsBack`).
* A mode without an SPSR cell, other than user and system mode, restores its status word from all ones, so the mode
  becomes SYS (`ModesWithoutSpsr`).

## Model

| member | source | states |
|---|---|---|
| EncodingProofs.GetBitsIsField | util.h:34 | the shift-and-mask macro is a division and a remainder, for every field shorter than 32 bits |
| EncodingProofs.GetBitsBit | util.h:34 | bit i of a field is bit l + i of the word and nothing lies above the field |
| EncodingProofs.FieldsAreBitRanges | util.h:30-34 | all 22 instruction fields of the decoder are the bit ranges the source names |
| Core.MaskT | arm_load_store.c:229-230 | the two masks that load the T bit replace bit 5 and keep the other 31 |
| Core.MaskBit1 | arm_core.c:75-78 | the mask on R15 reads clears bit 1 only |
| RegisterFile.Registers.WriteRegister | registers.c:169-217 | exactly the cell of the register in the current mode is replaced |
| RegisterProofs.ModeIsIndependentBank | registers.c:81-120 | within a mode any sequence of accesses behaves as sixteen independent registers and touches no other cell |
| RegisterProofs.SharedCells | registers.c:96-116 | two (mode, register) pairs share a cell iff the architecture shares them or they are one of four overlapping pairs |
| RegisterProofs.SvcLrIsUndSp | registers.c:101-112 | one overlapping pair: SVC LR is UND SP |
| RegisterProofs.UsrIsMode16 | registers.c:122-133 | the user-bank cells are those of mode 16 |
| RegisterProofs.UsrRegMeaning | arm_core.c:83-91 | a user-bank read is the cell of user mode in any mode, R15 as every read of it |
| RegisterProofs.StatusMeaning | registers.c:54-67 | an SPSR read and a restore, mode by mode: user and system keep the status word, modes without a cell get all ones |
| RegisterProofs.SpsrsAreIndependent | registers.c:139-257 | a written SPSR is read back by its own mode alone and only by FIQ, IRQ, SVC, ABT, UND; other modes read all ones; no register or CPSR write reaches an SPSR |
| MemoryArea.Memory.ReadWord | memory.c:79-101 | four bytes in the buffer's byte order, out-of-range bytes read as 0, addresses modulo 2^32 |
| MemoryArea.Memory.WriteWord | memory.c:130-153 | exactly the in-range bytes among the four addressed ones are replaced |
| MemoryArea.Memory.WriteHalf | memory.c:111-128 | exactly the in-range bytes among the two addressed ones are replaced |
| MemoryArea.PutWordByBytes | memory.c:130-153 | the pointwise meaning of a word write is its four byte writes in order |
| MemoryProofs.StoredBytes | memory.c:111-153 | which byte of a word or halfword is stored at which address in the two byte orders |
| MemoryProofs.WordReadMeaning | memory.c:79-101 | byte j of a word read is the byte its order puts there, 0 out of range |
| MemoryProofs.HalfReadMeaning | memory.c:59-77 | byte j of a halfword read is the byte its order puts there, 0 out of range |
| MemoryProofs.HistoryIsLastWrite | memory.c:103-153 | after any history of byte, half and word writes each in-range byte holds its last written value |
| MemoryProofs.WordReadsBack | memory.c:79-153 | a written word reads back iff each of its bytes is in range or zero |
| MemoryProofs.HalfReadsBack | memory.c:59-128 | a written halfword reads back iff each of its bytes is in range or zero |
| MemoryProofs.DisjointWords | memory.c:79-153 | a word write does not disturb a word read that does not overlap it modulo 2^32 |
| MemoryProofs.ByteOrdersReverse | memory.c:59-101 | big- and little-endian reads of the same bytes are byte reversals of each other |
| Core.ArmCore.Fetch | arm_core.c:129-139 | the word at the program counter, which then stands 4 beyond it, and one more cycle |
| FetchProofs.PcView | arm_core.c:73-81 | for every stored PC the fetch address has bit 1 clear and the instruction reads R15 as it plus 8 |
| ConditionProofs.ConditionsComeInPairs | arm_core.c:232-273 | each even condition below 14 is the exact opposite of its successor; 14 and 15 always pass (section A3.2) |
| ConditionProofs.ConditionsCompare | arm_core.c:232-273 | under flags that tell of a - b each condition passes iff the comparison it is named after holds, unsigned or signed |
| ConditionProofs.ConditionBits | arm_core.c:232-273 | the same for every status word, by bits 31 to 28 |
| ConditionProofs.StatusBits | arm_core.c:234-237 | the flags and the mode are bits 31, 30, 29, 28 and 4:0 |
| StepProofs.FailedConditionIsNoOp | arm_instruction.c:31-96 | under a failed condition a step changes only the PC and the cycle count, whatever is decoded |
| ShifterProofs.ImmediateShiftIsArithmetic | arm_data_processing.c:99-241 | immediate shifts are multiplication, division, floor division and rotation with their carries; 0 encodes 32 or RRX |
| ShifterProofs.RegisterShiftIsArithmetic | arm_data_processing.c:116-262 | register shifts by 0 to 255 agree with arithmetic iff not ASR by more than 32 or by 32 of a negative word |
| ShifterProofs.RegisterAsrCanFail | arm_data_processing.c:208-213 | an input for each way register ASR goes wrong |
| ShifterProofs.ImmediateOperandIsRotation | arm_data_processing.c:80-89 | an immediate operand is the byte rotated right by twice its rotate field, with the carry of the result |
| ShifterProofs.OperandMeaning | arm_data_processing.c:264-286 | the dispatch: each encoding of operand 2 gives the arithmetic shift it names |
| ShifterProofs.TwoShiftersAgree | arm_load_store.c:58-99 | the mode 2 index equals the data-processing operand iff not LSR #0 of a nonzero word nor ASR 1..31 of a negative one |
| ShifterProofs.TwoShiftersCanDiffer | arm_load_store.c:58-99 | an input for each of the two cases |
| ShifterProofs.ScaledIndexMeaning | arm_load_store.c:58-99 | every scaled index as arithmetic, the two departures included |
| IndexingProofs.Index2Meaning | arm_load_store.c:35-99 | the index of mode 2 by its fields: 12-bit immediate, register, or shifted register |
| IndexingProofs.Index3Meaning | arm_load_store.c:174-191 | the index of mode 3 by its fields: two nibbles or a register |
| ShifterProofs.ScaledOffsetAgainstOperand | arm_load_store.c:58-99 | the same comparison for two instructions naming the same shift of the same register |
| DataProcessing.CalcsProcedure | arm_data_processing.c:347-378 | the method's new state is AfterCalcs of the old one |
| DataProcessing.BitwiseProcedure | arm_data_processing.c:380-405 | the method's new state is AfterBitwise of the old one |
| DataProcessing.CmptstProcedure | arm_data_processing.c:407-427 | the method's new state is AfterCmptst of the old one |
| DataProcessing.ModifyNzcv | arm_data_processing.c:47-51 | the ORed word is the four flags over the old bits 27:0 |
| FlagProofs.NzcvReadBack | arm_data_processing.c:47-51 | the flags written are the flags read, and the mode and bits 27:0 are kept |
| DecodeProofs.DecodesAsDataProcessing | arm_instruction.c:38-69 | TypeField 1, or 0 outside the extra transfers with comparisons only for S = 1 and no register shift: the data-processing handler |
| DecodeProofs.DecodesElsewhere | arm_instruction.c:38-96 | the handler of every other word |
| DecodeProofs.ComparesByRegisterDoNothing | arm_instruction.c:55-58 | TST, TEQ, CMP, CMN by a register shift leave the whole state as it is |
| DecodeProofs.WithoutEffect | arm_instruction.c:38-96 | the words that leave the whole state as it is |
| FlagProofs.ArithmeticInstruction | arm_data_processing.c:292-378 | ADD, ADC, SUB, SBC, RSB, RSC: the wrapped integer result and nothing else, or with S also N, Z, C by arithmetic and V by bits 7 |
| FlagProofs.ResultToPc | arm_data_processing.c:359-405 | a result written to R15 becomes the PC and, with S, the mode's SPSR the status word; nothing else changes |
| FlagProofs.CompareInstruction | arm_data_processing.c:407-427 | CMP and CMN change only the flags: N, Z and C exactly, V kept; Z after CMP means equal operands |
| FlagProofs.CompareCarryCanFail | arm_data_processing.c:421-422 | an input for CMP and one for CMN at which C is not the manual's |
| FlagProofs.AddsCarry | arm_data_processing.c:292-320 | ADDS: result, flags, nothing else; C is the true carry iff operand and result have the same top bit; V is the overflow of the low bytes |
| FlagProofs.OverflowOfLowBytes | arm_data_processing.c:317-320 | after an addition V is set iff the signed sum of the low bytes overflows a byte |
| FlagProofs.AddsFlagsCanFail | arm_data_processing.c:292-320 | an input at which C, and one at which V, is not that of the sum |
| FlagProofs.AdcsCarryAgrees | arm_data_processing.c:292-302 | C after ADCS is the carry iff operand plus carry and result have the same top bit, or Rn's is set when that sum wraps |
| FlagProofs.SubsCarry | arm_data_processing.c:304-315 | SUBS: result, flags, nothing else; C is NOT-borrow iff the operands have the same top bit |
| FlagProofs.SubsCarryCanFail | arm_data_processing.c:304-315 | an input at which C is not NOT-borrow |
| FlagProofs.RsbsCarry | arm_data_processing.c:304-315 | RSBS: the same law with the operands exchanged |
| FlagProofs.SbcsCarryAgrees | arm_data_processing.c:304-315 | C after SBCS and RSCS is NOT-borrow iff the true difference fits a signed word |
| FlagProofs.RsbsIsSubsSwapped | arm_data_processing.c:347-377 | RSBS on (a, b) gives the result and status word of SUBS on (b, a) |
| FlagProofs.LogicalInstruction | arm_data_processing.c:380-405 | AND, EOR, ORR, BIC, MOV, MVN: the result bit by bit and nothing else, or with S also N, Z, C from the shifter, V kept |
| FlagProofs.TestsMatchLogicals | arm_data_processing.c:407-427 | TST and TEQ leave the status word of ANDS and EORS and write no register |
| LoadStore.LoadWord | arm_load_store.c:220-235 | the method's new state is AfterLoadWord of the old one, its condition tested once |
| LoadStore.StoreDoubleWord | arm_load_store.c:422-438 | the method's new state is AfterStoreDoubleWord of the old one |
| LoadStore.ArmLoadStore | arm_load_store.c:474-500 | the dispatcher's new state is AfterLoadStore of the old one |
| LoadStore.ArmLoadStoreExtra | arm_load_store.c:503-522 | the dispatcher's new state is AfterLoadStoreExtra of the old one |
| IndexingProofs.StoreIndexing | arm_load_store.c:131-163 | STR, STRB: address and final base by form from the index's fields, every other cell and byte kept (section A5.2) |
| IndexingProofs.LoadIndexing | arm_load_store.c:219-250 | LDR, LDRB, LDRB into R15 included: Rd is the value at that address, final base by form, every other cell kept |
| IndexingProofs.LoadPcIndexing | arm_load_store.c:220-235 | LDR to R15: PC is the word less bit 0, T is bit 0, final base by form, every other cell kept |
| IndexingProofs.PostIndexedBase | arm_load_store.c:150-163 | a post-indexed load with immediate offset ends with the right base iff it does not load another value into it |
| IndexingProofs.StoreHalfIndexing | arm_load_store.c:443-454 | STRH: as STR, and an odd address changes nothing (section A5.3) |
| IndexingProofs.LoadExtraIndexing | arm_load_store.c:298-351 | LDRH, LDRSB, LDRSH into any register: the unsigned or signed number, final base by form, every other cell kept, an odd halfword address changes nothing |
| IndexingProofs.SignExtension | arm_load_store.c:314-351 | the word loaded by LDRSB and LDRSH is the signed byte or halfword |
| IndexingProofs.StoreTranslated | arm_load_store.c:401-418 | STRT, STRBT: user mode's register to the base address, the base always moved, every other cell and byte kept |
| IndexingProofs.LoadTranslated | arm_load_store.c:252-272 | LDRT, LDRBT into any of user mode's cells but the base or index: its value from the base address, the base always moved, every other cell kept |
| IndexingProofs.StoreDouble | arm_load_store.c:422-438 | STRD: two words at a multiple of 8, the base moved by form even when nothing is stored |
| IndexingProofs.LoadDouble | arm_load_store.c:276-293 | LDRD: an even pair from a multiple of 8, the base moved by form even when nothing is loaded |
| IndexingProofs.DoubleRoundTrip | arm_load_store.c:276-293 | a pair stored by STRD comes back in order from LDRD, in all indexed forms |
| LoadStoreMultiple.NbSetBits | arm_load_store.c:525-533 | the clear-lowest-bit loop terminates with the number of listed registers |
| LoadStoreMultiple.Ldm1 | arm_load_store.c:575-600 | the method's new state is AfterLdm1, and it returns 1 iff the end-address test fails |
| LoadStoreMultiple.Stm1 | arm_load_store.c:655-671 | the method's new state is AfterStm, and it returns 1 iff the end-address test fails |
| LoadStoreMultiple.LoadList | arm_load_store.c:581-588 | the load loop advances with the count of listed registers |
| BlockTransferProofs.EndTest | arm_load_store.c:535-561 | with the base intact, in all four directions and wrapping or not, the test after n words passes iff the list names n registers |
| BlockTransferProofs.StartMeaning | arm_load_store.c:535-547 | where the i-th word of a block lies in each of the four directions |
| BlockTransferProofs.BaseTest | arm_load_store.c:535-596 | after as many words as the list names the test passes iff the base reads as before the transfers |
| BlockTransferProofs.Ldm1TestPasses | arm_load_store.c:596 | with Rn unlisted the test after LDM(1) never fires |
| BlockTransferProofs.Ldm1LoadsItsList | arm_load_store.c:575-600 | each listed register gets the word at start + 4 * (listed below it), PC and T as loaded, the rest kept, base up iff it reads as before (section A5.4) |
| BlockTransferProofs.Ldm1KeepsOtherBanks | arm_load_store.c:575-600 | no cell outside the executing mode's bank and the CPSR changes |
| BlockTransferProofs.Ldm1BaseAgrees | arm_load_store.c:563-571 | the final base of LDM(1) is the manual's iff W = 0, the form increments or the list is empty |
| BlockTransferProofs.Stm1StoresEverything | arm_load_store.c:655-671 | register i to the i-th of sixteen consecutive words, byte by byte where in range; the test passes iff the list is 0xFFFF; no other cell changes |
| BlockTransferProofs.Stm1BaseAgrees | arm_load_store.c:563-571 | the final base of STM(1) is the manual's iff W = 0, the list is empty, or it is full and the form increments |
| BlockTransferProofs.StmThenLdm | arm_load_store.c:525-671 | STMIA then LDMIA of list L: register i gets the saved register numbered by its position in L; a prefix list restores |
| BlockTransferProofs.Stm2StoresUserRegisters | arm_load_store.c:675-692 | STM(2): user mode's register i to the i-th word whatever the list, byte by byte where in range; no register changed |
| BlockTransferProofs.Ldm2LoadsUserRegisters | arm_load_store.c:603-620 | LDM(2): list to the user bank, other cells kept, base moved iff W = 1 and it reads as before |
| BlockTransferProofs.Ldm3Returns | arm_load_store.c:624-651 | LDM(3): list to the executing mode's bank, status word from its SPSR, PC from the last word, other cells kept, then the base of the mode returned to moved iff W = 1 and it reads as the base used |
| StackProofs.StackRefinement | arm_instruction.c:98-105 | a run over any fitting sequence of pushes and pops is the abstract stack machine's run, writes its stack room only and ends just after the sequence |
| StackProofs.CodeExecutes | arm_load_store.c:374-385 | a sequence encoded in memory clear of the stack room is what the run executes |
| StackProofs.BalancedSequence | arm_load_store.c:220-235 | a run over a balanced sequence restores the stack pointer and leaves the registers the abstract stack gives |
| StackProofs.BalancedProgram | arm_load_store.c:131-163 | the same for a loaded straight-line program, from its first fetch to the address after it |
| StackProofs.SavedAcross | arm_load_store.c:131-163 | a run that pushes a register, does any balanced work and pops it has its value and the stack pointer back |
| BranchOther.CalcBLTargetAddress | arm_branch_other.c:33-41 | the masked and shifted offset is the sign-extended one |
| BranchOther.Blx1Procedure | arm_branch_other.c:43-60 | the method's new state is AfterBlx1 of the old one |
| BranchOther.ArmCoprocessorOthersSwi | arm_branch_other.c:92-100 | exit iff SWI 0x123456 |
| BranchProofs.TakenBranch | arm_branch_other.c:33-60 | a taken B or BL continues at A + 8 + 4 * offset; BL leaves A + 4; the exact resulting state |
| BranchProofs.Return | arm_data_processing.c:380-405 | MOV PC,LR continues at the linked address; the exact resulting state |
| BranchProofs.CallAndReturn | arm_branch_other.c:43-49 | a later return with the link intact resumes just after the BL |
| BranchProofs.BranchExchange | arm_branch_other.c:62-80 | BX and BLX by register: target, T bit, link and nothing else |
| BranchProofs.ImmediateExchange | arm_branch_other.c:43-60 | BLX with an immediate: link and target with the offset once and twice, T bit, nothing else |
| BranchProofs.ImmediateExchangeAgrees | arm_branch_other.c:33-60 | it lands where the manual says iff its offset and bit 24 are zero |
| BranchProofs.StatusToRegister | arm_branch_other.c:102-117 | MRS: the status word or the mode's SPSR to Rd, nothing else |
| BranchProofs.ExitsExactly | arm_branch_other.c:92-100 | a step exits iff the word is SWI 0x123456 under any condition; other SWI and coprocessor words have no effect |
| Instruction.ArmStep | arm_instruction.c:98-105 | one call of the method is one Step of the state machine, exit included |
| Instruction.ArmExecuteInstruction | arm_instruction.c:31-96 | fetch, decode and execute refine Step |
| StepProofs.InstructionEffect | arm_instruction.c:31-96 | every instruction changes only general registers, the flags and T bit or the whole CPSR to the SPSR, and bytes of its store range |
| StepProofs.StepFootprint | arm_load_store.c:374-708 | a step writes one contiguous range of 0, 1, 2, 4, 8 or 64 bytes, nonempty only for a passed STR, STRB, STRT, STRBT, STRH, STRD or STM |
| StepProofs.RegionConstant | arm_instruction.c:98-105 | over any run, bytes that no store covers are constant |
| StepProofs.StepMode | registers.c:54-67 | no step writes an SPSR; the mode stays or moves along one fixed map |
| StepProofs.ModesWithoutSpsr | registers.c:139-167 | where that map leads from modes without an SPSR cell |
| StepProofs.RunFollowsModePath | arm_data_processing.c:360-361 | over any run the SPSRs are constant and the modes, state by state, are a stuttering walk along one path |
| StepProofs.RunFromSvc | arm_load_store.c:639 | with zero SPSRs a machine in SVC only ever visits 0x13, 0 and 0x1F, in that order |
| StepProofs.DeterministicUnlessStale | arm_load_store.c:238-272 | only a byte load from outside memory depends on an uninitialised local |
| StepProofs.RunDeterministic | arm_load_store.c:238-272 | a run that never loads a byte from outside memory is a function of its first state and its length |
| ProgramProofs.LoopRunsFourKSteps | Examples/example1.s:9-13 | from the loop with r0 = k, for any 1 <= k < 2^32, exactly 4k steps and no fewer reach the word after it, r0 = 0, Z set |
| ProgramProofs.ProgramExits | Examples/example1.s:3-13 | the program from main exits at its 22nd step with r0 = 0, in any mode |
| ProgramProofs.LoadedProgramExits | Examples/example1.s:3-13 | its six words loaded in range on any word boundary and started at main, in any state, exit at the 22nd step with r0 = 0 |

## Left out

- arm_simulator.c: the gdb server, sockets, threads and asynchronous interrupts are I/O around the interpreter.
- Tracing and printed output: they read the state and never change it.
- arm_exception: it is not part of this model, so the RESET of arm_create is missing and runs start from an arbitrary state.
- Result codes: the decoder discards them; only the block-transfer handlers, whose code is the end-address test, return theirs.
- Post-indexed loads into the base or index register: the manual leaves them undefined; no theorem beyond PostIndexedBase.
- Conformance of flags: C after CMP and CMN and V of subtractions are stated as they are, not compared with the manual's.
- Dead branches: the plain-register operand and the second RRX test in get_operande_and_carry_out can never be reached and are omitted.
- Loops of LDM and STM: the loop that three handlers repeat in the source is one method here, LoadList, and likewise StoreAll.
