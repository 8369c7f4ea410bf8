/** arm_instruction.c: one step fetches a word, decodes it and executes it. */
module Instruction {
  import opened Words
  import opened Encoding
  import opened Core
  import DataProcessing
  import LoadStore
  import LoadStoreMultiple
  import BranchOther

  /** A step either leaves the machine running or meets the SWI that exits the simulator. */
  datatype Outcome = Running(state: State) | Halted(state: State)

  /** The effect of a decoded word, other than the halting SWI. stale is the byte an uninitialised local holds. */
  function AfterInstruction(s: State, ins: word, stale: byte): State
  {
    match TypeField(ins)
    case 0 =>
      if Bit7(ins) == 1 && Bit4(ins) == 1 then LoadStore.AfterLoadStoreExtra(s, ins, stale)
      else if PBit(ins) == 1 && UBit(ins) == 0 && Bit4(ins) == 0 then
        if LBit(ins) == 0 then BranchOther.AfterMiscellaneous(s, ins) else DataProcessing.AfterDataProcessing(s, ins)
      else if PBit(ins) == 1 && UBit(ins) == 0 then BranchOther.AfterBranchMisc(s, ins)
      else DataProcessing.AfterDataProcessing(s, ins)
    case 1 => DataProcessing.AfterDataProcessing(s, ins)
    case 4 => LoadStoreMultiple.AfterLoadStoreMultiple(s, ins)
    case 5 => BranchOther.AfterBranch(s, ins)
    case 6 => s
    case 7 => s
    case _ => LoadStore.AfterLoadStore(s, ins, stale)
  }

  predicate Halts(ins: word) { TypeField(ins) == 7 && BranchOther.IsHaltingSwi(ins) }

  /** The word at the fetch address. */
  function NextWord(s: State): word { s.Word(s.FetchAddress()) }

  function Step(s: State, stale: byte): Outcome
  {
    var ins := NextWord(s);
    if Halts(ins) then Halted(s.Fetched()) else Running(AfterInstruction(s.Fetched(), ins, stale))
  }

  /** As many steps as there are stale bytes, or fewer when the program exits. */
  function Run(s: State, stales: seq<byte>): Outcome
    decreases |stales|
  {
    hide Step;
    if stales == [] then Running(s)
    else
      match Step(s, stales[0])
      case Halted(t) => Halted(t)
      case Running(t) => Run(t, stales[1..])
  }

  /** arm_execute_instruction. */
  method ArmExecuteInstruction(p: ArmCore, stale: byte) returns (exit: bool)
    requires p.Valid()
    modifies p.Footprint()
    ensures p.Valid()
    ensures Step(old(p.Abs()), stale) == if exit then Halted(p.Abs()) else Running(p.Abs())
  {
    hide DataProcessing.AfterDataProcessing, LoadStore.AfterLoadStore, LoadStore.AfterLoadStoreExtra,
      LoadStoreMultiple.AfterLoadStoreMultiple, BranchOther.AfterBranch, BranchOther.AfterBranchMisc,
      BranchOther.AfterMiscellaneous, State.Word, State.Fetched, State.FetchAddress, BranchOther.IsHaltingSwi, PBit,
      UBit, LBit, Bit7, Bit4;
    exit := false;
    var ins := p.Fetch();
    LoadStoreMultiple.DirectionBits(ins);
    match TypeField(ins)
    case 0 =>
      if Bit7(ins) != 0 && Bit4(ins) != 0 {
        LoadStore.ArmLoadStoreExtra(p, ins, stale);
      } else if ins / 0x80_0000 % 4 == 2 && Bit4(ins) == 0 {
        if LBit(ins) == 0 {
          BranchOther.ArmMiscellaneous(p, ins);
        } else {
          DataProcessing.ArmDataProcessing(p, ins);
        }
      } else if ins / 0x80_0000 % 4 == 2 && Bit4(ins) == 1 && Bit7(ins) == 0 {
        BranchOther.ArmBranchMisc(p, ins);
      } else {
        DataProcessing.ArmDataProcessing(p, ins);
      }
    case 1 =>
      DataProcessing.ArmDataProcessing(p, ins);
    case 4 =>
      LoadStoreMultiple.ArmLoadStoreMultiple(p, ins);
    case 5 =>
      BranchOther.ArmBranch(p, ins);
    case 6 =>
    case 7 =>
      exit := BranchOther.ArmCoprocessorOthersSwi(ins);
    case _ =>
      LoadStore.ArmLoadStore(p, ins, stale);
  }

  /** arm_step: the result of arm_execute_instruction is always 0, so no exception is raised. */
  method ArmStep(p: ArmCore, stale: byte) returns (exit: bool)
    requires p.Valid()
    modifies p.Footprint()
    ensures p.Valid()
    ensures Step(old(p.Abs()), stale) == if exit then Halted(p.Abs()) else Running(p.Abs())
  {
    exit := ArmExecuteInstruction(p, stale);
  }
}
