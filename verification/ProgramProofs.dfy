/** A whole program: Examples/example1.s. */
module ProgramProofs {
  import opened Words
  import opened Encoding
  import opened RegisterFile
  import opened MemoryArea
  import opened Core
  import DataProcessing
  import opened Instruction
  import opened BranchProofs
  import opened FetchProofs
  import BlockTransferProofs
  import DecodeProofs
  import EncodingProofs
  import FlagProofs
  import MemoryProofs
  import ShifterProofs
  import StepProofs

  // ---- Examples/example1.s ----

  /** The loop of the program at base b: decr: SUBS, MOV PC,LR; loop: BL decr, BNE loop. */
  ghost predicate HoldsLoop(s: State, b: word)
  {
    && b % 4 == 0
    && s.Word(b) == 0xE250_0001
    && s.Word(Add(b, 4)) == 0xE1A0_F00E
    && s.Word(Add(b, 0xC)) == 0xEBFF_FFFB
    && s.Word(Add(b, 0x10)) == 0x1AFF_FFFD
  }

  /** The rest of the program: main: MOV r0,#5 before the loop, and SWI 0x123456 after it. */
  ghost predicate HoldsProgram(s: State, b: word)
  {
    HoldsLoop(s, b) && s.Word(Add(b, 8)) == 0xE3A0_0005 && s.Word(Add(b, 0x14)) == 0xEF12_3456
  }

  lemma SameProgram(s: State, t: State, b: word)
    requires t.bytes == s.bytes && t.big == s.big
    ensures HoldsLoop(s, b) == HoldsLoop(t, b) && HoldsProgram(s, b) == HoldsProgram(t, b)
  {
    hide WordAt, Add;
  }

  /** Displacements of the program's addresses from one another. */
  lemma Addresses(b: word)
    requires b % 4 == 0
    ensures b / 2 % 2 == 0 && Add(b, 0xC) / 2 % 2 == 0
    ensures Wrap(Add(b, 0xC) + 8 - 20) == b && Wrap(Add(b, 0x10) + 8 - 12) == Add(b, 0xC)
    ensures Add(Add(b, 8), 4) == Add(b, 0xC)
    ensures Add(Add(b, 0xC), 4) == Add(b, 0x10) && Add(Add(b, 0x10), 4) == Add(b, 0x14)
    ensures Add(b, 0x14) != b && Add(b, 0x14) != Add(b, 4)
    ensures Add(b, 0x14) != Add(b, 0xC) && Add(b, 0x14) != Add(b, 0x10)
  {
    hide Add;
    assert b / 2 % 2 == 0 by { assert b == 4 * (b / 4); }
    MovedByFours(b, 3);
    forall k: nat | k < 0x100
      ensures Add(b, k) == Wrap(b + k)
    {
      AddIsWrap(b, k);
    }
    WrapChain(b, 0xC, -12);
    WrapChain(b, 0x10, -4);
    WrapChain(b, 0xC, 4);
    WrapChain(b, 0x10, 4);
    WrapChain(b, 8, 4);
    Apart(b);
  }

  lemma WrapChain(b: word, k: int, d: int)
    ensures Wrap(Wrap(b + k) + d) == Wrap(b + k + d) && Add(Wrap(b + k), d) == Wrap(b + k + d) && Wrap(b) == b
  {
  }

  lemma Apart(b: word)
    ensures Wrap(b + 0x14) != b && Wrap(b + 0x14) != Wrap(b + 4) && Wrap(b + 0x14) != Wrap(b + 0xC)
    ensures Wrap(b + 0x14) != Wrap(b + 0x10)
  {
  }

  /** BL decr, at the loop. */
  lemma CallStep(s: State, b: word, stale: byte)
    requires HoldsLoop(s, b) && s.FetchAddress() == Add(b, 0xC)
    ensures var t := Step(s, stale).state;
            && Step(s, stale).Running? && t.FetchAddress() == b && t.Reg(0) == s.Reg(0) && t.Cpsr() == s.Cpsr()
            && t.Reg(14) == Add(b, 0x10) && HoldsLoop(t, b) && t.bytes == s.bytes && t.big == s.big
  {
    hide Step, Add, Wrap, State.Reg, State.FetchAddress, WordAt, ConditionCode, CellOf, ModeOf;
    EncodingProofs.HighFields(0xEBFF_FFFB, 0xEBF);
    StepProofs.AlwaysPasses(s, 0xEBFF_FFFB);
    Addresses(b);
    TakenBranch(s, stale);
    JumpReads(s, Step(s, stale).state, true, Add(b, 0x10), b, 0);
    SameProgram(s, Step(s, stale).state, b);
  }

  /** SUBS r0,r0,#1. */
  lemma SubsStep(s: State, b: word, stale: byte)
    requires HoldsLoop(s, b) && s.FetchAddress() == b
    ensures var t := Step(s, stale).state;
            && Step(s, stale).Running? && t.FetchAddress() == Add(b, 4) && t.Reg(0) == Sub(s.Reg(0), 1)
            && (FlagZ(t.Cpsr()) == 1 <==> s.Reg(0) == 1)
            && t.Reg(14) == s.Reg(14) && HoldsLoop(t, b) && t.bytes == s.bytes && t.big == s.big
  {
    hide Add, Wrap, State.Reg, State.FetchAddress, WordAt, ConditionCode, DataProcessing.AfterDataProcessing,
      DataProcessing.Operand, FlagC, FlagN, FlagZ, FlagV, State.Fetched, Sub, ModeOf;
    var ins, f := 0xE250_0001, s.Fetched();
    EncodingProofs.HighFields(ins, 0xE25);
    SubsFields();
    StepProofs.AlwaysPasses(f, ins);
    ImmediateOne(f);
    FetchedKeeps(s, 0);
    FetchedKeeps(s, 14);
    FlagProofs.SubsCarry(f, ins, stale);
    DecodeProofs.DecodesAsDataProcessing(f, ins, stale);
    var t := DataProcessing.AfterDataProcessing(f, ins);
    assert Step(s, stale) == Running(t);
    NextAfter(s, t);
    MinusOne(s.Reg(0));
    SameProgram(s, t, b);
  }

  lemma SubsFields()
    ensures Rn(0xE250_0001) == 0 && Rd(0xE250_0001) == 0
  {
  }

  lemma ImmediateOne(s: State)
    ensures DataProcessing.Operand(s, 0xE250_0001).operand == 1
  {
    hide RotateRight;
    ShifterProofs.RotateByNothing(1);
  }

  lemma MinusOne(x: word)
    ensures Sub(x, 1) == 0 <==> x == 1
    ensures x > 0 ==> Sub(x, 1) == x - 1
  {
  }

  /** MOV PC,LR. */
  lemma ReturnStep(s: State, b: word, stale: byte)
    requires HoldsLoop(s, b) && s.FetchAddress() == Add(b, 4) && s.Reg(14) == Add(b, 0x10)
    ensures var t := Step(s, stale).state;
            && Step(s, stale).Running? && t.FetchAddress() == Add(b, 0x10)
            && t.Reg(0) == s.Reg(0) && t.Cpsr() == s.Cpsr() && HoldsLoop(t, b) && t.bytes == s.bytes && t.big == s.big
  {
    hide Step, Add, Wrap, State.Reg, State.FetchAddress, WordAt, ConditionCode, CellOf, ModeOf;
    EncodingProofs.HighFields(0xE1A0_F00E, 0xE1A);
    StepProofs.AlwaysPasses(s, 0xE1A0_F00E);
    Addresses(b);
    Return(s, stale, Add(b, 0xC));
    JumpReads(s, Step(s, stale).state, false, 0, Add(b, 0x10), 0);
    SameProgram(s, Step(s, stale).state, b);
  }

  /** BNE loop: back to the loop, or on past it when Z is set. */
  lemma BranchStep(s: State, b: word, stale: byte)
    requires HoldsLoop(s, b) && s.FetchAddress() == Add(b, 0x10)
    ensures var t := Step(s, stale).state;
            && Step(s, stale).Running?
            && t.FetchAddress() == (if FlagZ(s.Cpsr()) == 1 then Add(b, 0x14) else Add(b, 0xC))
            && t.Reg(0) == s.Reg(0) && t.Cpsr() == s.Cpsr() && HoldsLoop(t, b) && t.bytes == s.bytes && t.big == s.big
  {
    hide Step, Add, Wrap, State.Reg, State.FetchAddress, WordAt, FlagZ, FlagN, FlagC, FlagV, CellOf, ModeOf;
    var ins := 0x1AFF_FFFD;
    EncodingProofs.HighFields(ins, 0x1AF);
    Addresses(b);
    if FlagZ(s.Cpsr()) == 1 {
      FallThrough(s, stale);
    } else {
      TakenBranch(s, stale);
      JumpReads(s, Step(s, stale).state, false, 0, Add(b, 0xC), 0);
    }
    SameProgram(s, Step(s, stale).state, b);
  }

  /** A failed condition moves on to the next word. */
  lemma FallThrough(s: State, stale: byte)
    requires !s.Passed(NextWord(s)) && !Halts(NextWord(s))
    ensures var t := Step(s, stale).state;
            && Step(s, stale).Running? && t.FetchAddress() == Add(s.FetchAddress(), 4)
            && t.Reg(0) == s.Reg(0) && t.Cpsr() == s.Cpsr() && t.bytes == s.bytes && t.big == s.big
  {
    hide AfterInstruction, NextWord, Halts, State.FetchAddress, ConditionCode, Add, State.Fetched, State.Reg;
    FetchedKeeps(s, 0);
    StepProofs.FailedInstruction(s.Fetched(), NextWord(s), stale);
    NextAfter(s, s.Fetched());
  }

  /** One trip around the loop: four steps, none of which stands just after the loop before the last. */
  lemma Iteration(s: State, b: word, stales: seq<byte>)
    requires |stales| == 4 && HoldsLoop(s, b) && s.FetchAddress() == Add(b, 0xC)
    ensures var t := Run(s, stales).state;
            && Run(s, stales).Running? && HoldsLoop(t, b) && t.bytes == s.bytes && t.big == s.big
            && t.Reg(0) == Sub(s.Reg(0), 1) && (FlagZ(t.Cpsr()) == 1 <==> s.Reg(0) == 1)
            && t.FetchAddress() == if s.Reg(0) == 1 then Add(b, 0x14) else Add(b, 0xC)
    ensures forall n: nat | n < 4 ::
              Run(s, stales[..n]).Running? && Run(s, stales[..n]).state.FetchAddress() != Add(b, 0x14)
  {
    hide Step, State.Reg, State.FetchAddress, Add, Sub, HoldsLoop, FlagZ, Run;
    var t1 := Step(s, stales[0]).state;
    CallStep(s, b, stales[0]);
    var t2 := Step(t1, stales[1]).state;
    SubsStep(t1, b, stales[1]);
    var t3 := Step(t2, stales[2]).state;
    ReturnStep(t2, b, stales[2]);
    BranchStep(t3, b, stales[3]);
    FourSteps(s, stales);
    assert b % 4 == 0 by { LoopAligned(s, b); }
    Addresses(b);
  }

  lemma LoopAligned(s: State, b: word)
    requires HoldsLoop(s, b)
    ensures b % 4 == 0
  {
  }

  /** Unrolls a run of up to four steps. */
  lemma FourSteps(s: State, x: seq<byte>)
    requires |x| == 4 && Step(s, x[0]).Running? && Step(Step(s, x[0]).state, x[1]).Running?
    requires Step(Step(Step(s, x[0]).state, x[1]).state, x[2]).Running?
    ensures var t1 := Step(s, x[0]).state; var t2 := Step(t1, x[1]).state; var t3 := Step(t2, x[2]).state;
            && Run(s, x[..0]) == Running(s) && Run(s, x[..1]) == Running(t1) && Run(s, x[..2]) == Running(t2)
            && Run(s, x[..3]) == Running(t3) && Run(s, x) == Step(t3, x[3])
  {
    hide Step;
    assert x[..1] == [x[0]] && x[..2] == [x[0], x[1]] && x[..3] == [x[0], x[1], x[2]] && x == [x[0], x[1], x[2], x[3]];
    var t1 := Step(s, x[0]).state;
    var t2 := Step(t1, x[1]).state;
    var t3 := Step(t2, x[2]).state;
    StepProofs.RunCons(s, x[0], []);
    StepProofs.RunCons(s, x[0], [x[1]]);
    StepProofs.RunCons(s, x[0], [x[1], x[2]]);
    StepProofs.RunCons(s, x[0], [x[1], x[2], x[3]]);
    StepProofs.RunCons(t1, x[1], []);
    StepProofs.RunCons(t1, x[1], [x[2]]);
    StepProofs.RunCons(t1, x[1], [x[2], x[3]]);
    StepProofs.RunCons(t2, x[2], []);
    StepProofs.RunCons(t2, x[2], [x[3]]);
    StepProofs.RunCons(t3, x[3], []);
  }

  /**
   * From the loop with r0 = k, for any 1 <= k < 2^32, exactly 4k steps reach the word after it, with r0 = 0 and Z set;
   * no shorter run stands there.
   */
  lemma {:induction false} LoopRunsFourKSteps(s: State, b: word, stales: seq<byte>)
    requires HoldsLoop(s, b) && s.FetchAddress() == Add(b, 0xC)
    requires s.Reg(0) >= 1 && |stales| == 4 * s.Reg(0)
    ensures var t := Run(s, stales).state;
            && Run(s, stales).Running? && t.FetchAddress() == Add(b, 0x14)
            && t.Reg(0) == 0 && FlagZ(t.Cpsr()) == 1 && t.bytes == s.bytes && t.big == s.big
    ensures forall n: nat | n < |stales| ::
              Run(s, stales[..n]).Running? && Run(s, stales[..n]).state.FetchAddress() != Add(b, 0x14)
    decreases s.Reg(0)
  {
    hide Step, State.Reg, State.FetchAddress, Add, Sub, HoldsLoop, FlagZ, Run;
    var first, rest := stales[..4], stales[4..];
    assert stales == first + rest;
    Iteration(s, b, first);
    MinusOne(s.Reg(0));
    var t := Run(s, first).state;
    StepProofs.RunSplit(s, first, rest);
    if s.Reg(0) == 1 {
      assert stales == first;
    } else {
      LoopRunsFourKSteps(t, b, rest);
    }
    forall n: nat | n < |stales|
      ensures Run(s, stales[..n]).Running? && Run(s, stales[..n]).state.FetchAddress() != Add(b, 0x14)
    {
      if n < 4 {
        assert stales[..n] == first[..n];
      } else {
        assert stales[..n] == first + rest[..n - 4];
        StepProofs.RunSplit(s, first, rest[..n - 4]);
      }
    }
  }

  /** MOV r0,#5. */
  lemma MovStep(s: State, b: word, stale: byte)
    requires HoldsProgram(s, b) && s.FetchAddress() == Add(b, 8)
    ensures var t := Step(s, stale).state;
            && Step(s, stale).Running? && t.FetchAddress() == Add(b, 0xC) && t.Reg(0) == 5 && HoldsProgram(t, b)
  {
    hide Add, Wrap, State.Reg, State.FetchAddress, WordAt, ConditionCode, DataProcessing.Operand, State.Fetched, Sub,
      ModeOf, State.WithReg;
    var ins, f := 0xE3A0_0005, s.Fetched();
    EncodingProofs.HighFields(ins, 0xE3A);
    assert Rd(ins) == 0;
    StepProofs.AlwaysPasses(f, ins);
    FetchedKeeps(s, 0);
    var t := f.WithReg(0, 5);
    assert DataProcessing.Operand(f, ins).operand == 5 by { ImmediateFive(f); }
    assert Step(s, stale) == Running(t);
    ReadAfterWrite(f, 0, 5, 15);
    ReadAfterWrite(f, 0, 5, 0);
    StepProofs.WithRegOnly(f, 0, 5);
    NextAfter(s, t);
    Addresses(b);
    SameProgram(s, t, b);
  }

  lemma ImmediateFive(s: State)
    ensures DataProcessing.Operand(s, 0xE3A0_0005).operand == 5
  {
    hide RotateRight;
    ShifterProofs.RotateByNothing(5);
  }

  /** SWI 0x123456 exits. */
  lemma ExitStep(s: State, b: word, stale: byte)
    requires HoldsProgram(s, b) && s.FetchAddress() == Add(b, 0x14)
    ensures Step(s, stale).Halted? && Step(s, stale).state.Reg(0) == s.Reg(0)
  {
    hide Add, State.Reg, State.FetchAddress, WordAt, State.Fetched, AfterInstruction;
    EncodingProofs.HighFields(0xEF12_3456, 0xEF1);
    FetchedKeeps(s, 0);
  }

  /** The program from main, in any mode and with any other registers, exits at its 22nd step with r0 = 0. */
  lemma ProgramExits(s: State, b: word, stales: seq<byte>)
    requires HoldsProgram(s, b) && s.FetchAddress() == Add(b, 8) && |stales| == 22
    ensures Run(s, stales).Halted? && Run(s, stales).state.Reg(0) == 0
    ensures Run(s, stales[..21]).Running?
  {
    hide Step, State.Reg, State.FetchAddress, Add, HoldsProgram, FlagZ, Run;
    var loop := stales[1..21];
    var t := Step(s, stales[0]).state;
    MovStep(s, b, stales[0]);
    assert HoldsLoop(t, b) by { LoopOfProgram(t, b); }
    LoopRunsFourKSteps(t, b, loop);
    var u := Run(t, loop).state;
    SameProgram(t, u, b);
    ExitStep(u, b, stales[21]);
    assert stales == [stales[0]] + (loop + [stales[21]]) && stales[..21] == [stales[0]] + loop;
    StepProofs.RunCons(s, stales[0], loop + [stales[21]]);
    StepProofs.RunCons(s, stales[0], loop);
    StepProofs.RunSplit(t, loop, [stales[21]]);
    StepProofs.RunCons(u, stales[21], []);
  }

  lemma LoopOfProgram(s: State, b: word)
    requires HoldsProgram(s, b)
    ensures HoldsLoop(s, b)
  {
  }

  // ---- The program as an image ----

  /** The six words of the program, in order. */
  const IMAGE: seq<word> := [0xE250_0001, 0xE1A0_F00E, 0xE3A0_0005, 0xEBFF_FFFB, 0x1AFF_FFFD, 0xEF12_3456]

  /** Memory with consecutive words written from b on. */
  function Loaded(m: Bytes, big: bool, b: word, ws: seq<word>): (r: Bytes)
    ensures r.Keys == m.Keys
  {
    if ws == [] then m
    else PutWord(Loaded(m, big, b, ws[..|ws| - 1]), big, Add(b, 4 * (|ws| - 1)), ws[|ws| - 1])
  }

  lemma {:induction false} LoadedReads(m: Bytes, big: bool, b: word, ws: seq<word>, i: nat)
    requires |ws| <= 16 && i < |ws| && BlockTransferProofs.WordInRange(m, Add(b, 4 * i))
    ensures WordAt(Loaded(m, big, b, ws), big, Add(b, 4 * i)) == ws[i]
    decreases |ws|
  {
    hide PutWord, WordAt, Add, Sub;
    var n := |ws| - 1;
    var before := Loaded(m, big, b, ws[..n]);
    if i < n {
      LoadedReads(m, big, b, ws[..n], i);
      BlockTransferProofs.WordsApart(b, i, n);
      MemoryProofs.DisjointWords(before, big, Add(b, 4 * n), ws[n], Add(b, 4 * i));
    } else {
      MemoryProofs.WordInRangeReadsBack(before, big, Add(b, 4 * i), ws[i]);
    }
  }

  /** Loaded in range on any word boundary and started at main, the program exits at its 22nd step with r0 = 0. */
  lemma LoadedProgramExits(s: State, b: word, stales: seq<byte>)
    requires b % 4 == 0 && |stales| == 22
    requires forall i: nat | i < 6 :: BlockTransferProofs.WordInRange(s.bytes, Add(b, 4 * i))
    ensures var t := s.(bytes := Loaded(s.bytes, s.big, b, IMAGE)).WithReg(15, Add(b, 8));
            Run(t, stales).Halted? && Run(t, stales).state.Reg(0) == 0 && Run(t, stales[..21]).Running?
  {
    hide Loaded, WordAt, Add, Run, State.FetchAddress, State.Stored, State.Reg, BlockTransferProofs.WordInRange;
    var u := s.(bytes := Loaded(s.bytes, s.big, b, IMAGE));
    var t := u.WithReg(15, Add(b, 8));
    forall i: nat | i < 6
      ensures t.Word(Add(b, 4 * i)) == IMAGE[i]
    {
      LoadedReads(s.bytes, s.big, b, IMAGE, i);
    }
    AddNothing(b);
    assert t.Word(Add(b, 4 * 0)) == IMAGE[0] && t.Word(Add(b, 4 * 1)) == IMAGE[1] && t.Word(Add(b, 4 * 2)) == IMAGE[2];
    assert t.Word(Add(b, 4 * 3)) == IMAGE[3] && t.Word(Add(b, 4 * 4)) == IMAGE[4] && t.Word(Add(b, 4 * 5)) == IMAGE[5];
    ReadAfterWrite(u, 15, Add(b, 8), 15);
    MainAligned(b);
    FetchesFrom(t);
    ProgramExits(t, b, stales);
  }

  lemma MainAligned(b: word)
    requires b % 4 == 0
    ensures Add(b, 8) / 2 % 2 == 0
  {
    hide Add, Wrap;
    assert b / 2 % 2 == 0 by { assert b == 4 * (b / 4); }
    MovedByFours(b, 2);
    AddIsWrap(b, 8);
  }
}
