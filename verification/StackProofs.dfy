/** Programs of pushes (STR Rd,[Rn,#-4]!) and pops (LDR Rd,[Rn],#4) refine an abstract last-in first-out stack. */
module StackProofs {
  import opened Words
  import opened Encoding
  import opened RegisterFile
  import opened MemoryArea
  import opened Core
  import opened Instruction
  import FetchProofs
  import EncodingProofs
  import IndexingProofs
  import MemoryProofs
  import StepProofs

  // ---- Encoding ----

  datatype StackOp = Push(rd: RegNo) | Pop(rd: RegNo)

  function Encode(op: StackOp, rn: RegNo): word
  {
    match op
    case Push(rd) => 0xE520_0004 + rn * 0x1_0000 + rd * 0x1000
    case Pop(rd) => 0xE490_0004 + rn * 0x1_0000 + rd * 0x1000
  }

  lemma LowFields(k: nat, rn: RegNo, rd: RegNo, lo: nat)
    requires k < 0x1000 && lo < 0x1000
    ensures var ins := k * 0x10_0000 + rn * 0x1_0000 + rd * 0x1000 + lo;
            ins / 0x10_0000 == k && Rn(ins) == rn && Rd(ins) == rd && Offset12(ins) == lo
  {
    var ins: word := k * 0x10_0000 + rn * 0x1_0000 + rd * 0x1000 + lo;
    DivUnique(ins, 0x10_0000, k, rn * 0x1_0000 + rd * 0x1000 + lo);
    assert Rn(ins) == rn by {
      DivUnique(ins, 0x1_0000, k * 16 + rn, rd * 0x1000 + lo);
      DivUnique(k * 16 + rn, 16, k, rn);
    }
    assert Rd(ins) == rd && Offset12(ins) == lo by {
      DivUnique(ins, 0x1000, k * 0x100 + rn * 16 + rd, lo);
      DivUnique(k * 0x100 + rn * 16 + rd, 16, k * 16 + rn, rd);
    }
  }

  lemma PushFields(rn: RegNo, rd: RegNo)
    ensures var ins := Encode(Push(rd), rn);
            && Rn(ins) == rn && Rd(ins) == rd && Offset12(ins) == 4 && CondField(ins) == 14 && TypeField(ins) == 2
            && IBit(ins) == 0 && BBit(ins) == 0 && PBit(ins) == 1 && UBit(ins) == 0 && WBit(ins) == 1 && LBit(ins) == 0
  {
    hide PBit, WBit, UBit, BBit, LBit, TypeField, Rn, Rd, IBit, Offset12, CondField, Opcode;
    LowFields(0xE52, rn, rd, 4);
    EncodingProofs.HighFields(Encode(Push(rd), rn), 0xE52);
  }

  lemma PopFields(rn: RegNo, rd: RegNo)
    ensures var ins := Encode(Pop(rd), rn);
            && Rn(ins) == rn && Rd(ins) == rd && Offset12(ins) == 4 && CondField(ins) == 14 && TypeField(ins) == 2
            && IBit(ins) == 0 && BBit(ins) == 0 && PBit(ins) == 0 && UBit(ins) == 1 && WBit(ins) == 0 && LBit(ins) == 1
  {
    hide PBit, WBit, UBit, BBit, LBit, TypeField, Rn, Rd, IBit, Offset12, CondField, Opcode;
    LowFields(0xE49, rn, rd, 4);
    EncodingProofs.HighFields(Encode(Pop(rd), rn), 0xE49);
  }

  // ---- One step ----

  /** t is s one word further on, with at most the named registers changed. */
  ghost predicate NextWithChanged(s: State, t: State, changed: set<nat>)
  {
    && t.FetchAddress() == Add(s.FetchAddress(), 4) && t.Cpsr() == s.Cpsr() && t.big == s.big
    && forall r: RegNo | r != 15 && r !in changed :: t.Reg(r) == s.Reg(r)
  }

  lemma PushStep(s: State, rn: RegNo, rd: RegNo, stale: byte)
    requires rn != 15 && rd != 15 && NextWord(s) == Encode(Push(rd), rn)
    ensures var t := Step(s, stale).state;
            && Step(s, stale).Running? && NextWithChanged(s, t, {rn})
            && t.bytes == PutWord(s.bytes, s.big, Sub(s.Reg(rn), 4), s.Reg(rd))
            && t.Reg(rn) == Sub(s.Reg(rn), 4)
  {
    hide ConditionCode, PBit, WBit, UBit, BBit, LBit, TypeField, Rn, Rd, IBit, Offset12, Encode, AfterInstruction,
      Add, Sub, PutWord, State.Reg, State.Stored, CondField, State.Fetched, NextWord, State.FetchAddress,
      State.WithReg;
    var ins, f, base := NextWord(s), s.Fetched(), s.Reg(rn);
    PushFields(rn, rd);
    StepProofs.AlwaysPasses(f, ins);
    FetchProofs.FetchedKeeps(s, rn);
    FetchProofs.FetchedKeeps(s, rd);
    IndexingProofs.ImmediateIndex(f, ins);
    IndexingProofs.StoreIndexing(f, ins, stale);
    var moved := Sub(base, 4);
    var u := f.(bytes := PutWord(s.bytes, s.big, moved, s.Reg(rd)));
    assert Step(s, stale) == Running(u.WithReg(rn, moved));
    StepProofs.WithRegOnly(u, rn, moved);
    Onward(s, u, rn, moved);
  }

  /** From a fetched state with changed memory, writing rn keeps the rest and moves on to the next word. */
  lemma Onward(s: State, u: State, rn: RegNo, v: word)
    requires rn != 15 && u.cells == s.Fetched().cells && u.big == s.big
    ensures NextWithChanged(s, u.WithReg(rn, v), {rn}) && u.WithReg(rn, v).Reg(rn) == v
  {
    hide State.Reg, State.Stored, State.Fetched, State.FetchAddress, Add, ModeOf, ClearBit1;
    var f, t := s.Fetched(), u.WithReg(rn, v);
    forall r: RegNo
      ensures u.Reg(r) == f.Reg(r) && u.Cpsr() == f.Cpsr()
      ensures r != rn ==> t.Reg(r) == f.Reg(r)
      ensures r != 15 ==> f.Reg(r) == s.Reg(r)
      ensures t.Cpsr() == s.Cpsr()
    {
      SameCells(f, u, r);
      ReadAfterWrite(u, rn, v, r);
      FetchProofs.FetchedKeeps(s, r);
    }
    ReadAfterWrite(u, rn, v, rn);
    FetchProofs.NextAfter(s, t);
  }

  lemma PopStep(s: State, rn: RegNo, rd: RegNo, stale: byte)
    requires rn != 15 && rd != 15 && rd != rn && NextWord(s) == Encode(Pop(rd), rn)
    ensures var t := Step(s, stale).state;
            && Step(s, stale).Running? && NextWithChanged(s, t, {rn, rd}) && t.bytes == s.bytes
            && t.Reg(rd) == s.Word(s.Reg(rn)) && t.Reg(rn) == Add(s.Reg(rn), 4)
  {
    hide ConditionCode, PBit, WBit, UBit, BBit, LBit, TypeField, Rn, Rd, IBit, Offset12, Encode, AfterInstruction,
      Add, Sub, WordAt, State.Reg, State.Stored, CondField, State.Fetched, NextWord, State.FetchAddress,
      State.WithReg;
    var ins, f, base := NextWord(s), s.Fetched(), s.Reg(rn);
    PopFields(rn, rd);
    StepProofs.AlwaysPasses(f, ins);
    FetchProofs.FetchedKeeps(s, rn);
    IndexingProofs.ImmediateIndex(f, ins);
    IndexingProofs.LoadIndexing(f, ins, stale);
    SameWord(s, f, base);
    var v, moved := s.Word(base), Add(base, 4);
    var u := f.WithReg(rd, v);
    assert Step(s, stale) == Running(u.WithReg(rn, moved));
    StepProofs.WithRegOnly(f, rd, v);
    StepProofs.WithRegOnly(u, rn, moved);
    Onward(s, f, rd, v);
    OnwardTwice(s, u, rd, rn, moved);
  }

  lemma OnwardTwice(s: State, u: State, rd: RegNo, rn: RegNo, v: word)
    requires rn != 15 && rd != rn && NextWithChanged(s, u, {rd})
    ensures NextWithChanged(s, u.WithReg(rn, v), {rn, rd})
    ensures u.WithReg(rn, v).Reg(rn) == v && u.WithReg(rn, v).Reg(rd) == u.Reg(rd)
  {
    hide State.Reg, State.Stored, Add, Sub, ModeOf, ClearBit1;
    var t := u.WithReg(rn, v);
    forall r: RegNo
      ensures r != rn ==> t.Reg(r) == u.Reg(r)
      ensures t.Cpsr() == u.Cpsr()
    {
      ReadAfterWrite(u, rn, v, r);
    }
    ReadAfterWrite(u, rn, v, rn);
  }

  // ---- The abstract stack machine ----

  /** Sixteen register values and a stack, bottom first. */
  datatype Machine = Machine(regs: Bank, stack: seq<word>)

  function Perform(m: Machine, op: StackOp): Machine
    requires op.Pop? ==> m.stack != []
  {
    match op
    case Push(rd) => Machine(m.regs, m.stack + [m.regs[rd]])
    case Pop(rd) => Machine(m.regs[rd := m.stack[|m.stack| - 1]], m.stack[..|m.stack| - 1])
  }

  function Change(op: StackOp): int { if op.Push? then 1 else -1 }

  /** The depth a sequence adds to the stack. */
  function Growth(ops: seq<StackOp>): int { if ops == [] then 0 else Change(ops[0]) + Growth(ops[1..]) }

  /** From a stack of depth d the sequence never pops below depth 0 nor grows beyond cap. */
  predicate Fits(d: int, ops: seq<StackOp>, cap: nat)
    decreases |ops|
  {
    0 <= d <= cap && (ops != [] ==> Fits(d + Change(ops[0]), ops[1..], cap))
  }

  lemma FitsUnfold(d: int, ops: seq<StackOp>, cap: nat)
    requires Fits(d, ops, cap)
    ensures 0 <= d <= cap
    ensures ops != [] ==> Fits(d + Change(ops[0]), ops[1..], cap) && 0 <= d + Change(ops[0]) <= cap
  {
  }

  function PerformAll(m: Machine, ops: seq<StackOp>, cap: nat): (r: Machine)
    requires Fits(|m.stack|, ops, cap)
    ensures |r.stack| == |m.stack| + Growth(ops)
    decreases |ops|
  {
    FitsUnfold(|m.stack|, ops, cap);
    if ops == [] then m else PerformAll(Perform(m, ops[0]), ops[1..], cap)
  }

  // ---- What the simulator must hold ----

  /** Every step of the run finds the next operation, encoded, at its fetch address. */
  ghost predicate Executes(s: State, rn: RegNo, ops: seq<StackOp>, stales: seq<byte>)
    decreases |ops|
  {
    hide Step, NextWord, Encode;
    && |stales| == |ops|
    && (ops != [] ==>
          NextWord(s) == Encode(ops[0], rn) && Executes(Step(s, stales[0]).state, rn, ops[1..], stales[1..]))
  }

  /** Neither the stack pointer nor R15 is pushed or popped. */
  predicate Transfers(ops: seq<StackOp>, rn: RegNo)
  {
    rn != 15 && forall i :: 0 <= i < |ops| ==> ops[i].rd != 15 && ops[i].rd != rn
  }

  /** The address of the k-th stacked word, downwards from the base, modulo 2^32. */
  function Slot(base: word, k: nat): word { Sub(base, 4 * (k + 1)) }

  /** The 4 * cap bytes below the base, modulo 2^32. */
  predicate InRoom(base: word, cap: nat, a: word) { Sub(a, Sub(base, 4 * cap)) < 4 * cap }

  /** They are all in range and do not overlap themselves. */
  ghost predicate Room(m: Bytes, base: word, cap: nat)
  {
    cap <= 0x4000_0000 && forall a: word | InRoom(base, cap, a) :: a in m
  }

  /** The concrete state shows the abstract one in every register but R15, and in the stacked words. */
  ghost predicate Represents(t: State, m: Machine, rn: RegNo, base: word)
  {
    && t.Reg(rn) == Sub(base, 4 * |m.stack|)
    && (forall r: RegNo | r != rn && r != 15 :: t.Reg(r) == m.regs[r])
    && (forall k: nat | k < |m.stack| :: t.Word(Slot(base, k)) == m.stack[k])
  }

  /** Bytes outside the room are as before. */
  ghost predicate KeepsOutside(s: State, t: State, base: word, cap: nat)
  {
    t.bytes.Keys == s.bytes.Keys && forall a | a in s.bytes && !InRoom(base, cap, a) :: t.bytes[a] == s.bytes[a]
  }

  // ---- Slots ----

  lemma SlotBytes(base: word, cap: nat, k: nat, i: nat)
    requires k < cap <= 0x4000_0000 && i < 4
    ensures InRoom(base, cap, Add(Slot(base, k), i))
  {
    hide Wrap;
    var x, y := base - 4 * (k + 1), base - 4 * cap;
    WrapAdd(x, i);
    WrapDifference(x + i, y);
    assert x + i - y == 4 * (cap - k - 1) + i;
    WrapWord(4 * (cap - k - 1) + i);
  }

  lemma SlotsApart(base: word, k: nat, n: nat)
    requires k < n < 0x4000_0000
    ensures 4 <= Sub(Slot(base, k), Slot(base, n)) <= 0xFFFF_FFFC
  {
    hide Wrap;
    var x, y := base - 4 * (k + 1), base - 4 * (n + 1);
    WrapDifference(x, y);
    assert x - y == 4 * (n - k);
    WrapWord(4 * (n - k));
  }

  /** The stack pointer before a push, and after a pop. */
  lemma SlotSteps(base: word, n: nat)
    ensures Sub(Sub(base, 4 * n), 4) == Slot(base, n) == Sub(base, 4 * (n + 1))
    ensures Add(Sub(base, 4 * (n + 1)), 4) == Sub(base, 4 * n)
  {
    hide Wrap;
    WrapAdd(base - 4 * n, 4);
    WrapAdd(base - 4 * (n + 1), 4);
  }

  // ---- Refinement of one operation ----

  lemma PushedWord(m: Bytes, big: bool, n: nat, v: word, base: word, cap: nat)
    requires Room(m, base, cap) && n < cap
    ensures WordAt(PutWord(m, big, Slot(base, n), v), big, Slot(base, n)) == v
  {
    hide WordAt, WordByte, Slot, InRoom, PutWord;
    SlotBytes(base, cap, n, 0);
    SlotBytes(base, cap, n, 1);
    SlotBytes(base, cap, n, 2);
    SlotBytes(base, cap, n, 3);
    MemoryProofs.WordInRangeReadsBack(m, big, Slot(base, n), v);
  }

  /** A push writes inside the room only. */
  lemma PushedInside(m: Bytes, big: bool, n: nat, v: word, base: word, cap: nat, a: word)
    requires n < cap <= 0x4000_0000 && a in m && !InRoom(base, cap, a)
    ensures PutWord(m, big, Slot(base, n), v)[a] == m[a]
  {
    hide WordByte, Slot, InRoom, Sub;
    var i := Sub(a, Slot(base, n));
    if i < 4 {
      OffsetOf(a, Slot(base, n), i);
      SlotBytes(base, cap, n, i);
    }
  }

  lemma RepresentsPush(s: State, t: State, m: Machine, rn: RegNo, rd: RegNo, base: word, cap: nat)
    requires |m.stack| < cap && Room(s.bytes, base, cap) && Represents(s, m, rn, base)
    requires rd != rn && rd != 15 && NextWithChanged(s, t, {rn})
    requires t.bytes == PutWord(s.bytes, s.big, Sub(s.Reg(rn), 4), s.Reg(rd)) && t.Reg(rn) == Sub(s.Reg(rn), 4)
    ensures Represents(t, Perform(m, Push(rd)), rn, base) && KeepsOutside(s, t, base, cap)
  {
    hide PutWord, WordAt, State.Reg, Sub, Add, State.FetchAddress, Slot, InRoom, ModeOf;
    var n := |m.stack|;
    SlotSteps(base, n);
    PushedWord(s.bytes, s.big, n, s.Reg(rd), base, cap);
    forall k: nat | k < n
      ensures t.Word(Slot(base, k)) == m.stack[k]
    {
      SlotsApart(base, k, n);
      MemoryProofs.DisjointWords(s.bytes, s.big, Slot(base, n), s.Reg(rd), Slot(base, k));
      assert s.Word(Slot(base, k)) == m.stack[k];
    }
    forall a | a in s.bytes && !InRoom(base, cap, a)
      ensures t.bytes[a] == s.bytes[a]
    {
      PushedInside(s.bytes, s.big, n, s.Reg(rd), base, cap, a);
    }
  }

  lemma RepresentsPop(s: State, t: State, m: Machine, rn: RegNo, rd: RegNo, base: word)
    requires m.stack != [] && Represents(s, m, rn, base)
    requires rd != rn && NextWithChanged(s, t, {rn, rd}) && t.bytes == s.bytes
    requires t.Reg(rd) == s.Word(s.Reg(rn)) && t.Reg(rn) == Add(s.Reg(rn), 4)
    ensures Represents(t, Perform(m, Pop(rd)), rn, base)
  {
    hide WordAt, State.Reg, Sub, Add, State.FetchAddress, ModeOf;
    var n := |m.stack| - 1;
    SlotSteps(base, n);
    assert s.Word(Slot(base, n)) == m.stack[n];
    forall k: nat | k < n
      ensures t.Word(Slot(base, k)) == m.stack[k]
    {
      assert s.Word(Slot(base, k)) == m.stack[k];
    }
  }

  /** One step on the next operation of a fitting sequence. */
  lemma OneOperation(s: State, rn: RegNo, op: StackOp, m: Machine, base: word, cap: nat, stale: byte)
    requires 0 <= |m.stack| + Change(op) <= cap && rn != 15 && op.rd != 15 && op.rd != rn
    requires Room(s.bytes, base, cap) && Represents(s, m, rn, base) && NextWord(s) == Encode(op, rn)
    ensures var t := Step(s, stale).state;
            && Step(s, stale).Running? && Represents(t, Perform(m, op), rn, base) && KeepsOutside(s, t, base, cap)
            && t.FetchAddress() == Add(s.FetchAddress(), 4) && t.Cpsr() == s.Cpsr() && t.big == s.big
  {
    hide Step, Encode, NextWord, State.Reg, State.Word, PutWord, Add, Sub, Represents, Room, State.FetchAddress, InRoom;
    match op
    case Push(rd) =>
      PushStep(s, rn, rd, stale);
      RepresentsPush(s, Step(s, stale).state, m, rn, rd, base, cap);
    case Pop(rd) =>
      PopStep(s, rn, rd, stale);
      RepresentsPop(s, Step(s, stale).state, m, rn, rd, base);
  }

  lemma SameRoom(s: State, t: State, base: word, cap: nat)
    requires Room(s.bytes, base, cap) && t.bytes.Keys == s.bytes.Keys
    ensures Room(t.bytes, base, cap)
  {
    hide InRoom;
    forall a: word | InRoom(base, cap, a)
      ensures a in t.bytes
    {
      assert a in s.bytes.Keys;
    }
  }

  // ---- Refinement of whole runs ----

  /**
   * A run of the simulator over any fitting sequence of pushes and pops is the abstract machine's run: it never exits,
   * represents the abstract result, writes inside the stack's room only and ends just after the sequence.
   */
  lemma {:induction false} StackRefinement(s: State, rn: RegNo, ops: seq<StackOp>, m: Machine, base: word, cap: nat,
                                           stales: seq<byte>)
    requires Fits(|m.stack|, ops, cap) && Transfers(ops, rn) && Executes(s, rn, ops, stales)
    requires Room(s.bytes, base, cap) && Represents(s, m, rn, base)
    ensures var t := Run(s, stales).state;
            && Run(s, stales).Running? && Represents(t, PerformAll(m, ops, cap), rn, base)
            && KeepsOutside(s, t, base, cap) && t.FetchAddress() == Add(s.FetchAddress(), 4 * |ops|)
            && t.Cpsr() == s.Cpsr() && t.big == s.big
    decreases |ops|
  {
    hide Step, Encode, NextWord, State.Reg, State.Word, Add, Represents, Room, State.FetchAddress, InRoom, Fits,
      Perform;
    FitsUnfold(|m.stack|, ops, cap);
    if ops == [] {
      AddNothing(s.FetchAddress());
    } else {
      var op, t := ops[0], Step(s, stales[0]).state;
      OneOperation(s, rn, op, m, base, cap, stales[0]);
      SameRoom(s, t, base, cap);
      PerformDepth(m, op);
      StackRefinement(t, rn, ops[1..], Perform(m, op), base, cap, stales[1..]);
      AddAdd(s.FetchAddress(), 4, 4 * |ops[1..]|);
    }
  }

  lemma PerformDepth(m: Machine, op: StackOp)
    requires op.Pop? ==> m.stack != []
    ensures |Perform(m, op).stack| == |m.stack| + Change(op)
  {
  }

  /** The sixteen registers as an instruction reads them. */
  function RegistersOf(s: State): Bank { seq(16, (i: nat) requires i < 16 => s.Reg(i)) }

  lemma StartsEmpty(s: State, rn: RegNo)
    ensures Represents(s, Machine(RegistersOf(s), []), rn, s.Reg(rn))
  {
    hide State.Reg;
    WrapWord(s.Reg(rn));
  }

  /** A balanced sequence on an empty stack brings Rn back, with the registers the abstract stack gives. */
  lemma BalancedSequence(s: State, rn: RegNo, ops: seq<StackOp>, cap: nat, stales: seq<byte>)
    requires Fits(0, ops, cap) && Growth(ops) == 0 && Transfers(ops, rn) && Executes(s, rn, ops, stales)
    requires Room(s.bytes, s.Reg(rn), cap)
    ensures var t := Run(s, stales).state;
            && Run(s, stales).Running? && t.Reg(rn) == s.Reg(rn)
            && forall r: RegNo | r != rn && r != 15 ::
                 t.Reg(r) == PerformAll(Machine(RegistersOf(s), []), ops, cap).regs[r]
  {
    hide State.Reg, Fits, Growth, Executes, Transfers, Room, Run, State.FetchAddress, InRoom, PerformAll, RegistersOf,
      Add;
    StartsEmpty(s, rn);
    StackRefinement(s, rn, ops, Machine(RegistersOf(s), []), s.Reg(rn), cap, stales);
    WrapWord(s.Reg(rn));
  }

  // ---- Straight-line code ----

  /** The sequence lies encoded in memory from a on. */
  ghost predicate HoldsCode(s: State, a: word, rn: RegNo, ops: seq<StackOp>)
    decreases |ops|
  {
    hide Encode, State.Word;
    ops == [] || (s.Word(a) == Encode(ops[0], rn) && HoldsCode(s, Add(a, 4), rn, ops[1..]))
  }

  /** None of the n words from a on reaches into the room. */
  ghost predicate ClearOfRoom(a: word, n: nat, base: word, cap: nat)
  {
    forall i: nat | i < 4 * n :: !InRoom(base, cap, Add(a, i))
  }

  lemma {:induction false} CodeKept(s: State, t: State, a: word, rn: RegNo, ops: seq<StackOp>, base: word, cap: nat)
    requires HoldsCode(s, a, rn, ops) && ClearOfRoom(a, |ops|, base, cap)
    requires KeepsOutside(s, t, base, cap) && t.big == s.big
    ensures HoldsCode(t, a, rn, ops)
    decreases |ops|
  {
    hide Encode, WordAt, InRoom, Add, Sub;
    if ops != [] {
      WordKept(s, t, a, |ops|, base, cap);
      ClearAfter(a, |ops|, base, cap);
      CodeKept(s, t, Add(a, 4), rn, ops[1..], base, cap);
    }
  }

  lemma ClearAfter(a: word, n: nat, base: word, cap: nat)
    requires n > 0 && ClearOfRoom(a, n, base, cap)
    ensures ClearOfRoom(Add(a, 4), n - 1, base, cap)
  {
    hide InRoom, Add;
    forall i: nat | i < 4 * (n - 1)
      ensures !InRoom(base, cap, Add(Add(a, 4), i))
    {
      AddAdd(a, 4, i);
      assert !InRoom(base, cap, Add(a, 4 + i));
    }
  }

  lemma WordKept(s: State, t: State, a: word, n: nat, base: word, cap: nat)
    requires n > 0 && ClearOfRoom(a, n, base, cap) && KeepsOutside(s, t, base, cap) && t.big == s.big
    ensures t.Word(a) == s.Word(a)
  {
    hide InRoom, Add, Sub;
    AddNothing(a);
    assert !InRoom(base, cap, Add(a, 0)) && !InRoom(base, cap, Add(a, 1));
    assert !InRoom(base, cap, Add(a, 2)) && !InRoom(base, cap, Add(a, 3));
    assert forall b: word :: b in t.bytes <==> b in s.bytes.Keys;
  }

  /** Code that lies clear of the stack is never overwritten by it, so the run executes all of it in order. */
  lemma {:induction false} CodeExecutes(s: State, rn: RegNo, ops: seq<StackOp>, m: Machine, base: word, cap: nat,
                                        stales: seq<byte>)
    requires |stales| == |ops| && Fits(|m.stack|, ops, cap) && Transfers(ops, rn)
    requires HoldsCode(s, s.FetchAddress(), rn, ops) && ClearOfRoom(s.FetchAddress(), |ops|, base, cap)
    requires Room(s.bytes, base, cap) && Represents(s, m, rn, base)
    ensures Executes(s, rn, ops, stales)
    decreases |ops|
  {
    hide Step, Encode, State.Reg, State.Word, Add, Sub, Represents, Room, State.FetchAddress, InRoom, Fits, Perform,
      ClearOfRoom, KeepsOutside;
    FitsUnfold(|m.stack|, ops, cap);
    if ops != [] {
      var op, a, t := ops[0], s.FetchAddress(), Step(s, stales[0]).state;
      OneOperation(s, rn, op, m, base, cap, stales[0]);
      KeysKept(s, t, base, cap);
      SameRoom(s, t, base, cap);
      PerformDepth(m, op);
      ClearAfter(a, |ops|, base, cap);
      CodeKept(s, t, Add(a, 4), rn, ops[1..], base, cap);
      CodeExecutes(t, rn, ops[1..], Perform(m, op), base, cap, stales[1..]);
    }
  }

  /** The same as a statement about a loaded program: balanced straight-line code clear of the stack runs to its end. */
  lemma BalancedProgram(s: State, rn: RegNo, ops: seq<StackOp>, cap: nat, stales: seq<byte>)
    requires |stales| == |ops| && Fits(0, ops, cap) && Growth(ops) == 0 && Transfers(ops, rn)
    requires HoldsCode(s, s.FetchAddress(), rn, ops) && ClearOfRoom(s.FetchAddress(), |ops|, s.Reg(rn), cap)
    requires Room(s.bytes, s.Reg(rn), cap)
    ensures var t := Run(s, stales).state;
            && Run(s, stales).Running? && t.Reg(rn) == s.Reg(rn)
            && t.FetchAddress() == Add(s.FetchAddress(), 4 * |ops|)
            && (forall r: RegNo | r != rn && r != 15 ::
                  t.Reg(r) == PerformAll(Machine(RegistersOf(s), []), ops, cap).regs[r])
  {
    hide State.Reg, Fits, Growth, Executes, Transfers, Room, Run, State.FetchAddress, InRoom, PerformAll, RegistersOf,
      Add, ClearOfRoom, HoldsCode;
    StartsEmpty(s, rn);
    CodeExecutes(s, rn, ops, Machine(RegistersOf(s), []), s.Reg(rn), cap, stales);
    StackRefinement(s, rn, ops, Machine(RegistersOf(s), []), s.Reg(rn), cap, stales);
    WrapWord(s.Reg(rn));
  }

  lemma KeysKept(s: State, t: State, base: word, cap: nat)
    requires KeepsOutside(s, t, base, cap)
    ensures t.bytes.Keys == s.bytes.Keys
  {
  }

  // ---- Saving a register across any balanced work ----

  /** What lies below the starting depth is never touched. */
  lemma {:induction false} BelowUntouched(m: Machine, below: seq<word>, ops: seq<StackOp>, cap: nat)
    requires Fits(|m.stack|, ops, cap)
    ensures Fits(|below + m.stack|, ops, |below| + cap)
    ensures PerformAll(Machine(m.regs, below + m.stack), ops, |below| + cap)
         == var r := PerformAll(m, ops, cap); Machine(r.regs, below + r.stack)
    decreases |ops|
  {
    FitsUnfold(|m.stack|, ops, cap);
    if ops != [] {
      var op, n := ops[0], Machine(m.regs, below + m.stack);
      assert Perform(n, op) == Machine(Perform(m, op).regs, below + Perform(m, op).stack);
      BelowUntouched(Perform(m, op), below, ops[1..], cap);
    }
  }

  /** A sequence followed by one more operation. */
  lemma {:induction false} PerformLast(m: Machine, ops: seq<StackOp>, op: StackOp, cap: nat)
    requires Fits(|m.stack|, ops, cap) && 0 <= |m.stack| + Growth(ops) + Change(op) <= cap
    ensures Fits(|m.stack|, ops + [op], cap)
    ensures PerformAll(m, ops + [op], cap) == Perform(PerformAll(m, ops, cap), op)
    ensures Growth(ops + [op]) == Growth(ops) + Change(op)
    decreases |ops|
  {
    FitsUnfold(|m.stack|, ops, cap);
    if ops == [] {
      assert [] + [op] == [op] && [op][1..] == [];
    } else {
      assert (ops + [op])[1..] == ops[1..] + [op];
      PerformLast(Perform(m, ops[0]), ops[1..], op, cap);
    }
  }

  /** The abstract machine: pushed before and popped after balanced work, a register is back, and so is the depth. */
  lemma SavedOnMachine(m: Machine, rd: RegNo, work: seq<StackOp>, cap: nat)
    requires m.stack == [] && Fits(0, work, cap) && Growth(work) == 0
    ensures var ops := [Push(rd)] + work + [Pop(rd)];
            Fits(0, ops, cap + 1) && Growth(ops) == 0 && PerformAll(m, ops, cap + 1).regs[rd] == m.regs[rd]
  {
    hide Fits, Growth, PerformAll;
    var n := Machine(m.regs, []);
    var pushed := Perform(m, Push(rd));
    assert pushed == Machine(m.regs, [m.regs[rd]] + n.stack);
    BelowUntouched(n, [m.regs[rd]], work, cap);
    PerformLast(pushed, work, Pop(rd), cap + 1);
    assert [Push(rd)] + work + [Pop(rd)] == [Push(rd)] + (work + [Pop(rd)]);
    PerformFirst(m, Push(rd), work + [Pop(rd)], cap + 1);
  }

  lemma PerformFirst(m: Machine, op: StackOp, ops: seq<StackOp>, cap: nat)
    requires |m.stack| <= cap && 0 <= |m.stack| + Change(op) && Fits(|m.stack| + Change(op), ops, cap)
    ensures Fits(|m.stack|, [op] + ops, cap) && Growth([op] + ops) == Change(op) + Growth(ops)
    ensures PerformAll(m, [op] + ops, cap) == PerformAll(Perform(m, op), ops, cap)
  {
    assert ([op] + ops)[1..] == ops;
  }

  /** A run that pushes a register, does any balanced work and pops it has its value back, and the stack pointer too. */
  lemma SavedAcross(s: State, rn: RegNo, rd: RegNo, work: seq<StackOp>, cap: nat, stales: seq<byte>)
    requires rd != 15 && rd != rn && Transfers(work, rn) && Fits(0, work, cap) && Growth(work) == 0
    requires Executes(s, rn, [Push(rd)] + work + [Pop(rd)], stales) && Room(s.bytes, s.Reg(rn), cap + 1)
    ensures var t := Run(s, stales).state;
            Run(s, stales).Running? && t.Reg(rd) == s.Reg(rd) && t.Reg(rn) == s.Reg(rn)
  {
    hide State.Reg, Fits, Growth, Executes, Room, Run, PerformAll;
    var ops := [Push(rd)] + work + [Pop(rd)];
    SavedOnMachine(Machine(RegistersOf(s), []), rd, work, cap);
    assert Transfers(ops, rn);
    BalancedSequence(s, rn, ops, cap + 1, stales);
  }
}
