/** LDM and STM: every register its own word, the end-address test, and a store followed by a load (section A5.4). */
module BlockTransferProofs {
  import opened Words
  import opened Encoding
  import opened RegisterFile
  import opened MemoryArea
  import opened Core
  import opened LoadStoreMultiple
  import opened Instruction
  import MemoryProofs
  import RegisterProofs
  import ShifterProofs
  import StepProofs

  // ---- The block ----

  /** Where the first word lies, as a displacement from the base, in the four forms IA, IB, DA and DB. */
  function First(ins: word): int
  {
    if UBit(ins) == 1 then 4 * PBit(ins) else 4 - 4 * PBit(ins) - 4 * ListSize(ins)
  }

  /** The address of the i-th word of the block. */
  function WordAddress(s: State, ins: word, i: nat): word { Wrap(s.Reg(Rn(ins)) + First(ins) + 4 * i) }

  /** The word an LDM loads into register i, if it is listed. */
  function ListedWord(s: State, ins: word, i: nat): word { WordAt(s.bytes, s.big, WordAddress(s, ins, Count(ins, i))) }

  lemma StartMeaning(s: State, ins: word, i: nat)
    ensures Add(StartAddress(s, ins), 4 * i) == WordAddress(s, ins, i)
    ensures s.Word(SlotAddress(ins, StartAddress(s, ins), i)) == ListedWord(s, ins, i)
  {
    hide Sub, Add, Count, State.Reg, Rn, PBit, UBit, WordAt;
    Displacements(s, s, ins, i);
    Displacements(s, s, ins, Count(ins, i));
    BeforeMeaning(StartAddress(s, ins), 4 * i, s.Reg(Rn(ins)) + First(ins) + 4 * i);
    BeforeMeaning(StartAddress(s, ins), 4 * Count(ins, i), s.Reg(Rn(ins)) + First(ins) + 4 * Count(ins, i));
  }

  lemma BeforeMeaning(a: word, k: nat, x: int)
    requires Sub(Add(a, k), 4) == Wrap(x - 4)
    ensures Add(a, k) == Wrap(x)
  {
    hide Wrap;
    WrapCancel(Add(a, k), x, -4);
    WrapWord(Add(a, k));
  }

  // ---- The load loop ----

  /** The cell a load writes for register i: the current mode's, or the user's. */
  function BankCell(s: State, i: RegNo, usr: bool): (c: nat)
    ensures c < 31
  {
    CellOf(if usr then 16 else s.Mode(), i)
  }

  lemma BankCellsDistinct(s: State, i: RegNo, j: RegNo, usr: bool)
    ensures BankCell(s, i, usr) == BankCell(s, j, usr) <==> i == j
  {
    hide CellOf, ModeOf;
    CellsDistinct(16, i, j);
    CellsDistinct(s.Mode(), i, j);
  }

  /** The listed registers below n hold their words in their bank; every other register of the bank is as before. */
  lemma {:induction false} LoadLoop(s: State, ins: word, start: word, n: nat, i: RegNo, usr: bool)
    requires n <= 15
    ensures LoadedUpTo(s, ins, start, n, usr).cells[BankCell(s, i, usr)]
         == if i < n && Listed(ins, i) then s.Word(SlotAddress(ins, start, i)) else s.cells[BankCell(s, i, usr)]
    decreases n
  {
    hide State.Word, Listed, SlotAddress, CellOf, UsrCellOf, ModeOf;
    if n > 0 {
      LoadLoop(s, ins, start, n - 1, i, usr);
      BankCellsDistinct(s, i, n - 1, usr);
      RegisterProofs.UsrIsMode16(n - 1);
    }
  }

  /** Cells outside the bank are never written. */
  lemma {:induction false} LoadLoopOutside(s: State, ins: word, start: word, n: nat, usr: bool, c: nat)
    requires n <= 15 && c < 37 && forall i: RegNo :: BankCell(s, i, usr) != c
    ensures LoadedUpTo(s, ins, start, n, usr).cells[c] == s.cells[c]
    decreases n
  {
    hide State.Word, Listed, SlotAddress, CellOf, UsrCellOf, ModeOf;
    if n > 0 {
      LoadLoopOutside(s, ins, start, n - 1, usr, c);
      assert BankCell(s, n - 1, usr) != c;
      RegisterProofs.UsrIsMode16(n - 1);
    }
  }

  /** Loading R15 as well changes the program counter and the T bit only. */
  lemma PcLoop(t: State, v: word)
    ensures t.PcLoaded(v).cells == t.cells[30 := ClearBit0(v)][31 := SetT(t.Cpsr(), v % 2)]
    ensures t.PcLoaded(v) == t.(cells := t.PcLoaded(v).cells) && t.PcLoaded(v).Mode() == t.Mode()
  {
    hide ModeOf, SetT;
    StepProofs.SetTMode(t.Cpsr(), v % 2);
  }

  /** What LDM(1) leaves in register i before any writeback: the i-th word of the list, or the old value. */
  function LoadedValue(s: State, ins: word, i: RegNo): word
  {
    if !Listed(ins, i) then s.Stored(i)
    else if i == 15 then ClearBit0(ListedWord(s, ins, 15))
    else ListedWord(s, ins, i)
  }

  /** All sixteen registers and the status word after the transfers of LDM(1), before any writeback. */
  lemma LoadedRegisters(s: State, ins: word, i: RegNo)
    ensures var t, w := Ldm1Loaded(s, ins), ListedWord(s, ins, 15);
            && t.Stored(i) == LoadedValue(s, ins, i)
            && t.Cpsr() == (if Listed(ins, 15) then SetT(s.Cpsr(), w % 2) else s.Cpsr())
            && t.Mode() == s.Mode() && t == s.(cells := t.cells)
  {
    hide State.Word, Listed, StartAddress, SetT, State.PcLoaded, CellOf, ModeOf, LoadedUpTo, ListedWord, SlotAddress;
    var start := StartAddress(s, ins);
    var t := LoadedUpTo(s, ins, start, 15, false);
    LoadLoop(s, ins, start, 15, i, false);
    StartMeaning(s, ins, i);
    StartMeaning(s, ins, 15);
    PcLoop(t, s.Word(SlotAddress(ins, start, 15)));
    PcCell(s.Mode(), i);
  }

  lemma LoadedOutside(s: State, ins: word, c: nat)
    requires c < 37 && c != 31 && forall i: RegNo :: CellOf(s.Mode(), i) != c
    ensures Ldm1Loaded(s, ins).cells[c] == s.cells[c]
  {
    hide State.Word, Listed, StartAddress, SetT, State.PcLoaded, Count, CellOf, ModeOf, LoadedUpTo, SlotAddress;
    var start := StartAddress(s, ins);
    var t := LoadedUpTo(s, ins, start, 15, false);
    assert forall i: RegNo :: BankCell(s, i, false) == CellOf(s.Mode(), i);
    LoadLoopOutside(s, ins, start, 15, false, c);
    PcLoop(t, s.Word(SlotAddress(ins, start, 15)));
    PcCell(s.Mode(), 15);
    assert CellOf(s.Mode(), 15) != c;
  }

  // ---- The end-address test ----

  lemma WrapNear(x: int, y: int)
    requires -0x1_0000_0000 < x - y < 0x1_0000_0000
    ensures Wrap(x) == Wrap(y) <==> x == y
  {
  }

  /** The address before the one after n words, and the end address, as displacements from the bases. */
  lemma Displacements(s: State, t: State, ins: word, n: nat)
    ensures Sub(Add(StartAddress(s, ins), 4 * n), 4) == Wrap(s.Reg(Rn(ins)) + First(ins) + 4 * n - 4)
    ensures EndAddress(t, ins) == Wrap(t.Reg(Rn(ins)) + First(ins) + 4 * ListSize(ins) - 4)
  {
    hide Add, Sub, Count, State.Reg, Rn, PBit, UBit;
    var b, base: int := s.Reg(Rn(ins)), t.Reg(Rn(ins));
    var size: int := ListSize(ins);
    StepBit(ins);
    Chain(b, 0, 4 * n);
    Chain(b, 4, 4 * n);
    Chain(b, -4 * size, 4 * n);
    Chain(b, 4 - 4 * size, 4 * n);
    Lowered(b, 4 * size);
    Chain(base, 0, 4 * size);
    Lowered(base, 4);
    WrapWord(base);
    assert Add(base, 4 * size) == Wrap(base + 4 * size) by { Lowered(base, -4 * size); }
  }

  lemma Chain(b: word, d: int, k: int)
    ensures Sub(Add(Add(b, d), k), 4) == Wrap(b + d + k - 4) && Sub(Add(b, k), 4) == Wrap(b + k - 4)
  {
    WrapAdd(b + d, k);
    WrapAdd(b + d + k, 4);
    WrapAdd(b + k, 4);
  }

  lemma Lowered(b: word, c: int)
    ensures Sub(b, c) == Wrap(b - c) == Add(b, -c) && Add(Sub(b, c), 4) == Add(b, 4 - c)
  {
    WrapAdd(b - c, 4);
  }

  lemma StepBit(ins: word)
    ensures PBit(ins) != 0 ==> PBit(ins) == 1
  {
  }

  /** The end-address test after n words, with the base as it reads then. */
  lemma EndTestMeaning(s: State, t: State, ins: word, n: nat)
    ensures EndsAt(t, ins, Add(StartAddress(s, ins), 4 * n))
       <==> Wrap(s.Reg(Rn(ins)) + 4 * n) == Wrap(t.Reg(Rn(ins)) + 4 * ListSize(ins))
  {
    hide Wrap, State.Reg, Rn, PBit, UBit, StartAddress, EndAddress, Add, Sub, Count, First;
    Displacements(s, t, ins, n);
    WrapCancel(s.Reg(Rn(ins)) + 4 * n, t.Reg(Rn(ins)) + 4 * ListSize(ins), First(ins) - 4);
  }

  /** With the base intact the test after n words passes exactly when the list names n registers. */
  lemma EndTest(s: State, t: State, ins: word, n: nat)
    requires n <= 16 && t.Reg(Rn(ins)) == s.Reg(Rn(ins))
    ensures EndsAt(t, ins, Add(StartAddress(s, ins), 4 * n)) <==> n == ListSize(ins)
  {
    hide Wrap, State.Reg, Rn, StartAddress, EndAddress, Add, Count;
    EndTestMeaning(s, t, ins, n);
    WrapNear(s.Reg(Rn(ins)) + 4 * n, s.Reg(Rn(ins)) + 4 * ListSize(ins));
  }

  /** After as many words as the list names the test passes exactly when the base still reads as it did. */
  lemma BaseTest(s: State, t: State, ins: word)
    ensures EndsAt(t, ins, SlotAddress(ins, StartAddress(s, ins), 16)) <==> t.Reg(Rn(ins)) == s.Reg(Rn(ins))
  {
    hide Wrap, State.Reg, Rn, StartAddress, EndAddress, Add, Count;
    EndTestMeaning(s, t, ins, ListSize(ins));
    WrapCancel(s.Reg(Rn(ins)), t.Reg(Rn(ins)), 4 * ListSize(ins));
    WrapWord(s.Reg(Rn(ins)));
    WrapWord(t.Reg(Rn(ins)));
  }

  /** The state after a load: the base moves up when W = 1 and it reads as before the transfers. */
  function LoadClosed(s: State, u: State, ins: word): State
  {
    if WBit(ins) == 1 && u.Reg(Rn(ins)) == s.Reg(Rn(ins))
    then u.WithReg(Rn(ins), Add(s.Reg(Rn(ins)), 4 * ListSize(ins)))
    else u
  }

  lemma ClosedMeaning(s: State, u: State, ins: word)
    ensures Closed(u, ins, SlotAddress(ins, StartAddress(s, ins), 16)) == LoadClosed(s, u, ins)
  {
    hide EndsAt, State.Reg, State.WithReg, Rn, WBit, StartAddress, SlotAddress, Add, Count;
    BaseTest(s, u, ins);
  }

  // ---- LDM(1) ----

  predicate IsLdm1(ins: word) { TypeField(ins) == 4 && BBit(ins) == 0 && LBit(ins) == 1 }

  predicate IsStm1(ins: word) { TypeField(ins) == 4 && BBit(ins) == 0 && LBit(ins) == 0 }

  /** The base after a block transfer whose test passed. */
  function FinalBlockBase(s: State, ins: word): word
  {
    if WBit(ins) == 1 then Add(s.Reg(Rn(ins)), 4 * ListSize(ins)) else s.Stored(Rn(ins))
  }

  /** With Rn unlisted the test after LDM(1) always passes, for every list, direction and base, wrapping or not. */
  lemma Ldm1TestPasses(s: State, ins: word)
    requires !Listed(ins, Rn(ins))
    ensures EndsAt(Ldm1Loaded(s, ins), ins, SlotAddress(ins, StartAddress(s, ins), 16))
  {
    hide Listed, State.Stored, State.Reg, Rn, Ldm1Loaded, StartAddress, EndsAt, SlotAddress;
    LoadedRegisters(s, ins, Rn(ins));
    SameStored(s, Ldm1Loaded(s, ins), Rn(ins));
    BaseTest(s, Ldm1Loaded(s, ins), ins);
  }

  /** A stored register as an instruction reads it. */
  function AsRead(r: RegNo, v: word): word { if r == 15 then ClearBit1(Add(v, 4)) else v }

  /**
   * LDM(1) of any list: each listed register gets the word at start + 4 * (listed registers below it) and the rest are
   * kept; the base moves up when W = 1 and it reads as before, which an unlisted base always does.
   */
  lemma Ldm1LoadsItsList(s: State, ins: word, stale: byte, i: RegNo)
    requires IsLdm1(ins) && s.Passed(ins)
    ensures var t := AfterInstruction(s, ins, stale);
            && (i != Rn(ins) ==> t.Stored(i) == LoadedValue(s, ins, i))
            && (var v := LoadedValue(s, ins, Rn(ins));
                t.Stored(Rn(ins)) == if WBit(ins) == 1 && AsRead(Rn(ins), v) == s.Reg(Rn(ins))
                                     then Add(s.Reg(Rn(ins)), 4 * ListSize(ins)) else v)
            && (!Listed(ins, Rn(ins)) ==> t.Stored(Rn(ins)) == FinalBlockBase(s, ins))
            && t.Cpsr() == (if !Listed(ins, 15) then s.Cpsr()
                            else SetT(s.Cpsr(), ListedWord(s, ins, 15) % 2))
            && t == s.(cells := t.cells)
  {
    hide Listed, State.Stored, State.Reg, Rn, Ldm1Loaded, StartAddress, EndsAt, State.Word, SetT, ConditionCode,
      TypeField, BBit, LBit, WBit, Add, Count, State.WithReg, Closed, AsRead, ListedWord, LoadedValue;
    var t := Ldm1Loaded(s, ins);
    ClosedMeaning(s, t, ins);
    LoadedRegisters(s, ins, i);
    LoadedRegisters(s, ins, Rn(ins));
    UnlistedValue(s, ins, Rn(ins));
    ReadMeaning(s, Rn(ins));
    ReadMeaning(t, Rn(ins));
    var v := Add(s.Reg(Rn(ins)), 4 * ListSize(ins));
    ReadAfterWrite(t, Rn(ins), v, i);
    ReadAfterWrite(t, Rn(ins), v, Rn(ins));
    StepProofs.WithRegOnly(t, Rn(ins), v);
  }

  lemma UnlistedValue(s: State, ins: word, i: RegNo)
    ensures !Listed(ins, i) ==> LoadedValue(s, ins, i) == s.Stored(i)
  {
    hide Listed, ListedWord, State.Stored;
  }

  lemma ReadMeaning(s: State, r: RegNo)
    ensures s.Reg(r) == AsRead(r, s.Stored(r))
  {
    hide State.Stored, ClearBit1, Add;
  }

  /** The cells of other banks, and the SPSRs, are as before. */
  lemma Ldm1KeepsOtherBanks(s: State, ins: word, stale: byte, c: nat)
    requires IsLdm1(ins) && s.Passed(ins)
    requires c < 37 && c != 31 && forall i: RegNo :: CellOf(s.Mode(), i) != c
    ensures AfterInstruction(s, ins, stale).cells[c] == s.cells[c]
  {
    hide State.Reg, Rn, Ldm1Loaded, StartAddress, EndsAt, ConditionCode, TypeField, BBit, LBit, WBit, Add, Count,
      Closed, CellOf, ModeOf;
    var t := Ldm1Loaded(s, ins);
    ClosedMeaning(s, t, ins);
    LoadedRegisters(s, ins, 0);
    LoadedOutside(s, ins, c);
    assert CellOf(s.Mode(), Rn(ins)) != c;
  }

  // ---- STM(1) ----

  /** The four bytes from a, modulo 2^32, are in range. */
  predicate WordInRange(m: Bytes, a: word) { Add(a, 0) in m && Add(a, 1) in m && Add(a, 2) in m && Add(a, 3) in m }

  lemma WordsApart(start: word, i: nat, j: nat)
    requires i < j < 16
    ensures 4 <= Sub(Add(start, 4 * i), Add(start, 4 * j)) <= 0xFFFF_FFFC
  {
    assert Sub(Add(start, 4 * i), Add(start, 4 * j)) == Wrap(4 * i - 4 * j) by {
      hide Wrap;
      WrapDifference(start + 4 * i, start + 4 * j);
    }
  }

  /** m holds v at a in the byte order of s: every byte that is in range, and the whole word if it is. */
  ghost predicate HoldsWord(s: State, m: Bytes, a: word, v: word)
  {
    && m.Keys == s.bytes.Keys
    && (forall k: nat | k < 4 && Add(a, k) in s.bytes ::
          m[Add(a, k)] == MemoryProofs.ByteOf(v, if s.big then 3 - k else k))
    && (WordInRange(s.bytes, a) ==> WordAt(m, s.big, a) == v)
  }

  lemma StoredWord(s: State, ins: word, i: RegNo, usr: bool)
    ensures HoldsWord(s, StmStored(s, ins, usr).bytes, WordAddress(s, ins, i), Source(s, i, usr))
  {
    hide StartAddress, Add, WordAt, StoredUpTo, Source, WordAddress, MemoryProofs.ByteOf, WordByte;
    var start, a := StartAddress(s, ins), WordAddress(s, ins, i);
    StartMeaning(s, ins, i);
    if WordInRange(s.bytes, a) {
      StoreLoop(s, start, 16, i, usr);
    }
    forall k: nat | k < 4 && Add(a, k) in s.bytes
      ensures StmStored(s, ins, usr).bytes[Add(a, k)]
           == MemoryProofs.ByteOf(Source(s, i, usr), if s.big then 3 - k else k)
    {
      AddAdd(start, 4 * i, k);
      StoreLoopByte(s, start, 16, i, k, usr);
      MemoryProofs.StoredBytes(Source(s, i, usr), 0, s.big, k);
    }
  }

  /** The registers an STM stores: those of the current mode, or the user's. */
  function Source(s: State, i: RegNo, usr: bool): word { if usr then RegisterProofs.UserReg(s, i) else s.Reg(i) }

  lemma StoreStep(s: State, start: word, n: nat, usr: bool)
    requires 0 < n <= 16
    ensures StoredUpTo(s, start, n, usr)
         == PutWord(StoredUpTo(s, start, n - 1, usr), s.big, Add(start, 4 * (n - 1)), Source(s, n - 1, usr))
  {
    hide PutWord, State.Reg, State.UsrReg, RegisterProofs.UserReg, Add;
    RegisterProofs.UsrRegMeaning(s, n - 1);
  }

  /** After n stores the i-th word, i < n, reads as register i, if it is in range. */
  lemma {:induction false} StoreLoop(s: State, start: word, n: nat, i: nat, usr: bool)
    requires n <= 16 && i < n && WordInRange(s.bytes, Add(start, 4 * i))
    ensures WordAt(StoredUpTo(s, start, n, usr), s.big, Add(start, 4 * i)) == Source(s, i, usr)
    decreases n
  {
    hide WordAt, PutWord, Add, Sub, WordByte, StoredUpTo, Source;
    var m := StoredUpTo(s, start, n - 1, usr);
    StoreStep(s, start, n, usr);
    if i < n - 1 {
      StoreLoop(s, start, n - 1, i, usr);
      WordsApart(start, i, n - 1);
      MemoryProofs.DisjointWords(m, s.big, Add(start, 4 * (n - 1)), Source(s, n - 1, usr), Add(start, 4 * i));
    } else {
      MemoryProofs.WordInRangeReadsBack(m, s.big, Add(start, 4 * i), Source(s, i, usr));
    }
  }

  /** And byte by byte, where only some bytes of a word are in range. */
  lemma {:induction false} StoreLoopByte(s: State, start: word, n: nat, i: nat, k: nat, usr: bool)
    requires n <= 16 && i < n && k < 4 && Add(start, 4 * i + k) in s.bytes
    ensures StoredUpTo(s, start, n, usr)[Add(start, 4 * i + k)] == WordByte(Source(s, i, usr), s.big, k)
    decreases n
  {
    hide Add, Sub, WordByte, PutWord, StoredUpTo, Source;
    var a, b, m := Add(start, 4 * (n - 1)), Add(start, 4 * i + k), StoredUpTo(s, start, n - 1, usr);
    StoreStep(s, start, n, usr);
    PutWordByte(m, s.big, a, Source(s, n - 1, usr), b);
    if i < n - 1 {
      StoreLoopByte(s, start, n - 1, i, k, usr);
      OffsetInBlock(start, 4 * i + k, 4 * (n - 1));
    } else {
      AddAdd(start, 4 * i, k);
      OffsetOf(b, a, k);
    }
  }

  lemma PutWordByte(m: Bytes, big: bool, a: word, v: word, b: word)
    requires b in m
    ensures PutWord(m, big, a, v)[b] == if Sub(b, a) < 4 then WordByte(v, big, Sub(b, a)) else m[b]
  {
    hide Sub, WordByte;
  }

  lemma OffsetInBlock(start: word, x: nat, y: nat)
    requires x < y <= 64
    ensures Sub(Add(start, x), Add(start, y)) >= 4
  {
    assert Sub(Add(start, x), Add(start, y)) == Wrap(x - y) by {
      hide Wrap;
      WrapDifference(start + x, start + y);
    }
  }

  lemma {:induction false} CountIsFull(ins: word, n: nat)
    ensures Count(ins, n) == n <==> forall i: nat | i < n :: Listed(ins, i)
  {
    hide GetBit;
    if n > 0 {
      CountIsFull(ins, n - 1);
      assert Listed(ins, n - 1) <==> GetBit(ins, n - 1) == 1;
    }
  }

  lemma {:induction false} AllOnes(x: nat, n: nat)
    ensures x % Pow2(n) == Pow2(n) - 1 <==> forall i: nat | i < n :: GetBit(x, i) == 1
    decreases n
  {
    hide GetBit;
    if n > 0 {
      AllOnes(x, n - 1);
      ShifterProofs.LowHalf(x, Pow2(n - 1));
      TopOfField(x, n - 1);
      OnesStep(GetBit(x, n - 1), x % Pow2(n - 1), Pow2(n - 1));
    }
  }

  lemma TopOfField(x: nat, i: nat)
    ensures x / Pow2(i) % 2 == GetBit(x, i)
  {
  }

  lemma OnesStep(b: bit, r: nat, h: nat)
    requires r < h
    ensures b * h + r == 2 * h - 1 <==> b == 1 && r == h - 1
  {
  }

  /** The list field is 0xFFFF exactly when it names sixteen registers. */
  lemma FullList(ins: word)
    ensures ListSize(ins) == 16 <==> ins % 0x1_0000 == 0xFFFF
  {
    hide GetBit, Pow2;
    Pow2_32();
    CountIsFull(ins, 16);
    AllOnes(ins, 16);
    assert ins % Pow2(16) == ins % 0x1_0000;
    forall i: nat
      ensures Listed(ins, i) <==> GetBit(ins, i) == 1
    {
      assert Listed(ins, i) <==> GetBit(ins, i) == 1;
    }
  }

  /**
   * STM(1) whatever its list: register i goes to the i-th of sixteen consecutive words, each byte of it that is in
   * range, memory elsewhere is kept (StepProofs.InstructionEffect), and the end-address test passes for the full list
   * only.
   */
  lemma Stm1StoresEverything(s: State, ins: word, stale: byte, i: RegNo)
    requires IsStm1(ins) && s.Passed(ins)
    ensures var t := AfterInstruction(s, ins, stale);
            && HoldsWord(s, t.bytes, WordAddress(s, ins, i), s.Reg(i))
            && (EndsAt(StmStored(s, ins, false), ins, Add(StartAddress(s, ins), 64)) <==> ins % 0x1_0000 == 0xFFFF)
            && t == s.(bytes := t.bytes).WithReg(Rn(ins), t.Stored(Rn(ins)))
            && t.Stored(Rn(ins)) == if ins % 0x1_0000 == 0xFFFF then FinalBlockBase(s, ins) else s.Stored(Rn(ins))
  {
    hide State.Stored, State.Reg, Rn, StartAddress, EndsAt, ConditionCode, TypeField, BBit, LBit, WBit, Add, Count,
      WordAt, State.WithReg, StoredUpTo, HoldsWord, WordAddress;
    var t := StmStored(s, ins, false);
    StoredWord(s, ins, i, false);
    FullList(ins);
    SameCells(s, t, Rn(ins));
    EndTest(s, t, ins, 16);
    var v := Add(t.Reg(Rn(ins)), 4 * ListSize(ins));
    ReadAfterWrite(t, Rn(ins), v, Rn(ins));
    StepProofs.WithRegOnly(t, Rn(ins), v);
    RewriteSame(t, Rn(ins));
  }

  lemma RewriteSame(t: State, r: RegNo)
    ensures t.WithReg(r, t.Stored(r)) == t
  {
    hide CellOf, ModeOf;
    assert t.cells[CellOf(t.Mode(), r) := t.cells[CellOf(t.Mode(), r)]] == t.cells;
  }

  // ---- Writeback against the manual ----

  /** The base that section A5.4 gives: up or down by the size of the list when W = 1. */
  function ManualBase(s: State, ins: word): word
  {
    if WBit(ins) == 0 then s.Reg(Rn(ins))
    else if UBit(ins) == 1 then Add(s.Reg(Rn(ins)), 4 * ListSize(ins))
    else Sub(s.Reg(Rn(ins)), 4 * ListSize(ins))
  }

  /** Writeback only ever adds, so a decrementing LDM(1) ends with the wrong base unless its list is empty. */
  lemma Ldm1BaseAgrees(s: State, ins: word, stale: byte)
    requires IsLdm1(ins) && s.Passed(ins) && Rn(ins) != 15 && !Listed(ins, Rn(ins))
    ensures AfterInstruction(s, ins, stale).Reg(Rn(ins)) == ManualBase(s, ins)
       <==> WBit(ins) == 0 || UBit(ins) == 1 || ListSize(ins) == 0
  {
    hide AfterInstruction, IsLdm1, State.Stored, Rn, Listed, LoadedValue, Count, WBit, UBit, Add, Sub, ConditionCode;
    Ldm1LoadsItsList(s, ins, stale, Rn(ins));
    UpOrDown(s.Reg(Rn(ins)), ListSize(ins));
    WritebackBit(ins);
  }

  /** STM(1) moves the base for the full list only. */
  lemma Stm1BaseAgrees(s: State, ins: word, stale: byte)
    requires IsStm1(ins) && s.Passed(ins) && Rn(ins) != 15
    ensures AfterInstruction(s, ins, stale).Reg(Rn(ins)) == ManualBase(s, ins)
       <==> WBit(ins) == 0 || ListSize(ins) == 0 || (ListSize(ins) == 16 && UBit(ins) == 1)
  {
    hide AfterInstruction, IsStm1, State.Stored, Rn, Count, WBit, UBit, Add, Sub, ConditionCode;
    Stm1StoresEverything(s, ins, stale, 0);
    FullList(ins);
    UpOrDown(s.Reg(Rn(ins)), ListSize(ins));
    WritebackBit(ins);
  }

  lemma WritebackBit(ins: word)
    ensures WBit(ins) != 0 ==> WBit(ins) == 1
  {
  }

  lemma UpOrDown(b: word, n: nat)
    requires n <= 16
    ensures Add(b, 4 * n) == Sub(b, 4 * n) <==> n == 0
    ensures b == Add(b, 4 * n) <==> n == 0
    ensures b == Sub(b, 4 * n) <==> n == 0
  {
    WrapNear(b + 4 * n, b - 4 * n);
    WrapNear(b + 4 * n, b);
    WrapNear(b - 4 * n, b);
  }

  // ---- A store followed by a load ----

  predicate IsIncrementAfter(ins: word) { PBit(ins) == 0 && UBit(ins) == 1 }

  /**
   * An STMIA, then any computation that keeps memory and brings the same base to an LDMIA whose base is unlisted:
   * register i <= 14 of the load's list gets the saved register numbered by its position in that list.
   */
  lemma StmThenLdm(s: State, stm: word, u: State, ldm: word, stale: byte, i: RegNo)
    requires IsStm1(stm) && IsIncrementAfter(stm) && s.Passed(stm)
    requires IsLdm1(ldm) && IsIncrementAfter(ldm) && u.Passed(ldm) && !Listed(ldm, Rn(ldm))
    requires u.bytes == AfterInstruction(s, stm, stale).bytes && u.big == s.big
    requires u.Reg(Rn(ldm)) == s.Reg(Rn(stm))
    requires i < 15 && Listed(ldm, i) && WordInRange(s.bytes, WordAddress(s, stm, Count(ldm, i)))
    ensures AfterInstruction(u, ldm, stale).Stored(i) == s.Reg(Count(ldm, i))
    ensures (forall j: nat | j < i :: Listed(ldm, j)) ==> AfterInstruction(u, ldm, stale).Stored(i) == s.Reg(i)
  {
    hide AfterInstruction, Listed, State.Stored, State.Reg, Rn, EndsAt, State.Word, SetT, ConditionCode, TypeField,
      BBit, LBit, WBit, PBit, UBit, Add, Count, StmStored, WordInRange, FinalBlockBase, IsLdm1, IsStm1, State.WithReg,
      AsRead;
    var base := s.Reg(Rn(stm));
    Ldm1LoadsItsList(u, ldm, stale, i);
    Stm1StoresEverything(s, stm, stale, Count(ldm, i));
    StepProofs.WithRegOnly(s, Rn(stm), AfterInstruction(s, stm, stale).Stored(Rn(stm)));
    BigKept(s, stm, stale);
    SameWord(u, AfterInstruction(s, stm, stale), Add(base, 4 * Count(ldm, i)));
    CountIsFull(ldm, i);
  }

  lemma BigKept(s: State, ins: word, stale: byte)
    ensures AfterInstruction(s, ins, stale).big == s.big
  {
    hide AfterInstruction, StepProofs.StoreRange, ModeOf, StepProofs.Range.Covers, StepProofs.CpsrStep;
    StepProofs.InstructionEffect(s, ins, stale);
  }

  // ---- The user-bank and exception-return forms ----

  /** STM(2): the sixteen user registers, whatever the list; no register changes. */
  lemma Stm2StoresUserRegisters(s: State, ins: word, stale: byte, i: RegNo)
    requires TypeField(ins) == 4 && BBit(ins) == 1 && LBit(ins) == 0 && WBit(ins) == 0 && s.Passed(ins)
    ensures var t := AfterInstruction(s, ins, stale);
            HoldsWord(s, t.bytes, WordAddress(s, ins, i), RegisterProofs.UserReg(s, i)) && t == s.(bytes := t.bytes)
  {
    hide Rn, StartAddress, EndsAt, ConditionCode, TypeField, BBit, LBit, WBit, Add, StoredUpTo, HoldsWord, WordAddress,
      RegisterProofs.UserReg;
    StoredWord(s, ins, i, true);
  }

  /**
   * LDM(2): the list goes to the user bank and every other cell is kept; then the base of the executing mode moves up
   * when W = 1 and it reads as before, which a user cell it shares may have changed.
   */
  lemma Ldm2LoadsUserRegisters(s: State, ins: word, stale: byte, i: RegNo, c: nat)
    requires TypeField(ins) == 4 && BBit(ins) == 1 && LBit(ins) == 1 && !Listed(ins, 15) && s.Passed(ins)
    requires c < 37 && forall r: RegNo :: CellOf(16, r) != c
    ensures var u := Ldm2Loaded(s, ins);
            && AfterInstruction(s, ins, stale) == LoadClosed(s, u, ins)
            && u.cells[CellOf(16, i)] == (if Listed(ins, i) then ListedWord(s, ins, i) else s.cells[CellOf(16, i)])
            && u.cells[c] == s.cells[c] && u == s.(cells := u.cells)
  {
    hide Rn, StartAddress, EndsAt, ConditionCode, TypeField, BBit, LBit, WBit, Listed, State.Word, SlotAddress,
      LoadedUpTo, CellOf, ListedWord, LoadClosed, Closed;
    var start := StartAddress(s, ins);
    SlotsWithoutPc(ins, start);
    ClosedMeaning(s, Ldm2Loaded(s, ins), ins);
    assert forall r: RegNo :: BankCell(s, r, true) == CellOf(16, r);
    StartMeaning(s, ins, i);
    LoadLoop(s, ins, start, 15, i, true);
    LoadLoopOutside(s, ins, start, 15, true, c);
  }

  lemma SlotsWithoutPc(ins: word, start: word)
    ensures !Listed(ins, 15) ==> SlotAddress(ins, start, 16) == SlotAddress(ins, start, 15)
    ensures Listed(ins, 15) ==> SlotAddress(ins, start, 16) == Add(SlotAddress(ins, start, 15), 4)
  {
    hide GetBit, Listed, SlotAddress, Add;
    SlotStep(ins, start, 15);
  }

  /**
   * LDM(3), the exception return: the list goes to the bank of the mode that executes it, the status word comes back
   * from that mode's SPSR, and the last word becomes the program counter; then the base of the mode returned to moves
   * up when W = 1 and it reads as the base used.
   */
  lemma Ldm3Returns(s: State, ins: word, stale: byte, i: RegNo, c: nat)
    requires TypeField(ins) == 4 && BBit(ins) == 1 && LBit(ins) == 1 && Listed(ins, 15) && s.Passed(ins)
    requires c < 37 && c != 31 && forall r: RegNo :: CellOf(s.Mode(), r) != c
    ensures var u := Ldm3Loaded(s, ins);
            && AfterInstruction(s, ins, stale) == LoadClosed(s, u, ins)
            && u.cells[31] == RegisterProofs.RestoredStatus(s) && u.cells[30] == ListedWord(s, ins, 15)
            && (i != 15 ==> u.cells[CellOf(s.Mode(), i)] ==
                              if Listed(ins, i) then ListedWord(s, ins, i) else s.cells[CellOf(s.Mode(), i)])
            && u.cells[c] == s.cells[c] && u == s.(cells := u.cells)
  {
    hide Rn, StartAddress, EndsAt, ConditionCode, TypeField, BBit, LBit, WBit, Listed, State.Word, SlotAddress,
      LoadedUpTo, CellOf, ModeOf, LoadClosed, Closed, ListedWord, State.SpsrRestored;
    var start := StartAddress(s, ins);
    SlotsWithoutPc(ins, start);
    ClosedMeaning(s, Ldm3Loaded(s, ins), ins);
    var t := LoadedUpTo(s, ins, start, 15, false);
    assert forall r: RegNo :: BankCell(s, r, false) == CellOf(s.Mode(), r);
    LoadLoop(s, ins, start, 15, i, false);
    LoadLoopOutside(s, ins, start, 15, false, c);
    StartMeaning(s, ins, i);
    StartMeaning(s, ins, 15);
    StepProofs.LoadedUpToOnly(s, ins, start, 15, false);
    SameStatus(s, t);
    RegisterProofs.StatusMeaning(t);
    PcCell(t.SpsrRestored().Mode(), i);
    PcCell(s.Mode(), i);
    PcCell(s.Mode(), 15);
    assert CellOf(s.Mode(), 15) != c;
  }

  lemma SameStatus(s: State, t: State)
    requires StepProofs.OnlyRegisters(s, t)
    ensures RegisterProofs.RestoredStatus(t) == RegisterProofs.RestoredStatus(s) && t.Mode() == s.Mode()
  {
    hide ModeOf;
    StepProofs.TailFrom(s, t);
    assert forall i :: 32 <= i < 37 ==> s.cells[i] == s.cells[32..][i - 32] && t.cells[i] == t.cells[32..][i - 32];
  }
}
