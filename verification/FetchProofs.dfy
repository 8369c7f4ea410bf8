/** The program counter: what a fetch does to it, what the fetched instruction reads, and where the next fetch goes. */
module FetchProofs {
  import opened Words
  import opened Encoding
  import opened RegisterFile
  import opened Core

  /** For every stored value the fetch address has bit 1 clear, and the fetched instruction reads R15 as it plus 8. */
  lemma PcView(s: State)
    ensures s.FetchAddress() / 2 % 2 == 0
    ensures s.Fetched().Stored(15) == Add(s.FetchAddress(), 4)
    ensures s.Fetched().Reg(15) == Add(s.FetchAddress(), 8)
  {
    hide ModeOf, ClearBit1, Add, Sub;
    var x := Add(s.Stored(15), 4);
    assert s.FetchAddress() == Sub(ClearBit1(x), 4);
    BelowClear(x);
    AboveClear(Sub(ClearBit1(x), 4));
  }

  /** Moving by words keeps bit 1 clear. */
  lemma MovedByFours(a: word, k: int)
    requires a / 2 % 2 == 0 && -0x100_0000 < k < 0x100_0000
    ensures Wrap(a + 4 * k) / 2 % 2 == 0
  {
    FourthsWrap(a / 4, a % 4, k);
  }

  lemma FourthsWrap(y: nat, b: nat, k: int)
    requires y < 0x4000_0000 && b < 2 && -0x100_0000 < k < 0x100_0000
    ensures Wrap(4 * y + b + 4 * k) / 2 % 2 == 0
  {
    var z := if y + k < 0 then y + k + 0x4000_0000 else if y + k >= 0x4000_0000 then y + k - 0x4000_0000 else y + k;
    assert Wrap(4 * y + b + 4 * k) == 4 * z + b;
  }

  lemma ClearBit1Value(x: word)
    ensures ClearBit1(x) / 2 % 2 == 0 && (x / 2 % 2 == 0 ==> ClearBit1(x) == x)
  {
  }

  lemma WordSteps(a: word)
    ensures Add(a, 4) == Wrap(a + 4 * 1) && Sub(a, 4) == Wrap(a + 4 * -1)
    ensures Add(Add(a, 4), 4) == Add(a, 8) && Sub(Add(a, 4), 4) == a
  {
  }

  lemma BelowClear(x: word)
    ensures Sub(ClearBit1(x), 4) / 2 % 2 == 0
  {
    hide ClearBit1, Sub, Wrap;
    ClearBit1Value(x);
    WordSteps(ClearBit1(x));
    MovedByFours(ClearBit1(x), -1);
  }

  lemma AboveClear(a: word)
    requires a / 2 % 2 == 0
    ensures ClearBit1(Add(Add(a, 4), 4)) == Add(a, 8) && Sub(ClearBit1(Add(a, 4)), 4) == a
  {
    hide ClearBit1, Add, Sub, Wrap;
    var b := Add(a, 4);
    WordSteps(a);
    WordSteps(b);
    MovedByFours(a, 1);
    MovedByFours(b, 1);
    ClearBit1Value(b);
    ClearBit1Value(Add(b, 4));
  }

  /** A program counter written with bit 1 clear is the next fetch address. */
  lemma FetchesFrom(t: State)
    requires t.Stored(15) / 2 % 2 == 0
    ensures t.FetchAddress() == t.Stored(15)
  {
    hide ModeOf, ClearBit1, Add, Sub, State.Stored;
    AboveClear(t.Stored(15));
  }

  lemma FetchedKeeps(s: State, r: RegNo)
    ensures r != 15 ==> s.Fetched().Reg(r) == s.Reg(r)
    ensures s.Fetched().Cpsr() == s.Cpsr() && s.Fetched().bytes == s.bytes && s.Fetched().big == s.big
  {
    hide ModeOf, ClearBit1, Add, State.FetchAddress;
    ReadAfterWrite(s, 15, Add(s.FetchAddress(), 4), r);
  }

  /** A fetch as cells: the program counter's cell is the 31st in every mode. */
  lemma FetchedCells(s: State)
    ensures s.Fetched() == s.(cells := s.cells[30 := Add(s.FetchAddress(), 4)], cycles := Add(s.cycles, 1))
    ensures s.Fetched().Mode() == s.Mode()
  {
    hide ModeOf, Add, State.FetchAddress, CellOf;
    PcCell(s.Mode(), 15);
  }

  /** A register whose cell, and the status word, are kept reads the same. */
  lemma CellKept(s: State, t: State, r: RegNo)
    requires t.Cpsr() == s.Cpsr() && t.cells[CellOf(s.Mode(), r)] == s.cells[CellOf(s.Mode(), r)]
    ensures t.Stored(r) == s.Stored(r) && t.Reg(r) == s.Reg(r)
  {
    hide CellOf, ClearBit1, Add, ModeOf;
  }

  /** What a state with another program counter, and perhaps another link register, reads. */
  lemma JumpReads(s: State, t: State, link: bool, v: word, pc: word, r: RegNo)
    requires t.cells == (if link then s.cells[CellOf(s.Mode(), 14) := v] else s.cells)[30 := pc]
    ensures t.Cpsr() == s.Cpsr() && t.Stored(15) == pc && (link ==> t.Reg(14) == v)
    ensures r != 15 && (r != 14 || !link) ==> t.Reg(r) == s.Reg(r)
  {
    hide CellOf, ClearBit1, Add, ModeOf;
    PcCell(s.Mode(), 14);
    PcCell(s.Mode(), r);
    CellsDistinct(s.Mode(), r, 14);
    if r != 15 && (r != 14 || !link) {
      CellKept(s, t, r);
    }
  }

  lemma LinkValue(a: word)
    ensures Sub(Add(a, 8), 4) == Add(a, 4)
  {
  }

  /** An instruction that leaves R15 alone is followed by the next word. */
  lemma NextAfter(s: State, t: State)
    requires t.Reg(15) == s.Fetched().Reg(15)
    ensures t.FetchAddress() == Add(s.FetchAddress(), 4)
  {
    hide Add, Sub, State.Reg, State.Fetched;
    PcView(s);
    LinkValue(s.FetchAddress());
  }
}
