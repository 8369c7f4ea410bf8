/** The register file: sixteen independent registers within a mode, and exactly which registers modes share. */
module RegisterProofs {
  import opened Words
  import opened Encoding
  import opened RegisterFile
  import opened Core

  // ---- Within one mode ----

  datatype Access = Read(r: RegNo) | Write(r: RegNo, v: word)

  /** The sixteen registers of a mode. */
  function View(cells: Cells, mode: nat): Bank
  {
    seq(16, (i: nat) requires i < 16 => cells[CellOf(mode, i)])
  }

  /** The cells after a sequence of accesses in the mode that the CPSR cell holds. */
  function OnCells(cells: Cells, xs: seq<Access>): Cells
  {
    if xs == [] then cells
    else
      var c := OnCells(cells, xs[..|xs| - 1]);
      match xs[|xs| - 1]
      case Read(_) => c
      case Write(r, v) => c[CellOf(ModeOf(c[31]), r) := v]
  }

  /** The same accesses on sixteen independent registers. */
  function OnBank(bank: Bank, xs: seq<Access>): Bank
  {
    if xs == [] then bank
    else
      var b := OnBank(bank, xs[..|xs| - 1]);
      match xs[|xs| - 1]
      case Read(_) => b
      case Write(r, v) => b[r := v]
  }

  /** After any accesses every register of the mode reads as in the independent bank; other cells are kept. */
  lemma {:induction false} ModeIsIndependentBank(cells: Cells, xs: seq<Access>)
    ensures var mode, c := ModeOf(cells[31]), OnCells(cells, xs);
            && View(c, mode) == OnBank(View(cells, mode), xs)
            && (forall i | 0 <= i < 37 && (forall r: RegNo :: CellOf(mode, r) != i) :: c[i] == cells[i])
            && c[31] == cells[31]
    decreases |xs|
  {
    hide ModeOf, CellOf;
    if xs != [] {
      ModeIsIndependentBank(cells, xs[..|xs| - 1]);
      var mode, c := ModeOf(cells[31]), OnCells(cells, xs[..|xs| - 1]);
      if xs[|xs| - 1].Write? {
        var r, v := xs[|xs| - 1].r, xs[|xs| - 1].v;
        forall i: RegNo
          ensures c[CellOf(mode, r) := v][CellOf(mode, i)] == if i == r then v else c[CellOf(mode, i)]
        {
          CellsDistinct(mode, i, r);
        }
        assert View(c[CellOf(mode, r) := v], mode) == View(c, mode)[r := v];
      }
    }
  }

  // ---- Across modes ----

  /** The architecture's banks: which physical copy of register r a mode uses. Modes without a bank use the user's. */
  function ArmBank(mode: nat, r: RegNo): nat
  {
    if r < 8 || r == 15 then 0
    else if r < 13 then
      if mode == 17 then 17 else 16
    else if mode == 17 || mode == 18 || mode == 19 || mode == 23 || mode == 27 then mode
    else 16
  }

  predicate ArmShares(m: nat, r: RegNo, m': nat, r': RegNo) { r == r' && ArmBank(m, r) == ArmBank(m', r') }

  /** The pairs that overlap only because a privileged SP and LR lie 2 cells apart where the user's lie 6 apart. */
  predicate Overlaps(m: nat, r: RegNo, m': nat, r': RegNo)
  {
    || (ArmBank(m, r) == 19 && r == 14 && ArmBank(m', r') == 27 && r' == 13)
    || (ArmBank(m, r) == 23 && r == 14 && ArmBank(m', r') == 18 && r' == 13)
    || (ArmBank(m, r) == 27 && r == 14 && ArmBank(m', r') == 17 && r' == 13)
    || (ArmBank(m, r) == 18 && r == 14 && ArmBank(m', r') == 16 && r' == 14)
  }

  /** Two registers share a cell exactly when the architecture shares them or they are one of four overlapping pairs. */
  lemma SharedCells(m: nat, r: RegNo, m': nat, r': RegNo)
    ensures CellOf(m, r) == CellOf(m', r')
       <==> ArmShares(m, r, m', r') || Overlaps(m, r, m', r') || Overlaps(m', r', m, r)
  {
    RegularCells(m, r);
    RegularCells(m', r');
  }

  /** CellOf by bank. */
  lemma RegularCells(m: nat, r: RegNo)
    ensures CellOf(m, r) ==
              if r < 8 then r else if r == 15 then 30
              else if r < 13 then 2 * r + ArmBank(m, r) - 24
              else
                var first := match ArmBank(m, r)
                  case 16 => 18 case 17 => 23 case 18 => 22 case 19 => 19 case 23 => 20 case _ => 21;
                first + (r - 13) * (if ArmBank(m, r) == 16 then 6 else 2)
  {
  }

  /** The user-bank accessors read and write the cells of user mode. */
  lemma UsrIsMode16(r: RegNo)
    ensures UsrCellOf(r) == CellOf(16, r)
  {
  }

  /** So a write in supervisor mode can change what undefined mode later reads as its stack pointer. */
  lemma SvcLrIsUndSp()
    ensures CellOf(19, 14) == CellOf(27, 13) && !ArmShares(19, 14, 27, 13)
  {
  }

  // ---- Saved status words ----

  /** FIQ, IRQ, SVC, ABT and UND. */
  predicate OwnsSpsr(mode: nat) { mode in {17, 18, 19, 23, 27} }

  /**
   * The five SPSRs are independent of one another, of every register of every mode and of the CPSR: a write is read
   * back by its own mode alone, and only if that owns one. A mode that owns none reads all ones.
   */
  lemma SpsrsAreIndependent(cells: Cells, m: nat, v: word, m': nat, r: RegNo)
    ensures SpsrIn(SpsrWritten(cells, m, v), m') == if m' == m && OwnsSpsr(m) then v else SpsrIn(cells, m')
    ensures !OwnsSpsr(m) ==> SpsrWritten(cells, m, v) == cells && SpsrIn(cells, m) == 0xFFFF_FFFF
    ensures SpsrWritten(cells, m, v)[CellOf(m', r)] == cells[CellOf(m', r)]
    ensures SpsrWritten(cells, m, v)[31] == cells[31]
    ensures SpsrIn(cells[CellOf(m', r) := v], m) == SpsrIn(cells, m) == SpsrIn(cells[31 := v], m)
  {
    hide CellOf;
    OwnersOnly(m);
    OwnersOnly(m');
    OneOwner(m, m');
  }

  lemma OwnersOnly(m: nat)
    ensures SpsrCellOf(m) < 37 <==> OwnsSpsr(m)
  {
  }

  lemma OneOwner(m: nat, m': nat)
    ensures SpsrCellOf(m) == SpsrCellOf(m') < 37 ==> m == m'
  {
  }

  // ---- The user bank and the saved status word of a state ----

  /** What user mode reads in register r, in whatever mode the machine is: its own cell, or R15 as it always reads. */
  function UserReg(s: State, r: RegNo): word { if r == 15 then s.Reg(15) else s.cells[CellOf(16, r)] }

  lemma UsrRegMeaning(s: State, r: RegNo)
    ensures s.UsrReg(r) == UserReg(s, r)
  {
    hide CellOf, UsrCellOf, ModeOf, ClearBit1, Add;
    UsrIsMode16(r);
    PcCell(s.Mode(), 15);
    PcCell(s.Mode(), r);
  }

  /** The SPSR of the mode the machine is in; all ones where there is none. */
  function SavedStatus(s: State): word
  {
    match s.Mode()
    case 17 => s.cells[36]
    case 18 => s.cells[35]
    case 19 => s.cells[32]
    case 23 => s.cells[33]
    case 27 => s.cells[34]
    case _ => 0xFFFF_FFFF
  }

  /** The status word after a restore from the SPSR, which user and system mode leave out. */
  function RestoredStatus(s: State): word { if s.Mode() == 16 || s.Mode() == 31 then s.cells[31] else SavedStatus(s) }

  lemma StatusMeaning(s: State)
    ensures s.Spsr() == SavedStatus(s) && s.SpsrRestored() == s.WithCpsr(RestoredStatus(s))
  {
    hide ModeOf;
    assert s.cells[31 := s.cells[31]] == s.cells;
  }
}
