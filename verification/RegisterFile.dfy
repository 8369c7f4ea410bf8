/** registers.c: 37 cells holding sixteen registers, banked by mode, then the CPSR and five SPSRs. */
module RegisterFile {
  import opened Words
  import opened Encoding

  type Cells = c: seq<word> | |c| == 37 witness seq(37, _ => 0)

  /** The sixteen registers of one mode. */
  type Bank = b: seq<word> | |b| == 16 witness seq(16, _ => 0)

  function ModeOf(cpsr: word): nat { cpsr % 0x20 }

  /** The cell that holds register r in the given mode. */
  function CellOf(mode: nat, r: RegNo): (c: nat)
    ensures c < 31
  {
    if r < 8 then r
    else if r < 13 then
      if mode == 17 then 9 + (r - 8) * 2 else 8 + (r - 8) * 2
    else if r < 15 then
      if mode == 17 then 23 + (r - 13) * 2
      else if mode == 18 then 22 + (r - 13) * 2
      else if mode == 19 then 19 + (r - 13) * 2
      else if mode == 23 then 20 + (r - 13) * 2
      else if mode == 27 then 21 + (r - 13) * 2
      else 18 + (r - 13) * 6
    else 30
  }

  function UsrCellOf(r: RegNo): (c: nat)
    ensures c < 31
  {
    if r < 8 then r
    else if r < 13 then 8 + (r - 8) * 2
    else if r < 15 then 18 + (r - 13) * 6
    else 30
  }

  /** Within one mode no two registers share a cell. */
  lemma CellsDistinct(mode: nat, r: RegNo, q: RegNo)
    ensures CellOf(mode, r) == CellOf(mode, q) <==> r == q
  {
  }

  /** R15 has one cell of its own, the same in every mode, among the 31 register cells. */
  lemma PcCell(mode: nat, r: RegNo)
    ensures CellOf(mode, 15) == 30 == UsrCellOf(15)
    ensures r != 15 ==> CellOf(mode, r) != 30 && UsrCellOf(r) != 30
  {
  }

  predicate ModeHasSpsr(mode: nat) { mode != 16 && mode != 31 }

  /** The SPSR cell of a mode; 37, past the last cell, for a mode that owns none. */
  function SpsrCellOf(mode: nat): (c: nat)
    ensures 32 <= c <= 37
  {
    if mode == 17 then 36
    else if mode == 18 then 35
    else if mode == 19 then 32
    else if mode == 23 then 33
    else if mode == 27 then 34
    else 37
  }

  /** read_spsr: the -1 of the default case reads as all ones. */
  function SpsrIn(cells: Cells, mode: nat): word
  {
    if SpsrCellOf(mode) < 37 then cells[SpsrCellOf(mode)] else 0xFFFF_FFFF
  }

  /** write_spsr: a mode that owns no SPSR writes nothing. */
  function SpsrWritten(cells: Cells, mode: nat, value: word): Cells
  {
    if SpsrCellOf(mode) < 37 then cells[SpsrCellOf(mode) := value] else cells
  }

  class Registers {
    const cells: array<word>

    ghost predicate Valid() { cells.Length == 37 }

    constructor ()
      ensures Valid() && fresh(cells)
      ensures forall i :: 0 <= i < 37 ==> cells[i] == 0
    {
      cells := new word[37](_ => 0);
    }

    function GetMode(): nat
      requires Valid()
      reads cells
    {
      ModeOf(cells[31])
    }

    function ReadRegister(r: RegNo): word
      requires Valid()
      reads cells
    {
      cells[CellOf(GetMode(), r)]
    }

    function ReadUsrRegister(r: RegNo): word
      requires Valid()
      reads cells
    {
      cells[UsrCellOf(r)]
    }

    function ReadCpsr(): word
      requires Valid()
      reads cells
    {
      cells[31]
    }

    function ReadSpsr(): word
      requires Valid()
      reads cells
      ensures ReadSpsr() == SpsrIn(cells[..], GetMode())
    {
      if SpsrCellOf(GetMode()) < 37 then cells[SpsrCellOf(GetMode())] else 0xFFFF_FFFF
    }

    method WriteRegister(r: RegNo, value: word)
      requires Valid()
      modifies cells
      ensures cells[..] == old(cells[..])[CellOf(old(GetMode()), r) := value]
    {
      cells[CellOf(GetMode(), r)] := value;
    }

    method WriteUsrRegister(r: RegNo, value: word)
      requires Valid()
      modifies cells
      ensures cells[..] == old(cells[..])[UsrCellOf(r) := value]
    {
      cells[UsrCellOf(r)] := value;
    }

    method WriteCpsr(value: word)
      requires Valid()
      modifies cells
      ensures cells[..] == old(cells[..])[31 := value]
    {
      cells[31] := value;
    }

    method WriteSpsr(value: word)
      requires Valid()
      modifies cells
      ensures cells[..] == SpsrWritten(old(cells[..]), old(GetMode()), value)
    {
      if SpsrCellOf(GetMode()) < 37 {
        cells[SpsrCellOf(GetMode())] := value;
      }
    }
  }
}
