/** arm_load_store.c, addressing mode 4: the popcount of the register list, LDM(1)-(3) and STM(1)-(2). */
module LoadStoreMultiple {
  import opened Words
  import opened Encoding
  import opened MemoryArea
  import opened Core
  import LoadStore

  // ---- What the instructions do to the state ----

  /** How many registers the list names. */
  function ListSize(ins: word): nat { Count(ins, 16) }

  function StartAddress(s: State, ins: word): word
  {
    if UBit(ins) == 1 then
      if PBit(ins) == 0 then s.Reg(Rn(ins)) else Add(s.Reg(Rn(ins)), 4)
    else
      if PBit(ins) == 0 then Add(Sub(s.Reg(Rn(ins)), 4 * ListSize(ins)), 4)
      else Sub(s.Reg(Rn(ins)), 4 * ListSize(ins))
  }

  function EndAddress(s: State, ins: word): word
  {
    if UBit(ins) == 1 then
      if PBit(ins) == 0 then Sub(Add(s.Reg(Rn(ins)), 4 * ListSize(ins)), 4)
      else Add(s.Reg(Rn(ins)), 4 * ListSize(ins))
    else
      if PBit(ins) == 0 then s.Reg(Rn(ins)) else Sub(s.Reg(Rn(ins)), 4)
  }

  /** updateRn: with W = 1 the base always moves up, whatever the direction of the transfer. */
  function RnUpdated(s: State, ins: word): State
  {
    if WBit(ins) == 1 then s.WithReg(Rn(ins), Add(s.Reg(Rn(ins)), 4 * ListSize(ins))) else s
  }

  /** The address that the n-th register of the list, if listed, is transferred to or from. */
  function SlotAddress(ins: word, start: word, n: nat): word { Add(start, 4 * Count(ins, n)) }

  /** The loop of the load instructions after its first n registers. */
  function LoadedUpTo(s: State, ins: word, start: word, n: nat, usr: bool): (t: State)
    requires n <= 15
    ensures t.bytes == s.bytes && t.big == s.big && t.cycles == s.cycles && t.Cpsr() == s.Cpsr()
  {
    if n == 0 then s else
    var t := LoadedUpTo(s, ins, start, n - 1, usr);
    if !Listed(ins, n - 1) then t
    else if usr then t.WithUsrReg(n - 1, s.Word(SlotAddress(ins, start, n - 1)))
    else t.WithReg(n - 1, s.Word(SlotAddress(ins, start, n - 1)))
  }

  /** The closing test of every block transfer: the last address used is the computed end address. */
  predicate EndsAt(t: State, ins: word, next: word) { Sub(next, 4) == EndAddress(t, ins) }

  function Closed(t: State, ins: word, next: word): State
  {
    if EndsAt(t, ins, next) then RnUpdated(t, ins) else t
  }

  function Ldm1Loaded(s: State, ins: word): State
  {
    var start := StartAddress(s, ins);
    var t := LoadedUpTo(s, ins, start, 15, false);
    if Listed(ins, 15) then t.PcLoaded(s.Word(SlotAddress(ins, start, 15))) else t
  }

  function AfterLdm1(s: State, ins: word): State
  {
    if !s.Passed(ins) then s
    else Closed(Ldm1Loaded(s, ins), ins, SlotAddress(ins, StartAddress(s, ins), 16))
  }

  function Ldm2Loaded(s: State, ins: word): State { LoadedUpTo(s, ins, StartAddress(s, ins), 15, true) }

  function AfterLdm2(s: State, ins: word): State
  {
    if !s.Passed(ins) then s
    else Closed(Ldm2Loaded(s, ins), ins, SlotAddress(ins, StartAddress(s, ins), 15))
  }

  function Ldm3Loaded(s: State, ins: word): State
  {
    var start := StartAddress(s, ins);
    var t := LoadedUpTo(s, ins, start, 15, false).SpsrRestored();
    t.WithReg(15, s.Word(SlotAddress(ins, start, 15)))
  }

  function AfterLdm3(s: State, ins: word): State
  {
    if !s.Passed(ins) then s
    else Closed(Ldm3Loaded(s, ins), ins, Add(SlotAddress(ins, StartAddress(s, ins), 15), 4))
  }

  /** Memory with the first n of the sixteen registers stored in consecutive words from start. */
  function StoredUpTo(s: State, start: word, n: nat, usr: bool): (m: Bytes)
    requires n <= 16
    ensures m.Keys == s.bytes.Keys
  {
    if n == 0 then s.bytes
    else PutWord(StoredUpTo(s, start, n - 1, usr), s.big, Add(start, 4 * (n - 1)),
                 if usr then s.UsrReg(n - 1) else s.Reg(n - 1))
  }

  function StmStored(s: State, ins: word, usr: bool): State
  {
    s.(bytes := StoredUpTo(s, StartAddress(s, ins), 16, usr))
  }

  function AfterStm(s: State, ins: word, usr: bool): State
  {
    if !s.Passed(ins) then s
    else Closed(StmStored(s, ins, usr), ins, Add(StartAddress(s, ins), 64))
  }

  function AfterLoadStoreMultiple(s: State, ins: word): State
  {
    if BBit(ins) == 0 then
      if LBit(ins) == 1 then AfterLdm1(s, ins) else AfterStm(s, ins, false)
    else if LBit(ins) == 1 then
      if Listed(ins, 15) then AfterLdm3(s, ins) else AfterLdm2(s, ins)
    else if WBit(ins) == 0 then AfterStm(s, ins, true)
    else s
  }

  // ---- nbSetBits ----

  function PopCount(n: nat): nat { if n == 0 then 0 else PopCount(n / 2) + n % 2 }

  /** n & (n - 1) clears exactly one set bit. */
  lemma {:induction false} ClearLowestBit(n: nat)
    requires n > 0
    ensures Bitwise(AND, n, n - 1) < n
    ensures PopCount(Bitwise(AND, n, n - 1)) == PopCount(n) - 1
  {
    if n % 2 == 1 {
      AndSelf(n / 2);
      assert Bitwise(AND, n, n - 1) == 2 * (n / 2);
    } else {
      ClearLowestBit(n / 2);
      var m := Bitwise(AND, n / 2, n / 2 - 1);
      assert (n - 1) / 2 == n / 2 - 1;
      assert Bitwise(AND, n, n - 1) == 2 * m;
    }
  }

  lemma {:induction false} AndSelf(n: nat)
    ensures Bitwise(AND, n, n) == n
  {
    if n > 0 {
      AndSelf(n / 2);
    }
  }

  /** The popcount of the low n bits is the number of listed registers below n. */
  lemma {:induction false} PopCountIsCount(x: nat, n: nat)
    ensures PopCount(x % Pow2(n)) == Count(x, n)
  {
    if n == 0 {
    } else {
      hide GetBit;
      var p := Pow2(n - 1);
      ModDouble(x, p);
      PopCountIsCount(x / 2, n - 1);
      CountShift(x, n);
      PopCountDouble(x / 2 % p, x % 2);
    }
  }

  lemma PopCountDouble(h: nat, b: bit)
    ensures PopCount(2 * h + b) == PopCount(h) + b
  {
    assert (2 * h + b) / 2 == h;
  }

  lemma ModDouble(x: nat, p: nat)
    requires p > 0
    ensures x % (2 * p) == 2 * (x / 2 % p) + x % 2
  {
    var q, r := x / 2 / p, x / 2 % p;
    Regroup(2, p, q, r, x % 2);
    DivUnique(x, 2 * p, q, 2 * r + x % 2);
  }

  lemma {:induction false} CountShift(x: nat, n: nat)
    requires n > 0
    ensures Count(x, n) == x % 2 + Count(x / 2, n - 1)
  {
    if n > 1 {
      CountShift(x, n - 1);
      GetBitShift(x, n - 1);
    }
  }

  /** The listed registers below n. */
  function ListedBelow(ins: word, n: nat): set<nat> { set i: nat | i < n && Listed(ins, i) }

  /** Kernighan's loop counts the listed registers. */
  method NbSetBits(ins: word) returns (count: nat)
    ensures count == |ListedBelow(ins, 16)|
    ensures count == ListSize(ins)
  {
    hide Bitwise, Count, Listed;
    count := 0;
    var number: word := And(ins, 0xFFFF);
    assert PopCount(number) == ListSize(ins) by {
      ListMask(ins);
    }
    while number != 0
      invariant count + PopCount(number) == ListSize(ins)
      decreases number
    {
      ClearLowestBit(number);
      number := And(number, Sub(number, 1));
      count := count + 1;
    }
    CountIsCardinality(ins, 16);
  }

  lemma ListMask(ins: word)
    ensures PopCount(And(ins, 0xFFFF)) == ListSize(ins)
  {
    Pow2_32();
    BitwiseSplit(AND, ins / 0x1_0000, ins % 0x1_0000, 0, 0xFFFF, 0x1_0000, 16);
    AndZero(ins / 0x1_0000);
    AndOnes(ins % 0x1_0000, 0x1_0000, 16);
    PopCountIsCount(ins, 16);
  }

  lemma {:induction false} CountIsCardinality(ins: word, n: nat)
    ensures Count(ins, n) == |ListedBelow(ins, n)|
  {
    hide GetBit, ListedBelow;
    ListedStep(ins, n);
    if n > 0 {
      CountIsCardinality(ins, n - 1);
      assert Listed(ins, n - 1) <==> GetBit(ins, n - 1) == 1;
    }
  }

  lemma ListedStep(ins: word, n: nat)
    ensures n == 0 ==> ListedBelow(ins, n) == {}
    ensures n > 0 ==> n - 1 !in ListedBelow(ins, n - 1)
    ensures n > 0 ==> ListedBelow(ins, n) == ListedBelow(ins, n - 1) + if Listed(ins, n - 1) then {n - 1} else {}
  {
    hide Listed;
  }

  // ---- The handlers; each returns its result code ----

  method GetStartAddress(p: ArmCore, ins: word) returns (start: word)
    requires p.Valid()
    ensures start == StartAddress(p.Abs(), ins)
  {
    hide Add, Sub, PBit, UBit, Rn, Count;
    DirectionBits(ins);
    var count := NbSetBits(ins);
    match ins / 0x80_0000 % 4
    case 1 => start := p.ReadRegister(Rn(ins));
    case 3 => start := Add(p.ReadRegister(Rn(ins)), 4);
    case 0 => start := Add(Sub(p.ReadRegister(Rn(ins)), 4 * count), 4);
    case _ => start := Sub(p.ReadRegister(Rn(ins)), 4 * count);
  }

  lemma DirectionBits(ins: word)
    ensures ins / 0x80_0000 % 4 == 2 * PBit(ins) + UBit(ins)
  {
    var a := ins / 0x80_0000;
    assert ins / 0x100_0000 == a / 2;
  }

  method GetEndAddress(p: ArmCore, ins: word) returns (end: word)
    requires p.Valid()
    ensures end == EndAddress(p.Abs(), ins)
  {
    hide Add, Sub, PBit, UBit, Rn, Count;
    DirectionBits(ins);
    var count := NbSetBits(ins);
    match ins / 0x80_0000 % 4
    case 1 => end := Sub(Add(p.ReadRegister(Rn(ins)), 4 * count), 4);
    case 3 => end := Add(p.ReadRegister(Rn(ins)), 4 * count);
    case 0 => end := p.ReadRegister(Rn(ins));
    case _ => end := Sub(p.ReadRegister(Rn(ins)), 4);
  }

  method UpdateRn(p: ArmCore, ins: word)
    requires p.Valid()
    modifies p.Footprint()
    ensures p.Valid() && p.Abs() == RnUpdated(old(p.Abs()), ins)
  {
    hide Add, Rn, Count;
    if WBit(ins) == 1 {
      var rnData := p.ReadRegister(Rn(ins));
      var count := NbSetBits(ins);
      p.WriteRegister(Rn(ins), Add(rnData, count * 4));
    }
  }

  /** The end-address assertion and the writeback that close every block transfer. */
  method Close(p: ArmCore, ins: word, next: word) returns (code: nat)
    requires p.Valid()
    modifies p.Footprint()
    ensures p.Valid() && p.Abs() == Closed(old(p.Abs()), ins, next)
    ensures code == if EndsAt(old(p.Abs()), ins, next) then 0 else 1
  {
    hide Sub, EndAddress, RnUpdated;
    var end := GetEndAddress(p, ins);
    if Sub(next, 4) != end {
      return 1;
    }
    UpdateRn(p, ins);
    return 0;
  }

  lemma SlotStep(ins: word, start: word, n: nat)
    ensures SlotAddress(ins, start, n + 1)
         == if Listed(ins, n) then Add(SlotAddress(ins, start, n), 4) else SlotAddress(ins, start, n)
  {
    hide Add;
    AddAdd(start, 4 * Count(ins, n), 4);
  }

  /** The loop over R0 to R14 shared by the three load instructions. */
  method LoadList(p: ArmCore, ins: word, startAddr: word, usr: bool) returns (currAddr: word)
    requires p.Valid()
    modifies p.Footprint()
    ensures p.Valid() && p.Abs() == LoadedUpTo(old(p.Abs()), ins, startAddr, 15, usr)
    ensures currAddr == SlotAddress(ins, startAddr, 15)
  {
    hide State.Word, Add, GetBit, Pow2;
    ghost var s := p.Abs();
    currAddr := startAddr;
    assert SlotAddress(ins, startAddr, 0) == startAddr by { StartSlot(ins, startAddr); }
    var i := 0;
    while i < 15
      invariant 0 <= i <= 15 && p.Valid()
      invariant currAddr == SlotAddress(ins, startAddr, i)
      invariant p.Abs() == LoadedUpTo(s, ins, startAddr, i, usr)
    {
      SlotStep(ins, startAddr, i);
      if GetBit(ins, i) == 1 {
        var data := p.ReadWord(currAddr);
        SameWord(s, p.Abs(), currAddr);
        if usr {
          p.WriteUsrRegister(i, data);
        } else {
          p.WriteRegister(i, data);
        }
        currAddr := Add(currAddr, 4);
      }
      i := i + 1;
    }
  }

  lemma StartSlot(ins: word, start: word)
    ensures SlotAddress(ins, start, 0) == start
  {
  }

  method Ldm1(p: ArmCore, ins: word) returns (code: nat)
    requires p.Valid()
    modifies p.Footprint()
    ensures p.Valid() && p.Abs() == AfterLdm1(old(p.Abs()), ins)
    ensures code == 1 <==> var s := old(p.Abs());
      s.Passed(ins) && !EndsAt(Ldm1Loaded(s, ins), ins, SlotAddress(ins, StartAddress(s, ins), 16))
  {
    hide ConditionCode, State.Word, Closed, EndsAt, StartAddress, SlotAddress, Add, GetBit, LoadedUpTo, State.PcLoaded;
    code := 0;
    ghost var s := p.Abs();
    if p.ConditionPassed(ins) != 0 {
      var startAddr := GetStartAddress(p, ins);
      var currAddr := LoadList(p, ins, startAddr, false);
      SlotStep(ins, startAddr, 15);
      if GetBit(ins, 15) == 1 {
        var data := p.ReadWord(currAddr);
        SameWord(s, p.Abs(), currAddr);
        LoadStore.LoadPc(p, data);
        currAddr := Add(currAddr, 4);
      }
      code := Close(p, ins, currAddr);
    }
  }

  method Ldm2(p: ArmCore, ins: word) returns (code: nat)
    requires p.Valid()
    modifies p.Footprint()
    ensures p.Valid() && p.Abs() == AfterLdm2(old(p.Abs()), ins)
  {
    hide ConditionCode, Closed, EndsAt, StartAddress, SlotAddress, LoadedUpTo;
    code := 0;
    if p.ConditionPassed(ins) != 0 {
      var startAddr := GetStartAddress(p, ins);
      var currAddr := LoadList(p, ins, startAddr, true);
      code := Close(p, ins, currAddr);
    }
  }

  method Ldm3(p: ArmCore, ins: word) returns (code: nat)
    requires p.Valid()
    modifies p.Footprint()
    ensures p.Valid() && p.Abs() == AfterLdm3(old(p.Abs()), ins)
  {
    hide ConditionCode, State.Word, Closed, EndsAt, StartAddress, SlotAddress, Add, LoadedUpTo;
    code := 0;
    ghost var s := p.Abs();
    if p.ConditionPassed(ins) != 0 {
      var startAddr := GetStartAddress(p, ins);
      var currAddr := LoadList(p, ins, startAddr, false);
      if p.CurrentModeHasSpsr() {
        p.WriteCpsr(p.ReadSpsr());
      }
      var value := p.ReadWord(currAddr);
      SameWord(s, p.Abs(), currAddr);
      p.WriteRegister(15, value);
      currAddr := Add(currAddr, 4);
      code := Close(p, ins, currAddr);
    }
  }

  /** The loop over all sixteen registers shared by the two store instructions, which never looks at the list. */
  method StoreAll(p: ArmCore, startAddr: word, usr: bool) returns (currAddr: word)
    requires p.Valid()
    modifies p.Footprint()
    ensures p.Valid() && p.Abs() == old(p.Abs()).(bytes := StoredUpTo(old(p.Abs()), startAddr, 16, usr))
    ensures currAddr == Add(startAddr, 64)
  {
    hide Add;
    ghost var s := p.Abs();
    currAddr := startAddr;
    assert Add(startAddr, 0) == startAddr by { AddNothing(startAddr); }
    var i := 0;
    while i < 16
      invariant 0 <= i <= 16 && p.Valid()
      invariant currAddr == Add(startAddr, 4 * i)
      invariant p.Abs() == s.(bytes := StoredUpTo(s, startAddr, i, usr))
    {
      var data := if usr then p.ReadUsrRegister(i) else p.ReadRegister(i);
      p.WriteWord(currAddr, data);
      AddAdd(startAddr, 4 * i, 4);
      currAddr := Add(currAddr, 4);
      i := i + 1;
    }
  }

  method Stm1(p: ArmCore, ins: word) returns (code: nat)
    requires p.Valid()
    modifies p.Footprint()
    ensures p.Valid() && p.Abs() == AfterStm(old(p.Abs()), ins, false)
    ensures code == 1 <==> var s := old(p.Abs());
      s.Passed(ins) && !EndsAt(StmStored(s, ins, false), ins, Add(StartAddress(s, ins), 64))
  {
    hide ConditionCode, Closed, EndsAt, StartAddress, StoredUpTo, Add;
    code := 0;
    if p.ConditionPassed(ins) != 0 {
      var startAddr := GetStartAddress(p, ins);
      var currAddr := StoreAll(p, startAddr, false);
      code := Close(p, ins, currAddr);
    }
  }

  method Stm2(p: ArmCore, ins: word) returns (code: nat)
    requires p.Valid()
    modifies p.Footprint()
    ensures p.Valid() && p.Abs() == AfterStm(old(p.Abs()), ins, true)
  {
    hide ConditionCode, Closed, EndsAt, StartAddress, StoredUpTo, Add;
    code := 0;
    if p.ConditionPassed(ins) != 0 {
      var startAddr := GetStartAddress(p, ins);
      var currAddr := StoreAll(p, startAddr, true);
      code := Close(p, ins, currAddr);
    }
  }

  method ArmLoadStoreMultiple(p: ArmCore, ins: word)
    requires p.Valid()
    modifies p.Footprint()
    ensures p.Valid() && p.Abs() == AfterLoadStoreMultiple(old(p.Abs()), ins)
  {
    var bit22, bit21, bit20, bit15 := BBit(ins), WBit(ins), LBit(ins), GetBit(ins, 15);
    if bit22 == 0 && bit20 == 1 {
      var _ := Ldm1(p, ins);
    } else if bit22 == 1 && bit20 == 1 && bit15 == 0 {
      var _ := Ldm2(p, ins);
    } else if bit22 == 1 && bit20 == 1 && bit15 == 1 {
      var _ := Ldm3(p, ins);
    } else if bit22 == 0 && bit20 == 0 {
      var _ := Stm1(p, ins);
    } else if bit22 == 1 && bit21 == 0 && bit20 == 0 {
      var _ := Stm2(p, ins);
    }
  }
}
