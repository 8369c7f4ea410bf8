/** What the condition codes mean, bit by bit and for the outcome of a comparison (section A3.2). */
module ConditionProofs {
  import opened Words
  import opened Encoding
  import opened RegisterFile
  import opened Core
  import EncodingProofs

  /** The flags and the mode are bits 31, 30, 29, 28 and 4:0 of a status word. */
  lemma StatusBits(w: word, i: nat)
    ensures FlagN(w) == GetBit(w, 31) && FlagZ(w) == GetBit(w, 30)
    ensures FlagC(w) == GetBit(w, 29) && FlagV(w) == GetBit(w, 28)
    ensures GetBit(ModeOf(w), i) == if i < 5 then GetBit(w, i) else 0
  {
    FlagBits(w);
    hide GetBit, Pow2;
    Pow2_32();
    if i < 5 {
      EncodingProofs.BitOfField(w, 5, i);
    } else {
      EncodingProofs.SmallField(ModeOf(w), 5, i);
    }
  }

  lemma FlagBits(w: word)
    ensures FlagN(w) == GetBit(w, 31) && FlagZ(w) == GetBit(w, 30)
    ensures FlagC(w) == GetBit(w, 29) && FlagV(w) == GetBit(w, 28)
  {
    Pow2_32();
    hide Pow2;
  }

  /** An int32_t holds it. */
  predicate IsSigned(x: int) { -0x8000_0000 <= x < 0x8000_0000 }

  /** The top four bits of a status word tell of a - b: sign, zero, no borrow, overflow. */
  predicate Compares(w: word, a: word, b: word)
  {
    && GetBit(w, 31) == (if Signed(Sub(a, b)) < 0 then 1 else 0)
    && GetBit(w, 30) == (if a == b then 1 else 0)
    && GetBit(w, 29) == (if a >= b then 1 else 0)
    && GetBit(w, 28) == (if IsSigned(Signed(a) - Signed(b)) then 0 else 1)
  }

  /** After a comparison of a with b: what EQ, NE, CS, CC, MI, PL, VS, VC, HI, LS, GE, LT, GT, LE, AL and 15 claim. */
  predicate Holds(cond: nat, a: word, b: word)
  {
    match cond
    case 0 => a == b
    case 1 => a != b
    case 2 => a >= b
    case 3 => a < b
    case 4 => Signed(Sub(a, b)) < 0
    case 5 => Signed(Sub(a, b)) >= 0
    case 6 => !IsSigned(Signed(a) - Signed(b))
    case 7 => IsSigned(Signed(a) - Signed(b))
    case 8 => a > b
    case 9 => a <= b
    case 10 => Signed(a) >= Signed(b)
    case 11 => Signed(a) < Signed(b)
    case 12 => Signed(a) > Signed(b)
    case 13 => Signed(a) <= Signed(b)
    case _ => true
  }

  /** Every condition code decides the comparison it is named after, unsigned or signed. */
  lemma ConditionsCompare(s: State, ins: word, a: word, b: word)
    requires Compares(s.Cpsr(), a, b)
    ensures s.Passed(ins) <==> Holds(CondField(ins), a, b)
  {
    hide GetBit, CondField, FlagN, FlagZ, FlagC, FlagV;
    FlagBits(s.Cpsr());
    SignOfDifference(a, b);
  }

  /** Signed order by sign and overflow of the difference. */
  lemma SignOfDifference(a: word, b: word)
    ensures Signed(a) < Signed(b) <==> (Signed(Sub(a, b)) < 0) == IsSigned(Signed(a) - Signed(b))
    ensures Signed(a) == Signed(b) <==> a == b
  {
  }

  /** The same for every status word, also those no comparison leaves, flag by flag. */
  lemma ConditionBits(s: State, ins: word)
    ensures var w := s.Cpsr(); var n, z, c, v := GetBit(w, 31), GetBit(w, 30), GetBit(w, 29), GetBit(w, 28);
            s.Passed(ins) <==>
              match CondField(ins) / 2
              case 0 => (z == 1) == (CondField(ins) == 0)
              case 1 => (c == 1) == (CondField(ins) == 2)
              case 2 => (n == 1) == (CondField(ins) == 4)
              case 3 => (v == 1) == (CondField(ins) == 6)
              case 4 => (c == 1 && z == 0) == (CondField(ins) == 8)
              case 5 => (n == v) == (CondField(ins) == 10)
              case 6 => (z == 0 && n == v) == (CondField(ins) == 12)
              case _ => true
  {
    hide GetBit, CondField, FlagN, FlagZ, FlagC, FlagV;
    FlagBits(s.Cpsr());
    EncodingProofs.FieldRange(ins);
  }

  /** A condition and its odd neighbour are exact opposites, and only codes 0 to 13 can fail (section A3.2). */
  lemma ConditionsComeInPairs(s: State, ins: word, ins': word)
    requires CondField(ins) % 2 == 0 && CondField(ins') == CondField(ins) + 1
    ensures CondField(ins) < 14 ==> s.Passed(ins) == !s.Passed(ins')
    ensures CondField(ins) >= 14 ==> s.Passed(ins) && s.Passed(ins')
  {
    hide CondField, FlagN, FlagZ, FlagC, FlagV;
    EncodingProofs.FieldRange(ins);
  }
}
