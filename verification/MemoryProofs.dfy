/** The memory as a byte map: histories of writes, reading back, disjoint accesses and the two byte orders. */
module MemoryProofs {
  import opened Words
  import opened MemoryArea

  // ---- Bytes of words ----

  /** The j-th byte of a number, counted from its least significant one. */
  function ByteOf(v: nat, j: nat): byte { v / Pow2(8 * j) % 0x100 }

  /** Which byte is stored i bytes above the address: from the top in a big-endian memory, from the bottom otherwise. */
  lemma StoredBytes(v: word, h: half, big: bool, i: nat)
    ensures i < 4 ==> WordByte(v, big, i) == ByteOf(v, if big then 3 - i else i)
    ensures i < 2 ==> HalfByte(h, big, i) == ByteOf(h, if big then 1 - i else i)
  {
    hide ByteOf;
    BytesOf(v);
    BytesOf(h);
    HalfTop(h);
  }

  lemma HalfTop(h: half)
    ensures h / 0x100 % 0x100 == h / 0x100
  {
  }

  lemma BytesOf(v: word)
    ensures ByteOf(v, 0) == v % 0x100 && ByteOf(v, 1) == v / 0x100 % 0x100
    ensures ByteOf(v, 2) == v / 0x1_0000 % 0x100 && ByteOf(v, 3) == v / 0x100_0000
  {
    Pow2_32();
    assert Pow2(0) == 1;
  }

  /** Byte j of a word read is the byte that the byte order puts there, or 0 out of range. */
  lemma WordReadMeaning(m: Bytes, big: bool, a: word, j: nat)
    requires j < 4
    ensures var b := Add(a, if big then 3 - j else j);
            ByteOf(WordAt(m, big, a), j) == if b in m then m[b] else 0
  {
    hide ByteOf, Add, ByteAt;
    var b0, b1, b2, b3 := ByteAt(m, a), ByteAt(m, Add(a, 1)), ByteAt(m, Add(a, 2)), ByteAt(m, Add(a, 3));
    AddNothing(a);
    if big {
      JoinedBytes(b3, b2, b1, b0);
    } else {
      JoinedBytes(b0, b1, b2, b3);
    }
    ByteAtMeaning(m, Add(a, if big then 3 - j else j));
  }

  lemma ByteAtMeaning(m: Bytes, a: word)
    ensures ByteAt(m, a) == if a in m then m[a] else 0
  {
  }

  lemma JoinedBytes(b0: byte, b1: byte, b2: byte, b3: byte)
    ensures var x := b3 * 0x100_0000 + b2 * 0x1_0000 + b1 * 0x100 + b0;
            ByteOf(x, 0) == b0 && ByteOf(x, 1) == b1 && ByteOf(x, 2) == b2 && ByteOf(x, 3) == b3
  {
    hide ByteOf;
    var x: word := b3 * 0x100_0000 + b2 * 0x1_0000 + b1 * 0x100 + b0;
    BytesOf(x);
    DivUnique(x, 0x100, b3 * 0x1_0000 + b2 * 0x100 + b1, b0);
    DivUnique(x, 0x1_0000, b3 * 0x100 + b2, b1 * 0x100 + b0);
    DivUnique(x, 0x100_0000, b3, b2 * 0x1_0000 + b1 * 0x100 + b0);
    DivUnique(b3 * 0x1_0000 + b2 * 0x100 + b1, 0x100, b3 * 0x100 + b2, b1);
    DivUnique(b3 * 0x100 + b2, 0x100, b3, b2);
  }

  /** And byte j of a halfword. */
  lemma HalfReadMeaning(m: Bytes, big: bool, a: word, j: nat)
    requires j < 2
    ensures var b := Add(a, if big then 1 - j else j);
            ByteOf(HalfAt(m, big, a), j) == if b in m then m[b] else 0
  {
    hide ByteOf, Add, ByteAt;
    var b0, b1 := ByteAt(m, a), ByteAt(m, Add(a, 1));
    AddNothing(a);
    JoinedBytes(b0, b1, 0, 0);
    JoinedBytes(b1, b0, 0, 0);
    ByteAtMeaning(m, Add(a, if big then 1 - j else j));
  }

  // ---- Histories of writes ----

  datatype Write = WriteByte(a: word, b: byte) | WriteHalf(a: word, h: half) | WriteWord(a: word, w: word)

  function Perform(m: Bytes, big: bool, x: Write): Bytes
  {
    match x
    case WriteByte(a, b) => PutByte(m, a, b)
    case WriteHalf(a, h) => PutHalf(m, big, a, h)
    case WriteWord(a, w) => PutWord(m, big, a, w)
  }

  function PerformAll(m: Bytes, big: bool, xs: seq<Write>): Bytes
  {
    if xs == [] then m else Perform(PerformAll(m, big, xs[..|xs| - 1]), big, xs[|xs| - 1])
  }

  /** The single-byte writes that an access stands for, in order. */
  function Decomposed(x: Write, big: bool): seq<(word, byte)>
  {
    match x
    case WriteByte(a, b) => [(a, b)]
    case WriteHalf(a, h) =>
      if big then [(a, ByteOf(h, 1)), (Add(a, 1), ByteOf(h, 0))]
      else [(a, ByteOf(h, 0)), (Add(a, 1), ByteOf(h, 1))]
    case WriteWord(a, w) =>
      if big then [(a, ByteOf(w, 3)), (Add(a, 1), ByteOf(w, 2)), (Add(a, 2), ByteOf(w, 1)), (Add(a, 3), ByteOf(w, 0))]
      else [(a, ByteOf(w, 0)), (Add(a, 1), ByteOf(w, 1)), (Add(a, 2), ByteOf(w, 2)), (Add(a, 3), ByteOf(w, 3))]
  }

  function AllDecomposed(xs: seq<Write>, big: bool): seq<(word, byte)>
  {
    if xs == [] then [] else AllDecomposed(xs[..|xs| - 1], big) + Decomposed(xs[|xs| - 1], big)
  }

  /** The value of the last write to address a, or the original byte. */
  function LastWritten(ws: seq<(word, byte)>, a: word, original: byte): byte
  {
    if ws == [] then original
    else if ws[|ws| - 1].0 == a then ws[|ws| - 1].1
    else LastWritten(ws[..|ws| - 1], a, original)
  }

  lemma {:induction false} LastWrittenConcat(us: seq<(word, byte)>, ws: seq<(word, byte)>, a: word, original: byte)
    ensures LastWritten(us + ws, a, original) == LastWritten(ws, a, LastWritten(us, a, original))
    decreases |ws|
  {
    if ws == [] {
      assert us + ws == us;
    } else {
      assert (us + ws)[..|us + ws| - 1] == us + ws[..|ws| - 1];
      LastWrittenConcat(us, ws[..|ws| - 1], a, original);
    }
  }

  lemma LastOfFour(a: word, p: (word, byte), q: (word, byte), r: (word, byte), t: (word, byte), original: byte)
    ensures LastWritten([p, q, r, t], a, original)
         == if t.0 == a then t.1 else if r.0 == a then r.1 else if q.0 == a then q.1
            else if p.0 == a then p.1 else original
    ensures LastWritten([p, q], a, original) == if q.0 == a then q.1 else if p.0 == a then p.1 else original
  {
    hide LastWritten;
    LastOfOne(a, p, original);
    LastOfMore([p], q, a, original);
    LastOfMore([p, q], r, a, original);
    LastOfMore([p, q, r], t, a, original);
    assert [p] + [q] == [p, q] && [p, q] + [r] == [p, q, r] && [p, q, r] + [t] == [p, q, r, t];
  }

  lemma LastOfMore(ws: seq<(word, byte)>, p: (word, byte), a: word, original: byte)
    ensures LastWritten(ws + [p], a, original) == if p.0 == a then p.1 else LastWritten(ws, a, original)
  {
    assert (ws + [p])[..|ws|] == ws;
  }

  lemma OneWrite(m: Bytes, big: bool, x: Write, a: word)
    requires a in m
    ensures Perform(m, big, x).Keys == m.Keys
    ensures Perform(m, big, x)[a] == LastWritten(Decomposed(x, big), a, m[a])
  {
    hide Add, Sub, WordByte, HalfByte, LastWritten, PutWord, PutHalf, PutByte, ByteOf;
    match x {
    case WriteByte(b, v) =>
      LastOfOne(a, (b, v), m[a]);
      ByteWritten(m, b, v, a);
    case WriteHalf(b, v) =>
      StoredBytes(0, v, big, 0);
      StoredBytes(0, v, big, 1);
      LastOfFour(a, (b, HalfByte(v, big, 0)), (Add(b, 1), HalfByte(v, big, 1)), (0, 0), (0, 0), m[a]);
      HalfWritten(m, big, b, v, a);
    case WriteWord(b, v) =>
      StoredBytes(v, 0, big, 0);
      StoredBytes(v, 0, big, 1);
      StoredBytes(v, 0, big, 2);
      StoredBytes(v, 0, big, 3);
      WordWritten(m, big, b, v, a);
      LastOfFour(a, (b, WordByte(v, big, 0)), (Add(b, 1), WordByte(v, big, 1)),
                 (Add(b, 2), WordByte(v, big, 2)), (Add(b, 3), WordByte(v, big, 3)), m[a]);
    }
  }

  lemma ByteWritten(m: Bytes, b: word, v: byte, a: word)
    requires a in m
    ensures PutByte(m, b, v).Keys == m.Keys && PutByte(m, b, v)[a] == if b == a then v else m[a]
  {
  }

  lemma HalfWritten(m: Bytes, big: bool, b: word, v: half, a: word)
    requires a in m
    ensures PutHalf(m, big, b, v).Keys == m.Keys
    ensures PutHalf(m, big, b, v)[a]
         == if Add(b, 1) == a then HalfByte(v, big, 1) else if b == a then HalfByte(v, big, 0) else m[a]
  {
    OffsetOf(a, b, 0);
    OffsetOf(a, b, 1);
    AddNothing(b);
  }

  lemma WordWritten(m: Bytes, big: bool, b: word, v: word, a: word)
    requires a in m
    ensures PutWord(m, big, b, v).Keys == m.Keys
    ensures PutWord(m, big, b, v)[a]
         == if Add(b, 3) == a then WordByte(v, big, 3) else if Add(b, 2) == a then WordByte(v, big, 2)
            else if Add(b, 1) == a then WordByte(v, big, 1) else if b == a then WordByte(v, big, 0) else m[a]
  {
    hide Add, Sub, WordByte;
    FourOffsets(a, b);
  }

  lemma LastOfOne(a: word, p: (word, byte), original: byte)
    ensures LastWritten([p], a, original) == if p.0 == a then p.1 else original
  {
    assert [p][..0] == [];
  }

  /** After any history each in-range byte holds the last value written to it; other addresses stay absent. */
  lemma {:induction false} HistoryIsLastWrite(m: Bytes, big: bool, xs: seq<Write>)
    ensures PerformAll(m, big, xs).Keys == m.Keys
    ensures forall a | a in m :: PerformAll(m, big, xs)[a] == LastWritten(AllDecomposed(xs, big), a, m[a])
    decreases |xs|
  {
    hide Perform, Decomposed, LastWritten;
    if xs == [] {
      forall a | a in m
        ensures LastWritten([], a, m[a]) == m[a]
      {
        NothingWritten(a, m[a]);
      }
    } else {
      var before, x := xs[..|xs| - 1], xs[|xs| - 1];
      HistoryIsLastWrite(m, big, before);
      var n := PerformAll(m, big, before);
      if a :| a in m {
        OneWrite(n, big, x, a);
      } else {
        NoKeys(n, big, x);
      }
      forall a | a in m
        ensures PerformAll(m, big, xs)[a] == LastWritten(AllDecomposed(xs, big), a, m[a])
      {
        OneWrite(n, big, x, a);
        LastWrittenConcat(AllDecomposed(before, big), Decomposed(x, big), a, m[a]);
      }
    }
  }

  lemma NothingWritten(a: word, original: byte)
    ensures LastWritten([], a, original) == original
  {
  }

  lemma NoKeys(m: Bytes, big: bool, x: Write)
    ensures Perform(m, big, x).Keys == m.Keys
  {
  }

  // ---- Reading back ----

  /** Four bytes in address order, read as a word. */
  function Joined(b0: byte, b1: byte, b2: byte, b3: byte, big: bool): word
  {
    if big then b0 * 0x100_0000 + b1 * 0x1_0000 + b2 * 0x100 + b3
    else b3 * 0x100_0000 + b2 * 0x1_0000 + b1 * 0x100 + b0
  }

  lemma WordOfBytes(v: word, big: bool)
    ensures v == Joined(WordByte(v, big, 0), WordByte(v, big, 1), WordByte(v, big, 2), WordByte(v, big, 3), big)
  {
    assert v / 0x1_0000 == v / 0x100 / 0x100 && v / 0x100_0000 == v / 0x1_0000 / 0x100;
  }

  lemma ByteAfterPutWord(m: Bytes, big: bool, a: word, v: word, i: nat)
    requires i < 4
    ensures ByteAt(PutWord(m, big, a, v), Add(a, i)) == if Add(a, i) in m then WordByte(v, big, i) else 0
  {
    OffsetOf(Add(a, i), a, i);
  }

  /** A word reads back exactly when each of its bytes is in range or zero. */
  lemma WordReadsBack(m: Bytes, big: bool, a: word, v: word)
    ensures WordAt(PutWord(m, big, a, v), big, a) == v
       <==> forall i: nat | i < 4 :: WordByte(v, big, i) == 0 || Add(a, i) in m
  {
    hide PutWord, WordByte, Add, ByteAt;
    WordOfBytes(v, big);
    AddNothing(a);
    ByteAfterPutWord(m, big, a, v, 0);
    ByteAfterPutWord(m, big, a, v, 1);
    ByteAfterPutWord(m, big, a, v, 2);
    ByteAfterPutWord(m, big, a, v, 3);
    var m' := PutWord(m, big, a, v);
    if WordAt(m', big, a) == v {
      DigitsUnique(WordByte(v, big, 0), WordByte(v, big, 1), WordByte(v, big, 2), WordByte(v, big, 3),
                   ByteAt(m', Add(a, 0)), ByteAt(m', Add(a, 1)), ByteAt(m', Add(a, 2)), ByteAt(m', Add(a, 3)), big);
    }
  }

  lemma WordInRangeReadsBack(m: Bytes, big: bool, a: word, v: word)
    requires Add(a, 0) in m && Add(a, 1) in m && Add(a, 2) in m && Add(a, 3) in m
    ensures WordAt(PutWord(m, big, a, v), big, a) == v
  {
    hide PutWord, WordAt, WordByte, Add;
    WordReadsBack(m, big, a, v);
  }

  /** And so does a halfword. */
  lemma HalfReadsBack(m: Bytes, big: bool, a: word, v: half)
    ensures HalfAt(PutHalf(m, big, a, v), big, a) == v
       <==> (HalfByte(v, big, 0) == 0 || a in m) && (HalfByte(v, big, 1) == 0 || Add(a, 1) in m)
  {
    OffsetOf(a, a, 0);
    AddNothing(a);
    OffsetOf(Add(a, 1), a, 1);
    var m' := PutHalf(m, big, a, v);
    assert ByteAt(m', a) == if a in m then HalfByte(v, big, 0) else 0;
    assert ByteAt(m', Add(a, 1)) == if Add(a, 1) in m then HalfByte(v, big, 1) else 0;
  }

  lemma DigitsUnique(a: byte, b: byte, c: byte, d: byte, e: byte, f: byte, g: byte, h: byte, big: bool)
    requires Joined(a, b, c, d, big) == Joined(e, f, g, h, big)
    ensures a == e && b == f && c == g && d == h
  {
    if big {
      TopDigit(a, b * 0x1_0000 + c * 0x100 + d, e, f * 0x1_0000 + g * 0x100 + h);
      TopDigit(b, c * 0x100 + d, f, g * 0x100 + h);
    } else {
      TopDigit(d, c * 0x1_0000 + b * 0x100 + a, h, g * 0x1_0000 + f * 0x100 + e);
      TopDigit(c, b * 0x100 + a, g, f * 0x100 + e);
    }
  }

  lemma TopDigit(a: int, r: int, e: int, t: int)
    requires (0 <= r < 0x100_0000 && 0 <= t < 0x100_0000 && a * 0x100_0000 + r == e * 0x100_0000 + t)
          || (0 <= r < 0x1_0000 && 0 <= t < 0x1_0000 && a * 0x1_0000 + r == e * 0x1_0000 + t)
    ensures a == e && r == t
  {
  }

  /** Accesses that do not overlap modulo 2^32 do not disturb each other. */
  lemma DisjointWords(m: Bytes, big: bool, a: word, v: word, b: word)
    requires 4 <= Sub(b, a) <= 0xFFFF_FFFC
    ensures WordAt(PutWord(m, big, a, v), big, b) == WordAt(m, big, b)
  {
    hide WordByte, Add, Sub;
    FarByte(a, b, 0);
    AddNothing(b);
    FarByte(a, b, 1);
    FarByte(a, b, 2);
    FarByte(a, b, 3);
  }

  lemma FarByte(a: word, b: word, i: nat)
    requires 4 <= Sub(b, a) <= 0xFFFF_FFFC && i < 4
    ensures Sub(Add(b, i), a) >= 4
  {
  }

  // ---- Byte order ----

  /** reverse_4 of util.h. */
  function Reverse4(x: word): word
  {
    x % 0x100 * 0x100_0000 + x / 0x100 % 0x100 * 0x1_0000 + x / 0x1_0000 % 0x100 * 0x100 + x / 0x100_0000
  }

  /** reverse_2 of util.h. */
  function Reverse2(x: half): half { x % 0x100 * 0x100 + x / 0x100 }

  /** The same bytes read in the two byte orders are byte reversals of each other. */
  lemma ByteOrdersReverse(m: Bytes, a: word)
    ensures WordAt(m, true, a) == Reverse4(WordAt(m, false, a))
    ensures HalfAt(m, true, a) == Reverse2(HalfAt(m, false, a))
  {
    hide Add, ByteAt, ByteOf;
    var b0, b1, b2, b3 := ByteAt(m, a), ByteAt(m, Add(a, 1)), ByteAt(m, Add(a, 2)), ByteAt(m, Add(a, 3));
    BytesOf(WordAt(m, false, a));
    JoinedBytes(b0, b1, b2, b3);
    ReverseTwoDigits(b0, b1);
  }

  lemma ReverseTwoDigits(b0: byte, b1: byte)
    ensures Reverse2(b1 * 0x100 + b0) == b0 * 0x100 + b1
  {
    var x: half := b1 * 0x100 + b0;
    DivUnique(x, 0x100, b1, b0);
  }
}
