/** memory.c: a byte buffer with an endianness flag, read and written by bytes, halfwords and words. */
module MemoryArea {
  import opened Words

  // ---- What the accesses mean, on the map from in-range addresses to bytes ----

  type Bytes = map<word, byte>

  /** A byte, or 0 out of range: the initial value of the res variables of the half and word reads. */
  function ByteAt(m: Bytes, a: word): byte { if a in m then m[a] else 0 }

  function HalfAt(m: Bytes, big: bool, a: word): half
  {
    var b0, b1 := ByteAt(m, a), ByteAt(m, Add(a, 1));
    if big then b0 * 0x100 + b1 else b1 * 0x100 + b0
  }

  function WordAt(m: Bytes, big: bool, a: word): word
  {
    var b0, b1, b2, b3 := ByteAt(m, a), ByteAt(m, Add(a, 1)), ByteAt(m, Add(a, 2)), ByteAt(m, Add(a, 3));
    if big then b0 * 0x100_0000 + b1 * 0x1_0000 + b2 * 0x100 + b3
    else b3 * 0x100_0000 + b2 * 0x1_0000 + b1 * 0x100 + b0
  }

  /** A byte write; out of range it is dropped. */
  function PutByte(m: Bytes, a: word, v: byte): (r: Bytes)
    ensures r.Keys == m.Keys
    ensures forall b | b in m :: r[b] == if b == a then v else m[b]
  {
    if a in m then m[a := v] else m
  }

  /** The byte of a halfword that is stored i bytes above its address. */
  function HalfByte(v: half, big: bool, i: nat): byte
  {
    if (i == 0) == big then v / 0x100 else v % 0x100
  }

  /** The byte of a word that is stored i bytes above its address. */
  function WordByte(v: word, big: bool, i: nat): byte
  {
    match if big then 3 - i else i
    case 0 => v % 0x100
    case 1 => v / 0x100 % 0x100
    case 2 => v / 0x1_0000 % 0x100
    case _ => v / 0x100_0000
  }

  /** Exactly the in-range bytes at a and a + 1, modulo 2^32, are replaced. */
  function PutHalf(m: Bytes, big: bool, a: word, v: half): (r: Bytes)
    ensures r.Keys == m.Keys
  {
    map b | b in m :: if Sub(b, a) < 2 then HalfByte(v, big, Sub(b, a)) else m[b]
  }

  /** Exactly the in-range bytes at a .. a + 3, modulo 2^32, are replaced. */
  function PutWord(m: Bytes, big: bool, a: word, v: word): (r: Bytes)
    ensures r.Keys == m.Keys
  {
    map b | b in m :: if Sub(b, a) < 4 then WordByte(v, big, Sub(b, a)) else m[b]
  }

  lemma PutHalfByBytes(m: Bytes, big: bool, a: word, v: half)
    ensures PutHalf(m, big, a, v)
         == PutByte(PutByte(m, a, HalfByte(v, big, 0)), Add(a, 1), HalfByte(v, big, 1))
  {
    var w := PutByte(PutByte(m, a, HalfByte(v, big, 0)), Add(a, 1), HalfByte(v, big, 1));
    forall b | b in m
      ensures PutHalf(m, big, a, v)[b] == w[b]
    {
      hide Add, Sub, HalfByte;
      FourOffsets(b, a);
      BelowTwo(Sub(b, a));
    }
  }

  lemma BelowTwo(i: nat)
    ensures i < 2 <==> i == 0 || i == 1
  {
  }

  function PutBytes4(m: Bytes, a: word, v0: byte, v1: byte, v2: byte, v3: byte): (r: Bytes)
    ensures r.Keys == m.Keys
    ensures forall b | b in m :: r[b] ==
              if b == Add(a, 3) then v3 else if b == Add(a, 2) then v2
              else if b == Add(a, 1) then v1 else if b == a then v0 else m[b]
  {
    PutByte(PutByte(PutByte(PutByte(m, a, v0), Add(a, 1), v1), Add(a, 2), v2), Add(a, 3), v3)
  }

  lemma PutWordByBytes(m: Bytes, big: bool, a: word, v: word)
    ensures PutWord(m, big, a, v)
         == PutBytes4(m, a, WordByte(v, big, 0), WordByte(v, big, 1), WordByte(v, big, 2), WordByte(v, big, 3))
  {
    forall b | b in m
      ensures PutWord(m, big, a, v)[b]
           == PutBytes4(m, a, WordByte(v, big, 0), WordByte(v, big, 1), WordByte(v, big, 2), WordByte(v, big, 3))[b]
    {
      FourOffsets(b, a);
    }
  }

  lemma FourOffsets(b: word, a: word)
    ensures Sub(b, a) == 0 <==> b == a
    ensures Sub(b, a) == 1 <==> b == Add(a, 1)
    ensures Sub(b, a) == 2 <==> b == Add(a, 2)
    ensures Sub(b, a) == 3 <==> b == Add(a, 3)
  {
    OffsetOf(b, a, 1);
    OffsetOf(b, a, 2);
    OffsetOf(b, a, 3);
  }

  /** Address b lies k bytes above a exactly when it is a + k modulo 2^32. */
  lemma OffsetOf(b: word, a: word, k: nat)
    requires k < 0x1_0000_0000
    ensures Sub(b, a) == k <==> b == Add(a, k)
  {
  }

  class Memory {
    const data: array<byte>
    const endianess: byte
    /** The buffer as a map from the addresses below its size. */
    ghost var bytes: Bytes

    ghost predicate Valid()
      reads this, data
    {
      && (forall a: word :: a in bytes <==> a < data.Length)
      && (forall a: word :: a in bytes ==> bytes[a] == data[a])
    }

    /** memory_create: size bytes of unspecified content. */
    constructor (size: nat, isBigEndian: byte)
      ensures Valid() && fresh(data) && data.Length == size && endianess == isBigEndian
      ensures Big() <==> isBigEndian == 1
    {
      var buffer := new byte[size];
      data := buffer;
      endianess := isBigEndian;
      bytes := map a: word | a < size :: buffer[a];
    }

    predicate Big() { endianess == 1 }

    method ReadByte(address: word, initial: byte) returns (value: byte)
      requires Valid()
      ensures value == if address in bytes then bytes[address] else initial
    {
      value := initial;
      if data.Length > address {
        value := data[address];
      }
    }

    method ReadHalf(address: word) returns (value: half)
      requires Valid()
      ensures value == HalfAt(bytes, Big(), address)
    {
      var res1: int := ReadByte(address, 0);
      var res2: int := ReadByte(Add(address, 1), 0);
      if endianess == 1 {
        value := res1 * 0x100 + res2;
      } else {
        value := res2 * 0x100 + res1;
      }
    }

    method ReadWord(address: word) returns (value: word)
      requires Valid()
      ensures value == WordAt(bytes, Big(), address)
    {
      var res1: int := ReadByte(address, 0);
      var res2: int := ReadByte(Add(address, 1), 0);
      var res3: int := ReadByte(Add(address, 2), 0);
      var res4: int := ReadByte(Add(address, 3), 0);
      if endianess == 1 {
        value := res1 * 0x100_0000 + res2 * 0x1_0000 + res3 * 0x100 + res4;
      } else {
        value := res4 * 0x100_0000 + res3 * 0x1_0000 + res2 * 0x100 + res1;
      }
    }

    method WriteByte(address: word, value: byte)
      requires Valid()
      modifies this, data
      ensures Valid() && bytes == PutByte(old(bytes), address, value)
    {
      if data.Length > address {
        data[address] := value;
        bytes := bytes[address := value];
      }
    }

    method WriteHalf(address: word, value: half)
      requires Valid()
      modifies this, data
      ensures Valid() && bytes == PutHalf(old(bytes), Big(), address, value)
    {
      var res1, res2 := value % 0x100, value / 0x100 % 0x100;
      assert res1 == HalfByte(value, false, 0) == HalfByte(value, true, 1);
      assert res2 == HalfByte(value, false, 1) == HalfByte(value, true, 0);
      if endianess == 1 {
        WriteByte(address, res2);
        WriteByte(Add(address, 1), res1);
      } else {
        WriteByte(address, res1);
        WriteByte(Add(address, 1), res2);
      }
      PutHalfByBytes(old(bytes), Big(), address, value);
    }

    method WriteWord(address: word, value: word)
      requires Valid()
      modifies this, data
      ensures Valid() && bytes == PutWord(old(bytes), Big(), address, value)
    {
      var res1, res2 := value % 0x100, value / 0x100 % 0x100;
      var res3, res4 := value / 0x1_0000 % 0x100, value / 0x100_0000 % 0x100;
      assert res1 == WordByte(value, false, 0) && res2 == WordByte(value, false, 1);
      assert res3 == WordByte(value, false, 2) && res4 == WordByte(value, false, 3);
      if endianess == 1 {
        WriteByte(address, res4);
        WriteByte(Add(address, 1), res3);
        WriteByte(Add(address, 2), res2);
        WriteByte(Add(address, 3), res1);
        assert bytes == PutBytes4(old(bytes), address, res4, res3, res2, res1);
      } else {
        WriteByte(address, res1);
        WriteByte(Add(address, 1), res2);
        WriteByte(Add(address, 2), res3);
        WriteByte(Add(address, 3), res4);
        assert bytes == PutBytes4(old(bytes), address, res1, res2, res3, res4);
      }
      PutWordByBytes(old(bytes), Big(), address, value);
    }
  }
}
