/** Circuits of XOR gates alone are linear, so two of them agree on every column as soon as they agree on
    a basis.  A column has 32 bits; the wires below carry the 32 basis columns at once, bit j of every
    wire belonging to the column whose only bit is number j. */
module LinearCircuits {
  import opened BitGates
  import opened Words

  function Row0(): Slice<bv32> {
    Slice(0x0000_0001, 0x0000_0002, 0x0000_0004, 0x0000_0008, 0x0000_0010, 0x0000_0020, 0x0000_0040, 0x0000_0080)
  }

  function Row1(): Slice<bv32> {
    Slice(0x0000_0100, 0x0000_0200, 0x0000_0400, 0x0000_0800, 0x0000_1000, 0x0000_2000, 0x0000_4000, 0x0000_8000)
  }

  function Row2(): Slice<bv32> {
    Slice(0x0001_0000, 0x0002_0000, 0x0004_0000, 0x0008_0000, 0x0010_0000, 0x0020_0000, 0x0040_0000, 0x0080_0000)
  }

  function Row3(): Slice<bv32> {
    Slice(0x0100_0000, 0x0200_0000, 0x0400_0000, 0x0800_0000, 0x1000_0000, 0x2000_0000, 0x4000_0000, 0x8000_0000)
  }

  // ---------------------------------------------------------------------------------------------
  // Reading the wires of column v: the sum of the wires' bits over the bits of v

  function Dot(x: bv32, v: bv32, k: bv32): bool
    requires k <= 32
  {
    if k == 0 then false else Dot(x, v, k - 1) != (Bit(x, k - 1) && Bit(v, k - 1))
  }

  lemma {:induction false} DotXor(x: bv32, y: bv32, v: bv32, k: bv32)
    requires k <= 32
    ensures Dot(x ^ y, v, k) == (Dot(x, v, k) != Dot(y, v, k))
  {
    hide Bit;
    if k > 0 {
      DotXor(x, y, v, k - 1);
      BitXor(x, y, k - 1);
    }
  }

  lemma BitOfPower(j: bv32, k: bv32)
    requires j < 32 && k < 32
    ensures Bit(1 << j, k) == (j == k)
  {
  }

  lemma {:induction false} DotPower(j: bv32, v: bv32, k: bv32)
    requires k <= 32 && j < 32
    ensures Dot(1 << j, v, k) == (j < k && Bit(v, j))
  {
    hide Bit;
    if k > 0 {
      DotPower(j, v, k - 1);
      BitOfPower(j, k - 1);
    }
  }

  function Read(v: bv32): bv32 -> bool {
    (w: bv32) => Dot(w, v, 32)
  }

  lemma ReadXor(a: bv32, b: bv32, v: bv32)
    ensures Read(v)(WORDS.xor(a, b)) == BITS.xor(Read(v)(a), Read(v)(b))
  {
    hide Dot, BITS, WORDS;
    WordXor(a, b);
    DotXor(a, b, v, 32);
    BitGate(Dot(a, v, 32), Dot(b, v, 32));
  }

  lemma ReadHom(v: bv32)
    ensures XorHom(WORDS, BITS, Read(v))
  {
    hide Read, BITS, WORDS;
    forall a, b
      ensures Read(v)(WORDS.xor(a, b)) == BITS.xor(Read(v)(a), Read(v)(b))
    {
      ReadXor(a, b, v);
    }
  }

  /** Byte i of a word, counted from the least significant end. */
  function ByteOf(w: bv32, s: bv32): Byte
    requires s <= 24
  {
    Slice(Bit(w, s), Bit(w, s + 1), Bit(w, s + 2), Bit(w, s + 3), Bit(w, s + 4), Bit(w, s + 5), Bit(w, s + 6),
          Bit(w, s + 7))
  }

  lemma ReadRow(w: Slice<bv32>, s: bv32, v: bv32)
    requires s <= 24
    requires w == Slice(1 << s, 1 << (s + 1), 1 << (s + 2), 1 << (s + 3), 1 << (s + 4),
                        1 << (s + 5), 1 << (s + 6), 1 << (s + 7))
    ensures Map(Read(v), w) == ByteOf(v, s)
  {
    hide Bit, Dot;
    DotPower(s, v, 32);
    DotPower(s + 1, v, 32);
    DotPower(s + 2, v, 32);
    DotPower(s + 3, v, 32);
    DotPower(s + 4, v, 32);
    DotPower(s + 5, v, 32);
    DotPower(s + 6, v, 32);
    DotPower(s + 7, v, 32);
  }

  lemma ReadRows(v: bv32)
    ensures Map(Read(v), Row0()) == ByteOf(v, 0)
    ensures Map(Read(v), Row1()) == ByteOf(v, 8)
    ensures Map(Read(v), Row2()) == ByteOf(v, 16)
    ensures Map(Read(v), Row3()) == ByteOf(v, 24)
  {
    hide Map, Read, ByteOf;
    ReadRow(Row0(), 0, v);
    ReadRow(Row1(), 8, v);
    ReadRow(Row2(), 16, v);
    ReadRow(Row3(), 24, v);
  }

  function Pack(a: Byte): (p: bv32)
    ensures p < 256
  {
    (if a.b0 then 0x01 else 0) | (if a.b1 then 0x02 else 0) | (if a.b2 then 0x04 else 0) | (if a.b3 then 0x08 else 0) |
    (if a.b4 then 0x10 else 0) | (if a.b5 then 0x20 else 0) | (if a.b6 then 0x40 else 0) | (if a.b7 then 0x80 else 0)
  }

  lemma ByteOfPack(a: Byte)
    ensures ByteOf(Pack(a), 0) == a
  {
  }

  /** The column with rows a, b, c and d. */
  function Column(a: Byte, b: Byte, c: Byte, d: Byte): bv32 {
    Join(Pack(a), Pack(b), Pack(c), Pack(d))
  }

  function Join(a: bv32, b: bv32, c: bv32, d: bv32): bv32 {
    a | (b << 8) | (c << 16) | (d << 24)
  }

  lemma JoinRow0(a: bv32, b: bv32, c: bv32, d: bv32)
    requires a < 256 && b < 256 && c < 256 && d < 256
    ensures ByteOf(Join(a, b, c, d), 0) == ByteOf(a, 0)
  {
  }

  lemma JoinRow1(a: bv32, b: bv32, c: bv32, d: bv32)
    requires a < 256 && b < 256 && c < 256 && d < 256
    ensures ByteOf(Join(a, b, c, d), 8) == ByteOf(b, 0)
  {
  }

  lemma JoinRow2(a: bv32, b: bv32, c: bv32, d: bv32)
    requires a < 256 && b < 256 && c < 256 && d < 256
    ensures ByteOf(Join(a, b, c, d), 16) == ByteOf(c, 0)
  {
  }

  lemma JoinRow3(a: bv32, b: bv32, c: bv32, d: bv32)
    requires a < 256 && b < 256 && c < 256 && d < 256
    ensures ByteOf(Join(a, b, c, d), 24) == ByteOf(d, 0)
  {
  }

  lemma ColumnRows(a: Byte, b: Byte, c: Byte, d: Byte)
    ensures ByteOf(Column(a, b, c, d), 0) == a
    ensures ByteOf(Column(a, b, c, d), 8) == b
    ensures ByteOf(Column(a, b, c, d), 16) == c
    ensures ByteOf(Column(a, b, c, d), 24) == d
  {
    hide Pack, Join, ByteOf;
    ByteOfPack(a);
    ByteOfPack(b);
    ByteOfPack(c);
    ByteOfPack(d);
    JoinRow0(Pack(a), Pack(b), Pack(c), Pack(d));
    JoinRow1(Pack(a), Pack(b), Pack(c), Pack(d));
    JoinRow2(Pack(a), Pack(b), Pack(c), Pack(d));
    JoinRow3(Pack(a), Pack(b), Pack(c), Pack(d));
  }

  // ---------------------------------------------------------------------------------------------
  // Column mixing and its inverse undo each other

  lemma MixOnBasis()
    ensures InvMix(WORDS, Mix(WORDS, Row0(), Row1(), Row2(), Row3()), Mix(WORDS, Row1(), Row2(), Row3(), Row0()),
                   Mix(WORDS, Row2(), Row3(), Row0(), Row1()), Mix(WORDS, Row3(), Row0(), Row1(), Row2())) == Row0()
  {
  }

  lemma InvMixOnBasis()
    ensures Mix(WORDS, InvMix(WORDS, Row0(), Row1(), Row2(), Row3()), InvMix(WORDS, Row1(), Row2(), Row3(), Row0()),
                InvMix(WORDS, Row2(), Row3(), Row0(), Row1()), InvMix(WORDS, Row3(), Row0(), Row1(), Row2())) == Row0()
  {
  }

  lemma MixUndone(a: Byte, b: Byte, c: Byte, d: Byte)
    ensures InvMix(BITS, Mix(BITS, a, b, c, d), Mix(BITS, b, c, d, a), Mix(BITS, c, d, a, b),
                   Mix(BITS, d, a, b, c)) == a
  {
    hide Mix, InvMix, Map, Read, ByteOf, Column, BITS, WORDS;
    var v := Column(a, b, c, d);
    ColumnRows(a, b, c, d);
    ReadHom(v);
    ReadRows(v);
    var h, r0, r1, r2, r3 := Read(v), Row0(), Row1(), Row2(), Row3();
    hide Row0, Row1, Row2, Row3;
    MixHom(WORDS, BITS, h, r0, r1, r2, r3);
    MixHom(WORDS, BITS, h, r1, r2, r3, r0);
    MixHom(WORDS, BITS, h, r2, r3, r0, r1);
    MixHom(WORDS, BITS, h, r3, r0, r1, r2);
    InvMixHom(WORDS, BITS, h, Mix(WORDS, r0, r1, r2, r3), Mix(WORDS, r1, r2, r3, r0), Mix(WORDS, r2, r3, r0, r1),
              Mix(WORDS, r3, r0, r1, r2));
    MixOnBasis();
  }

  lemma InvMixUndone(a: Byte, b: Byte, c: Byte, d: Byte)
    ensures Mix(BITS, InvMix(BITS, a, b, c, d), InvMix(BITS, b, c, d, a), InvMix(BITS, c, d, a, b),
                InvMix(BITS, d, a, b, c)) == a
  {
    hide Mix, InvMix, Map, Read, ByteOf, Column, BITS, WORDS;
    var v := Column(a, b, c, d);
    ColumnRows(a, b, c, d);
    ReadHom(v);
    ReadRows(v);
    var h, r0, r1, r2, r3 := Read(v), Row0(), Row1(), Row2(), Row3();
    hide Row0, Row1, Row2, Row3;
    InvMixHom(WORDS, BITS, h, r0, r1, r2, r3);
    InvMixHom(WORDS, BITS, h, r1, r2, r3, r0);
    InvMixHom(WORDS, BITS, h, r2, r3, r0, r1);
    InvMixHom(WORDS, BITS, h, r3, r0, r1, r2);
    MixHom(WORDS, BITS, h, InvMix(WORDS, r0, r1, r2, r3), InvMix(WORDS, r1, r2, r3, r0), InvMix(WORDS, r2, r3, r0, r1),
           InvMix(WORDS, r3, r0, r1, r2));
    InvMixOnBasis();
  }

  // ---------------------------------------------------------------------------------------------
  // Inverse column mixing is additive: a pair of wires, read as its sum, as its first and as its second

  const PAIRS: Gates<(bool, bool)> :=
    Gates((a: (bool, bool), b: (bool, bool)) => (a.0 != b.0, a.1 != b.1),
          (a: (bool, bool), b: (bool, bool)) => a,
          (a: (bool, bool)) => a)

  function Zip(a: Byte, b: Byte): Slice<(bool, bool)> {
    Slice((a.b0, b.b0), (a.b1, b.b1), (a.b2, b.b2), (a.b3, b.b3),
          (a.b4, b.b4), (a.b5, b.b5), (a.b6, b.b6), (a.b7, b.b7))
  }

  const LEFT: ((bool, bool)) -> bool := (p: (bool, bool)) => p.0
  const RIGHT: ((bool, bool)) -> bool := (p: (bool, bool)) => p.1
  const SUM: ((bool, bool)) -> bool := (p: (bool, bool)) => p.0 != p.1

  lemma PairHoms()
    ensures XorHom(PAIRS, BITS, LEFT)
    ensures XorHom(PAIRS, BITS, RIGHT)
    ensures XorHom(PAIRS, BITS, SUM)
  {
  }

  lemma ReadZip(a: Byte, b: Byte)
    ensures Map(LEFT, Zip(a, b)) == a
    ensures Map(RIGHT, Zip(a, b)) == b
    ensures Map(SUM, Zip(a, b)) == Add(BITS, a, b)
  {
  }

  lemma SumIsAdd(x: Slice<(bool, bool)>)
    ensures Map(SUM, x) == Add(BITS, Map(LEFT, x), Map(RIGHT, x))
  {
  }

  lemma InvMixAdditive(a: Byte, b: Byte, c: Byte, d: Byte, a': Byte, b': Byte, c': Byte, d': Byte)
    ensures InvMix(BITS, Add(BITS, a, a'), Add(BITS, b, b'), Add(BITS, c, c'), Add(BITS, d, d'))
         == Add(BITS, InvMix(BITS, a, b, c, d), InvMix(BITS, a', b', c', d'))
  {
    var x, y, z, w := Zip(a, a'), Zip(b, b'), Zip(c, c'), Zip(d, d');
    ReadZip(a, a');
    ReadZip(b, b');
    ReadZip(c, c');
    ReadZip(d, d');
    PairHoms();
    hide InvMix, Map, Add, Zip, BITS, PAIRS, LEFT, RIGHT, SUM;
    InvMixHom(PAIRS, BITS, LEFT, x, y, z, w);
    InvMixHom(PAIRS, BITS, RIGHT, x, y, z, w);
    InvMixHom(PAIRS, BITS, SUM, x, y, z, w);
    SumIsAdd(InvMix(PAIRS, x, y, z, w));
  }
}
