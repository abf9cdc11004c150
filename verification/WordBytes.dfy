/** The four bytes of a 32-bit word. */
module WordBytes {
  import opened BitGates
  import opened Words
  import opened LinearCircuits
  import opened Fips197

  lemma PlusBits(a: Byte, b: Byte)
    ensures Plus(a, b) == Slice(a.b0 != b.b0, a.b1 != b.b1, a.b2 != b.b2, a.b3 != b.b3,
                                a.b4 != b.b4, a.b5 != b.b5, a.b6 != b.b6, a.b7 != b.b7)
  {
  }

  lemma XorByte(x: bv32, y: bv32, s: bv32)
    requires s <= 24
    ensures ByteOf(Xor(x, y), s) == Plus(ByteOf(x, s), ByteOf(y, s))
  {
    hide Bit, Xor, Plus;
    PlusBits(ByteOf(x, s), ByteOf(y, s));
    XorBit(x, y, s);
    XorBit(x, y, s + 1);
    XorBit(x, y, s + 2);
    XorBit(x, y, s + 3);
    XorBit(x, y, s + 4);
    XorBit(x, y, s + 5);
    XorBit(x, y, s + 6);
    XorBit(x, y, s + 7);
  }

  lemma SameBytes(x: bv32, y: bv32)
    requires ByteOf(x, 0) == ByteOf(y, 0)
    requires ByteOf(x, 8) == ByteOf(y, 8)
    requires ByteOf(x, 16) == ByteOf(y, 16)
    requires ByteOf(x, 24) == ByteOf(y, 24)
    ensures x == y
  {
  }
}
