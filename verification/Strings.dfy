/** Blocks of 16 bytes as strings of 128 bits, and their sums. */
module Strings {
  import opened BitGates
  import opened Fips197

  const ZERO_BLOCK: Block :=
    [ZERO, ZERO, ZERO, ZERO, ZERO, ZERO, ZERO, ZERO, ZERO, ZERO, ZERO, ZERO, ZERO, ZERO, ZERO, ZERO]

  function XorBlock(a: Block, b: Block): (c: Block)
    ensures forall i :: 0 <= i < 16 ==> c[i] == Plus(a[i], b[i])
  {
    AddRoundKey(a, b)
  }

  function Bit(x: Byte, k: nat): bool
    requires k < 8
  {
    if k == 0 then x.b0 else if k == 1 then x.b1 else if k == 2 then x.b2 else if k == 3 then x.b3
    else if k == 4 then x.b4 else if k == 5 then x.b5 else if k == 6 then x.b6 else x.b7
  }

  /** Bit i of the block as a string of 128 bits; the first is the most significant bit of the first byte. */
  function StringBit(b: Block, i: nat): bool
    requires i < 128
  {
    Bit(b[i / 8], 7 - i % 8)
  }

  lemma XorCommutes(a: Block, b: Block)
    ensures XorBlock(a, b) == XorBlock(b, a)
  {
    forall i | 0 <= i < 16
      ensures XorBlock(a, b)[i] == XorBlock(b, a)[i]
    {
      PlusCommutes(a[i], b[i]);
      hide Plus;
    }
  }

  lemma XorAssociates(a: Block, b: Block, c: Block)
    ensures XorBlock(XorBlock(a, b), c) == XorBlock(a, XorBlock(b, c))
  {
    forall i | 0 <= i < 16
      ensures XorBlock(XorBlock(a, b), c)[i] == XorBlock(a, XorBlock(b, c))[i]
    {
      PlusAssociates(a[i], b[i], c[i]);
      hide Plus;
    }
  }

  lemma XorMiddle(a: Block, b: Block, c: Block, d: Block)
    ensures XorBlock(XorBlock(a, b), XorBlock(c, d)) == XorBlock(XorBlock(a, c), XorBlock(b, d))
  {
    hide XorBlock;
    XorAssociates(a, b, XorBlock(c, d));
    XorAssociates(b, c, d);
    XorCommutes(b, c);
    XorAssociates(c, b, d);
    XorAssociates(a, c, XorBlock(b, d));
  }

  lemma PlusBit(a: Byte, b: Byte, k: nat)
    requires k < 8
    ensures Bit(Plus(a, b), k) == (Bit(a, k) != Bit(b, k))
  {
  }

  lemma XorStringBit(a: Block, b: Block, i: nat)
    requires i < 128
    ensures StringBit(XorBlock(a, b), i) == (StringBit(a, i) != StringBit(b, i))
  {
    hide Plus, Bit;
    PlusBit(a[i / 8], b[i / 8], 7 - i % 8);
  }

  lemma SameByte(a: Byte, b: Byte)
    requires forall k: nat :: k < 8 ==> Bit(a, k) == Bit(b, k)
    ensures a == b
  {
    assert Bit(a, 0) == Bit(b, 0) && Bit(a, 1) == Bit(b, 1) && Bit(a, 2) == Bit(b, 2) && Bit(a, 3) == Bit(b, 3);
    assert Bit(a, 4) == Bit(b, 4) && Bit(a, 5) == Bit(b, 5) && Bit(a, 6) == Bit(b, 6) && Bit(a, 7) == Bit(b, 7);
  }

  /** Blocks with the same bits are the same. */
  lemma SameStrings(a: Block, b: Block)
    requires forall i: nat :: i < 128 ==> StringBit(a, i) == StringBit(b, i)
    ensures a == b
  {
    hide Bit;
    forall o | 0 <= o < 16
      ensures a[o] == b[o]
    {
      forall k: nat | k < 8
        ensures Bit(a[o], k) == Bit(b[o], k)
      {
        var i := 8 * o + (7 - k);
        assert i / 8 == o && 7 - i % 8 == k;
        assert StringBit(a, i) == StringBit(b, i);
      }
      SameByte(a[o], b[o]);
    }
  }
}
