/** The field GF(2^128) of SP 800-38D: blocks as polynomials over GF(2) modulo x^128 + x^7 + x^2 + x + 1, bit i
    of the string being the coefficient of x^i.  The product of section 6.3 is shown to be commutative,
    associative and distributive, with the block 10...0 as its unit. */
module GaloisField {
  import opened BitGates
  import opened Fips197
  import opened Strings

  /** The first byte of R = 11100001 || 0^120. */
  const R: Byte := Slice(true, false, false, false, false, true, true, true)

  /** The block whose only bit is the first. */
  const UNIT: Block := ZERO_BLOCK[0 := FIRST]

  const FIRST: Byte := Slice(false, false, false, false, false, false, false, true)

  /** A byte shifted right by one, taking in the last bit of the byte before it. */
  function ShiftByteRight(x: Byte, before: Byte): Byte {
    Slice(x.b1, x.b2, x.b3, x.b4, x.b5, x.b6, x.b7, before.b0)
  }

  function ShiftRight(v: Block): Block {
    seq(16, i requires 0 <= i < 16 => ShiftByteRight(v[i], if i > 0 then v[i - 1] else ZERO))
  }

  /** The step from V to the next V in section 6.3: the product by x. */
  function MulX(v: Block): Block {
    var s := ShiftRight(v);
    if v[15].b0 then s[0 := Plus(s[0], R)] else s
  }

  lemma ShiftRightBit(v: Block, o: nat, r: nat)
    requires o < 16 && r < 8
    ensures StringBit(ShiftRight(v), 8 * o + r) == (8 * o + r > 0 && StringBit(v, 8 * o + r - 1))
  {
    assert (8 * o + r) / 8 == o && (8 * o + r) % 8 == r;
    if r > 0 {
      assert (8 * o + r - 1) / 8 == o && (8 * o + r - 1) % 8 == r - 1;
    } else if o > 0 {
      assert (8 * o + r - 1) / 8 == o - 1 && (8 * o + r - 1) % 8 == 7;
    }
  }

  predicate InR(i: nat) {
    i == 0 || i == 1 || i == 2 || i == 7
  }

  lemma RBit(x: Byte, k: nat)
    requires k < 8
    ensures Bit(Plus(x, R), k) == (Bit(x, k) != InR(7 - k))
  {
  }

  /** Multiplying by x moves every coefficient up and reduces the one that falls out. */
  lemma MulXBit(v: Block, i: nat)
    requires i < 128
    ensures StringBit(MulX(v), i) == ((i > 0 && StringBit(v, i - 1)) != (StringBit(v, 127) && InR(i)))
  {
    hide Plus, Bit, InR, ShiftRight;
    ShiftRightBit(v, i / 8, i % 8);
    LastBit(v);
    if i < 8 {
      RBit(ShiftRight(v)[0], 7 - i);
    } else {
      HighNotInR(i);
    }
  }

  lemma LastBit(v: Block)
    ensures StringBit(v, 127) == v[15].b0
  {
  }

  lemma HighNotInR(i: nat)
    requires i >= 8
    ensures !InR(i)
  {
  }

  /** v times x^i. */
  function Power(v: Block, i: nat): Block {
    if i == 0 then v else MulX(Power(v, i - 1))
  }

  /** The sum of v times x^k over the first i bits of x that are set: Z of section 6.3 after i steps, V having
      started as v. */
  function Acc(x: Block, v: Block, i: nat): Block
    requires i <= 128
  {
    if i == 0 then ZERO_BLOCK
    else if StringBit(x, i - 1) then XorBlock(Acc(x, v, i - 1), Power(v, i - 1))
    else Acc(x, v, i - 1)
  }

  /** Section 6.3. */
  function Product(x: Block, y: Block): Block {
    Acc(x, y, 128)
  }

  // ---------------------------------------------------------------------------------------------
  // The product is linear

  lemma XorZero(a: Block)
    ensures XorBlock(a, ZERO_BLOCK) == a
    ensures XorBlock(ZERO_BLOCK, a) == a
    ensures XorBlock(a, a) == ZERO_BLOCK
  {
    forall i | 0 <= i < 16
      ensures XorBlock(a, ZERO_BLOCK)[i] == a[i]
      ensures XorBlock(ZERO_BLOCK, a)[i] == a[i]
      ensures XorBlock(a, a)[i] == ZERO
    {
    }
  }

  lemma MulXAdds(a: Block, b: Block)
    ensures MulX(XorBlock(a, b)) == XorBlock(MulX(a), MulX(b))
  {
    hide MulX, XorBlock, StringBit, InR;
    var c := XorBlock(a, b);
    forall i: nat | i < 128
      ensures StringBit(MulX(c), i) == StringBit(XorBlock(MulX(a), MulX(b)), i)
    {
      MulXBit(a, i);
      MulXBit(b, i);
      MulXBit(c, i);
      XorStringBit(MulX(a), MulX(b), i);
      XorStringBit(a, b, 127);
      if i > 0 {
        XorStringBit(a, b, i - 1);
      }
    }
    SameStrings(MulX(c), XorBlock(MulX(a), MulX(b)));
  }

  lemma {:induction false} PowerAdds(a: Block, b: Block, i: nat)
    ensures Power(XorBlock(a, b), i) == XorBlock(Power(a, i), Power(b, i))
  {
    hide MulX, XorBlock;
    if i > 0 {
      PowerAdds(a, b, i - 1);
      MulXAdds(Power(a, i - 1), Power(b, i - 1));
    }
  }

  lemma {:induction false} PowerOfZero(i: nat)
    ensures Power(ZERO_BLOCK, i) == ZERO_BLOCK
  {
    PowerAdds(ZERO_BLOCK, ZERO_BLOCK, i);
    XorZero(ZERO_BLOCK);
    XorZero(Power(ZERO_BLOCK, i));
    hide XorBlock, Power;
  }

  lemma {:induction false} PowerOfPower(v: Block, i: nat, j: nat)
    ensures Power(Power(v, i), j) == Power(v, i + j)
  {
    hide MulX;
    if j > 0 {
      PowerOfPower(v, i, j - 1);
    }
  }

  lemma {:induction false} AccAdds(x: Block, u: Block, v: Block, i: nat)
    requires i <= 128
    ensures Acc(x, XorBlock(u, v), i) == XorBlock(Acc(x, u, i), Acc(x, v, i))
  {
    hide XorBlock, Power, StringBit;
    if i == 0 {
      XorZero(ZERO_BLOCK);
    } else {
      AccAdds(x, u, v, i - 1);
      PowerAdds(u, v, i - 1);
      XorMiddle(Acc(x, u, i - 1), Acc(x, v, i - 1), Power(u, i - 1), Power(v, i - 1));
    }
  }

  lemma AccOfZero(x: Block, i: nat)
    requires i <= 128
    ensures Acc(x, ZERO_BLOCK, i) == ZERO_BLOCK
  {
    hide Acc, XorBlock;
    AccAdds(x, ZERO_BLOCK, ZERO_BLOCK, i);
    XorZero(ZERO_BLOCK);
    XorZero(Acc(x, ZERO_BLOCK, i));
  }

  lemma {:induction false} AccOfPower(x: Block, v: Block, i: nat, j: nat)
    requires i <= 128
    ensures Acc(x, Power(v, j), i) == Power(Acc(x, v, i), j)
  {
    hide XorBlock, Power, StringBit;
    if i == 0 {
      PowerOfZero(j);
    } else {
      AccOfPower(x, v, i - 1, j);
      PowerOfPower(v, j, i - 1);
      PowerOfPower(v, i - 1, j);
      PowerAdds(Acc(x, v, i - 1), Power(v, i - 1), j);
    }
  }

  /** Accumulating over x and over y commute. */
  lemma {:induction false} AccOfAcc(x: Block, y: Block, v: Block, i: nat, j: nat)
    requires i <= 128 && j <= 128
    ensures Acc(x, Acc(y, v, j), i) == Acc(y, Acc(x, v, i), j)
    decreases j
  {
    hide XorBlock, Power, StringBit;
    if j == 0 {
      AccOfZero(x, i);
    } else {
      AccOfAcc(x, y, v, i, j - 1);
      AccOfPower(x, v, i, j - 1);
      AccAdds(x, Acc(y, v, j - 1), Power(v, j - 1), i);
    }
  }

  // ---------------------------------------------------------------------------------------------
  // Every block is the sum of its own powers of x

  lemma UnitBit(i: nat)
    requires i < 128
    ensures StringBit(UNIT, i) == (i == 0)
  {
  }

  lemma {:induction false} PowerOfUnitBit(k: nat, i: nat)
    requires k < 128 && i < 128
    ensures StringBit(Power(UNIT, k), i) == (i == k)
    decreases k
  {
    hide MulX, StringBit, UNIT, InR;
    if k == 0 {
      UnitBit(i);
    } else {
      MulXBit(Power(UNIT, k - 1), i);
      PowerOfUnitBit(k - 1, 127);
      if i > 0 {
        PowerOfUnitBit(k - 1, i - 1);
      }
    }
  }

  lemma ZeroBit(i: nat)
    requires i < 128
    ensures !StringBit(ZERO_BLOCK, i)
  {
  }

  lemma {:induction false} AccOfUnitBit(y: Block, k: nat, i: nat)
    requires k <= 128 && i < 128
    ensures StringBit(Acc(y, UNIT, k), i) == (i < k && StringBit(y, i))
    decreases k
  {
    hide StringBit, UNIT, XorBlock, Power;
    if k == 0 {
      ZeroBit(i);
    } else {
      AccOfUnitBit(y, k - 1, i);
      PowerOfUnitBit(k - 1, i);
      XorStringBit(Acc(y, UNIT, k - 1), Power(UNIT, k - 1), i);
    }
  }

  lemma UnitIsNeutral(y: Block)
    ensures Product(y, UNIT) == y
  {
    hide StringBit, Acc, UNIT;
    forall i: nat | i < 128
      ensures StringBit(Product(y, UNIT), i) == StringBit(y, i)
    {
      AccOfUnitBit(y, 128, i);
    }
    SameStrings(Product(y, UNIT), y);
  }

  lemma ProductCommutes(x: Block, y: Block)
    ensures Product(x, y) == Product(y, x)
  {
    hide Acc, UNIT;
    UnitIsNeutral(x);
    UnitIsNeutral(y);
    AccOfAcc(x, y, UNIT, 128, 128);
  }

  lemma ProductAssociates(x: Block, y: Block, z: Block)
    ensures Product(Product(x, y), z) == Product(x, Product(y, z))
  {
    hide Acc;
    ProductCommutes(Product(x, y), z);
    AccOfAcc(z, x, y, 128, 128);
    ProductCommutes(z, y);
  }

  lemma ProductDistributes(x: Block, u: Block, v: Block)
    ensures Product(x, XorBlock(u, v)) == XorBlock(Product(x, u), Product(x, v))
    ensures Product(XorBlock(u, v), x) == XorBlock(Product(u, x), Product(v, x))
  {
    hide Acc, XorBlock;
    AccAdds(x, u, v, 128);
    ProductCommutes(XorBlock(u, v), x);
    ProductCommutes(u, x);
    ProductCommutes(v, x);
  }
}
