/** Bits of 32-bit words. */
module Words {
  function Bit(x: bv32, k: bv32): bool
    requires k < 32
  {
    (x >> k) & 1 == 1
  }

  lemma BitXor(x: bv32, y: bv32, k: bv32)
    requires k < 32
    ensures Bit(x ^ y, k) == (Bit(x, k) != Bit(y, k))
  {
  }

  lemma BitAnd(x: bv32, y: bv32, k: bv32)
    requires k < 32
    ensures Bit(x & y, k) == (Bit(x, k) && Bit(y, k))
  {
  }

  lemma BitNot(x: bv32, k: bv32)
    requires k < 32
    ensures Bit(!x, k) == !Bit(x, k)
  {
  }

  function Xor(x: bv32, y: bv32): bv32 {
    x ^ y
  }

  lemma XorBit(x: bv32, y: bv32, k: bv32)
    requires k < 32
    ensures Bit(Xor(x, y), k) == (Bit(x, k) != Bit(y, k))
  {
    hide Bit;
    BitXor(x, y, k);
  }

  function And(x: bv32, y: bv32): bv32 {
    x & y
  }

  lemma AndBit(x: bv32, y: bv32, k: bv32)
    requires k < 32
    ensures Bit(And(x, y), k) == (Bit(x, k) && Bit(y, k))
  {
    hide Bit;
    BitAnd(x, y, k);
  }

  function Not(x: bv32): bv32 {
    !x
  }

  lemma NotBit(x: bv32, k: bv32)
    requires k < 32
    ensures Bit(Not(x), k) == !Bit(x, k)
  {
    hide Bit;
    BitNot(x, k);
  }

  /** The place n bits above k, around the word. */
  function Above(k: bv32, n: bv32): (p: bv32)
    requires k < 32 && n < 32
    ensures p < 32
  {
    (k + n) % 32
  }
}
