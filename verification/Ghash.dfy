/** GHASH and the streaming part of GMAC (gmac.c): the product on 32-bit words, and the Horner evaluation over
    the blocks of a message however they are handed over. */
module Ghash {
  import opened BitGates
  import opened Words
  import opened LinearCircuits
  import opened Fips197
  import opened BlockColumns
  import opened WordBytes
  import opened Pieces
  import opened Strings
  import opened GaloisField

  // ---------------------------------------------------------------------------------------------
  // A block in four big-endian words

  datatype Quad = Quad(w0: bv32, w1: bv32, w2: bv32, w3: bv32)

  /** The bytes of a word, the most significant first. */
  function Bytes(w: bv32): Word {
    Word(ByteOf(w, 24), ByteOf(w, 16), ByteOf(w, 8), ByteOf(w, 0))
  }

  function BlockOf(q: Quad): Block {
    State(Bytes(q.w0), Bytes(q.w1), Bytes(q.w2), Bytes(q.w3))
  }

  /** betoh32 of the four bytes from place o on. */
  function BigEndian(b: Block, o: nat): bv32
    requires o <= 12
  {
    Column(b[o + 3], b[o + 2], b[o + 1], b[o])
  }

  function Loaded(b: Block): Quad {
    Quad(BigEndian(b, 0), BigEndian(b, 4), BigEndian(b, 8), BigEndian(b, 12))
  }

  lemma LoadedBytes(b: Block, c: nat)
    requires c < 4
    ensures Bytes(BigEndian(b, 4 * c)) == Col(b, c)
  {
    hide ByteOf, Column;
    ColumnRows(b[4 * c + 3], b[4 * c + 2], b[4 * c + 1], b[4 * c]);
  }

  lemma BlockOfLoaded(b: Block)
    ensures BlockOf(Loaded(b)) == b
  {
    hide Bytes, BigEndian, Col, State;
    LoadedBytes(b, 0);
    LoadedBytes(b, 1);
    LoadedBytes(b, 2);
    LoadedBytes(b, 3);
    var q := Loaded(b);
    StateIs(Bytes(q.w0), Bytes(q.w1), Bytes(q.w2), Bytes(q.w3), b);
  }

  // ---------------------------------------------------------------------------------------------
  // The two steps of the loop of ghash_gfmul

  /** A mask made from a bit: ~(bit - 1). */
  function Mask(bit: bv32): bv32 {
    !(bit - 1)
  }

  function AddMasked(z: bv32, v: bv32, mask: bv32): bv32 {
    z ^ (v & mask)
  }

  /** (before << 31) | (w >> 1). */
  function ShiftWord(before: bv32, w: bv32): bv32 {
    (before << 31) | (w >> 1)
  }

  function Reduce(w: bv32, mask: bv32): bv32 {
    w ^ (0xe100_0000 & mask)
  }

  function UpdateZ(z: Quad, v: Quad, mask: bv32): Quad {
    Quad(AddMasked(z.w0, v.w0, mask), AddMasked(z.w1, v.w1, mask), AddMasked(z.w2, v.w2, mask),
         AddMasked(z.w3, v.w3, mask))
  }

  function UpdateV(v: Quad): Quad {
    Quad(Reduce(ShiftWord(0, v.w0), Mask(v.w3 & 1)), ShiftWord(v.w0, v.w1), ShiftWord(v.w1, v.w2),
         ShiftWord(v.w2, v.w3))
  }

  lemma MaskIs(on: bool)
    ensures Mask(if on then 1 else 0) == if on then 0xffff_ffff else 0
  {
  }

  lemma AddMaskedIs(z: bv32, v: bv32)
    ensures AddMasked(z, v, 0xffff_ffff) == Xor(z, v)
    ensures AddMasked(z, v, 0) == z
  {
  }

  lemma XorBytes(x: bv32, y: bv32)
    ensures Bytes(Xor(x, y)) == WordPlus(Bytes(x), Bytes(y))
  {
    hide ByteOf, Plus, Xor;
    XorByte(x, y, 24);
    XorByte(x, y, 16);
    XorByte(x, y, 8);
    XorByte(x, y, 0);
  }

  lemma XorBlockOf(z: Quad, v: Quad)
    ensures BlockOf(Quad(Xor(z.w0, v.w0), Xor(z.w1, v.w1), Xor(z.w2, v.w2), Xor(z.w3, v.w3)))
         == XorBlock(BlockOf(z), BlockOf(v))
  {
    hide Bytes, WordPlus, Xor, State, Col, AddRoundKey;
    XorBytes(z.w0, v.w0);
    XorBytes(z.w1, v.w1);
    XorBytes(z.w2, v.w2);
    XorBytes(z.w3, v.w3);
    ColOfState(Bytes(z.w0), Bytes(z.w1), Bytes(z.w2), Bytes(z.w3));
    ColOfState(Bytes(v.w0), Bytes(v.w1), Bytes(v.w2), Bytes(v.w3));
    var c := XorBlock(BlockOf(z), BlockOf(v));
    AddedColumn(BlockOf(z), BlockOf(v), 0);
    AddedColumn(BlockOf(z), BlockOf(v), 1);
    AddedColumn(BlockOf(z), BlockOf(v), 2);
    AddedColumn(BlockOf(z), BlockOf(v), 3);
    StateIs(Bytes(Xor(z.w0, v.w0)), Bytes(Xor(z.w1, v.w1)), Bytes(Xor(z.w2, v.w2)), Bytes(Xor(z.w3, v.w3)), c);
  }

  lemma UpdateZIs(z: Quad, v: Quad, on: bool)
    ensures BlockOf(UpdateZ(z, v, Mask(if on then 1 else 0)))
         == if on then XorBlock(BlockOf(z), BlockOf(v)) else BlockOf(z)
  {
    hide BlockOf, XorBlock, AddMasked, Mask, Xor;
    MaskIs(on);
    AddMaskedIs(z.w0, v.w0);
    AddMaskedIs(z.w1, v.w1);
    AddMaskedIs(z.w2, v.w2);
    AddMaskedIs(z.w3, v.w3);
    XorBlockOf(z, v);
  }

  lemma ShiftWordTop(p: bv32, w: bv32)
    ensures ByteOf(ShiftWord(p, w), 24) == ShiftByteRight(ByteOf(w, 24), ByteOf(p, 0))
  {
  }

  lemma ShiftWordRest(p: bv32, w: bv32, s: bv32)
    requires s == 0 || s == 8 || s == 16
    ensures ByteOf(ShiftWord(p, w), s) == ShiftByteRight(ByteOf(w, s), ByteOf(w, s + 8))
  {
  }

  /** A word shifted right by one, taking in the last bit of the word before it. */
  function ShiftWordRight(w: Word, before: Word): Word {
    Word(ShiftByteRight(w.a0, before.a3), ShiftByteRight(w.a1, w.a0), ShiftByteRight(w.a2, w.a1),
         ShiftByteRight(w.a3, w.a2))
  }

  lemma ShiftedBytes(p: bv32, w: bv32)
    ensures Bytes(ShiftWord(p, w)) == ShiftWordRight(Bytes(w), Bytes(p))
  {
    hide ByteOf, ShiftWord, ShiftByteRight;
    ShiftWordTop(p, w);
    ShiftWordRest(p, w, 16);
    ShiftWordRest(p, w, 8);
    ShiftWordRest(p, w, 0);
  }

  const ZERO_WORD: Word := Word(ZERO, ZERO, ZERO, ZERO)

  /** Column c of a block shifted right by one. */
  lemma ShiftRightColumn(b: Block, c: nat)
    requires c < 4
    ensures Col(ShiftRight(b), c) == ShiftWordRight(Col(b, c), if c > 0 then Col(b, c - 1) else ZERO_WORD)
  {
    hide ShiftByteRight;
  }

  lemma MulXColumn(b: Block, c: nat)
    requires c < 4
    ensures var s := Col(ShiftRight(b), c);
      Col(MulX(b), c) == if c == 0 && b[15].b0 then Word(Plus(s.a0, R), s.a1, s.a2, s.a3) else s
  {
    hide Plus, ShiftRight;
  }

  lemma NoBytes()
    ensures Bytes(0) == ZERO_WORD
  {
  }

  lemma ReduceIs(w: bv32)
    ensures Reduce(w, 0) == w
    ensures Reduce(w, 0xffff_ffff) == Xor(w, 0xe100_0000)
  {
  }

  lemma ReductionBytes()
    ensures Bytes(0xe100_0000) == Word(R, ZERO, ZERO, ZERO)
  {
  }

  lemma PlusZero(x: Byte)
    ensures Plus(x, ZERO) == x
  {
  }

  lemma ReducedBytes(s: bv32, on: bool)
    ensures var t := Bytes(s);
      Bytes(Reduce(s, Mask(if on then 1 else 0))) == if on then Word(Plus(t.a0, R), t.a1, t.a2, t.a3) else t
  {
    hide ByteOf, Reduce, Mask, Plus, Xor;
    MaskIs(on);
    ReduceIs(s);
    XorBytes(s, 0xe100_0000);
    ReductionBytes();
    PlusZero(ByteOf(s, 16));
    PlusZero(ByteOf(s, 8));
    PlusZero(ByteOf(s, 0));
  }

  lemma LowBit(w: bv32)
    ensures w & 1 == if ByteOf(w, 0).b0 then 1 else 0
  {
  }

  /** The word shift of ghash_gfmul is the product by x. */
  lemma UpdateVIs(v: Quad)
    ensures BlockOf(UpdateV(v)) == MulX(BlockOf(v))
  {
    hide Bytes, ShiftWord, ShiftWordRight, Reduce, Mask, Plus, State, Col, MulX, ShiftRight;
    var b := BlockOf(v);
    ColOfState(Bytes(v.w0), Bytes(v.w1), Bytes(v.w2), Bytes(v.w3));
    ShiftedBytes(0, v.w0);
    ShiftedBytes(v.w0, v.w1);
    ShiftedBytes(v.w1, v.w2);
    ShiftedBytes(v.w2, v.w3);
    NoBytes();
    ShiftRightColumn(b, 0);
    ShiftRightColumn(b, 1);
    ShiftRightColumn(b, 2);
    ShiftRightColumn(b, 3);
    MulXColumn(b, 0);
    MulXColumn(b, 1);
    MulXColumn(b, 2);
    MulXColumn(b, 3);
    LowBitOfBlock(v);
    ReducedBytes(ShiftWord(0, v.w0), b[15].b0);
    var u := UpdateV(v);
    StateIs(Bytes(u.w0), Bytes(u.w1), Bytes(u.w2), Bytes(u.w3), MulX(b));
  }

  lemma LowBitOfBlock(v: Quad)
    ensures v.w3 & 1 == if BlockOf(v)[15].b0 then 1 else 0
  {
    hide ByteOf, State;
    ColOfState(Bytes(v.w0), Bytes(v.w1), Bytes(v.w2), Bytes(v.w3));
    LowBit(v.w3);
  }

  // ---------------------------------------------------------------------------------------------
  // ghash_gfmul

  /** htobe32 of the four words, stored in a buffer of 16 bytes. */
  method Store(p: array<Byte>, q: Quad)
    requires p.Length == 16
    modifies p
    ensures p[..] == BlockOf(q)
  {
    hide ByteOf;
    var b := BlockOf(q);
    forall i | 0 <= i < 16 {
      p[i] := b[i];
    }
  }

  lemma AccStart(x: Block, y: Block)
    ensures Acc(x, y, 0) == ZERO_BLOCK && Power(y, 0) == y
  {
  }

  /** One turn of the loop of ghash_gfmul. */
  lemma GfmulStep(x: Block, y: Block, z: Quad, v: Quad, i: nat)
    requires i < 128 && BlockOf(z) == Acc(x, y, i) && BlockOf(v) == Power(y, i)
    ensures BlockOf(UpdateZ(z, v, Mask(if StringBit(x, i) then 1 else 0))) == Acc(x, y, i + 1)
    ensures BlockOf(UpdateV(v)) == Power(y, i + 1)
  {
    hide BlockOf, UpdateZ, UpdateV, Mask, XorBlock, MulX, StringBit;
    UpdateZIs(z, v, StringBit(x, i));
    UpdateVIs(v);
  }

  method Gfmul(x: array<Byte>, y: array<Byte>, product: array<Byte>)
    requires x.Length == 16 && y.Length == 16 && product.Length == 16
    modifies product
    ensures product[..] == Product(old(x[..]), old(y[..]))
  {
    hide BlockOf, UpdateZ, UpdateV, Mask, Acc, Power, Loaded;
    ghost var bx, b: Block := x[..], y[..];
    var v := Loaded(y[..]);
    var z := Quad(0, 0, 0, 0);
    BlockOfLoaded(b);
    ZeroQuad();
    AccStart(bx, b);
    for i := 0 to 128
      invariant x[..] == bx
      invariant BlockOf(z) == Acc(bx, b, i) && BlockOf(v) == Power(b, i)
    {
      var on := Strings.Bit(x[i / 8], 7 - i % 8);
      assert on == StringBit(bx, i);
      GfmulStep(bx, b, z, v, i);
      z := UpdateZ(z, v, Mask(if on then 1 else 0));
      v := UpdateV(v);
    }
    Store(product, z);
  }

  lemma ZeroQuad()
    ensures BlockOf(Quad(0, 0, 0, 0)) == ZERO_BLOCK
  {
    NoBytes();
    hide Bytes, State, Col;
    ZeroColumns();
    StateIs(ZERO_WORD, ZERO_WORD, ZERO_WORD, ZERO_WORD, ZERO_BLOCK);
  }

  lemma ZeroColumns()
    ensures Col(ZERO_BLOCK, 0) == Col(ZERO_BLOCK, 1) == Col(ZERO_BLOCK, 2) == Col(ZERO_BLOCK, 3) == ZERO_WORD
  {
  }

  // ---------------------------------------------------------------------------------------------
  // GHASH (section 6.4)

  function Ghash(h: Block, m: seq<Byte>): Block
    requires |m| % 16 == 0
  {
    if m == [] then ZERO_BLOCK else Product(XorBlock(Ghash(h, m[..|m| - 16]), m[|m| - 16..]), h)
  }

  lemma GhashStep(h: Block, m: seq<Byte>, b: Block)
    requires |m| % 16 == 0
    ensures Ghash(h, m + b) == Product(XorBlock(Ghash(h, m), b), h)
  {
    hide Product, XorBlock;
    var n := m + b;
    assert n[..|n| - 16] == m && n[|n| - 16..] == b;
  }

  /** The part of a message that consists of complete blocks. */
  function Complete(data: seq<Byte>): (c: seq<Byte>)
    ensures |c| % 16 == 0
  {
    data[..|data| / 16 * 16]
  }

  /** A message with its last block filled up with zeros. */
  function ZeroPadded(data: seq<Byte>): (c: seq<Byte>)
    ensures |c| % 16 == 0
  {
    if |data| % 16 == 0 then data else data + Zeros(16 - |data| % 16)
  }

  function Zeros(n: nat): (z: seq<Byte>)
    ensures |z| == n
    ensures forall i :: 0 <= i < n ==> z[i] == Slice(false, false, false, false, false, false, false, false)
  {
    seq(n, _ => ZERO)
  }

  class GhashContext {
    const h: array<Byte>
    const s: array<Byte>
    const z: array<Byte>

    predicate Sized() {
      h.Length == 16 && s.Length == 16 && z.Length == 16 && h != s && h != z && s != z
    }

    /** The blocks of m have been taken in. */
    ghost predicate Absorbed(m: seq<Byte>)
      reads this, h, s, z
    {
      Sized() && |m| % 16 == 0 && s[..] == z[..] == Ghash(h[..], m)
    }

    /** AES_GMAC_Init and the subkey of AES_GMAC_Setkey. */
    constructor (subkey: Block)
      ensures fresh(h) && fresh(s) && fresh(z) && h[..] == subkey && Absorbed([])
    {
      h := new Byte[16](i requires 0 <= i < 16 => subkey[i]);
      s := new Byte[16](_ => ZERO);
      z := new Byte[16](_ => ZERO);
      new;
      assert s[..] == ZERO_BLOCK && z[..] == ZERO_BLOCK;
    }

    /** ghash_update_mi: y points to z for the first block and to s from then on. */
    method Update(ghost m: seq<Byte>, x: seq<Byte>)
      requires Absorbed(m)
      modifies s, z
      ensures h[..] == old(h[..])
      ensures Absorbed(m + Complete(x))
    {
      hide Ghash, Product, XorBlock;
      ghost var key := h[..];
      var y := z;
      assert m + x[..0] == m;
      for i := 0 to |x| / 16
        invariant h[..] == key && (y == z || y == s)
        invariant s[..] == y[..] == Ghash(key, m + x[..16 * i])
      {
        ghost var done := m + x[..16 * i];
        var b: Block := x[16 * i..16 * i + 16];
        SumInto(y, b);
        GhashStep(key, done, b);
        assert done + b == m + x[..16 * i + 16];
        Gfmul(s, h, s);
        y := s;
      }
      ghost var g := Ghash(key, m + Complete(x));
      forall i | 0 <= i < 16 {
        z[i] := s[i];
      }
      assert s[..] == g && z[..] == g;
    }

    /** s = y ^ b, word by word. */
    method SumInto(y: array<Byte>, b: Block)
      requires Sized() && (y == z || y == s)
      modifies s
      ensures s[..] == XorBlock(old(y[..]), b)
    {
      hide Plus;
      for i := 0 to 16
        invariant forall j :: 0 <= j < i ==> s[j] == Plus(old(y[j]), b[j])
        invariant forall j :: i <= j < 16 ==> y[j] == old(y[j])
      {
        s[i] := Plus(y[i], b[i]);
      }
    }

    /** AES_GMAC_Update: an incomplete last block is filled up with zeros there and then. */
    method GmacUpdate(ghost m: seq<Byte>, data: seq<Byte>)
      requires Absorbed(m)
      modifies s, z
      ensures h[..] == old(h[..])
      ensures Absorbed(m + ZeroPadded(data))
    {
      hide Ghash, Complete, ZeroPadded;
      Parts(m, data);
      if |data| > 0 {
        var plen := |data| % 16;
        ghost var taken := m;
        if |data| >= 16 {
          Update(m, data[..|data| - plen]);
          taken := m + data[..|data| - plen];
        }
        if plen > 0 {
          Update(taken, data[|data| - plen..] + Zeros(16 - plen));
        }
      }
    }
  }

  /** The complete blocks of the data, and the last one filled up. */
  lemma Parts(m: seq<Byte>, data: seq<Byte>)
    ensures var plen := |data| % 16;
      && Complete(data[..|data| - plen]) == data[..|data| - plen]
      && (|data| < 16 ==> m == m + data[..|data| - plen])
      && (plen == 0 ==> m + data[..|data| - plen] == m + ZeroPadded(data))
      && (plen > 0 ==>
            var blk := data[|data| - plen..] + Zeros(16 - plen);
            Complete(blk) == blk && m + data[..|data| - plen] + blk == m + ZeroPadded(data))
  {
    var plen := |data| % 16;
    var k: nat := |data| - plen;
    AlignedIs(|data|);
    CompleteIs(data[..k]);
    if plen > 0 {
      var z := Zeros(16 - plen);
      CompleteIs(data[k..] + z);
      Regroup(m, data, k, z);
    }
  }

  lemma CompleteIs(x: seq<Byte>)
    requires |x| % 16 == 0
    ensures Complete(x) == x
  {
  }

  lemma Regroup(m: seq<Byte>, data: seq<Byte>, k: nat, z: seq<Byte>)
    requires k <= |data|
    ensures m + data[..k] + (data[k..] + z) == m + (data + z)
  {
    assert data == data[..k] + data[k..];
  }

  lemma AlignedIs(n: nat)
    ensures (n - n % 16) % 16 == 0
    ensures n < 16 ==> n - n % 16 == 0
  {
  }

  // ---------------------------------------------------------------------------------------------
  // Every split of a sequence of blocks gives the same hash

  lemma {:induction false} ConcatComplete(pieces: seq<seq<Byte>>)
    requires forall i :: 0 <= i < |pieces| ==> |pieces[i]| % 16 == 0
    ensures |Concat(pieces)| % 16 == 0
  {
    if pieces != [] {
      ConcatComplete(pieces[..|pieces| - 1]);
    }
  }

  method HashOfPieces(subkey: Block, pieces: seq<seq<Byte>>) returns (hash: seq<Byte>)
    requires forall i :: 0 <= i < |pieces| ==> |pieces[i]| % 16 == 0
    ensures |Concat(pieces)| % 16 == 0
    ensures hash == Ghash(subkey, Concat(pieces))
  {
    hide Ghash;
    ConcatComplete(pieces);
    var ctx := new GhashContext(subkey);
    for i := 0 to |pieces|
      invariant fresh(ctx) && fresh(ctx.s) && fresh(ctx.z) && ctx.h[..] == subkey
      invariant ctx.Absorbed(Concat(pieces[..i]))
    {
      ConcatStep(pieces, i);
      ctx.Update(Concat(pieces[..i]), pieces[i]);
      assert Complete(pieces[i]) == pieces[i];
    }
    assert pieces[..|pieces|] == pieces;
    return ctx.z[..];
  }

  // ---------------------------------------------------------------------------------------------
  // The hash as a polynomial in the subkey

  function PowerOf(h: Block, n: nat): Block {
    if n == 0 then UNIT else Product(PowerOf(h, n - 1), h)
  }

  /** The sum of the blocks of m, the first of n times h^n and the last times h. */
  function Polynomial(h: Block, m: seq<Byte>): Block
    requires |m| % 16 == 0
  {
    if m == [] then ZERO_BLOCK else XorBlock(Product(m[..16], PowerOf(h, |m| / 16)), Polynomial(h, m[16..]))
  }

  lemma FirstPower(h: Block)
    ensures PowerOf(h, 1) == h
  {
    hide Product;
    ProductCommutes(UNIT, h);
    UnitIsNeutral(h);
    assert PowerOf(h, 0) == UNIT;
  }

  lemma {:induction false} PolynomialStep(h: Block, m: seq<Byte>, b: Block)
    requires |m| % 16 == 0
    ensures Polynomial(h, m + b) == Product(XorBlock(Polynomial(h, m), b), h)
  {
    hide Product, XorBlock, UNIT;
    var n := m + b;
    if m == [] {
      assert n == b && b[..16] == b && b[16..] == [];
      FirstPower(h);
      XorZero(Product(b, h));
      XorZero(b);
    } else {
      assert n[..16] == m[..16] && n[16..] == m[16..] + b;
      PolynomialStep(h, m[16..], b);
      var x, y, p := m[..16], Polynomial(h, m[16..]), PowerOf(h, |m| / 16);
      ProductAssociates(x, p, h);
      XorAssociates(Product(x, p), y, b);
      ProductDistributes(h, Product(x, p), XorBlock(y, b));
    }
  }

  /** GHASH of n blocks is b1 h^n + ... + bn h. */
  lemma {:induction false} GhashIsPolynomial(h: Block, m: seq<Byte>)
    requires |m| % 16 == 0
    ensures Ghash(h, m) == Polynomial(h, m)
  {
    hide Product, XorBlock, PowerOf;
    if m != [] {
      var k := |m| - 16;
      GhashIsPolynomial(h, m[..k]);
      PolynomialStep(h, m[..k], m[k..]);
      assert m[..k] + m[k..] == m;
    }
  }
}
