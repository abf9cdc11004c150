/** CMAC (cmac.c, SP 800-38B): the streaming context, which always keeps back the last block, computes the
    MAC of everything it was given.  The block cipher under the key is a function. */
module Cmac {
  import opened BitGates
  import opened Fips197
  import opened Pieces
  import GaloisField
  import opened Strings

  // ---------------------------------------------------------------------------------------------
  // SP 800-38B, section 6.1: subkeys

  /** t is s << 1: the first bit dropped and a zero appended. */
  ghost predicate IsShifted(s: Block, t: Block) {
    && (forall i: nat :: i < 127 ==> StringBit(t, i) == StringBit(s, i + 1))
    && !StringBit(t, 127)
  }

  /** x << 1 | y >> 7. */
  function ShiftByte(x: Byte, y: Byte): Byte {
    Slice(y.b7, x.b0, x.b1, x.b2, x.b3, x.b4, x.b5, x.b6)
  }

  function Shifted(s: Block): Block {
    seq(16, i requires 0 <= i < 16 => ShiftByte(s[i], if i < 15 then s[i + 1] else ZERO))
  }

  lemma ShiftedIs(s: Block)
    ensures IsShifted(s, Shifted(s))
  {
    forall i: nat | i < 127
      ensures StringBit(Shifted(s), i) == StringBit(s, i + 1)
    {
      ShiftedBit(s, i / 8, i % 8);
    }
  }

  lemma ShiftedBit(s: Block, o: nat, r: nat)
    requires o < 16 && r < 8 && 8 * o + r < 127
    ensures StringBit(Shifted(s), 8 * o + r) == StringBit(s, 8 * o + r + 1)
  {
    assert (8 * o + r) / 8 == o && (8 * o + r) % 8 == r;
    if r < 7 {
      assert (8 * o + r + 1) / 8 == o && (8 * o + r + 1) % 8 == r + 1;
    } else {
      assert (8 * o + r + 1) / 8 == o + 1 && (8 * o + r + 1) % 8 == 0;
    }
  }

  /** 0x87, the last byte of R128. */
  const R128: Byte := Slice(true, true, true, false, false, false, false, true)

  /** The step from L to K1, and from K1 to K2. */
  function NextKey(l: Block): Block {
    var s := Shifted(l);
    if StringBit(l, 0) then s[15 := Plus(s[15], R128)] else s
  }

  /** That step doubles an element of the field GF(2^128): read in the order of GHASH, where the bits of a block
      come the other way round, it is the multiplication by x. */
  lemma NextKeyDoubles(l: Block, v: Block, i: nat)
    requires i < 128
    requires forall j: nat :: j < 128 ==> StringBit(v, j) == StringBit(l, 127 - j)
    ensures StringBit(NextKey(l), 127 - i) == StringBit(GaloisField.MulX(v), i)
  {
    hide StringBit, GaloisField.MulX, NextKey;
    GaloisField.MulXBit(v, i);
    NextKeyBit(l, 127 - i);
  }

  lemma NextKeyBit(l: Block, i: nat)
    requires i < 128
    ensures StringBit(NextKey(l), i)
      == ((i < 127 && StringBit(l, i + 1)) != (StringBit(l, 0) && i in {120, 125, 126, 127}))
  {
    hide Plus, Bit, Shifted;
    var s := Shifted(l);
    ShiftedIs(l);
    if i >= 120 {
      assert i / 8 == 15 && 7 - i % 8 == 127 - i;
      R128Bit(s[15], 127 - i);
    } else {
      assert i / 8 < 15;
    }
    if i < 127 {
      assert StringBit(s, i) == StringBit(l, i + 1);
    }
  }

  lemma R128Bit(x: Byte, k: nat)
    requires k < 8
    ensures Bit(Plus(x, R128), k) == (Bit(x, k) != (k in {0, 1, 2, 7}))
  {
  }

  function K1(e: Block -> Block): Block {
    NextKey(e(ZERO_BLOCK))
  }

  function K2(e: Block -> Block): Block {
    NextKey(K1(e))
  }

  // ---------------------------------------------------------------------------------------------
  // Section 6.2: the MAC

  /** The CBC chain over complete blocks. */
  function Chain(e: Block -> Block, m: seq<Byte>): Block
    requires |m| % 16 == 0
  {
    if m == [] then ZERO_BLOCK else e(XorBlock(Chain(e, m[..|m| - 16]), m[|m| - 16..]))
  }

  /** Where the last block starts: it has 1 to 16 bytes, or none when the message is empty. */
  function LastStart(n: nat): (k: nat)
    ensures k <= n && k % 16 == 0 && n - k <= 16
    ensures n > 0 ==> k < n
  {
    if n == 0 then 0 else (n - 1) / 16 * 16
  }

  lemma LastStartIs(n: nat, k: nat)
    requires k % 16 == 0 && k <= n <= k + 16 && (k == n ==> n == 0)
    ensures LastStart(n) == k
  {
  }

  /** The last block, padded with a 1 bit and zeros. */
  function Padded(last: seq<Byte>): (b: Block)
    requires |last| < 16
  {
    last + [Slice(false, false, false, false, false, false, false, true)] + seq(15 - |last|, _ => ZERO)
  }

  lemma PaddedIs(last: seq<Byte>, b: Block)
    requires |last| < 16
    requires b[..|last| + 1] == last + [Slice(false, false, false, false, false, false, false, true)]
    requires forall i :: |last| < i < 16 ==> b[i] == ZERO
    ensures b == Padded(last)
  {
    assert b[..|last| + 1] + b[|last| + 1..] == b;
    assert b[|last| + 1..] == seq(15 - |last|, _ => ZERO);
  }

  function LastBlock(e: Block -> Block, last: seq<Byte>): Block
    requires |last| <= 16
  {
    if |last| == 16 then XorBlock(last, K1(e)) else XorBlock(Padded(last), K2(e))
  }

  function Mac(e: Block -> Block, m: seq<Byte>): Block {
    var k := LastStart(|m|);
    e(XorBlock(Chain(e, m[..k]), LastBlock(e, m[k..])))
  }

  lemma ChainStep(e: Block -> Block, m: seq<Byte>, b: Block)
    requires |m| % 16 == 0
    ensures Chain(e, m + b) == e(XorBlock(Chain(e, m), b))
  {
    var n := m + b;
    assert n[..|n| - 16] == m && n[|n| - 16..] == b;
  }

  // ---------------------------------------------------------------------------------------------
  // The MAC by the bits of the subkeys and of the padding

  /** k is l doubled: shifted, and reduced by x^128 + x^7 + x^2 + x + 1 if a bit falls out. */
  ghost predicate IsDouble(l: Block, k: Block) {
    forall i: nat :: i < 128 ==>
      StringBit(k, i) == ((i < 127 && StringBit(l, i + 1)) != (StringBit(l, 0) && i in {120, 125, 126, 127}))
  }

  /** b starts with the bits of last, and a one and zeros follow. */
  ghost predicate IsPadded(last: seq<Byte>, b: Block)
    requires |last| < 16
  {
    forall i: nat :: i < 128 ==>
      StringBit(b, i) == if i < 8 * |last| then Bit(last[i / 8], 7 - i % 8) else i == 8 * |last|
  }

  lemma NextKeyIsDouble(l: Block)
    ensures IsDouble(l, NextKey(l))
  {
    hide StringBit, NextKey;
    forall i: nat | i < 128
      ensures StringBit(NextKey(l), i)
        == ((i < 127 && StringBit(l, i + 1)) != (StringBit(l, 0) && i in {120, 125, 126, 127}))
    {
      NextKeyBit(l, i);
    }
  }

  lemma PaddedBits(last: seq<Byte>)
    requires |last| < 16
    ensures IsPadded(last, Padded(last))
  {
    forall i: nat | i < 128
      ensures StringBit(Padded(last), i) == if i < 8 * |last| then Bit(last[i / 8], 7 - i % 8) else i == 8 * |last|
    {
      if i / 8 == |last| {
        assert i == 8 * |last| + i % 8;
      }
    }
  }

  lemma FirstSubkey(e: Block -> Block, k1: Block)
    requires IsDouble(e(ZERO_BLOCK), k1)
    ensures K1(e) == k1
  {
    hide IsDouble, NextKey, ZERO_BLOCK;
    NextKeyIsDouble(e(ZERO_BLOCK));
    DoubleIsUnique(e(ZERO_BLOCK), k1, K1(e));
  }

  lemma SecondSubkey(e: Block -> Block, k1: Block, k2: Block)
    requires IsDouble(e(ZERO_BLOCK), k1) && IsDouble(k1, k2)
    ensures K2(e) == k2
  {
    hide K1, IsDouble, NextKey, ZERO_BLOCK;
    FirstSubkey(e, k1);
    NextKeyIsDouble(k1);
    DoubleIsUnique(k1, k2, K2(e));
  }

  lemma DoubleIsUnique(l: Block, a: Block, b: Block)
    requires IsDouble(l, a) && IsDouble(l, b)
    ensures a == b
  {
    hide StringBit;
    SameStrings(a, b);
  }

  lemma PaddedIsUnique(last: seq<Byte>, a: Block, b: Block)
    requires |last| < 16 && IsPadded(last, a) && IsPadded(last, b)
    ensures a == b
  {
    hide StringBit;
    SameStrings(a, b);
  }

  lemma MacOfParts(e: Block -> Block, m: seq<Byte>, last: seq<Byte>)
    requires |m| % 16 == 0 && |last| <= 16 && (last == [] ==> m == [])
    ensures Mac(e, m + last) == e(XorBlock(Chain(e, m), LastBlock(e, last)))
  {
    hide Chain, XorBlock, LastBlock, LastStart;
    var n := m + last;
    LastStartIs(|n|, |m|);
    assert n[..|m|] == m;
    assert n[|m|..] == last;
    assert Mac(e, n) == e(XorBlock(Chain(e, n[..|m|]), LastBlock(e, n[|m|..])));
  }

  /** A message of n complete blocks: the last one gets the double of e(0) added. */
  lemma MacOfComplete(e: Block -> Block, m: seq<Byte>, b: Block, k1: Block)
    requires |m| % 16 == 0 && IsDouble(e(ZERO_BLOCK), k1)
    ensures Mac(e, m + b) == e(XorBlock(Chain(e, m), XorBlock(b, k1)))
  {
    hide Chain, XorBlock, K1, K2, ZERO_BLOCK, IsDouble;
    FirstSubkey(e, k1);
    assert LastBlock(e, b) == XorBlock(b, k1);
    hide LastBlock;
    MacOfParts(e, m, b);
  }

  /** Any other message: the rest is padded, and gets the double of the double of e(0). */
  lemma MacOfRest(e: Block -> Block, m: seq<Byte>, rest: seq<Byte>, p: Block, k1: Block, k2: Block)
    requires |m| % 16 == 0 && |rest| < 16 && (rest == [] ==> m == [])
    requires IsPadded(rest, p) && IsDouble(e(ZERO_BLOCK), k1) && IsDouble(k1, k2)
    ensures Mac(e, m + rest) == e(XorBlock(Chain(e, m), XorBlock(p, k2)))
  {
    hide Chain, XorBlock, K1, K2, ZERO_BLOCK, IsDouble, IsPadded, Padded;
    SecondSubkey(e, k1, k2);
    PaddedBits(rest);
    PaddedIsUnique(rest, p, Padded(rest));
    assert LastBlock(e, rest) == XorBlock(p, k2);
    hide LastBlock;
    MacOfParts(e, m, rest);
  }

  // ---------------------------------------------------------------------------------------------
  // The code

  /** The macro XOR: r ^= v. */
  method XorInto(v: Block, r: array<Byte>)
    requires r.Length == 16
    modifies r
    ensures r[..] == XorBlock(old(r[..]), v)
  {
    hide Plus;
    for i := 0 to 16
      invariant forall j :: 0 <= j < i ==> r[j] == Plus(old(r[j]), v[j])
      invariant forall j :: i <= j < 16 ==> r[j] == old(r[j])
    {
      r[i] := Plus(r[i], v[i]);
    }
  }

  /** The macro LSHIFT with both arguments the same. */
  method ShiftInPlace(k: array<Byte>)
    requires k.Length == 16
    modifies k
    ensures k[..] == Shifted(old(k[..]))
  {
    hide ShiftByte;
    for i := 0 to 15
      invariant forall j :: 0 <= j < i ==> k[j] == ShiftByte(old(k[j]), old(k[j + 1]))
      invariant forall j :: i <= j < 16 ==> k[j] == old(k[j])
    {
      k[i] := ShiftByte(k[i], k[i + 1]);
    }
    k[15] := ShiftByte(k[15], ZERO);
  }

  method NextKeyInPlace(k: array<Byte>)
    requires k.Length == 16
    modifies k
    ensures k[..] == NextKey(old(k[..]))
  {
    hide Plus, Shifted;
    if k[0].b7 {
      ShiftInPlace(k);
      k[15] := Plus(k[15], R128);
    } else {
      ShiftInPlace(k);
    }
  }

  lemma NextBlock(whole: seq<Byte>, k: nat, data: seq<Byte>, pos: nat)
    requires k <= |whole| && whole[k..] == data && pos + 16 <= |data|
    ensures whole[..k + pos] + data[pos..pos + 16] == whole[..k + pos + 16]
  {
    assert data[pos..pos + 16] == whole[k + pos..k + pos + 16];
  }

  class CmacContext {
    const e: Block -> Block
    const x: array<Byte>
    const mLast: array<Byte>
    var mN: nat

    predicate Sized()
      reads this
    {
      x.Length == 16 && mLast.Length == 16 && x != mLast && mN <= 16
    }

    /** The context has been given m: the last 1 to 16 bytes wait, and x is the chain over the rest. */
    ghost predicate Absorbed(m: seq<Byte>)
      reads this, x, mLast
    {
      var k := LastStart(|m|);
      && Sized()
      && mN == |m| - k
      && mLast[..mN] == m[k..]
      && x[..] == Chain(e, m[..k])
    }

    /** AES_CMAC_Init and AES_CMAC_SetKey. */
    constructor (e: Block -> Block)
      ensures this.e == e && fresh(x) && fresh(mLast) && Absorbed([])
    {
      this.e := e;
      x := new Byte[16](_ => ZERO);
      mLast := new Byte[16](_ => ZERO);
      mN := 0;
    }

    /** XOR a block into x and encrypt x. */
    method Absorb(ghost m: seq<Byte>, b: Block)
      requires Sized() && |m| % 16 == 0 && x[..] == Chain(e, m)
      modifies x
      ensures x[..] == Chain(e, m + b)
    {
      hide XorBlock, Chain;
      XorInto(b, x);
      ChainStep(e, m, b);
      var y := e(x[..]);
      forall i | 0 <= i < 16 {
        x[i] := y[i];
      }
    }

    method Update(ghost m: seq<Byte>, data: seq<Byte>)
      requires Absorbed(m)
      modifies this`mN, x, mLast
      ensures Absorbed(m + data)
    {
      hide Chain, LastStart;
      ghost var whole := m + data;
      ghost var k := LastStart(|m|);
      assert whole[..k] == m[..k];
      var rest := data;
      if mN > 0 {
        var mlen := if 16 - mN < |data| then 16 - mN else |data|;
        Append(mLast, mN, data[..mlen]);
        mN := mN + mlen;
        SliceOfSum(m, data, k, mlen);
        if mN < 16 || |data| == mlen {
          LastStartIs(|whole|, k);
          return;
        }
        Absorb(whole[..k], mLast[..]);
        assert whole[..k] + mLast[..] == whole[..k + 16];
        rest := data[mlen..];
      }
      AbsorbRest(whole, |whole| - |rest|, rest);
    }

    /** The loop of AES_CMAC_Update, and the bytes it saves; the message is settled up to place k. */
    method AbsorbRest(ghost whole: seq<Byte>, ghost k: nat, data: seq<Byte>)
      requires Sized() && k % 16 == 0 && k <= |whole| && whole[k..] == data
      requires data == [] ==> k == 0
      requires x[..] == Chain(e, whole[..k])
      modifies this`mN, x, mLast
      ensures Absorbed(whole)
    {
      hide Chain, LastStart;
      var pos, len: nat := 0, |data|;
      while len > 16
        invariant pos + len == |data| && pos % 16 == 0
        invariant len == 0 ==> k + pos == 0
        invariant Sized() && x[..] == Chain(e, whole[..k + pos])
      {
        Absorb(whole[..k + pos], data[pos..pos + 16]);
        NextBlock(whole, k, data, pos);
        pos := pos + 16;
        len := len - 16;
      }
      forall i | 0 <= i < len {
        mLast[i] := data[pos + i];
      }
      mN := len;
      LastStartIs(|whole|, k + pos);
      assert mLast[..mN] == whole[k + pos..];
    }

    method Final(ghost m: seq<Byte>, digest: array<Byte>)
      requires Absorbed(m)
      requires digest.Length == 16 && digest != x && digest != mLast
      modifies this`mN, x, mLast, digest
      ensures digest[..] == Mac(e, m)
    {
      hide Chain, NextKey, XorBlock, Padded, LastStart;
      ghost var last := mLast[..mN];
      ghost var chain := x[..];
      assert last == m[LastStart(|m|)..];
      var k := new Byte[16](_ => ZERO);
      assert k[..] == ZERO_BLOCK;
      var y := e(k[..]);
      forall i | 0 <= i < 16 {
        k[i] := y[i];
      }
      assert k[..] == e(ZERO_BLOCK);
      NextKeyInPlace(k);
      assert k[..] == K1(e);
      if mN == 16 {
        assert mLast[..] == last;
        XorInto(k[..], mLast);
      } else {
        NextKeyInPlace(k);
        mLast[mN] := Slice(false, false, false, false, false, false, false, true);
        mN := mN + 1;
        while mN < 16
          invariant |last| < mN <= 16 && k[..] == K2(e) && x[..] == chain
          invariant mLast[..|last| + 1] == last + [Slice(false, false, false, false, false, false, false, true)]
          invariant forall i :: |last| < i < mN ==> mLast[i] == ZERO
        {
          mLast[mN] := ZERO;
          mN := mN + 1;
        }
        PaddedIs(last, mLast[..]);
        XorInto(k[..], mLast);
      }
      assert mLast[..] == LastBlock(e, last) && x[..] == chain;
      XorInto(mLast[..], x);
      assert x[..] == XorBlock(chain, LastBlock(e, last));
      var t := e(x[..]);
      assert t == Mac(e, m);
      forall i | 0 <= i < 16 {
        digest[i] := t[i];
      }
      assert digest[..] == t;
    }
  }

  // ---------------------------------------------------------------------------------------------
  // Every split of a message gives the same MAC

  method MacOfPieces(e: Block -> Block, pieces: seq<seq<Byte>>) returns (digest: seq<Byte>)
    ensures digest == Mac(e, Concat(pieces))
  {
    hide Mac;
    var ctx := new CmacContext(e);
    for i := 0 to |pieces|
      invariant ctx.e == e && fresh(ctx) && fresh(ctx.x) && fresh(ctx.mLast)
      invariant ctx.Absorbed(Concat(pieces[..i]))
    {
      ConcatStep(pieces, i);
      ctx.Update(Concat(pieces[..i]), pieces[i]);
    }
    assert pieces[..|pieces|] == pieces;
    var out := new Byte[16](_ => ZERO);
    ctx.Final(Concat(pieces), out);
    return out[..];
  }
}
