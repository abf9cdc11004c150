/** The interface of aes.c: AES_Setkey, AES_Encrypt_ECB and AES_Decrypt_ECB, two blocks at a time.

    A buffer is an array of bytes; source and destination may be the same buffer. */
module BitslicedAes {
  import opened BitGates
  import opened LinearCircuits
  import opened BitslicedState
  import opened Fips197
  import opened Transpose
  import opened BitslicedCipher
  import opened BitslicedKeys
  import opened WordBytes

  function BlockAt(m: seq<Byte>, i: nat): Block
    requires 16 * i + 16 <= |m|
  {
    m[16 * i..16 * i + 16]
  }

  /** The round keys that block i of a buffer goes through: its lane is the parity of i. */
  function KeysOf(w0: seq<Block>, w1: seq<Block>, i: nat): seq<Block> {
    if i % 2 == 0 then w0 else w1
  }

  /** c holds n separate encryptions of the first n blocks of m. */
  ghost predicate Encrypts(w0: seq<Block>, w1: seq<Block>, m: seq<Byte>, c: seq<Byte>, n: nat)
    requires |w0| >= 2 && |w1| >= 2 && 16 * n <= |m| && 16 * n <= |c|
  {
    forall i: nat :: i < n ==> BlockAt(c, i) == Cipher(AES, KeysOf(w0, w1, i), BlockAt(m, i))
  }

  /** m holds n separate decryptions of the first n blocks of c. */
  ghost predicate Decrypts(w0: seq<Block>, w1: seq<Block>, c: seq<Byte>, m: seq<Byte>, n: nat)
    requires |w0| >= 2 && |w1| >= 2 && 16 * n <= |m| && 16 * n <= |c|
  {
    forall i: nat :: i < n ==> BlockAt(m, i) == InvCipher(AES, KeysOf(w0, w1, i), BlockAt(c, i))
  }

  /** Decrypting under the same expanded key undoes encrypting, whatever the key words are and however many
      blocks there are. */
  lemma DecryptsEncrypted(w0: seq<Block>, w1: seq<Block>, m: seq<Byte>, c: seq<Byte>, d: seq<Byte>, n: nat)
    requires |w0| >= 2 && |w1| >= 2 && 16 * n == |m| == |c| == |d|
    requires Encrypts(w0, w1, m, c, n)
    requires Decrypts(w0, w1, c, d, n)
    ensures d == m
  {
    hide Cipher, InvCipher, AES;
    AesSboxInverse();
    forall j | 0 <= j < 16 * n
      ensures d[j] == m[j]
    {
      var i := j / 16;
      InvCipherOfCipher(AES, KeysOf(w0, w1, i), BlockAt(m, i));
      assert BlockAt(d, i) == BlockAt(m, i);
      assert BlockAt(d, i)[j - 16 * i] == d[j] && BlockAt(m, i)[j - 16 * i] == m[j];
    }
  }

  /** Encrypting undoes decrypting. */
  lemma EncryptsDecrypted(w0: seq<Block>, w1: seq<Block>, c: seq<Byte>, m: seq<Byte>, e: seq<Byte>, n: nat)
    requires |w0| >= 2 && |w1| >= 2 && 16 * n == |m| == |c| == |e|
    requires Decrypts(w0, w1, c, m, n)
    requires Encrypts(w0, w1, m, e, n)
    ensures e == c
  {
    hide Cipher, InvCipher, AES;
    AesSboxInverse();
    forall j | 0 <= j < 16 * n
      ensures e[j] == c[j]
    {
      var i := j / 16;
      CipherOfInvCipher(AES, KeysOf(w0, w1, i), BlockAt(c, i));
      assert BlockAt(e, i) == BlockAt(c, i);
      assert BlockAt(e, i)[j - 16 * i] == e[j] && BlockAt(c, i)[j - 16 * i] == c[j];
    }
  }

  // ---------------------------------------------------------------------------------------------
  // Blocks in and out of words

  lemma WordsOfBlock(b: Block)
    ensures InWords(Column(b[0], b[1], b[2], b[3]), Column(b[4], b[5], b[6], b[7]),
                    Column(b[8], b[9], b[10], b[11]), Column(b[12], b[13], b[14], b[15])) == b
  {
    hide Column, ByteOf;
    ColumnRows(b[0], b[1], b[2], b[3]);
    ColumnRows(b[4], b[5], b[6], b[7]);
    ColumnRows(b[8], b[9], b[10], b[11]);
    ColumnRows(b[12], b[13], b[14], b[15]);
  }

  /** Four calls of dec32le. */
  method LoadBlock(src: array<Byte>, i: nat) returns (w0: bv32, w1: bv32, w2: bv32, w3: bv32)
    requires 16 * i + 16 <= src.Length
    ensures InWords(w0, w1, w2, w3) == BlockAt(src[..], i)
  {
    hide Column, InWords;
    var o := 16 * i;
    w0 := Column(src[o], src[o + 1], src[o + 2], src[o + 3]);
    w1 := Column(src[o + 4], src[o + 5], src[o + 6], src[o + 7]);
    w2 := Column(src[o + 8], src[o + 9], src[o + 10], src[o + 11]);
    w3 := Column(src[o + 12], src[o + 13], src[o + 14], src[o + 15]);
    WordsOfBlock(BlockAt(src[..], i));
  }

  function BytesOf(x: bv32): (b: seq<Byte>)
    ensures |b| == 4
  {
    [ByteOf(x, 0), ByteOf(x, 8), ByteOf(x, 16), ByteOf(x, 24)]
  }

  function PutWord(a: seq<Byte>, o: nat, x: bv32): seq<Byte>
    requires o + 4 <= |a|
  {
    a[..o] + BytesOf(x) + a[o + 4..]
  }

  /** A buffer after block i has been stored. */
  function PutBlock(a: seq<Byte>, i: nat, x: Block): seq<Byte>
    requires 16 * i + 16 <= |a|
  {
    a[..16 * i] + x + a[16 * i + 16..]
  }

  /** enc32le. */
  method Enc32le(dst: array<Byte>, o: nat, x: bv32)
    requires o + 4 <= dst.Length
    modifies dst
    ensures dst[..] == PutWord(old(dst[..]), o, x)
  {
    hide ByteOf;
    dst[o] := ByteOf(x, 0);
    dst[o + 1] := ByteOf(x, 8);
    dst[o + 2] := ByteOf(x, 16);
    dst[o + 3] := ByteOf(x, 24);
  }

  method StoreBlock(dst: array<Byte>, i: nat, w0: bv32, w1: bv32, w2: bv32, w3: bv32)
    requires 16 * i + 16 <= dst.Length
    modifies dst
    ensures dst[..] == PutBlock(old(dst[..]), i, InWords(w0, w1, w2, w3))
  {
    hide PutWord, InWords, PutBlock;
    FourWords(dst[..], i, w0, w1, w2, w3);
    Enc32le(dst, 16 * i, w0);
    Enc32le(dst, 16 * i + 4, w1);
    Enc32le(dst, 16 * i + 8, w2);
    Enc32le(dst, 16 * i + 12, w3);
  }

  /** The word after what has been stored at o. */
  lemma PutAnother(a: seq<Byte>, o: nat, done: seq<Byte>, x: bv32)
    requires o + |done| + 4 <= |a|
    ensures PutWord(a[..o] + done + a[o + |done|..], o + |done|, x)
      == a[..o] + (done + BytesOf(x)) + a[o + |done| + 4..]
  {
    hide ByteOf;
    var b := a[..o] + done + a[o + |done|..];
    assert b[..o + |done|] == a[..o] + done;
    assert b[o + |done| + 4..] == a[o + |done| + 4..];
  }

  lemma FourWords(a: seq<Byte>, i: nat, w0: bv32, w1: bv32, w2: bv32, w3: bv32)
    requires 16 * i + 16 <= |a|
    ensures |PutWord(a, 16 * i, w0)| == |a|
    ensures |PutWord(PutWord(a, 16 * i, w0), 16 * i + 4, w1)| == |a|
    ensures |PutWord(PutWord(PutWord(a, 16 * i, w0), 16 * i + 4, w1), 16 * i + 8, w2)| == |a|
    ensures PutWord(PutWord(PutWord(PutWord(a, 16 * i, w0), 16 * i + 4, w1), 16 * i + 8, w2), 16 * i + 12, w3)
      == PutBlock(a, i, InWords(w0, w1, w2, w3))
  {
    hide BytesOf, InWords, PutWord;
    var o := 16 * i;
    var b0, b1 := BytesOf(w0), BytesOf(w0) + BytesOf(w1);
    var b2 := b1 + BytesOf(w2);
    var b3 := b2 + BytesOf(w3);
    assert a[..o] + [] + a[o..] == a;
    PutAnother(a, o, [], w0);
    assert [] + b0 == b0;
    PutAnother(a, o, b0, w1);
    PutAnother(a, o, b1, w2);
    PutAnother(a, o, b2, w3);
    FourBytes(w0, w1, w2, w3);
  }

  lemma FourBytes(w0: bv32, w1: bv32, w2: bv32, w3: bv32)
    ensures BytesOf(w0) + BytesOf(w1) + BytesOf(w2) + BytesOf(w3) == InWords(w0, w1, w2, w3)
  {
    hide ByteOf, InWords;
    BlockOfBytes(BytesOf(w0) + BytesOf(w1) + BytesOf(w2) + BytesOf(w3), w0, w1, w2, w3);
  }

  lemma BlockOfBytes(b: Block, w0: bv32, w1: bv32, w2: bv32, w3: bv32)
    requires b[0] == ByteOf(w0, 0) && b[1] == ByteOf(w0, 8) && b[2] == ByteOf(w0, 16) && b[3] == ByteOf(w0, 24)
    requires b[4] == ByteOf(w1, 0) && b[5] == ByteOf(w1, 8) && b[6] == ByteOf(w1, 16) && b[7] == ByteOf(w1, 24)
    requires b[8] == ByteOf(w2, 0) && b[9] == ByteOf(w2, 8) && b[10] == ByteOf(w2, 16) && b[11] == ByteOf(w2, 24)
    requires b[12] == ByteOf(w3, 0) && b[13] == ByteOf(w3, 8) && b[14] == ByteOf(w3, 16) && b[15] == ByteOf(w3, 24)
    ensures b == InWords(w0, w1, w2, w3)
  {
    hide ByteOf, Column, InWords;
    ColumnOfBytes(w0);
    ColumnOfBytes(w1);
    ColumnOfBytes(w2);
    ColumnOfBytes(w3);
    WordsOfBlock(b);
  }

  lemma ColumnOfBytes(w: bv32)
    ensures Column(ByteOf(w, 0), ByteOf(w, 8), ByteOf(w, 16), ByteOf(w, 24)) == w
  {
    hide ByteOf, Column;
    ColumnRows(ByteOf(w, 0), ByteOf(w, 8), ByteOf(w, 16), ByteOf(w, 24));
    SameBytes(Column(ByteOf(w, 0), ByteOf(w, 8), ByteOf(w, 16), ByteOf(w, 24)), w);
  }

  /** One more block stored. */
  lemma EncryptsOneMore(w0: seq<Block>, w1: seq<Block>, m: seq<Byte>, c: seq<Byte>, i: nat)
    requires |w0| >= 2 && |w1| >= 2 && 16 * i + 16 <= |m| && 16 * i + 16 <= |c|
    requires Encrypts(w0, w1, m, c, i)
    ensures var c' := PutBlock(c, i, Cipher(AES, KeysOf(w0, w1, i), BlockAt(m, i)));
      |c'| == |c| && Encrypts(w0, w1, m, c', i + 1)
  {
    hide Cipher, AES;
    var x := Cipher(AES, KeysOf(w0, w1, i), BlockAt(m, i));
    forall k: nat | k < i + 1
      ensures BlockAt(PutBlock(c, i, x), k) == if k == i then x else BlockAt(c, k)
    {
      PutAt(c, i, x, k);
    }
  }

  /** One more block stored. */
  lemma DecryptsOneMore(w0: seq<Block>, w1: seq<Block>, c: seq<Byte>, m: seq<Byte>, i: nat)
    requires |w0| >= 2 && |w1| >= 2 && 16 * i + 16 <= |m| && 16 * i + 16 <= |c|
    requires Decrypts(w0, w1, c, m, i)
    ensures var m' := PutBlock(m, i, InvCipher(AES, KeysOf(w0, w1, i), BlockAt(c, i)));
      |m'| == |m| && Decrypts(w0, w1, c, m', i + 1)
  {
    hide InvCipher, AES;
    var x := InvCipher(AES, KeysOf(w0, w1, i), BlockAt(c, i));
    forall k: nat | k < i + 1
      ensures BlockAt(PutBlock(m, i, x), k) == if k == i then x else BlockAt(m, k)
    {
      PutAt(m, i, x, k);
    }
  }

  lemma PutAt(a: seq<Byte>, i: nat, x: Block, k: nat)
    requires 16 * i + 16 <= |a| && k <= i
    ensures |PutBlock(a, i, x)| == |a|
    ensures BlockAt(PutBlock(a, i, x), k) == if k == i then x else BlockAt(a, k)
  {
  }

  lemma PutTail(a: seq<Byte>, i: nat, x: Block, k: nat)
    requires 16 * i + 16 <= k <= |a|
    ensures |PutBlock(a, i, x)| == |a|
    ensures PutBlock(a, i, x)[k..] == a[k..]
  {
  }

  /** A block that has not been overwritten. */
  lemma SameBlock(a: seq<Byte>, m: seq<Byte>, k: nat, i: nat)
    requires |a| == |m| && k <= 16 * i && 16 * i + 16 <= |m| && a[k..] == m[k..]
    ensures BlockAt(a, i) == BlockAt(m, i)
  {
    TailSlice(a, k, 16 * i, 16 * i + 16);
    TailSlice(m, k, 16 * i, 16 * i + 16);
  }

  lemma TailSlice(a: seq<Byte>, k: nat, i: nat, j: nat)
    requires k <= i <= j <= |a|
    ensures a[i..j] == a[k..][i - k..j - k]
  {
  }

  lemma ShorterTail(a: seq<Byte>, m: seq<Byte>, k: nat, n: nat)
    requires |a| == |m| && k <= n <= |m| && a[k..] == m[k..]
    ensures a[n..] == m[n..]
  {
    assert a[n..] == a[k..][n - k..] && m[n..] == m[k..][n - k..];
  }

  lemma EncryptsNothing(w0: seq<Block>, w1: seq<Block>, m: seq<Byte>, c: seq<Byte>)
    requires |w0| >= 2 && |w1| >= 2
    ensures Encrypts(w0, w1, m, c, 0)
  {
  }

  lemma DecryptsNothing(w0: seq<Block>, w1: seq<Block>, m: seq<Byte>, c: seq<Byte>)
    requires |w0| >= 2 && |w1| >= 2
    ensures Decrypts(w0, w1, m, c, 0)
  {
  }

  // ---------------------------------------------------------------------------------------------

  class AesContext {
    var numRounds: nat
    const sk: array<bv32>
    const skExp: array<bv32>

    constructor ()
      ensures fresh(sk) && fresh(skExp) && Sized()
    {
      sk := new bv32[60];
      skExp := new bv32[120];
      numRounds := 0;
    }

    predicate Sized() {
      sk.Length == 60 && skExp.Length == 120 && sk != skExp
    }

    /** A key has been set: the only way to call the block operations. */
    predicate Ready()
      reads this
    {
      Sized() && 1 <= numRounds <= 14
    }

    /** The round keys of lane l. */
    function Keys(l: bv32): (w: seq<Block>)
      requires Ready() && l < 2
      reads this, skExp
      ensures |w| == numRounds + 1
    {
      LaneKeys(skExp[..], numRounds, l)
    }

    method SetKey(key: seq<Byte>, len: int) returns (r: int)
      requires Sized()
      requires len in {16, 24, 32} ==> len <= |key|
      modifies this, sk, skExp
      ensures numRounds == NumberOfRounds(len)
      ensures r == if len in {16, 24, 32} then 0 else -1
      ensures r == 0 ==> 4 * numRounds == len + 24
      ensures r == 0 ==> Ready() && Keys(0) == Keys(1) == KeyExpansion(AES, len / 4, key[..len], numRounds)
    {
      hide View, Expanded, RoundKey;
      numRounds := Keysched(sk, key, len);
      if numRounds == 0 {
        return -1;
      }
      SkeyExpand(skExp, numRounds, sk);
      forall u: nat | u <= numRounds
        ensures Keys(0)[u] == RoundKey(AES, len / 4, key[..len], u)
        ensures Keys(1)[u] == RoundKey(AES, len / 4, key[..len], u)
      {
        assert StandsFor(sk[..], u, RoundKey(AES, len / 4, key[..len], u));
      }
      assert Keys(0) == KeyExpansion(AES, len / 4, key[..len], numRounds);
      assert Keys(1) == KeyExpansion(AES, len / 4, key[..len], numRounds);
      return 0;
    }

    /** The bit-sliced words of two blocks, through the cipher. */
    method EncryptTwo(w0: bv32, w1: bv32, w2: bv32, w3: bv32, w4: bv32, w5: bv32, w6: bv32, w7: bv32)
      returns (c0: bv32, c1: bv32, c2: bv32, c3: bv32, c4: bv32, c5: bv32, c6: bv32, c7: bv32)
      requires Ready()
      ensures InWords(c0, c2, c4, c6) == Cipher(AES, Keys(0), InWords(w0, w2, w4, w6))
      ensures InWords(c1, c3, c5, c7) == Cipher(AES, Keys(1), InWords(w1, w3, w5, w7))
    {
      hide View, Cipher, InWords, Ortho;
      var q := new bv32[8][w0, w1, w2, w3, w4, w5, w6, w7];
      ghost var p := Slice(w0, w1, w2, w3, w4, w5, w6, w7);
      assert Q(q) == p;
      OrthoView(p, 0);
      OrthoView(p, 1);
      OrthoInPlace(q);
      BitsliceEncrypt(numRounds, skExp, q);
      OrthoLoaded(Q(q), 0);
      OrthoLoaded(Q(q), 1);
      OrthoInPlace(q);
      return q[0], q[1], q[2], q[3], q[4], q[5], q[6], q[7];
    }

    /** Storing a block where the source, which may be the same buffer, has been read. */
    method StoreNext(src: array<Byte>, dst: array<Byte>, i: nat, w0: bv32, w1: bv32, w2: bv32, w3: bv32,
                     ghost m: seq<Byte>)
      requires 16 * i + 16 <= dst.Length && 16 * i + 16 <= src.Length == |m|
      requires src[16 * i..] == m[16 * i..]
      modifies dst
      ensures dst[..] == PutBlock(old(dst[..]), i, InWords(w0, w1, w2, w3))
      ensures src[16 * i + 16..] == m[16 * i + 16..]
      ensures dst[16 * i + 16..] == old(dst[16 * i + 16..])
    {
      hide InWords, PutBlock;
      ShorterTail(src[..], m, 16 * i, 16 * i + 16);
      PutTail(dst[..], i, InWords(w0, w1, w2, w3), 16 * i + 16);
      StoreBlock(dst, i, w0, w1, w2, w3);
    }

    /** The body of the loop of AES_Encrypt_ECB: two blocks, or the last one with an empty partner. */
    method EncryptNext(src: array<Byte>, dst: array<Byte>, done: nat, left: nat, ghost m: seq<Byte>)
      requires Ready() && dst as object != skExp
      requires done % 2 == 0 && left > 0 && |m| == src.Length
      requires 16 * (done + left) <= src.Length && 16 * (done + left) <= dst.Length
      requires src[16 * done..] == m[16 * done..]
      requires Encrypts(Keys(0), Keys(1), m, dst[..], done)
      modifies dst
      ensures var n := done + if left > 1 then 2 else 1;
        && Encrypts(Keys(0), Keys(1), m, dst[..], n)
        && src[16 * n..] == m[16 * n..]
        && dst[16 * n..] == old(dst[16 * n..])
    {
      hide View, Cipher, InWords, Keys, BlockAt, PutBlock, Encrypts, AES;
      SameBlock(src[..], m, 16 * done, done);
      var w0, w2, w4, w6 := LoadBlock(src, done);
      var w1, w3, w5, w7 := 0, 0, 0, 0;
      if left > 1 {
        SameBlock(src[..], m, 16 * done, done + 1);
        w1, w3, w5, w7 := LoadBlock(src, done + 1);
      }
      var c0, c1, c2, c3, c4, c5, c6, c7 := EncryptTwo(w0, w1, w2, w3, w4, w5, w6, w7);
      StoreNext(src, dst, done, c0, c2, c4, c6, m);
      EncryptsOneMore(Keys(0), Keys(1), m, old(dst[..]), done);
      if left > 1 {
        ghost var middle := dst[..];
        StoreNext(src, dst, done + 1, c1, c3, c5, c7, m);
        ShorterTail(middle, old(dst[..]), 16 * (done + 1), 16 * (done + 2));
        EncryptsOneMore(Keys(0), Keys(1), m, middle, done + 1);
      }
    }

    method EncryptEcb(src: array<Byte>, dst: array<Byte>, numBlocks: nat)
      requires Ready()
      requires 16 * numBlocks <= src.Length && 16 * numBlocks <= dst.Length
      requires dst as object != skExp
      modifies dst
      ensures Encrypts(Keys(0), Keys(1), old(src[..]), dst[..], numBlocks)
      ensures dst[16 * numBlocks..] == old(dst[16 * numBlocks..])
    {
      hide Keys, Encrypts;
      ghost var m := src[..];
      var done: nat := 0;
      var left: nat := numBlocks;
      EncryptsNothing(Keys(0), Keys(1), m, dst[..]);
      while left > 0
        invariant done % 2 == 0 && done + left == numBlocks
        invariant src[16 * done..] == m[16 * done..]
        invariant Encrypts(Keys(0), Keys(1), m, dst[..], done)
        invariant dst[16 * numBlocks..] == old(dst[16 * numBlocks..])
      {
        ghost var before := dst[..];
        EncryptNext(src, dst, done, left, m);
        ShorterTail(dst[..], before, 16 * (done + if left > 1 then 2 else 1), 16 * numBlocks);
        if left > 1 {
          done := done + 2;
          left := left - 2;
        } else {
          break;
        }
      }
    }

    /** The bit-sliced words of two blocks, through the cipher. */
    method DecryptTwo(w0: bv32, w1: bv32, w2: bv32, w3: bv32, w4: bv32, w5: bv32, w6: bv32, w7: bv32)
      returns (c0: bv32, c1: bv32, c2: bv32, c3: bv32, c4: bv32, c5: bv32, c6: bv32, c7: bv32)
      requires Ready()
      ensures InWords(c0, c2, c4, c6) == InvCipher(AES, Keys(0), InWords(w0, w2, w4, w6))
      ensures InWords(c1, c3, c5, c7) == InvCipher(AES, Keys(1), InWords(w1, w3, w5, w7))
    {
      hide View, InvCipher, InWords, Ortho;
      var q := new bv32[8][w0, w1, w2, w3, w4, w5, w6, w7];
      ghost var p := Slice(w0, w1, w2, w3, w4, w5, w6, w7);
      assert Q(q) == p;
      OrthoView(p, 0);
      OrthoView(p, 1);
      OrthoInPlace(q);
      BitsliceDecrypt(numRounds, skExp, q);
      OrthoLoaded(Q(q), 0);
      OrthoLoaded(Q(q), 1);
      OrthoInPlace(q);
      return q[0], q[1], q[2], q[3], q[4], q[5], q[6], q[7];
    }

    /** The body of the loop of AES_Decrypt_ECB: two blocks, or the last one with an empty partner. */
    method DecryptNext(src: array<Byte>, dst: array<Byte>, done: nat, left: nat, ghost m: seq<Byte>)
      requires Ready() && dst as object != skExp
      requires done % 2 == 0 && left > 0 && |m| == src.Length
      requires 16 * (done + left) <= src.Length && 16 * (done + left) <= dst.Length
      requires src[16 * done..] == m[16 * done..]
      requires Decrypts(Keys(0), Keys(1), m, dst[..], done)
      modifies dst
      ensures var n := done + if left > 1 then 2 else 1;
        && Decrypts(Keys(0), Keys(1), m, dst[..], n)
        && src[16 * n..] == m[16 * n..]
        && dst[16 * n..] == old(dst[16 * n..])
    {
      hide View, InvCipher, InWords, Keys, BlockAt, PutBlock, Decrypts, AES;
      SameBlock(src[..], m, 16 * done, done);
      var w0, w2, w4, w6 := LoadBlock(src, done);
      var w1, w3, w5, w7 := 0, 0, 0, 0;
      if left > 1 {
        SameBlock(src[..], m, 16 * done, done + 1);
        w1, w3, w5, w7 := LoadBlock(src, done + 1);
      }
      var c0, c1, c2, c3, c4, c5, c6, c7 := DecryptTwo(w0, w1, w2, w3, w4, w5, w6, w7);
      StoreNext(src, dst, done, c0, c2, c4, c6, m);
      DecryptsOneMore(Keys(0), Keys(1), m, old(dst[..]), done);
      if left > 1 {
        ghost var middle := dst[..];
        StoreNext(src, dst, done + 1, c1, c3, c5, c7, m);
        ShorterTail(middle, old(dst[..]), 16 * (done + 1), 16 * (done + 2));
        DecryptsOneMore(Keys(0), Keys(1), m, middle, done + 1);
      }
    }

    method DecryptEcb(src: array<Byte>, dst: array<Byte>, numBlocks: nat)
      requires Ready()
      requires 16 * numBlocks <= src.Length && 16 * numBlocks <= dst.Length
      requires dst as object != skExp
      modifies dst
      ensures Decrypts(Keys(0), Keys(1), old(src[..]), dst[..], numBlocks)
      ensures dst[16 * numBlocks..] == old(dst[16 * numBlocks..])
    {
      hide Keys, Decrypts;
      ghost var m := src[..];
      var done: nat := 0;
      var left: nat := numBlocks;
      DecryptsNothing(Keys(0), Keys(1), m, dst[..]);
      while left > 0
        invariant done % 2 == 0 && done + left == numBlocks
        invariant src[16 * done..] == m[16 * done..]
        invariant Decrypts(Keys(0), Keys(1), m, dst[..], done)
        invariant dst[16 * numBlocks..] == old(dst[16 * numBlocks..])
      {
        ghost var before := dst[..];
        DecryptNext(src, dst, done, left, m);
        ShorterTail(dst[..], before, 16 * (done + if left > 1 then 2 else 1), 16 * numBlocks);
        if left > 1 {
          done := done + 2;
          left := left - 2;
        } else {
          break;
        }
      }
    }
  }
}
