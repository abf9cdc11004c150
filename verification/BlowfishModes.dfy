/** CBC mode of blf.c, in place over a buffer; decryption goes from the last block to the first. */
module BlowfishModes {
  import opened Feistel
  import opened Blowfish
  import opened BigEndian

  /** Block j of a message. */
  function BlockAt(m: seq<bv8>, j: nat): Bytes8
    requires 8 * j + 8 <= |m|
  {
    m[8 * j..8 * j + 8]
  }

  /** What CBC adds to block j: the block before it in the ciphertext x, or the initial value. */
  function Previous(iv: Bytes8, x: seq<bv8>, j: nat): Bytes8
    requires 8 * j <= |x|
  {
    if j == 0 then iv else BlockAt(x, j - 1)
  }

  /** SP 800-38A, section 6.2: x is the CBC encryption of m. */
  ghost predicate CbcEncrypts(c: Key, iv: Bytes8, m: seq<bv8>, x: seq<bv8>)
    requires c.Sized() && |m| % 8 == 0
  {
    && |x| == |m|
    && forall j: nat :: 8 * j < |m| ==> BlockAt(x, j) == EncBlock(c, XorBytes(BlockAt(m, j), Previous(iv, x, j)))
  }

  /** m is the CBC decryption of x. */
  ghost predicate CbcDecrypts(c: Key, iv: Bytes8, x: seq<bv8>, m: seq<bv8>)
    requires c.Sized() && |x| % 8 == 0
  {
    && |x| == |m|
    && forall j: nat :: 8 * j < |x| ==> BlockAt(m, j) == XorBytes(DecBlock(c, BlockAt(x, j)), Previous(iv, x, j))
  }

  lemma SameBlocks(a: seq<bv8>, b: seq<bv8>)
    requires |a| == |b| && |a| % 8 == 0
    requires forall j: nat :: 8 * j < |a| ==> BlockAt(a, j) == BlockAt(b, j)
    ensures a == b
  {
    forall i | 0 <= i < |a|
      ensures a[i] == b[i]
    {
      var j := i / 8;
      assert BlockAt(a, j)[i - 8 * j] == a[i] && BlockAt(b, j)[i - 8 * j] == b[i];
    }
  }

  /** Decryption and encryption relate the same plaintexts to the same ciphertexts. */
  lemma CbcDirections(c: Key, iv: Bytes8, m: seq<bv8>, x: seq<bv8>)
    requires c.Sized() && |m| == |x| && |m| % 8 == 0
    ensures CbcEncrypts(c, iv, m, x) <==> CbcDecrypts(c, iv, x, m)
  {
    hide EncBlock, DecBlock, XorBytes, Previous, BlockAt;
    forall j: nat | 8 * j < |m|
      ensures BlockAt(x, j) == EncBlock(c, XorBytes(BlockAt(m, j), Previous(iv, x, j)))
         <==> BlockAt(m, j) == XorBytes(DecBlock(c, BlockAt(x, j)), Previous(iv, x, j))
    {
      var p := Previous(iv, x, j);
      XorBytesCancels(BlockAt(m, j), p);
      XorBytesCancels(DecBlock(c, BlockAt(x, j)), p);
      DecBlockUndoes(c, XorBytes(BlockAt(m, j), p));
      DecBlockUndoes(c, BlockAt(x, j));
    }
  }

  /** Decrypting what was encrypted gives the message back, for every key schedule and initial value. */
  lemma CbcRoundTrip(c: Key, iv: Bytes8, m: seq<bv8>, x: seq<bv8>, m': seq<bv8>)
    requires c.Sized() && |m| == |x| == |m'| && |m| % 8 == 0
    requires CbcEncrypts(c, iv, m, x) && CbcDecrypts(c, iv, x, m')
    ensures m' == m
  {
    hide EncBlock, DecBlock, XorBytes, Previous, BlockAt;
    CbcDirections(c, iv, m, x);
    SameBlocks(m', m);
  }

  // ---------------------------------------------------------------------------------------------
  // The loops on the buffer's contents

  /** d with the block v written at place o. */
  function Written(d: seq<bv8>, o: nat, v: Bytes8): (d': seq<bv8>)
    requires o + 8 <= |d|
    ensures |d'| == |d|
    ensures d'[o..o + 8] == v
    ensures forall k :: 0 <= k < |d| && !(o <= k < o + 8) ==> d'[k] == d[k]
  {
    d[..o] + v + d[o + 8..]
  }

  lemma WrittenTwice(d: seq<bv8>, o: nat, v: Bytes8, w: Bytes8)
    requires o + 8 <= |d|
    ensures Written(Written(d, o, v), o, w) == Written(d, o, w)
  {
  }

  /** The first b blocks of d are encrypted, the rest of d is still that of m. */
  ghost predicate EncryptedUpTo(c: Key, iv: Bytes8, m: seq<bv8>, d: seq<bv8>, b: nat)
    requires c.Sized()
  {
    && 8 * b <= |d| == |m|
    && (forall j: nat :: j < b ==> BlockAt(d, j) == EncBlock(c, XorBytes(BlockAt(m, j), Previous(iv, d, j))))
    && (forall k :: 8 * b <= k < |m| ==> d[k] == m[k])
  }

  /** Blocks that lie within a common prefix are the same, and so is what CBC adds to the next. */
  lemma SamePrefix(iv: Bytes8, d: seq<bv8>, d': seq<bv8>, b: nat)
    requires 8 * b <= |d| && 8 * b <= |d'| && d[..8 * b] == d'[..8 * b]
    ensures forall j: nat :: j < b ==> BlockAt(d', j) == BlockAt(d, j)
    ensures forall j: nat :: j <= b ==> Previous(iv, d', j) == Previous(iv, d, j)
  {
    forall j: nat | j < b
      ensures BlockAt(d', j) == BlockAt(d, j)
    {
      assert d[..8 * b][8 * j..8 * j + 8] == d'[..8 * b][8 * j..8 * j + 8];
    }
  }

  lemma WrittenBlock(d: seq<bv8>, b: nat, v: Bytes8)
    requires 8 * b + 8 <= |d|
    ensures BlockAt(Written(d, 8 * b, v), b) == v
    ensures Written(d, 8 * b, v)[..8 * b] == d[..8 * b]
  {
  }

  lemma UntouchedBlock(m: seq<bv8>, d: seq<bv8>, b: nat)
    requires 8 * b + 8 <= |d| == |m| && forall k :: 8 * b <= k < |m| ==> d[k] == m[k]
    ensures BlockAt(d, b) == BlockAt(m, b)
  {
  }

  lemma EncryptedFurther(c: Key, iv: Bytes8, m: seq<bv8>, d: seq<bv8>, b: nat)
    requires c.Sized() && 8 * b + 8 <= |m| && EncryptedUpTo(c, iv, m, d, b)
    ensures EncryptedUpTo(c, iv, m, Written(d, 8 * b, EncBlock(c, XorBytes(BlockAt(d, b), Previous(iv, d, b)))), b + 1)
  {
    hide EncBlock, XorBytes, Written, BlockAt, Previous;
    var v := EncBlock(c, XorBytes(BlockAt(d, b), Previous(iv, d, b)));
    var d' := Written(d, 8 * b, v);
    WrittenBlock(d, b, v);
    UntouchedBlock(m, d, b);
    SamePrefix(iv, d, d', b);
  }

  /** The blocks of d before the first b are still those of x, the others are decrypted; what follows the
      n blocks of the message is untouched. */
  ghost predicate DecryptedFrom(c: Key, iv: Bytes8, x: seq<bv8>, d: seq<bv8>, b: nat, n: nat)
    requires c.Sized()
  {
    && b <= n && 8 * n <= |d| == |x|
    && (forall j: nat :: b <= j < n ==> BlockAt(d, j) == XorBytes(DecBlock(c, BlockAt(x, j)), Previous(iv, x, j)))
    && (forall k :: 0 <= k < 8 * b || 8 * n <= k < |x| ==> d[k] == x[k])
  }

  lemma DecryptedFurther(c: Key, iv: Bytes8, x: seq<bv8>, d: seq<bv8>, b: nat, n: nat)
    requires c.Sized() && DecryptedFrom(c, iv, x, d, b + 1, n)
    ensures DecryptedFrom(c, iv, x, Written(d, 8 * b, XorBytes(DecBlock(c, BlockAt(d, b)), Previous(iv, d, b))), b, n)
  {
    hide DecBlock, XorBytes, Written;
    var d' := Written(d, 8 * b, XorBytes(DecBlock(c, BlockAt(d, b)), Previous(iv, d, b)));
    assert BlockAt(d, b) == BlockAt(x, b);
    if b > 0 {
      assert BlockAt(d, b - 1) == BlockAt(x, b - 1);
    }
    forall j: nat | b < j < n
      ensures BlockAt(d', j) == BlockAt(d, j)
    {
    }
  }

  // ---------------------------------------------------------------------------------------------
  // The code

  method Store(data: array<bv8>, o: nat, l: bv32, r: bv32)
    requires o + 8 <= data.Length
    modifies data
    ensures data[..] == Written(old(data[..]), o, Stored(Halves(l, r)))
  {
    hide Byte3, Byte2, Byte1, Byte0;
    data[o] := Byte3(l);
    data[o + 1] := Byte2(l);
    data[o + 2] := Byte1(l);
    data[o + 3] := Byte0(l);
    data[o + 4] := Byte3(r);
    data[o + 5] := Byte2(r);
    data[o + 6] := Byte1(r);
    data[o + 7] := Byte0(r);
  }

  /** One block of the buffer, from place o on, through Blowfish_encipher. */
  method EncipherAt(c: Key, data: array<bv8>, o: nat)
    requires c.Sized() && o + 8 <= data.Length
    modifies data
    ensures data[..] == Written(old(data[..]), o, EncBlock(c, old(data[..])[o..o + 8]))
  {
    hide Word, Stored, Enciphered, Written;
    var d := new bv32[2];
    d[0] := Word(data[o], data[o + 1], data[o + 2], data[o + 3]);
    d[1] := Word(data[o + 4], data[o + 5], data[o + 6], data[o + 7]);
    assert Halves(d[0], d[1]) == Load(data[..][o..o + 8]);
    Encipher(c, d);
    Store(data, o, d[0], d[1]);
  }

  method DecipherAt(c: Key, data: array<bv8>, o: nat)
    requires c.Sized() && o + 8 <= data.Length
    modifies data
    ensures data[..] == Written(old(data[..]), o, DecBlock(c, old(data[..])[o..o + 8]))
  {
    hide Word, Stored, Deciphered, Written;
    var d := new bv32[2];
    d[0] := Word(data[o], data[o + 1], data[o + 2], data[o + 3]);
    d[1] := Word(data[o + 4], data[o + 5], data[o + 6], data[o + 7]);
    assert Halves(d[0], d[1]) == Load(data[..][o..o + 8]);
    Decipher(c, d);
    Store(data, o, d[0], d[1]);
  }

  function XorByte(a: bv8, b: bv8): bv8 {
    a ^ b
  }

  method XorAt(data: array<bv8>, o: nat, v: Bytes8)
    requires o + 8 <= data.Length
    modifies data
    ensures data[..] == Written(old(data[..]), o, XorBytes(old(data[..])[o..o + 8], v))
  {
    ghost var was := data[..];
    for j := 0 to 8
      invariant forall i :: 0 <= i < j ==> data[o + i] == XorByte(was[o + i], v[i])
      invariant forall i :: 0 <= i < data.Length && !(o <= i < o + j) ==> data[i] == was[i]
    {
      hide XorByte;
      data[o + j] := XorByte(data[o + j], v[j]);
    }
    assert data[..][o..o + 8] == XorBytes(was[o..o + 8], v);
    hide XorBytes;
  }

  lemma NoneEncrypted(c: Key, iv: Bytes8, m: seq<bv8>)
    requires c.Sized()
    ensures EncryptedUpTo(c, iv, m, m, 0)
  {
  }

  method CbcEncrypt(c: Key, iv: Bytes8, data: array<bv8>, len: nat)
    requires c.Sized() && len <= data.Length && len % 8 == 0
    modifies data
    ensures CbcEncrypts(c, iv, old(data[..len]), data[..len])
    ensures forall i :: len <= i < data.Length ==> data[i] == old(data[i])
  {
    hide EncBlock, XorBytes, Written, EncryptedUpTo;
    ghost var m := data[..];
    ghost var b := 0;
    NoneEncrypted(c, iv, m);
    var v := iv;
    var i := 0;
    while i < len
      invariant i == 8 * b <= len
      invariant v == Previous(iv, data[..], b)
      invariant EncryptedUpTo(c, iv, m, data[..], b)
    {
      ghost var d := data[..];
      ghost var y := XorBytes(BlockAt(d, b), v);
      EncryptedFurther(c, iv, m, d, b);
      XorAt(data, i, v);
      assert data[..][i..i + 8] == y;
      EncipherAt(c, data, i);
      WrittenTwice(d, i, y, EncBlock(c, y));
      v := data[..][i..i + 8];
      i := i + 8;
      b := b + 1;
    }
    EncryptedAll(c, iv, m, data[..], len);
  }

  lemma EncryptedAll(c: Key, iv: Bytes8, m: seq<bv8>, d: seq<bv8>, len: nat)
    requires c.Sized() && len % 8 == 0 && EncryptedUpTo(c, iv, m, d, len / 8)
    ensures len <= |d| == |m|
    ensures CbcEncrypts(c, iv, m[..len], d[..len])
    ensures forall k :: len <= k < |m| ==> d[k] == m[k]
  {
    hide EncBlock, XorBytes, BlockAt, Previous;
    SamePrefix(iv, d, d[..len], len / 8);
    SamePrefix(iv, m, m[..len], len / 8);
  }

  method CbcDecrypt(c: Key, iva: Bytes8, data: array<bv8>, len: nat)
    requires c.Sized() && 0 < len <= data.Length && len % 8 == 0
    modifies data
    ensures CbcDecrypts(c, iva, old(data[..len]), data[..len])
    ensures forall i :: len <= i < data.Length ==> data[i] == old(data[i])
  {
    hide DecBlock, XorBytes, Written;
    ghost var x := data[..];
    ghost var b := len / 8 - 1;
    var i: nat := len - 8;
    while i >= 8
      invariant b >= 0 && i == 8 * b
      invariant DecryptedFrom(c, iva, x, data[..], b + 1, len / 8)
    {
      ghost var d := data[..];
      DecryptedFurther(c, iva, x, d, b, len / 8);
      DecipherAt(c, data, i);
      assert data[..][i - 8..i] == BlockAt(d, b - 1);
      XorAt(data, i, data[..][i - 8..i]);
      WrittenTwice(d, i, DecBlock(c, BlockAt(d, b)), XorBytes(DecBlock(c, BlockAt(d, b)), Previous(iva, d, b)));
      i := i - 8;
      b := b - 1;
    }
    ghost var d := data[..];
    DecryptedFurther(c, iva, x, d, 0, len / 8);
    DecipherAt(c, data, 0);
    XorAt(data, 0, iva);
    WrittenTwice(d, 0, DecBlock(c, BlockAt(d, 0)), XorBytes(DecBlock(c, BlockAt(d, 0)), iva));
    DecryptedAll(c, iva, x, data[..], len);
  }

  lemma DecryptedAll(c: Key, iv: Bytes8, x: seq<bv8>, d: seq<bv8>, len: nat)
    requires c.Sized() && len % 8 == 0 && DecryptedFrom(c, iv, x, d, 0, len / 8)
    ensures CbcDecrypts(c, iv, x[..len], d[..len])
  {
    hide DecBlock, XorBytes, BlockAt, Previous;
    SamePrefix(iv, d, d[..len], len / 8);
    SamePrefix(iv, x, x[..len], len / 8);
  }
}
