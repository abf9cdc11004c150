/** The two implementations of AES, the bit-sliced one (aes.c) and the one with tables (rijndael.c), agree: under
    every key, on every message of complete blocks, in both directions. */
module AesAgreement {
  import opened BitGates
  import opened BitslicedState
  import opened Fips197
  import opened BitslicedAes
  import opened RijndaelAes

  /** Both contexts under one key. */
  method BothKeys(key: seq<Byte>) returns (a: AesContext, b: RijndaelContext)
    requires |key| in {16, 24, 32}
    ensures fresh(a) && fresh(a.sk) && fresh(a.skExp) && fresh(b) && fresh(b.ek) && fresh(b.dk)
    ensures a.Ready() && 4 * a.numRounds == |key| + 24
    ensures b.box == AES && !b.encOnly && a.Keys(0) == a.Keys(1) && b.HasKeys(a.Keys(0))
  {
    hide Keys, KeyExpansion, FirstWords, DecryptionSchedule, AES;
    AesSboxInverse();
    a := new AesContext();
    b := new RijndaelContext(AES);
    var r := a.SetKey(key, |key|);
    r := b.SetKey(key, 8 * |key|);
    assert key[..|key|] == key;
  }

  lemma OneMoreBlock(c: seq<Byte>, d: seq<Byte>, x: seq<Byte>, i: nat)
    requires 16 * i + 16 <= |c| && d == c[..16 * i] && x == BlockAt(c, i)
    ensures d + x == c[..16 * (i + 1)]
  {
  }

  lemma EncryptsEach(w: seq<Block>, m: seq<Byte>, c: seq<Byte>, n: nat, i: nat)
    requires |w| >= 2 && 16 * n <= |m| && 16 * n <= |c| && Encrypts(w, w, m, c, n) && i < n
    ensures BlockAt(c, i) == Cipher(AES, w, BlockAt(m, i))
  {
    hide Cipher, AES, BlockAt;
  }

  lemma DecryptsEach(w: seq<Block>, c: seq<Byte>, m: seq<Byte>, n: nat, i: nat)
    requires |w| >= 2 && 16 * n <= |m| && 16 * n <= |c| && Decrypts(w, w, c, m, n) && i < n
    ensures BlockAt(c, i) == Cipher(AES, w, BlockAt(m, i))
  {
    hide Cipher, InvCipher, AES, BlockAt;
    AesSboxInverse();
    CipherOfInvCipher(AES, w, BlockAt(c, i));
  }

  /** c is what the bit-sliced code makes of the message m, d what the code with tables makes of its blocks. */
  method BothEncrypt(key: seq<Byte>, m: seq<Byte>) returns (c: seq<Byte>, d: seq<Byte>)
    requires |key| in {16, 24, 32} && |m| % 16 == 0
    ensures c == d && |d| == |m|
  {
    hide Keys, Encrypts, AES, Cipher, DecryptionSchedule, BlockAt;
    var a, b := BothKeys(key);
    var n := |m| / 16;
    var src := new Byte[|m|](i requires 0 <= i < |m| => m[i]);
    var dst := new Byte[|m|](i requires 0 <= i < |m| => m[i]);
    assert src[..] == m;
    a.EncryptEcb(src, dst, n);
    c := dst[..];
    d := [];
    ghost var w := a.Keys(0);
    for i := 0 to n
      invariant d == c[..16 * i] && b.HasKeys(w)
    {
      var x := BlockAt(m, i);
      var y := new Byte[16](i requires 0 <= i < 16 => x[i]);
      assert y[..] == x;
      b.EncryptBlock(w, y, y);
      EncryptsEach(w, m, c, n, i);
      OneMoreBlock(c, d, y[..], i);
      d := d + y[..];
    }
  }

  /** ... and of the ciphertext m, decrypting. */
  method BothDecrypt(key: seq<Byte>, m: seq<Byte>) returns (c: seq<Byte>, d: seq<Byte>)
    requires |key| in {16, 24, 32} && |m| % 16 == 0
    ensures c == d && |d| == |m|
  {
    hide Keys, Decrypts, AES, Cipher, DecryptionSchedule, BlockAt;
    AesSboxInverse();
    var a, b := BothKeys(key);
    var n := |m| / 16;
    var src := new Byte[|m|](i requires 0 <= i < |m| => m[i]);
    var dst := new Byte[|m|](i requires 0 <= i < |m| => m[i]);
    assert src[..] == m;
    a.DecryptEcb(src, dst, n);
    c := dst[..];
    d := [];
    ghost var w := a.Keys(0);
    for i := 0 to n
      invariant d == c[..16 * i] && b.HasKeys(w) && !b.encOnly
    {
      var x := BlockAt(m, i);
      var y := new Byte[16](i requires 0 <= i < 16 => x[i]);
      assert y[..] == x;
      b.DecryptBlock(w, y, y);
      DecryptsEach(w, m, c, n, i);
      OneMoreBlock(c, d, y[..], i);
      d := d + y[..];
    }
  }
}
