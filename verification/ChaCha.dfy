/** ChaCha20 (chacha_private.h; RFC 8439, with the 64-bit counter and 64-bit nonce of the original): the stream
    of key bytes, and the function that adds it to a message in place or from buffer to buffer. */
module ChaCha {
  import opened BigEndian
  import opened Pieces
  import W = Words

  /** The 16 words of a state. */
  type Words = s: seq<bv32> | |s| == 16 witness [0, 0, 0, 0, 0, 0, 0, 0, 0, 0, 0, 0, 0, 0, 0, 0]

  // ---------------------------------------------------------------------------------------------
  // RFC 8439, sections 2.1 to 2.3

  function Rol16(x: bv32): bv32 { (x << 16) | (x >> 16) }
  function Rol12(x: bv32): bv32 { (x << 12) | (x >> 20) }
  function Rol8(x: bv32): bv32 { (x << 8) | (x >> 24) }
  function Rol7(x: bv32): bv32 { (x << 7) | (x >> 25) }

  lemma Rol16Bit(x: bv32, k: bv32)
    requires k < 32
    ensures W.Bit(Rol16(x), W.Above(k, 16)) == W.Bit(x, k)
  {
  }

  lemma Rol12Bit(x: bv32, k: bv32)
    requires k < 32
    ensures W.Bit(Rol12(x), W.Above(k, 12)) == W.Bit(x, k)
  {
  }

  lemma Rol8Bit(x: bv32, k: bv32)
    requires k < 32
    ensures W.Bit(Rol8(x), W.Above(k, 8)) == W.Bit(x, k)
  {
  }

  lemma Rol7Bit(x: bv32, k: bv32)
    requires k < 32
    ensures W.Bit(Rol7(x), W.Above(k, 7)) == W.Bit(x, k)
  {
  }

  /** Rotations take each bit so many places up, around the word. */
  lemma RotationBits(x: bv32, k: bv32)
    requires k < 32
    ensures W.Bit(Rol16(x), W.Above(k, 16)) == W.Bit(x, k)
    ensures W.Bit(Rol12(x), W.Above(k, 12)) == W.Bit(x, k)
    ensures W.Bit(Rol8(x), W.Above(k, 8)) == W.Bit(x, k)
    ensures W.Bit(Rol7(x), W.Above(k, 7)) == W.Bit(x, k)
  {
    hide *;
    Rol16Bit(x, k);
    Rol12Bit(x, k);
    Rol8Bit(x, k);
    Rol7Bit(x, k);
  }

  function Xor(a: bv32, b: bv32): bv32 {
    a ^ b
  }

  /** Addition modulo 2^32. */
  function Plus(a: bv32, b: bv32): bv32 {
    a + b
  }

  datatype Quarter = Quarter(a: bv32, b: bv32, c: bv32, d: bv32)

  /** Half a quarter round, with the rotations that come with it. */
  function Mixed(q: Quarter, first: bool): Quarter {
    var a := Plus(q.a, q.b);
    var d := if first then Rol16(Xor(q.d, a)) else Rol8(Xor(q.d, a));
    var c := Plus(q.c, d);
    var b := if first then Rol12(Xor(q.b, c)) else Rol7(Xor(q.b, c));
    Quarter(a, b, c, d)
  }

  function QuarterRound(q: Quarter): Quarter {
    Mixed(Mixed(q, true), false)
  }

  /** The example of RFC 8439, section 2.1.1. */
  lemma QuarterRoundExample()
    ensures QuarterRound(Quarter(0x11111111, 0x01020304, 0x9b8d6f43, 0x01234567))
      == Quarter(0xea2a92f4, 0xcb1cf8ce, 0x4581472e, 0x5881c4bb)
  {
  }

  /** A quarter round on words a, b, c and d of a state. */
  function QuarterAt(s: Words, a: nat, b: nat, c: nat, d: nat): Words
    requires a < 16 && b < 16 && c < 16 && d < 16
  {
    var q := QuarterRound(Quarter(s[a], s[b], s[c], s[d]));
    s[a := q.a][b := q.b][c := q.c][d := q.d]
  }

  function Columns(s: Words): Words {
    QuarterAt(QuarterAt(QuarterAt(QuarterAt(s, 0, 4, 8, 12), 1, 5, 9, 13), 2, 6, 10, 14), 3, 7, 11, 15)
  }

  function Diagonals(s: Words): Words {
    QuarterAt(QuarterAt(QuarterAt(QuarterAt(s, 0, 5, 10, 15), 1, 6, 11, 12), 2, 7, 8, 13), 3, 4, 9, 14)
  }

  /** n column and diagonal rounds. */
  function DoubleRounds(s: Words, n: nat): Words {
    if n == 0 then s else Diagonals(Columns(DoubleRounds(s, n - 1)))
  }

  function Added(a: Words, b: Words): Words {
    seq(16, w requires 0 <= w < 16 => Plus(a[w], b[w]))
  }

  /** The block function: 20 rounds, and the input added. */
  function BlockOf(s: Words): Words {
    Added(DoubleRounds(s, 10), s)
  }

  function WordByte(x: bv32, k: nat): bv8
    requires k < 4
  {
    if k == 0 then Byte0(x) else if k == 1 then Byte1(x) else if k == 2 then Byte2(x) else Byte3(x)
  }

  /** Byte i of a block of key bytes, the words in little-endian order. */
  function KeyByte(x: Words, i: nat): bv8
    requires i < 64
  {
    WordByte(x[i / 4], i % 4)
  }

  // ---------------------------------------------------------------------------------------------
  // The counter

  /** The input for the next block: words 12 and 13 count the blocks, with a carry from one to the other. */
  function Next(s: Words): Words {
    var low := Plus(s[12], 1);
    s[12 := low][13 := if low == 0 then Plus(s[13], 1) else s[13]]
  }

  /** The input for block n. */
  function After(s: Words, n: nat): Words {
    if n == 0 then s else Next(After(s, n - 1))
  }

  function Low(c: bv64): bv32 {
    (c & 0xffff_ffff) as bv32
  }

  function High(c: bv64): bv32 {
    (c >> 32) as bv32
  }

  lemma LowBits(c: bv64)
    ensures ((c + 1) & 0xffff_ffff) as bv32 == ((c & 0xffff_ffff) as bv32) + 1
  {
  }

  lemma HighBitsCarry(c: bv64)
    requires c & 0xffff_ffff == 0xffff_ffff
    ensures ((c + 1) >> 32) as bv32 == ((c >> 32) as bv32) + 1
  {
  }

  lemma HighBitsStay(c: bv64)
    requires c & 0xffff_ffff != 0xffff_ffff
    ensures ((c + 1) >> 32) as bv32 == (c >> 32) as bv32
  {
  }

  lemma LowWraps(c: bv64)
    ensures ((c & 0xffff_ffff) as bv32) + 1 == 0 <==> c & 0xffff_ffff == 0xffff_ffff
  {
  }

  lemma LowNext(c: bv64)
    ensures Low(c + 1) == Plus(Low(c), 1)
  {
    LowBits(c);
  }

  lemma HighNext(c: bv64)
    ensures High(c + 1) == if Low(c + 1) == 0 then Plus(High(c), 1) else High(c)
  {
    LowWraps(c);
    LowBits(c);
    if c & 0xffff_ffff == 0xffff_ffff {
      HighBitsCarry(c);
    } else {
      HighBitsStay(c);
    }
  }

  /** Words 12 and 13 hold c. */
  predicate Counts(s: Words, c: bv64) {
    s[12] == Low(c) && s[13] == High(c)
  }

  /** The two words are one counter of 64 bits; no other word changes. */
  lemma NextCounts(s: Words, c: bv64)
    requires Counts(s, c)
    ensures Counts(Next(s), Inc(c))
    ensures forall w :: 0 <= w < 16 && w != 12 && w != 13 ==> Next(s)[w] == s[w]
  {
    hide Low, High, Plus;
    LowNext(c);
    HighNext(c);
  }

  lemma HalvesJoined(low: bv32, high: bv32)
    ensures Low(((high as bv64) << 32) | (low as bv64)) == low
    ensures High(((high as bv64) << 32) | (low as bv64)) == high
  {
  }

  /** Every input holds some counter. */
  lemma CounterOf(s: Words) returns (c: bv64)
    ensures Counts(s, c)
  {
    c := ((s[13] as bv64) << 32) | (s[12] as bv64);
    HalvesJoined(s[12], s[13]);
  }

  function Inc(c: bv64): bv64 {
    c + 1
  }

  /** The n-th number after c, modulo 2^64. */
  function Later(c: bv64, n: nat): bv64 {
    if n == 0 then c else Inc(Later(c, n - 1))
  }

  /** Whatever the counter is at the start, block n has the n-th one after it, as a number of 64 bits, and the same
      other words. */
  lemma AfterCounts(s: Words, n: nat) returns (c: bv64)
    ensures Counts(s, c) && Counts(After(s, n), Later(c, n))
    ensures forall w :: 0 <= w < 16 && w != 12 && w != 13 ==> After(s, n)[w] == s[w]
  {
    hide Counts, After, Later;
    c := CounterOf(s);
    CountsFrom(s, c, n);
    KeepsOthers(s, n);
  }

  lemma {:induction false} CountsFrom(s: Words, c: bv64, n: nat)
    requires Counts(s, c)
    ensures Counts(After(s, n), Later(c, n))
  {
    hide Counts, Next, Inc;
    if n > 0 {
      CountsFrom(s, c, n - 1);
      NextCounts(After(s, n - 1), Later(c, n - 1));
    }
  }

  lemma {:induction false} AfterAdds(s: Words, a: nat, b: nat)
    ensures After(After(s, a), b) == After(s, a + b)
  {
    if b > 0 {
      AfterAdds(s, a, b - 1);
    }
  }

  // ---------------------------------------------------------------------------------------------
  // The stream

  function XorByte(a: bv8, b: bv8): bv8 {
    a ^ b
  }

  /** Byte i of the key stream that starts with input s. */
  function StreamByte(s: Words, i: nat): bv8 {
    KeyByte(BlockOf(After(s, i / 64)), i % 64)
  }

  /** c is m with the key stream added (section 2.4). */
  ghost predicate Encrypts(s: Words, m: seq<bv8>, c: seq<bv8>) {
    |m| == |c| && forall i :: 0 <= i < |m| ==> c[i] == XorByte(m[i], StreamByte(s, i))
  }

  /** Encrypting again decrypts. */
  lemma EncryptsTwice(s: Words, m: seq<bv8>, c: seq<bv8>, d: seq<bv8>)
    requires Encrypts(s, m, c) && Encrypts(s, c, d)
    ensures d == m
  {
    hide StreamByte;
    forall i | 0 <= i < |m|
      ensures d[i] == m[i]
    {
      assert c[i] == XorByte(m[i], StreamByte(s, i)) && d[i] == XorByte(c[i], StreamByte(s, i));
      XorByteTwice(m[i], StreamByte(s, i));
    }
  }

  lemma XorByteTwice(a: bv8, b: bv8)
    ensures XorByte(XorByte(a, b), b) == a
  {
  }

  /** After complete blocks the stream goes on where the next call starts. */
  lemma EncryptsSum(s: Words, a: seq<bv8>, b: seq<bv8>, c: seq<bv8>, d: seq<bv8>)
    requires |a| % 64 == 0
    requires Encrypts(s, a, c) && Encrypts(After(s, |a| / 64), b, d)
    ensures Encrypts(s, a + b, c + d)
  {
    hide StreamByte, XorByte;
    forall i | 0 <= i < |a + b|
      ensures (c + d)[i] == XorByte((a + b)[i], StreamByte(s, i))
    {
      if i >= |a| {
        StreamGoesOn(s, |a| / 64, i - |a|);
      }
    }
  }

  lemma StreamGoesOn(s: Words, n: nat, i: nat)
    ensures StreamByte(After(s, n), i) == StreamByte(s, 64 * n + i)
  {
    hide After, BlockOf, KeyByte;
    AfterAdds(s, n, i / 64);
    assert (64 * n + i) / 64 == n + i / 64 && (64 * n + i) % 64 == i % 64;
  }

  // ---------------------------------------------------------------------------------------------
  // One block

  /** c is m with the first bytes of a block of key bytes added. */
  ghost predicate OneBlock(x: Words, m: seq<bv8>, c: seq<bv8>) {
    |m| == |c| <= 64 && forall i :: 0 <= i < |m| ==> c[i] == XorByte(m[i], KeyByte(x, i))
  }

  lemma OneBlockEncrypts(s: Words, m: seq<bv8>, c: seq<bv8>)
    requires OneBlock(BlockOf(s), m, c)
    ensures Encrypts(s, m, c)
  {
    hide KeyByte, BlockOf, XorByte;
    forall i | 0 <= i < |m|
      ensures c[i] == XorByte(m[i], StreamByte(s, i))
    {
      if i < 64 {
        assert i / 64 == 0 && i % 64 == i;
        assert After(s, 0) == s;
      } else {
        assert false;
      }
    }
  }

  lemma XorWordBytes0(x: bv32, a: bv8, b: bv8, c: bv8, d: bv8)
    ensures Byte0(Xor(x, Word(d, c, b, a))) == XorByte(a, Byte0(x))
  {
  }

  lemma XorWordBytes1(x: bv32, a: bv8, b: bv8, c: bv8, d: bv8)
    ensures Byte1(Xor(x, Word(d, c, b, a))) == XorByte(b, Byte1(x))
  {
  }

  lemma XorWordBytes2(x: bv32, a: bv8, b: bv8, c: bv8, d: bv8)
    ensures Byte2(Xor(x, Word(d, c, b, a))) == XorByte(c, Byte2(x))
  {
  }

  lemma XorWordBytes3(x: bv32, a: bv8, b: bv8, c: bv8, d: bv8)
    ensures Byte3(Xor(x, Word(d, c, b, a))) == XorByte(d, Byte3(x))
  {
  }

  /** XOR(x, U8TO32_LITTLE(b)), byte by byte. */
  lemma XorWordByte(x: bv32, b: seq<bv8>, k: nat)
    requires |b| == 4 && k < 4
    ensures WordByte(Xor(x, Word(b[3], b[2], b[1], b[0])), k) == XorByte(b[k], WordByte(x, k))
  {
    hide Xor, XorByte, Word, Byte0, Byte1, Byte2, Byte3;
    XorWordBytes0(x, b[0], b[1], b[2], b[3]);
    XorWordBytes1(x, b[0], b[1], b[2], b[3]);
    XorWordBytes2(x, b[0], b[1], b[2], b[3]);
    XorWordBytes3(x, b[0], b[1], b[2], b[3]);
  }

  /** The words of x with those of a message added. */
  ghost predicate Summed(x: Words, m: seq<bv8>, y: seq<bv32>)
    requires |m| == 64
  {
    |y| <= 16 && forall w :: 0 <= w < |y| ==>
      y[w] == Xor(x[w], Word(m[4 * w + 3], m[4 * w + 2], m[4 * w + 1], m[4 * w]))
  }

  lemma SummedByte(x: Words, m: seq<bv8>, y: Words, i: nat)
    requires |m| == 64 && Summed(x, m, y) && i < 64
    ensures KeyByte(y, i) == XorByte(m[i], KeyByte(x, i))
  {
    hide Xor, XorByte, Word, WordByte;
    var w := i / 4;
    var b := m[4 * w..4 * w + 4];
    assert b[3] == m[4 * w + 3] && b[2] == m[4 * w + 2] && b[1] == m[4 * w + 1] && b[0] == m[4 * w];
    XorWordByte(x[w], b, i % 4);
    assert b[i % 4] == m[i];
  }

  /** The loads, the additions and the stores of one turn of the loop; m and c may be the same buffer. */
  method AddBlock(x: Words, m: array<bv8>, mo: nat, c: array<bv8>, co: nat)
    requires mo + 64 <= m.Length && co + 64 <= c.Length
    modifies c
    ensures OneBlock(x, old(m[mo..mo + 64]), c[co..co + 64])
    ensures c[..co] == old(c[..co]) && c[co + 64..] == old(c[co + 64..])
  {
    hide Xor, XorByte, Word, WordByte, KeyByte;
    ghost var was := m[mo..mo + 64];
    var y: seq<bv32> := [];
    for w := 0 to 16
      invariant |y| == w && Summed(x, was, y)
      invariant m[mo..mo + 64] == was && c[..] == old(c[..])
    {
      var o := mo + 4 * w;
      assert m[o] == was[4 * w] && m[o + 1] == was[4 * w + 1];
      assert m[o + 2] == was[4 * w + 2] && m[o + 3] == was[4 * w + 3];
      y := y + [Xor(x[w], Word(m[o + 3], m[o + 2], m[o + 1], m[o]))];
    }
    StoreWords(y, c, co);
    forall i | 0 <= i < 64
      ensures c[co..co + 64][i] == XorByte(was[i], KeyByte(x, i))
    {
      SummedByte(x, was, y, i);
    }
  }

  /** U32TO8_LITTLE for the 16 words. */
  method StoreWords(y: Words, c: array<bv8>, co: nat)
    requires co + 64 <= c.Length
    modifies c
    ensures forall i :: 0 <= i < 64 ==> c[co + i] == KeyByte(y, i)
    ensures c[..co] == old(c[..co]) && c[co + 64..] == old(c[co + 64..])
  {
    hide Byte0, Byte1, Byte2, Byte3;
    for w := 0 to 16
      invariant forall i :: 0 <= i < 4 * w ==> c[co + i] == KeyByte(y, i)
      invariant c[..co] == old(c[..co]) && c[co + 64..] == old(c[co + 64..])
    {
      var o := co + 4 * w;
      c[o], c[o + 1], c[o + 2], c[o + 3] := Byte0(y[w]), Byte1(y[w]), Byte2(y[w]), Byte3(y[w]);
    }
  }

  method QuarterStep(s: Words, a: nat, b: nat, c: nat, d: nat) returns (x: Words)
    requires a < 16 && b < 16 && c < 16 && d < 16
    ensures x == QuarterAt(s, a, b, c, d)
  {
    var xa, xb, xc, xd := s[a], s[b], s[c], s[d];
    xa := Plus(xa, xb);
    xd := Rol16(Xor(xd, xa));
    xc := Plus(xc, xd);
    xb := Rol12(Xor(xb, xc));
    xa := Plus(xa, xb);
    xd := Rol8(Xor(xd, xa));
    xc := Plus(xc, xd);
    xb := Rol7(Xor(xb, xc));
    x := s[a := xa][b := xb][c := xc][d := xd];
  }

  /** The rounds of chacha_encrypt_bytes, and the addition of the input. */
  method Block(j: Words) returns (x: Words)
    ensures x == BlockOf(j)
  {
    hide QuarterAt;
    x := j;
    var i := 20;
    while i > 0
      invariant 0 <= i <= 20 && i % 2 == 0
      invariant x == DoubleRounds(j, 10 - i / 2)
    {
      x := QuarterStep(x, 0, 4, 8, 12);
      x := QuarterStep(x, 1, 5, 9, 13);
      x := QuarterStep(x, 2, 6, 10, 14);
      x := QuarterStep(x, 3, 7, 11, 15);
      x := QuarterStep(x, 0, 5, 10, 15);
      x := QuarterStep(x, 1, 6, 11, 12);
      x := QuarterStep(x, 2, 7, 8, 13);
      x := QuarterStep(x, 3, 4, 9, 14);
      i := i - 2;
    }
    x := Added(x, j);
  }

  // ---------------------------------------------------------------------------------------------

  /** The first pos bytes of the buffer c are encrypted, what follows in m is still that of the message. */
  ghost predicate EncryptedUpTo(s: Words, message: seq<bv8>, m: seq<bv8>, c: seq<bv8>, pos: nat) {
    && pos <= |message| <= |m| && |message| <= |c|
    && m[pos..|message|] == message[pos..]
    && Encrypts(s, message[..pos], c[..pos])
  }

  lemma EncryptedMore(s: Words, message: seq<bv8>, c: seq<bv8>, d: seq<bv8>, pos: nat, k: nat)
    requires pos % 64 == 0 && pos + k <= |message| && pos + k <= |c| == |d|
    requires Encrypts(s, message[..pos], c[..pos]) && d[..pos] == c[..pos]
    requires OneBlock(BlockOf(After(s, pos / 64)), message[pos..pos + k], d[pos..pos + k])
    ensures Encrypts(s, message[..pos + k], d[..pos + k])
  {
    hide Encrypts, OneBlock, After, BlockOf;
    OneBlockEncrypts(After(s, pos / 64), message[pos..pos + k], d[pos..pos + k]);
    EncryptsSum(s, message[..pos], message[pos..pos + k], d[..pos], d[pos..pos + k]);
    assert message[..pos + k] == message[..pos] + message[pos..pos + k];
    assert d[..pos + k] == d[..pos] + d[pos..pos + k];
  }

  lemma NothingEncrypted(s: Words, message: seq<bv8>, m: seq<bv8>, c: seq<bv8>)
    requires message <= m && |message| <= |c|
    ensures EncryptedUpTo(s, message, m, c, 0)
    ensures message == [] ==> Encrypts(s, message, [])
  {
    assert m[0..|message|] == message;
  }

  lemma Blocks(pos: nat, k: nat)
    requires pos % 64 == 0 && 0 < k <= 64
    ensures (pos + k + 63) / 64 == (pos + 63) / 64 + 1
    ensures (pos + 63) / 64 == pos / 64
    ensures k == 64 ==> (pos + k) % 64 == 0
  {
  }

  /** The key and the nonce stay. */
  lemma {:induction false} KeepsOthers(s: Words, n: nat)
    ensures forall w :: 0 <= w < 16 && w != 12 && w != 13 ==> After(s, n)[w] == s[w]
  {
    if n > 0 {
      KeepsOthers(s, n - 1);
    }
  }

  /** The part of a block that a shorter message uses. */
  lemma PartOfBlock(x: Words, m: seq<bv8>, c: seq<bv8>, k: nat)
    requires OneBlock(x, m, c) && k <= |m|
    ensures OneBlock(x, m[..k], c[..k])
  {
    hide KeyByte, XorByte;
  }

  lemma SliceOfTail(a: seq<bv8>, k: nat, n: nat, e: nat)
    requires k <= n <= e <= |a|
    ensures a[n..e] == a[k..][n - k..e - k]
  {
  }

  /** Two buffers that agree from place k on agree from n on. */
  lemma ShorterTail(a: seq<bv8>, b: seq<bv8>, k: nat, n: nat, e: nat)
    requires k <= n <= e <= |a| == |b| && a[k..] == b[k..]
    ensures a[n..e] == b[n..e]
  {
    SliceOfTail(a, k, n, e);
    SliceOfTail(b, k, n, e);
  }

  /** A turn of the loop of chacha_encrypt_bytes with fewer than 64 bytes left: they go through a block of their
      own. */
  method AddTail(x: Words, m: array<bv8>, c: array<bv8>, pos: nat, bytes: nat)
    requires pos + bytes <= m.Length && pos + bytes <= c.Length && bytes < 64
    modifies c
    ensures OneBlock(x, old(m[pos..pos + bytes]), c[pos..pos + bytes])
    ensures c[..pos] == old(c[..pos]) && c[pos + bytes..] == old(c[pos + bytes..])
  {
    hide OneBlock;
    ghost var mine := m[pos..pos + bytes];
    var tmp := new bv8[64];
    forall i | 0 <= i < bytes {
      tmp[i] := m[pos + i];
    }
    ghost var padded := tmp[0..64];
    assert padded[..bytes] == mine;
    AddBlock(x, tmp, 0, tmp, 0);
    ghost var out := tmp[0..64];
    assert OneBlock(x, padded, out);
    assert |padded| == 64;
    PartOfBlock(x, padded, out, bytes);
    forall i | 0 <= i < bytes {
      c[pos + i] := tmp[i];
    }
    assert c[pos..pos + bytes] == out[..bytes];
    assert OneBlock(x, mine, c[pos..pos + bytes]);
  }

  /** What is left of the message in the buffer begins with the next block. */
  lemma NextPart(message: seq<bv8>, m: seq<bv8>, pos: nat, k: nat)
    requires pos + k <= |message| <= |m| && m[pos..|message|] == message[pos..]
    ensures m[pos..pos + k] == message[pos..pos + k]
    ensures m[pos + k..|message|] == message[pos + k..]
  {
    var rest := message[pos..];
    assert m[pos..pos + k] == m[pos..|message|][..k];
    assert message[pos..pos + k] == rest[..k];
    assert m[pos + k..|message|] == m[pos..|message|][k..];
    assert message[pos + k..] == rest[k..];
  }

  /** The part of the loop of chacha_encrypt_bytes after the rounds. */
  method Turn(x: Words, m: array<bv8>, c: array<bv8>, pos: nat, left: nat, ghost s: Words, ghost message: seq<bv8>)
    returns (k: nat)
    requires pos % 64 == 0 && pos + left == |message| && |message| <= m.Length && |message| <= c.Length && left > 0
    requires EncryptedUpTo(s, message, m[..], c[..], pos)
    requires x == BlockOf(After(s, pos / 64))
    modifies c
    ensures k == if left < 64 then left else 64
    ensures EncryptedUpTo(s, message, m[..], c[..], pos + k)
    ensures c[|message|..] == old(c[|message|..])
  {
    hide Encrypts, OneBlock, BlockOf, After;
    ghost var m0, c0 := m[..], c[..];
    k := if left < 64 then left else 64;
    NextPart(message, m0, pos, k);
    if left < 64 {
      AddTail(x, m, c, pos, left);
    } else {
      AddBlock(x, m, pos, c, pos);
    }
    assert OneBlock(x, message[pos..pos + k], c[..][pos..pos + k]);
    EncryptedMore(s, message, c0, c[..], pos, k);
    ShorterTail(c0, c[..], pos + k, |message|, c.Length);
    ShorterTail(m0, m[..], pos + k, pos + k, |message|);
  }

  /** chacha_encrypt_bytes; the message and the result may be in the same buffer.  The input is left ready for
      the next block. */
  method EncryptBytes(input: array<bv32>, m: array<bv8>, c: array<bv8>, bytes: nat)
    requires input.Length == 16 && (input as object) != c && bytes <= m.Length && bytes <= c.Length
    modifies input, c
    ensures Encrypts(old(input[..]), old(m[..bytes]), c[..bytes])
    ensures c[bytes..] == old(c[bytes..])
    ensures input[..] == After(old(input[..]), (bytes + 63) / 64)
  {
    hide Encrypts, BlockOf, Next;
    ghost var s, message: seq<bv8> := input[..], m[..bytes];
    NothingEncrypted(s, message, m[..], c[..]);
    if bytes == 0 {
      return;
    }
    var j: Words := input[..];
    var pos, left := 0, bytes;
    while left > 0
      invariant pos + left == bytes && (left > 0 ==> pos % 64 == 0)
      invariant j == After(s, (pos + 63) / 64) && input[..] == s
      invariant EncryptedUpTo(s, message, m[..], c[..], pos)
      invariant c[bytes..] == old(c[bytes..])
      modifies c
    {
      Blocks(pos, if left < 64 then left else 64);
      var x := Block(j);
      j := Next(j);
      var k := Turn(x, m, c, pos, left, s, message);
      pos := pos + k;
      left := left - k;
    }
    AllEncrypted(s, message, m[..], c[..]);
    KeepsOthers(s, (bytes + 63) / 64);
    input[12] := j[12];
    input[13] := j[13];
    assert input[..] == j;
  }

  lemma AllEncrypted(s: Words, message: seq<bv8>, m: seq<bv8>, c: seq<bv8>)
    requires EncryptedUpTo(s, message, m, c, |message|)
    ensures Encrypts(s, message, c[..|message|])
  {
    assert message[..|message|] == message;
  }

  // ---------------------------------------------------------------------------------------------
  // A message in pieces

  /** When every piece but the last consists of complete blocks, encrypting the pieces one after the other is
      encrypting the whole. */
  method EncryptPieces(input: array<bv32>, pieces: seq<seq<bv8>>) returns (c: seq<bv8>)
    requires input.Length == 16
    requires forall i :: 0 <= i < |pieces| - 1 ==> |pieces[i]| % 64 == 0
    modifies input
    ensures Encrypts(old(input[..]), Concat(pieces), c)
    ensures input[..] == After(old(input[..]), (|c| + 63) / 64)
  {
    hide Encrypts, After;
    ghost var s := input[..];
    c := [];
    Empty(s);
    for i := 0 to |pieces|
      invariant i < |pieces| ==> |c| % 64 == 0
      invariant |c| == |Concat(pieces[..i])|
      invariant Encrypts(s, Concat(pieces[..i]), c)
      invariant input[..] == After(s, (|c| + 63) / 64)
    {
      ConcatStep(pieces, i);
      var buffer := new bv8[|pieces[i]|](k requires 0 <= k < |pieces[i]| => pieces[i][k]);
      assert buffer[..|pieces[i]|] == pieces[i];
      EncryptBytes(input, buffer, buffer, |pieces[i]|);
      EncryptsSum(s, Concat(pieces[..i]), pieces[i], c, buffer[..|pieces[i]|]);
      AfterAdds(s, |c| / 64, (|pieces[i]| + 63) / 64);
      Together(|c|, |pieces[i]|);
      c := c + buffer[..|pieces[i]|];
    }
    assert pieces[..|pieces|] == pieces;
  }

  lemma Empty(s: Words)
    ensures Encrypts(s, [], []) && After(s, 0) == s
  {
  }

  lemma Together(n: nat, k: nat)
    requires n % 64 == 0
    ensures (n + 63) / 64 == n / 64
    ensures n / 64 + (k + 63) / 64 == (n + k + 63) / 64
    ensures k % 64 == 0 ==> (n + k) % 64 == 0
  {
    var q, r := n / 64, (k + 63) / 64;
    assert n == 64 * q;
    assert 64 * r <= k + 63 < 64 * r + 64;
    assert 64 * (q + r) <= n + k + 63 < 64 * (q + r) + 64;
  }
}
