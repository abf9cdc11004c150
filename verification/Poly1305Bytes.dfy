/** Bytes in and out of the limbs of poly1305.c: message blocks, the clamped key, and the tag. */
module Poly1305Bytes {
  import opened Poly1305Limbs
  import NatBits

  type Octet = x: nat | x < 256

  /** Byte i as a number. */
  function At(p: seq<Octet>, i: nat): (x: nat)
    requires i < |p|
    ensures x < 256
  {
    p[i]
  }

  /** The little-endian number in a string of bytes (RFC 8439, section 2.5). */
  function Num(b: seq<Octet>): nat {
    if b == [] then 0 else At(b, 0) + 256 * Num(b[1..])
  }

  /** 256^n. */
  function Size(n: nat): (s: nat)
    ensures s > 0
  {
    if n == 0 then 1 else 256 * Size(n - 1)
  }

  lemma {:induction false} NumOfSum(a: seq<Octet>, b: seq<Octet>)
    ensures Num(a + b) == Num(a) + Times(Size(|a|), Num(b))
  {
    hide Times, At;
    if a == [] {
      assert a + b == b;
      TimesOne(Num(b));
    } else {
      assert (a + b)[1..] == a[1..] + b;
      NumOfSum(a[1..], b);
      FirstOfSum(a, b);
      TimesCommutes(Size(|a|), Num(b));
      TimesCommutes(Size(|a| - 1), Num(b));
      TimesScaled(Num(b), 256, Size(|a| - 1));
    }
  }

  lemma TimesOne(x: nat)
    ensures Times(1, x) == x
  {
  }

  lemma FirstOfSum(a: seq<Octet>, b: seq<Octet>)
    requires a != []
    ensures At(a + b, 0) == At(a, 0)
  {
  }

  /** U8TO32 of the four bytes from place o on; the bytes share no bit. */
  function U8to32(p: seq<Octet>, o: nat): nat
    requires o + 4 <= |p|
  {
    At(p, o) + 0x100 * At(p, o + 1) + 0x1_0000 * At(p, o + 2) + 0x100_0000 * At(p, o + 3)
  }

  lemma NumStep(b: seq<Octet>, o: nat)
    requires o < |b|
    ensures Num(b[o..]) == At(b, o) + 256 * Num(b[o + 1..])
  {
    assert b[o..][1..] == b[o + 1..];
  }

  lemma NumOf4(b: seq<Octet>)
    requires |b| == 4
    ensures Num(b) == U8to32(b, 0)
  {
    hide Num;
    NumStep(b, 0);
    NumStep(b, 1);
    NumStep(b, 2);
    NumStep(b, 3);
    NumOfNothing(b[4..]);
    assert b[0..] == b;
  }

  lemma NumOfNothing(b: seq<Octet>)
    requires b == []
    ensures Num(b) == 0
  {
  }

  lemma NumOf16(b: seq<Octet>)
    requires |b| == 16
    ensures Num(b) == U8to32(b, 0) + 0x1_0000_0000 * U8to32(b, 4) + 0x1_0000_0000_0000_0000 * U8to32(b, 8)
         + 0x1_0000_0000_0000_0000_0000_0000 * U8to32(b, 12)
  {
    var b0, b1, b2, b3 := b[..4], b[4..8], b[8..12], b[12..];
    assert b == b0 + (b1 + (b2 + b3));
    NumOfSum(b0, b1 + (b2 + b3));
    NumOfSum(b1, b2 + b3);
    NumOfSum(b2, b3);
    NumOf4(b0);
    NumOf4(b1);
    NumOf4(b2);
    NumOf4(b3);
    SizeOf4();
  }

  lemma SizeOf4()
    ensures Size(4) == 0x1_0000_0000
  {
    assert Size(1) == 256;
    assert Size(2) == 0x1_0000;
    assert Size(3) == 0x100_0000;
  }

  // ---------------------------------------------------------------------------------------------
  // The limbs of a block

  /** The 26-bit fields of 16 bytes, as poly1305_blocks cuts them out. */
  function BlockLimbs(m: seq<Octet>): Limbs
    requires |m| == 16
  {
    Limbs(Low(U8to32(m, 0)), Low(U8to32(m, 3) / 4), Low(U8to32(m, 6) / 16), Low(U8to32(m, 9) / 64), U8to32(m, 12) / 256)
  }

  lemma BlockLimb0(a: nat, b: nat, c: nat, d: nat)
    requires a < 256 && b < 256 && c < 256 && d < 256
    ensures (a + 0x100 * b + 0x1_0000 * c + 0x100_0000 * d) % 0x400_0000
         == a + 0x100 * b + 0x1_0000 * c + 0x100_0000 * (d % 4)
  {
  }

  lemma BlockLimb1(a: nat, b: nat, c: nat, d: nat)
    requires a < 256 && b < 256 && c < 256 && d < 256
    ensures (a + 0x100 * b + 0x1_0000 * c + 0x100_0000 * d) / 4 % 0x400_0000
         == a / 4 + 0x40 * b + 0x4000 * c + 0x40_0000 * (d % 16)
  {
    Shifted1(a, b, c, d);
  }

  lemma BlockLimb2(a: nat, b: nat, c: nat, d: nat)
    requires a < 256 && b < 256 && c < 256 && d < 256
    ensures (a + 0x100 * b + 0x1_0000 * c + 0x100_0000 * d) / 16 % 0x400_0000
         == a / 16 + 0x10 * b + 0x1000 * c + 0x10_0000 * (d % 64)
  {
    Shifted2(a, b, c, d);
  }

  lemma BlockLimb3(a: nat, b: nat, c: nat, d: nat)
    requires a < 256 && b < 256 && c < 256 && d < 256
    ensures (a + 0x100 * b + 0x1_0000 * c + 0x100_0000 * d) / 64 % 0x400_0000
         == a / 64 + 0x4 * b + 0x400 * c + 0x4_0000 * d
  {
    Shifted3(a, b, c, d);
  }

  lemma BlockLimb4(a: nat, b: nat, c: nat, d: nat)
    requires a < 256 && b < 256 && c < 256 && d < 256
    ensures (a + 0x100 * b + 0x1_0000 * c + 0x100_0000 * d) / 256 == b + 0x100 * c + 0x1_0000 * d
  {
  }

  /** The fields, spelled out. */
  lemma BlockFields(m: seq<Octet>)
    requires |m| == 16
    ensures BlockLimbs(m) == Limbs(At(m, 0) + 0x100 * At(m, 1) + 0x1_0000 * At(m, 2) + 0x100_0000 * (At(m, 3) % 4),
                                   At(m, 3) / 4 + 0x40 * At(m, 4) + 0x4000 * At(m, 5) + 0x40_0000 * (At(m, 6) % 16),
                                   At(m, 6) / 16 + 0x10 * At(m, 7) + 0x1000 * At(m, 8) + 0x10_0000 * (At(m, 9) % 64),
                                   At(m, 9) / 64 + 0x4 * At(m, 10) + 0x400 * At(m, 11) + 0x4_0000 * At(m, 12),
                                   At(m, 13) + 0x100 * At(m, 14) + 0x1_0000 * At(m, 15))
  {
    hide At;
    BlockLimb0(At(m, 0), At(m, 1), At(m, 2), At(m, 3));
    BlockLimb1(At(m, 3), At(m, 4), At(m, 5), At(m, 6));
    BlockLimb2(At(m, 6), At(m, 7), At(m, 8), At(m, 9));
    BlockLimb3(At(m, 9), At(m, 10), At(m, 11), At(m, 12));
    BlockLimb4(At(m, 12), At(m, 13), At(m, 14), At(m, 15));
  }

  /** The fields are those of the block's number. */
  lemma BlockValue(m: seq<Octet>)
    requires |m| == 16
    ensures Value(BlockLimbs(m)) == Num(m) && Small(BlockLimbs(m)) && BlockLimbs(m).l4 < 0x100_0000
  {
    hide BlockLimbs, Num;
    BlockFields(m);
    NumOf16(m);
  }

  // ---------------------------------------------------------------------------------------------
  // The clamped key

  /** RFC 8439, section 2.5: the top four bits of bytes 3, 7, 11 and 15 are cleared, and the bottom two of
      bytes 4, 8 and 12. */
  function Clamped(key: seq<Octet>): (r: seq<Octet>)
    requires |key| == 16
    ensures |r| == 16
  {
    [key[0], key[1], key[2], key[3] % 16, key[4] - key[4] % 4, key[5], key[6], key[7] % 16,
     key[8] - key[8] % 4, key[9], key[10], key[11] % 16, key[12] - key[12] % 4, key[13], key[14], key[15] % 16]
  }

  /** The masked fields of poly1305_init. */
  function KeyLimbs(key: seq<Octet>): Limbs
    requires |key| >= 16
  {
    Limbs(NatBits.And(U8to32(key, 0), 0x3ff_ffff), NatBits.And(U8to32(key, 3) / 4, 0x3ff_ff03),
          NatBits.And(U8to32(key, 6) / 16, 0x3ff_c0ff), NatBits.And(U8to32(key, 9) / 64, 0x3f0_3fff),
          NatBits.And(U8to32(key, 12) / 256, 0xf_ffff))
  }

  lemma Mask0(x: nat)
    ensures NatBits.And(x, 0x3ff_ffff) == x % 0x400_0000
    ensures NatBits.And(x, 0xf_ffff) == x % 0x10_0000
  {
    hide NatBits.And, NatBits.Pow2;
    NatBits.Powers();
    NatBits.AndOnes(x, 26);
    NatBits.AndOnes(x, 20);
  }

  /** A mask in two parts: q below bit k, and o from bit k on. */
  lemma TwoParts(x: nat, k: nat, q: nat, o: nat)
    requires q < NatBits.Pow2(k)
    ensures NatBits.And(x, q + NatBits.Pow2(k) * o)
         == NatBits.And(NatBits.Low(x, NatBits.Pow2(k)), q)
          + NatBits.Pow2(k) * NatBits.And(NatBits.High(x, NatBits.Pow2(k)), o)
  {
    hide NatBits.And, NatBits.Low, NatBits.High, NatBits.Pow2;
    NatBits.Unique(q + NatBits.Pow2(k) * o, NatBits.Pow2(k), o, q);
    NatBits.AndSplit(x, q + NatBits.Pow2(k) * o, k);
  }

  /** A mask with two runs of ones: a has l of them, at the bottom, and b has h of them, from bit k on. */
  lemma TwoRuns(x: nat, k: nat, l: nat, a: nat, h: nat, b: nat)
    requires l < k && a + 1 == NatBits.Pow2(l) && b + 1 == NatBits.Pow2(h)
    ensures NatBits.And(x, a + NatBits.Pow2(k) * b)
         == NatBits.Low(NatBits.Low(x, NatBits.Pow2(k)), NatBits.Pow2(l))
          + NatBits.Pow2(k) * NatBits.Low(NatBits.High(x, NatBits.Pow2(k)), NatBits.Pow2(h))
  {
    hide NatBits.And, NatBits.Low, NatBits.High, NatBits.Pow2;
    Pow2Grows(l, k);
    TwoParts(x, k, a, b);
    NatBits.AndOnes(NatBits.Low(x, NatBits.Pow2(k)), l);
    NatBits.AndOnes(NatBits.High(x, NatBits.Pow2(k)), h);
  }

  lemma {:induction false} Pow2Grows(j: nat, k: nat)
    requires j < k
    ensures NatBits.Pow2(j) < NatBits.Pow2(k)
  {
    if j + 1 < k {
      Pow2Grows(j, k - 1);
    }
  }

  lemma SmallPowers()
    ensures NatBits.Pow2(2) == 4 && NatBits.Pow2(6) == 0x40 && NatBits.Pow2(12) == 0x1000
  {
    assert NatBits.Pow2(1) == 2;
    assert NatBits.Pow2(3) == 8;
    assert NatBits.Pow2(5) == 0x20;
    NatBits.Pow2Adds(6, 6);
  }

  lemma Mask1(x: nat)
    ensures NatBits.And(x, 0x3ff_ff03) == x % 4 + 0x100 * (x / 0x100 % 0x4_0000)
  {
    hide NatBits.And, NatBits.Pow2;
    NatBits.Powers();
    SmallPowers();
    TwoRuns(x, 8, 2, 3, 18, 0x3_ffff);
  }

  lemma Mask2(x: nat)
    ensures NatBits.And(x, 0x3ff_c0ff) == x % 0x100 + 0x4000 * (x / 0x4000 % 0x1000)
  {
    hide NatBits.And, NatBits.Pow2;
    NatBits.Powers();
    SmallPowers();
    TwoRuns(x, 14, 8, 0xff, 12, 0xfff);
  }

  lemma Mask3(x: nat)
    ensures NatBits.And(x, 0x3f0_3fff) == x % 0x4000 + 0x10_0000 * (x / 0x10_0000 % 0x40)
  {
    hide NatBits.And, NatBits.Pow2;
    NatBits.Powers();
    SmallPowers();
    TwoRuns(x, 20, 14, 0x3fff, 6, 0x3f);
  }

  lemma Above1(p: nat, b: nat, c: nat, d: nat)
    requires p < 0x40 && b < 256 && c < 256 && d < 256
    ensures (p + 0x40 * b + 0x4000 * c + 0x40_0000 * d) / 0x100 % 0x4_0000 == b / 4 + 0x40 * c + 0x4000 * (d % 16)
  {
    assert (p + 0x40 * b + 0x4000 * c + 0x40_0000 * d) / 0x100 == b / 4 + 0x40 * c + 0x4000 * d;
  }

  lemma Above2(p: nat, c: nat, d: nat)
    requires p < 0x1000 && c < 256 && d < 256
    ensures (p + 0x1000 * c + 0x10_0000 * d) / 0x4000 % 0x1000 == c / 4 + 0x40 * (d % 64)
  {
    assert (p + 0x1000 * c + 0x10_0000 * d) / 0x4000 == c / 4 + 0x40 * d;
  }

  lemma Above3(p: nat, d: nat)
    requires p < 0x4_0000 && d < 256
    ensures (p + 0x4_0000 * d) / 0x10_0000 % 0x40 == d / 4
  {
  }

  lemma Parts(x: nat, k: nat)
    requires k > 0
    ensures x == k * (x / k) + x % k
  {
  }

  lemma Remainder(r: nat, q: nat, k: nat)
    requires r < k
    ensures (r + k * q) % k == r
  {
    NatBits.Unique(r + k * q, k, q, r);
  }

  lemma SixteenThenFour(x: nat)
    ensures x % 16 % 4 == x % 4
  {
  }

  lemma FourTimes(b: nat)
    ensures b - b % 4 == 4 * (b / 4)
  {
  }

  lemma Shifted1(a: nat, b: nat, c: nat, d: nat)
    requires a < 256 && b < 256 && c < 256 && d < 256
    ensures (a + 0x100 * b + 0x1_0000 * c + 0x100_0000 * d) / 4 == a / 4 + 0x40 * b + 0x4000 * c + 0x40_0000 * d
  {
  }

  lemma Below1(a: nat, b: nat, c: nat, d: nat)
    requires a < 256 && b < 256 && c < 256 && d < 256
    ensures (a / 4 + 0x40 * b + 0x4000 * c + 0x40_0000 * d) % 4 == a % 16 / 4
  {
    Parts(a, 16);
    Remainder(a % 16 / 4, a / 16 + 0x10 * b + 0x1000 * c + 0x10_0000 * d, 4);
    assert a / 4 == 4 * (a / 16) + a % 16 / 4;
  }

  lemma Shifted2(a: nat, b: nat, c: nat, d: nat)
    requires a < 256 && b < 256 && c < 256 && d < 256
    ensures (a + 0x100 * b + 0x1_0000 * c + 0x100_0000 * d) / 16 == a / 16 + 0x10 * b + 0x1000 * c + 0x10_0000 * d
  {
  }

  lemma Below2(a: nat, b: nat, c: nat, d: nat)
    requires a < 256 && b < 256 && c < 256 && d < 256
    ensures (a / 16 + 0x10 * b + 0x1000 * c + 0x10_0000 * d) % 0x100 == a / 16 + 0x10 * (b % 16)
  {
    Parts(b, 16);
    Remainder(a / 16 + 0x10 * (b % 16), b / 16 + 0x10 * c + 0x1000 * d, 0x100);
  }

  lemma Shifted3(a: nat, b: nat, c: nat, d: nat)
    requires a < 256 && b < 256 && c < 256 && d < 256
    ensures (a + 0x100 * b + 0x1_0000 * c + 0x100_0000 * d) / 64 == a / 64 + 0x4 * b + 0x400 * c + 0x4_0000 * d
  {
  }

  lemma Below3(a: nat, b: nat, c: nat, d: nat)
    requires a < 256 && b < 256 && c < 256 && d < 256
    ensures (a / 64 + 0x4 * b + 0x400 * c + 0x4_0000 * d) % 0x4000 == a / 64 + 0x4 * b + 0x400 * (c % 16)
  {
    Parts(c, 16);
    Remainder(a / 64 + 0x4 * b + 0x400 * (c % 16), c / 16 + 0x10 * d, 0x4000);
  }

  lemma KeyLimb0(a: nat, b: nat, c: nat, d: nat)
    requires a < 256 && b < 256 && c < 256 && d < 256
    ensures NatBits.And(a + 0x100 * b + 0x1_0000 * c + 0x100_0000 * d, 0x3ff_ffff)
         == a + 0x100 * b + 0x1_0000 * c + 0x100_0000 * (d % 16 % 4)
  {
    hide NatBits.And;
    Parts(d, 4);
    SixteenThenFour(d);
    Mask0(a + 0x100 * b + 0x1_0000 * c + 0x100_0000 * d);
    Remainder(a + 0x100 * b + 0x1_0000 * c + 0x100_0000 * (d % 4), d / 4, 0x400_0000);
  }

  lemma KeyLimb1(a: nat, b: nat, c: nat, d: nat)
    requires a < 256 && b < 256 && c < 256 && d < 256
    ensures NatBits.And((a + 0x100 * b + 0x1_0000 * c + 0x100_0000 * d) / 4, 0x3ff_ff03)
         == a % 16 / 4 + 0x40 * (b - b % 4) + 0x4000 * c + 0x40_0000 * (d % 16)
  {
    hide NatBits.And;
    var x := a / 4 + 0x40 * b + 0x4000 * c + 0x40_0000 * d;
    var lo := a % 16 / 4;
    var hi := b / 4 + 0x40 * c + 0x4000 * (d % 16);
    assert NatBits.And(x, 0x3ff_ff03) == lo + 0x100 * hi by {
      Mask1(x);
      Below1(a, b, c, d);
      Above1(a / 4, b, c, d);
    }
    Shifted1(a, b, c, d);
    FourTimes(b);
  }

  lemma KeyLimb2(a: nat, b: nat, c: nat, d: nat)
    requires a < 256 && b < 256 && c < 256 && d < 256
    ensures NatBits.And((a + 0x100 * b + 0x1_0000 * c + 0x100_0000 * d) / 16, 0x3ff_c0ff)
         == a / 16 + 0x10 * (b % 16) + 0x1000 * (c - c % 4) + 0x10_0000 * (d % 64)
  {
    hide NatBits.And;
    var x := a / 16 + 0x10 * b + 0x1000 * c + 0x10_0000 * d;
    var lo := a / 16 + 0x10 * (b % 16);
    var hi := c / 4 + 0x40 * (d % 64);
    assert NatBits.And(x, 0x3ff_c0ff) == lo + 0x4000 * hi by {
      Mask2(x);
      Below2(a, b, c, d);
      Above2(a / 16 + 0x10 * b, c, d);
    }
    Shifted2(a, b, c, d);
    FourTimes(c);
  }

  lemma KeyLimb3(a: nat, b: nat, c: nat, d: nat)
    requires a < 256 && b < 256 && c < 256 && d < 256
    ensures NatBits.And((a + 0x100 * b + 0x1_0000 * c + 0x100_0000 * d) / 64, 0x3f0_3fff)
         == a / 64 + 0x4 * b + 0x400 * (c % 16) + 0x4_0000 * (d - d % 4)
  {
    hide NatBits.And;
    var x := a / 64 + 0x4 * b + 0x400 * c + 0x4_0000 * d;
    var lo := a / 64 + 0x4 * b + 0x400 * (c % 16);
    var hi := d / 4;
    assert NatBits.And(x, 0x3f0_3fff) == lo + 0x10_0000 * hi by {
      Mask3(x);
      Below3(a, b, c, d);
      Above3(a / 64 + 0x4 * b + 0x400 * c, d);
    }
    Shifted3(a, b, c, d);
    FourTimes(d);
  }

  lemma KeyLimb4(a: nat, b: nat, c: nat, d: nat)
    requires a < 256 && b < 256 && c < 256 && d < 256
    ensures NatBits.And((a + 0x100 * b + 0x1_0000 * c + 0x100_0000 * d) / 256, 0xf_ffff)
         == b + 0x100 * c + 0x1_0000 * (d % 16)
  {
    hide NatBits.And;
    var x := b + 0x100 * c + 0x1_0000 * d;
    BlockLimb4(a, b, c, d);
    Mask0(x);
    Parts(d, 16);
    Remainder(b + 0x100 * c + 0x1_0000 * (d % 16), d / 16, 0x10_0000);
  }

  /** The masks of poly1305_init cut the fields out of the clamped key. */
  lemma KeyLimbsAreClamped(key: seq<Octet>)
    requires |key| == 16
    ensures KeyLimbs(key) == BlockLimbs(Clamped(key))
  {
    hide NatBits.And, BlockLimbs;
    BlockFields(Clamped(key));
    KeyLimb0(At(key, 0), At(key, 1), At(key, 2), At(key, 3));
    KeyLimb1(At(key, 3), At(key, 4), At(key, 5), At(key, 6));
    KeyLimb2(At(key, 6), At(key, 7), At(key, 8), At(key, 9));
    KeyLimb3(At(key, 9), At(key, 10), At(key, 11), At(key, 12));
    KeyLimb4(At(key, 12), At(key, 13), At(key, 14), At(key, 15));
  }

  // ---------------------------------------------------------------------------------------------
  // The tag

  /** (a | b << k) & 0xffffffff, p being 2^k. */
  function Packed(a: nat, b: nat, p: nat): nat {
    NatBits.And(NatBits.Or(a, p * b), 0xffff_ffff)
  }

  /** h modulo 2^128 in four words of 32 bits. */
  function TagWords(h: Limbs): (nat, nat, nat, nat) {
    (Packed(h.l0, h.l1, 0x400_0000), Packed(h.l1 / 0x40, h.l2, 0x10_0000), Packed(h.l2 / 0x1000, h.l3, 0x4000),
     Packed(h.l3 / 0x4_0000, h.l4, 0x100))
  }

  lemma PackedIs(a: nat, b: nat, k: nat)
    requires a < NatBits.Pow2(k)
    ensures Packed(a, b, NatBits.Pow2(k)) == (a + NatBits.Pow2(k) * b) % 0x1_0000_0000
  {
    hide NatBits.And, NatBits.Or, NatBits.Pow2;
    NatBits.Powers();
    NatBits.OrShifted(a, b, k);
    NatBits.AndOnes(a + NatBits.Pow2(k) * b, 32);
  }

  lemma PackedWord(a: nat, b: nat, p: nat, q: nat)
    requires a < p && p * q == 0x1_0000_0000
    ensures (a + p * b) % 0x1_0000_0000 == a + p * NatBits.Low(b, q)
  {
    var c, d := b / q, b % q;
    assert b == q * c + d;
    Regroup(p, q, c, d);
    Under(p, a, d, q);
    NatBits.Unique(a + p * b, 0x1_0000_0000, NatBits.High(b, q), a + p * d);
  }

  lemma Regroup(p: nat, q: nat, c: nat, d: nat)
    ensures p * (q * c + d) == p * q * c + p * d
  {
  }

  lemma Under(p: nat, a: nat, d: nat, q: nat)
    requires a < p && d < q
    ensures a + p * d < p * q
  {
    assert p * q == p * d + p * (q - d);
    NatBits.AtLeastOnce(p, q - d);
  }

  lemma TagWord(a: nat, b: nat, k: nat, q: nat)
    requires a < NatBits.Pow2(k) && NatBits.Pow2(k) * q == 0x1_0000_0000
    ensures Packed(a, b, NatBits.Pow2(k)) == a + NatBits.Pow2(k) * NatBits.Low(b, q)
  {
    hide Packed, NatBits.Pow2, NatBits.Low;
    PackedIs(a, b, k);
    PackedWord(a, b, NatBits.Pow2(k), q);
  }

  lemma TagWordsAre(h: Limbs)
    requires Small(h)
    ensures TagWords(h) == (h.l0 + 0x400_0000 * (h.l1 % 0x40), h.l1 / 0x40 + 0x10_0000 * (h.l2 % 0x1000),
                            h.l2 / 0x1000 + 0x4000 * (h.l3 % 0x4_0000), h.l3 / 0x4_0000 + 0x100 * (h.l4 % 0x100_0000))
  {
    hide Packed, NatBits.Pow2;
    NatBits.Powers();
    TagWord(h.l0, h.l1, 26, 0x40);
    TagWord(h.l1 / 0x40, h.l2, 20, 0x1000);
    TagWord(h.l2 / 0x1000, h.l3, 14, 0x4_0000);
    TagWord(h.l3 / 0x4_0000, h.l4, 8, 0x100_0000);
  }

  /** The number in four words of 32 bits. */
  function WordsValue(w: (nat, nat, nat, nat)): nat {
    w.0 + 0x1_0000_0000 * w.1 + 0x1_0000_0000_0000_0000 * w.2 + 0x1_0000_0000_0000_0000_0000_0000 * w.3
  }

  ghost predicate Word32s(w: (nat, nat, nat, nat)) {
    w.0 < 0x1_0000_0000 && w.1 < 0x1_0000_0000 && w.2 < 0x1_0000_0000 && w.3 < 0x1_0000_0000
  }

  lemma TagWordsValue(h: Limbs)
    requires Small(h)
    ensures WordsValue(TagWords(h)) == Value(h) % 0x1_0000_0000_0000_0000_0000_0000_0000_0000
    ensures Word32s(TagWords(h))
  {
    hide TagWords, NatBits.High, NatBits.Low;
    TagWordsAre(h);
    var w := TagWords(h);
    var q := h.l4 / 0x100_0000;
    assert Value(h) == WordsValue(w) + 0x1_0000_0000_0000_0000_0000_0000_0000_0000 * q;
    NatBits.Unique(Value(h), 0x1_0000_0000_0000_0000_0000_0000_0000_0000, q, WordsValue(w));
    ModIsLow(Value(h));
  }

  lemma ModIsLow(x: nat)
    ensures NatBits.Low(x, 0x1_0000_0000_0000_0000_0000_0000_0000_0000)
         == x % 0x1_0000_0000_0000_0000_0000_0000_0000_0000
  {
  }

  /** x & 0xffffffff, and x >> 32. */
  function Low32(x: nat): nat {
    x % 0x1_0000_0000
  }

  function High32(x: nat): nat {
    x / 0x1_0000_0000
  }

  lemma Cut32(x: nat)
    ensures x == 0x1_0000_0000 * High32(x) + Low32(x) && Low32(x) < 0x1_0000_0000
  {
  }

  /** h + pad with the carries between the words; each word keeps its carry. */
  function PadAdded(w: (nat, nat, nat, nat), pad: (nat, nat, nat, nat)): (nat, nat, nat, nat) {
    var f0 := U64(w.0 + pad.0);
    var f1 := U64(w.1 + pad.1 + High32(f0));
    var f2 := U64(w.2 + pad.2 + High32(f1));
    var f3 := U64(w.3 + pad.3 + High32(f2));
    (f0, f1, f2, f3)
  }

  function LowWords(f: (nat, nat, nat, nat)): (nat, nat, nat, nat) {
    (Low32(f.0), Low32(f.1), Low32(f.2), Low32(f.3))
  }

  /** U32TO8. */
  function U32to8(v: nat): (b: seq<Octet>)
    ensures |b| == 4
  {
    [v % 0x100, v / 0x100 % 0x100, v / 0x1_0000 % 0x100, v / 0x100_0000 % 0x100]
  }

  lemma NumOfU32(v: nat)
    ensures Num(U32to8(v)) == Low32(v)
  {
    hide Num;
    NumOf4(U32to8(v));
    BytesOfU32(v, v / 0x100, v / 0x1_0000, v / 0x100_0000, v / 0x1_0000_0000);
  }

  lemma BytesOfU32(v: nat, a: nat, b: nat, c: nat, q: nat)
    requires a == v / 0x100 && b == v / 0x1_0000 && c == v / 0x100_0000 && q == v / 0x1_0000_0000
    ensures Low32(v) == v % 0x100 + 0x100 * (a % 0x100) + 0x1_0000 * (b % 0x100) + 0x100_0000 * (c % 0x100)
  {
    assert b == a / 0x100 && c == b / 0x100 && q == c / 0x100;
    Parts(v, 0x100);
    Parts(a, 0x100);
    Parts(b, 0x100);
    Parts(c, 0x100);
    Parts(v, 0x1_0000_0000);
  }

  function TagBytes(f: (nat, nat, nat, nat)): (b: seq<Octet>)
    ensures |b| == 16
  {
    U32to8(f.0) + U32to8(f.1) + U32to8(f.2) + U32to8(f.3)
  }

  lemma NumOfTag(f: (nat, nat, nat, nat))
    ensures Num(TagBytes(f)) == WordsValue(LowWords(f))
  {
    hide Num, U32to8, Low32;
    var b0, b1, b2, b3 := U32to8(f.0), U32to8(f.1), U32to8(f.2), U32to8(f.3);
    var b := TagBytes(f);
    NumOf16(b);
    SameU32(b, 0, b0);
    SameU32(b, 4, b1);
    SameU32(b, 8, b2);
    SameU32(b, 12, b3);
    NumOfU32(f.0);
    NumOfU32(f.1);
    NumOfU32(f.2);
    NumOfU32(f.3);
  }

  lemma SameU32(b: seq<Octet>, o: nat, part: seq<Octet>)
    requires |part| == 4 && o + 4 <= |b| && b[o..o + 4] == part
    ensures U8to32(b, o) == Num(part)
  {
    hide Num;
    NumOf4(part);
    assert b[o..o + 4][0] == part[0] && b[o..o + 4][1] == part[1];
    assert b[o..o + 4][2] == part[2] && b[o..o + 4][3] == part[3];
  }

  lemma CarriesAdd(w: (nat, nat, nat, nat), pad: (nat, nat, nat, nat), low: (nat, nat, nat, nat),
                   high: (nat, nat, nat, nat))
    requires Word32s(low)
    requires w.0 + pad.0 == 0x1_0000_0000 * high.0 + low.0
    requires w.1 + pad.1 + high.0 == 0x1_0000_0000 * high.1 + low.1
    requires w.2 + pad.2 + high.1 == 0x1_0000_0000 * high.2 + low.2
    requires w.3 + pad.3 + high.2 == 0x1_0000_0000 * high.3 + low.3
    ensures WordsValue(w) + WordsValue(pad)
         == WordsValue(low) + 0x1_0000_0000_0000_0000_0000_0000_0000_0000 * high.3
    ensures WordsValue(low) < 0x1_0000_0000_0000_0000_0000_0000_0000_0000
  {
  }

  lemma PadAddedValue(w: (nat, nat, nat, nat), pad: (nat, nat, nat, nat))
    requires Word32s(w) && Word32s(pad)
    ensures WordsValue(LowWords(PadAdded(w, pad)))
         == (WordsValue(w) + WordsValue(pad)) % 0x1_0000_0000_0000_0000_0000_0000_0000_0000
  {
    hide U64, Low32, High32, NatBits.High, NatBits.Low;
    var f0 := w.0 + pad.0;
    Fits(f0);
    Cut32(f0);
    var f1 := w.1 + pad.1 + High32(f0);
    Fits(f1);
    Cut32(f1);
    var f2 := w.2 + pad.2 + High32(f1);
    Fits(f2);
    Cut32(f2);
    var f3 := w.3 + pad.3 + High32(f2);
    Fits(f3);
    Cut32(f3);
    var low := (Low32(f0), Low32(f1), Low32(f2), Low32(f3));
    assert LowWords(PadAdded(w, pad)) == low;
    var v := WordsValue(low);
    CarriesAdd(w, pad, low, (High32(f0), High32(f1), High32(f2), High32(f3)));
    hide WordsValue, PadAdded, LowWords;
    NatBits.Unique(WordsValue(w) + WordsValue(pad), 0x1_0000_0000_0000_0000_0000_0000_0000_0000, High32(f3), v);
    ModIsLow(WordsValue(w) + WordsValue(pad));
  }
}
