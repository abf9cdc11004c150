/** SHA-256 as FIPS 180-4 states it: the functions of section 4.1.2, the padding of section 5.1.1 and the hash of
    section 6.2. */
module Sha256 {
  import opened BigEndian
  import opened Words

  datatype Regs = Regs(a: bv32, b: bv32, c: bv32, d: bv32, e: bv32, f: bv32, g: bv32, h: bv32)

  /** The 64 constants, eight to a row. */
  const K256: seq<seq<bv32>> := [
    [0x428a2f98, 0x71374491, 0xb5c0fbcf, 0xe9b5dba5, 0x3956c25b, 0x59f111f1, 0x923f82a4, 0xab1c5ed5],
    [0xd807aa98, 0x12835b01, 0x243185be, 0x550c7dc3, 0x72be5d74, 0x80deb1fe, 0x9bdc06a7, 0xc19bf174],
    [0xe49b69c1, 0xefbe4786, 0x0fc19dc6, 0x240ca1cc, 0x2de92c6f, 0x4a7484aa, 0x5cb0a9dc, 0x76f988da],
    [0x983e5152, 0xa831c66d, 0xb00327c8, 0xbf597fc7, 0xc6e00bf3, 0xd5a79147, 0x06ca6351, 0x14292967],
    [0x27b70a85, 0x2e1b2138, 0x4d2c6dfc, 0x53380d13, 0x650a7354, 0x766a0abb, 0x81c2c92e, 0x92722c85],
    [0xa2bfe8a1, 0xa81a664b, 0xc24b8b70, 0xc76c51a3, 0xd192e819, 0xd6990624, 0xf40e3585, 0x106aa070],
    [0x19a4c116, 0x1e376c08, 0x2748774c, 0x34b0bcb5, 0x391c0cb3, 0x4ed8aa4a, 0x5b9cca4f, 0x682e6ff3],
    [0x748f82ee, 0x78a5636f, 0x84c87814, 0x8cc70208, 0x90befffa, 0xa4506ceb, 0xbef9a3f7, 0xc67178f2]]

  function K(t: nat): bv32
    requires t < 64
  {
    K256[t / 8][t % 8]
  }

  const INITIAL: Regs :=
    Regs(0x6a09e667, 0xbb67ae85, 0x3c6ef372, 0xa54ff53a, 0x510e527f, 0x9b05688c, 0x1f83d9ab, 0x5be0cd19)

  function Rotr2(x: bv32): bv32 { (x >> 2) | (x << 30) }
  function Rotr6(x: bv32): bv32 { (x >> 6) | (x << 26) }
  function Rotr7(x: bv32): bv32 { (x >> 7) | (x << 25) }
  function Rotr11(x: bv32): bv32 { (x >> 11) | (x << 21) }
  function Rotr13(x: bv32): bv32 { (x >> 13) | (x << 19) }
  function Rotr17(x: bv32): bv32 { (x >> 17) | (x << 15) }
  function Rotr18(x: bv32): bv32 { (x >> 18) | (x << 14) }
  function Rotr19(x: bv32): bv32 { (x >> 19) | (x << 13) }
  function Rotr22(x: bv32): bv32 { (x >> 22) | (x << 10) }
  function Rotr25(x: bv32): bv32 { (x >> 25) | (x << 7) }

  function Shr3(x: bv32): bv32 { x >> 3 }
  function Shr10(x: bv32): bv32 { x >> 10 }

  function Ch(x: bv32, y: bv32, z: bv32): bv32 {
    Xor(And(x, y), And(Not(x), z))
  }

  function Maj(x: bv32, y: bv32, z: bv32): bv32 {
    Xor(Xor(And(x, y), And(x, z)), And(y, z))
  }

  function BigSigma0(x: bv32): bv32 {
    Xor(Xor(Rotr2(x), Rotr13(x)), Rotr22(x))
  }

  function BigSigma1(x: bv32): bv32 {
    Xor(Xor(Rotr6(x), Rotr11(x)), Rotr25(x))
  }

  function SmallSigma0(x: bv32): bv32 {
    Xor(Xor(Rotr7(x), Rotr18(x)), Shr3(x))
  }

  function SmallSigma1(x: bv32): bv32 {
    Xor(Xor(Rotr17(x), Rotr19(x)), Shr10(x))
  }

  /** Addition modulo 2^32. */
  function Plus(x: bv32, y: bv32): bv32 {
    x + y
  }

  // ---------------------------------------------------------------------------------------------
  // What the functions do to single bits

  /** Bits of y are chosen where x has a one, bits of z elsewhere. */
  lemma ChBit(x: bv32, y: bv32, z: bv32, k: bv32)
    requires k < 32
    ensures Bit(Ch(x, y, z), k) == if Bit(x, k) then Bit(y, k) else Bit(z, k)
  {
    hide Bit, Xor, And, Not;
    XorBit(And(x, y), And(Not(x), z), k);
    AndBit(x, y, k);
    AndBit(Not(x), z, k);
    NotBit(x, k);
  }

  /** The value that at least two of the three bits have. */
  lemma MajBit(x: bv32, y: bv32, z: bv32, k: bv32)
    requires k < 32
    ensures Bit(Maj(x, y, z), k) == if Bit(x, k) == Bit(y, k) then Bit(x, k) else Bit(z, k)
  {
    hide Bit, Xor, And;
    XorBit(Xor(And(x, y), And(x, z)), And(y, z), k);
    XorBit(And(x, y), And(x, z), k);
    AndBit(x, y, k);
    AndBit(x, z, k);
    AndBit(y, z, k);
  }

  lemma Rotr2Bit(x: bv32, k: bv32)
    requires k < 32
    ensures Bit(Rotr2(x), k) == Bit(x, Above(k, 2))
  {
  }

  lemma Rotr6Bit(x: bv32, k: bv32)
    requires k < 32
    ensures Bit(Rotr6(x), k) == Bit(x, Above(k, 6))
  {
  }

  lemma Rotr7Bit(x: bv32, k: bv32)
    requires k < 32
    ensures Bit(Rotr7(x), k) == Bit(x, Above(k, 7))
  {
  }

  lemma Rotr11Bit(x: bv32, k: bv32)
    requires k < 32
    ensures Bit(Rotr11(x), k) == Bit(x, Above(k, 11))
  {
  }

  lemma Rotr13Bit(x: bv32, k: bv32)
    requires k < 32
    ensures Bit(Rotr13(x), k) == Bit(x, Above(k, 13))
  {
  }

  lemma Rotr17Bit(x: bv32, k: bv32)
    requires k < 32
    ensures Bit(Rotr17(x), k) == Bit(x, Above(k, 17))
  {
  }

  lemma Rotr18Bit(x: bv32, k: bv32)
    requires k < 32
    ensures Bit(Rotr18(x), k) == Bit(x, Above(k, 18))
  {
  }

  lemma Rotr19Bit(x: bv32, k: bv32)
    requires k < 32
    ensures Bit(Rotr19(x), k) == Bit(x, Above(k, 19))
  {
  }

  lemma Rotr22Bit(x: bv32, k: bv32)
    requires k < 32
    ensures Bit(Rotr22(x), k) == Bit(x, Above(k, 22))
  {
  }

  lemma Rotr25Bit(x: bv32, k: bv32)
    requires k < 32
    ensures Bit(Rotr25(x), k) == Bit(x, Above(k, 25))
  {
  }

  lemma Shr3Bit(x: bv32, k: bv32)
    requires k < 32
    ensures Bit(Shr3(x), k) == (k < 29 && Bit(x, Above(k, 3)))
  {
  }

  lemma Shr10Bit(x: bv32, k: bv32)
    requires k < 32
    ensures Bit(Shr10(x), k) == (k < 22 && Bit(x, Above(k, 10)))
  {
  }

  lemma SumBit(a: bv32, b: bv32, c: bv32, k: bv32)
    requires k < 32
    ensures Bit(Xor(Xor(a, b), c), k) == ((Bit(a, k) != Bit(b, k)) != Bit(c, k))
  {
    hide Bit, Xor;
    XorBit(a, b, k);
    XorBit(Xor(a, b), c, k);
  }

  lemma BigSigma0Bit(x: bv32, k: bv32)
    requires k < 32
    ensures Bit(BigSigma0(x), k) == ((Bit(x, Above(k, 2)) != Bit(x, Above(k, 13))) != Bit(x, Above(k, 22)))
  {
    hide Bit, Xor, Above, Rotr2, Rotr13, Rotr22;
    Rotr2Bit(x, k);
    Rotr13Bit(x, k);
    Rotr22Bit(x, k);
    SumBit(Rotr2(x), Rotr13(x), Rotr22(x), k);
  }

  lemma BigSigma1Bit(x: bv32, k: bv32)
    requires k < 32
    ensures Bit(BigSigma1(x), k) == ((Bit(x, Above(k, 6)) != Bit(x, Above(k, 11))) != Bit(x, Above(k, 25)))
  {
    hide Bit, Xor, Above, Rotr6, Rotr11, Rotr25;
    Rotr6Bit(x, k);
    Rotr11Bit(x, k);
    Rotr25Bit(x, k);
    SumBit(Rotr6(x), Rotr11(x), Rotr25(x), k);
  }

  lemma SmallSigma0Bit(x: bv32, k: bv32)
    requires k < 32
    ensures Bit(SmallSigma0(x), k) == (
      (Bit(x, Above(k, 7)) != Bit(x, Above(k, 18))) != (k < 29 && Bit(x, Above(k, 3))))
  {
    hide Bit, Xor, Above, Rotr7, Rotr18, Shr3;
    Rotr7Bit(x, k);
    Rotr18Bit(x, k);
    Shr3Bit(x, k);
    SumBit(Rotr7(x), Rotr18(x), Shr3(x), k);
  }

  lemma SmallSigma1Bit(x: bv32, k: bv32)
    requires k < 32
    ensures Bit(SmallSigma1(x), k) == (
      (Bit(x, Above(k, 17)) != Bit(x, Above(k, 19))) != (k < 22 && Bit(x, Above(k, 10))))
  {
    hide Bit, Xor, Above, Rotr17, Rotr19, Shr10;
    Rotr17Bit(x, k);
    Rotr19Bit(x, k);
    Shr10Bit(x, k);
    SumBit(Rotr17(x), Rotr19(x), Shr10(x), k);
  }

  // ---------------------------------------------------------------------------------------------
  // Section 6.2.2

  /** Word t of the message schedule of a block. */
  function Schedule(m: seq<bv8>, t: nat): bv32
    requires |m| == 64
  {
    if t < 16 then Word(m[4 * t], m[4 * t + 1], m[4 * t + 2], m[4 * t + 3])
    else Plus(Plus(Plus(SmallSigma1(Schedule(m, t - 2)), Schedule(m, t - 7)), SmallSigma0(Schedule(m, t - 15))),
              Schedule(m, t - 16))
  }

  function T1(s: Regs, k: bv32, w: bv32): bv32 {
    Plus(Plus(Plus(Plus(s.h, BigSigma1(s.e)), Ch(s.e, s.f, s.g)), k), w)
  }

  function T2(s: Regs): bv32 {
    Plus(BigSigma0(s.a), Maj(s.a, s.b, s.c))
  }

  function Round(s: Regs, k: bv32, w: bv32): Regs {
    var t1 := T1(s, k, w);
    Regs(Plus(t1, T2(s)), s.a, s.b, s.c, Plus(s.d, t1), s.e, s.f, s.g)
  }

  /** The working variables after t rounds. */
  function Rounds(s: Regs, m: seq<bv8>, t: nat): Regs
    requires |m| == 64 && t <= 64
  {
    if t == 0 then s else Round(Rounds(s, m, t - 1), K(t - 1), Schedule(m, t - 1))
  }

  /** The next intermediate hash value. */
  function Compress(s: Regs, m: seq<bv8>): Regs
    requires |m| == 64
  {
    var r := Rounds(s, m, 64);
    Regs(Plus(s.a, r.a), Plus(s.b, r.b), Plus(s.c, r.c), Plus(s.d, r.d),
         Plus(s.e, r.e), Plus(s.f, r.f), Plus(s.g, r.g), Plus(s.h, r.h))
  }

  /** The intermediate hash value after the blocks of m. */
  function HashBlocks(s: Regs, m: seq<bv8>): Regs
    requires |m| % 64 == 0
  {
    if m == [] then s else Compress(HashBlocks(s, m[..|m| - 64]), m[|m| - 64..])
  }

  lemma HashStep(s: Regs, m: seq<bv8>, b: seq<bv8>)
    requires |m| % 64 == 0 && |b| == 64
    ensures HashBlocks(s, m + b) == Compress(HashBlocks(s, m), b)
  {
    hide Compress;
    var n := m + b;
    assert n[..|n| - 64] == m && n[|n| - 64..] == b;
  }

  // ---------------------------------------------------------------------------------------------
  // Section 5.1.1

  function LengthByte(n: nat, p: nat): bv8
    requires p > 0
  {
    (n / p % 256) as bv8
  }

  /** n as eight bytes, the most significant first. */
  function Be64(n: nat): (b: seq<bv8>)
    ensures |b| == 8
  {
    [LengthByte(n, 0x100_0000_0000_0000), LengthByte(n, 0x1_0000_0000_0000), LengthByte(n, 0x100_0000_0000),
     LengthByte(n, 0x1_0000_0000), LengthByte(n, 0x100_0000), LengthByte(n, 0x1_0000), LengthByte(n, 0x100),
     LengthByte(n, 1)]
  }

  function Zeros(n: nat): (z: seq<bv8>)
    ensures |z| == n
  {
    seq(n, _ => 0)
  }

  /** The number of zero bytes after the byte 0x80: the least that makes the length 56 modulo 64. */
  function ZeroCount(n: nat): nat {
    if n % 64 <= 55 then 55 - n % 64 else 119 - n % 64
  }

  lemma ZeroCountIsLeast(n: nat, k: nat)
    ensures (n + 1 + ZeroCount(n)) % 64 == 56
    ensures (n + 1 + k) % 64 == 56 ==> k >= ZeroCount(n)
  {
  }

  lemma PaddedLength(n: nat, z: nat)
    requires z == ZeroCount(n)
    ensures (n + 1 + z + 8) % 64 == 0
  {
    ZeroCountIsLeast(n, 0);
  }

  function Padded(m: seq<bv8>): (p: seq<bv8>)
    ensures |p| % 64 == 0
  {
    PaddedLength(|m|, ZeroCount(|m|));
    m + [0x80] + Zeros(ZeroCount(|m|)) + Be64(8 * |m|)
  }

  /** The four bytes of each word. */
  function DigestBytes(s: Regs): (b: seq<bv8>)
    ensures |b| == 32
  {
    WordBytes(s.a) + WordBytes(s.b) + WordBytes(s.c) + WordBytes(s.d) + WordBytes(s.e) + WordBytes(s.f) + WordBytes(s.g)
    + WordBytes(s.h)
  }

  function WordBytes(w: bv32): (b: seq<bv8>)
    ensures |b| == 4
  {
    [Byte3(w), Byte2(w), Byte1(w), Byte0(w)]
  }

  /** The hash of a message of fewer than 2^64 bits. */
  function Hash(m: seq<bv8>): seq<bv8>
    requires |m| < 0x2000_0000_0000_0000
  {
    DigestBytes(HashBlocks(INITIAL, Padded(m)))
  }
}
