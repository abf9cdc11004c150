/** Where the constants of SHA-256 come from (FIPS 180-4, sections 4.2.2 and 5.3.3). */
module Sha256Constants {
  import opened Sha256

  /** The first 64 prime numbers, eight to a row. */
  const PRIMES: seq<seq<nat>> := [
    [2, 3, 5, 7, 11, 13, 17, 19],
    [23, 29, 31, 37, 41, 43, 47, 53],
    [59, 61, 67, 71, 73, 79, 83, 89],
    [97, 101, 103, 107, 109, 113, 127, 131],
    [137, 139, 149, 151, 157, 163, 167, 173],
    [179, 181, 191, 193, 197, 199, 211, 223],
    [227, 229, 233, 239, 241, 251, 257, 263],
    [269, 271, 277, 281, 283, 293, 307, 311]]

  function Prime(t: nat): nat
    requires t < 64
  {
    PRIMES[t / 8][t % 8]
  }

  /** w is the first 32 bits behind the point of the cube root of p, whose integer part is c. */
  predicate CubeRoot(p: nat, c: nat, w: bv32) {
    var x := c * 0x1_0000_0000 + w as nat;
    x * x * x <= p * 0x1_0000_0000_0000_0000_0000_0000 < (x + 1) * (x + 1) * (x + 1)
  }

  /** ... and of the square root. */
  predicate SquareRoot(p: nat, c: nat, w: bv32) {
    var x := c * 0x1_0000_0000 + w as nat;
    x * x <= p * 0x1_0000_0000_0000_0000 < (x + 1) * (x + 1)
  }

  function IntegerRoot(p: nat): nat {
    if p < 8 then 1 else if p < 27 then 2 else if p < 64 then 3 else if p < 125 then 4 else if p < 216 then 5 else 6
  }

  lemma Row0a()
    ensures CubeRoot(2, 1, 0x428a2f98)
    ensures CubeRoot(3, 1, 0x71374491)
    ensures CubeRoot(5, 1, 0xb5c0fbcf)
    ensures CubeRoot(7, 1, 0xe9b5dba5)
  {
  }

  lemma Row0b()
    ensures CubeRoot(11, 2, 0x3956c25b)
    ensures CubeRoot(13, 2, 0x59f111f1)
    ensures CubeRoot(17, 2, 0x923f82a4)
    ensures CubeRoot(19, 2, 0xab1c5ed5)
  {
  }

  lemma Row0(i: nat)
    requires i < 8
    ensures exists c :: CubeRoot(PRIMES[0][i], c, K256[0][i])
  {
    hide CubeRoot;
    Row0a();
    Row0b();
    var c := IntegerRoot(PRIMES[0][i]);
    assert CubeRoot(PRIMES[0][i], c, K256[0][i]);
  }

  lemma Row1a()
    ensures CubeRoot(23, 2, 0xd807aa98)
    ensures CubeRoot(29, 3, 0x12835b01)
    ensures CubeRoot(31, 3, 0x243185be)
    ensures CubeRoot(37, 3, 0x550c7dc3)
  {
  }

  lemma Row1b()
    ensures CubeRoot(41, 3, 0x72be5d74)
    ensures CubeRoot(43, 3, 0x80deb1fe)
    ensures CubeRoot(47, 3, 0x9bdc06a7)
    ensures CubeRoot(53, 3, 0xc19bf174)
  {
  }

  lemma Row1(i: nat)
    requires i < 8
    ensures exists c :: CubeRoot(PRIMES[1][i], c, K256[1][i])
  {
    hide CubeRoot;
    Row1a();
    Row1b();
    var c := IntegerRoot(PRIMES[1][i]);
    assert CubeRoot(PRIMES[1][i], c, K256[1][i]);
  }

  lemma Row2a()
    ensures CubeRoot(59, 3, 0xe49b69c1)
    ensures CubeRoot(61, 3, 0xefbe4786)
    ensures CubeRoot(67, 4, 0x0fc19dc6)
    ensures CubeRoot(71, 4, 0x240ca1cc)
  {
  }

  lemma Row2b()
    ensures CubeRoot(73, 4, 0x2de92c6f)
    ensures CubeRoot(79, 4, 0x4a7484aa)
    ensures CubeRoot(83, 4, 0x5cb0a9dc)
    ensures CubeRoot(89, 4, 0x76f988da)
  {
  }

  lemma Row2(i: nat)
    requires i < 8
    ensures exists c :: CubeRoot(PRIMES[2][i], c, K256[2][i])
  {
    hide CubeRoot;
    Row2a();
    Row2b();
    var c := IntegerRoot(PRIMES[2][i]);
    assert CubeRoot(PRIMES[2][i], c, K256[2][i]);
  }

  lemma Row3a()
    ensures CubeRoot(97, 4, 0x983e5152)
    ensures CubeRoot(101, 4, 0xa831c66d)
    ensures CubeRoot(103, 4, 0xb00327c8)
    ensures CubeRoot(107, 4, 0xbf597fc7)
  {
  }

  lemma Row3b()
    ensures CubeRoot(109, 4, 0xc6e00bf3)
    ensures CubeRoot(113, 4, 0xd5a79147)
    ensures CubeRoot(127, 5, 0x06ca6351)
    ensures CubeRoot(131, 5, 0x14292967)
  {
  }

  lemma Row3(i: nat)
    requires i < 8
    ensures exists c :: CubeRoot(PRIMES[3][i], c, K256[3][i])
  {
    hide CubeRoot;
    Row3a();
    Row3b();
    var c := IntegerRoot(PRIMES[3][i]);
    assert CubeRoot(PRIMES[3][i], c, K256[3][i]);
  }

  lemma Row4a()
    ensures CubeRoot(137, 5, 0x27b70a85)
    ensures CubeRoot(139, 5, 0x2e1b2138)
    ensures CubeRoot(149, 5, 0x4d2c6dfc)
    ensures CubeRoot(151, 5, 0x53380d13)
  {
  }

  lemma Row4b()
    ensures CubeRoot(157, 5, 0x650a7354)
    ensures CubeRoot(163, 5, 0x766a0abb)
    ensures CubeRoot(167, 5, 0x81c2c92e)
    ensures CubeRoot(173, 5, 0x92722c85)
  {
  }

  lemma Row4(i: nat)
    requires i < 8
    ensures exists c :: CubeRoot(PRIMES[4][i], c, K256[4][i])
  {
    hide CubeRoot;
    Row4a();
    Row4b();
    var c := IntegerRoot(PRIMES[4][i]);
    assert CubeRoot(PRIMES[4][i], c, K256[4][i]);
  }

  lemma Row5a()
    ensures CubeRoot(179, 5, 0xa2bfe8a1)
    ensures CubeRoot(181, 5, 0xa81a664b)
    ensures CubeRoot(191, 5, 0xc24b8b70)
    ensures CubeRoot(193, 5, 0xc76c51a3)
  {
  }

  lemma Row5b()
    ensures CubeRoot(197, 5, 0xd192e819)
    ensures CubeRoot(199, 5, 0xd6990624)
    ensures CubeRoot(211, 5, 0xf40e3585)
    ensures CubeRoot(223, 6, 0x106aa070)
  {
  }

  lemma Row5(i: nat)
    requires i < 8
    ensures exists c :: CubeRoot(PRIMES[5][i], c, K256[5][i])
  {
    hide CubeRoot;
    Row5a();
    Row5b();
    var c := IntegerRoot(PRIMES[5][i]);
    assert CubeRoot(PRIMES[5][i], c, K256[5][i]);
  }

  lemma Row6a()
    ensures CubeRoot(227, 6, 0x19a4c116)
    ensures CubeRoot(229, 6, 0x1e376c08)
    ensures CubeRoot(233, 6, 0x2748774c)
    ensures CubeRoot(239, 6, 0x34b0bcb5)
  {
  }

  lemma Row6b()
    ensures CubeRoot(241, 6, 0x391c0cb3)
    ensures CubeRoot(251, 6, 0x4ed8aa4a)
    ensures CubeRoot(257, 6, 0x5b9cca4f)
    ensures CubeRoot(263, 6, 0x682e6ff3)
  {
  }

  lemma Row6(i: nat)
    requires i < 8
    ensures exists c :: CubeRoot(PRIMES[6][i], c, K256[6][i])
  {
    hide CubeRoot;
    Row6a();
    Row6b();
    var c := IntegerRoot(PRIMES[6][i]);
    assert CubeRoot(PRIMES[6][i], c, K256[6][i]);
  }

  lemma Row7a()
    ensures CubeRoot(269, 6, 0x748f82ee)
    ensures CubeRoot(271, 6, 0x78a5636f)
    ensures CubeRoot(277, 6, 0x84c87814)
    ensures CubeRoot(281, 6, 0x8cc70208)
  {
  }

  lemma Row7b()
    ensures CubeRoot(283, 6, 0x90befffa)
    ensures CubeRoot(293, 6, 0xa4506ceb)
    ensures CubeRoot(307, 6, 0xbef9a3f7)
    ensures CubeRoot(311, 6, 0xc67178f2)
  {
  }

  lemma Row7(i: nat)
    requires i < 8
    ensures exists c :: CubeRoot(PRIMES[7][i], c, K256[7][i])
  {
    hide CubeRoot;
    Row7a();
    Row7b();
    var c := IntegerRoot(PRIMES[7][i]);
    assert CubeRoot(PRIMES[7][i], c, K256[7][i]);
  }

  /** Word t of the table is made from the cube root of the prime with the number t. */
  lemma KIsCubeRoot(t: nat)
    requires t < 64
    ensures exists c :: CubeRoot(Prime(t), c, K(t))
  {
    hide CubeRoot;
    var g, i := t / 8, t % 8;
    assert Prime(t) == PRIMES[g][i] && K(t) == K256[g][i];
    hide Prime, K;
    if g == 0 {
      Row0(i);
    } else if g == 1 {
      Row1(i);
    } else if g == 2 {
      Row2(i);
    } else if g == 3 {
      Row3(i);
    } else if g == 4 {
      Row4(i);
    } else if g == 5 {
      Row5(i);
    } else if g == 6 {
      Row6(i);
    } else {
      assert g == 7;
      Row7(i);
    }
  }

  lemma InitialA()
    ensures SquareRoot(2, 1, 0x6a09e667)
    ensures SquareRoot(3, 1, 0xbb67ae85)
    ensures SquareRoot(5, 2, 0x3c6ef372)
    ensures SquareRoot(7, 2, 0xa54ff53a)
  {
  }

  lemma InitialB()
    ensures SquareRoot(11, 3, 0x510e527f)
    ensures SquareRoot(13, 3, 0x9b05688c)
    ensures SquareRoot(17, 4, 0x1f83d9ab)
    ensures SquareRoot(19, 4, 0x5be0cd19)
  {
  }

  /** The initial hash value is made from the square roots of the first eight. */
  lemma InitialIsSquareRoots()
    ensures SquareRoot(2, 1, INITIAL.a) && SquareRoot(3, 1, INITIAL.b)
    ensures SquareRoot(5, 2, INITIAL.c) && SquareRoot(7, 2, INITIAL.d)
    ensures SquareRoot(11, 3, INITIAL.e) && SquareRoot(13, 3, INITIAL.f)
    ensures SquareRoot(17, 4, INITIAL.g) && SquareRoot(19, 4, INITIAL.h)
  {
    InitialA();
    InitialB();
    hide SquareRoot;
  }
}
