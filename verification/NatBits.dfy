/** Division with remainder, and bitwise operations on natural numbers, bit by bit. */
module NatBits {
  function Pow2(k: nat): (p: nat)
    ensures p > 0
  {
    if k == 0 then 1 else 2 * Pow2(k - 1)
  }

  /** a & b. */
  function And(a: nat, b: nat): nat {
    if a == 0 || b == 0 then 0 else 2 * And(a / 2, b / 2) + a % 2 * (b % 2)
  }

  lemma AndStep(a: nat, b: nat)
    ensures And(a, b) == 2 * And(a / 2, b / 2) + a % 2 * (b % 2)
  {
  }

  function High(a: nat, m: nat): nat
    requires m > 0
  {
    a / m
  }

  function Low(a: nat, m: nat): nat
    requires m > 0
  {
    a % m
  }

  lemma {:induction false} AtLeastOnce(m: nat, d: nat)
    requires d > 0
    ensures m * d >= m
  {
    if d > 1 {
      AtLeastOnce(m, d - 1);
      assert m * d == m * (d - 1) + m;
    }
  }

  lemma Bounds(m: nat, d: int)
    requires d != 0
    ensures m * d >= m || m * d + m <= 0
  {
    if d > 0 {
      AtLeastOnce(m, d);
    } else {
      AtLeastOnce(m, 0 - d);
      assert m * (0 - d) == 0 - m * d;
    }
  }

  /** Quotient and remainder are determined. */
  lemma Unique(a: nat, m: nat, q: nat, r: nat)
    requires m > 0 && r < m && a == m * q + r
    ensures High(a, m) == q && Low(a, m) == r
  {
    var d := a / m - q;
    assert m * d == r - a % m;
    if d != 0 {
      Bounds(m, d);
    }
  }

  lemma DivMod(a: nat, m: nat)
    requires m > 0
    ensures Low(a, 2 * m) == a % 2 + 2 * Low(a / 2, m)
    ensures High(a, 2 * m) == High(a / 2, m)
  {
    var q, r, s := a / 2 / m, a / 2 % m, a % 2;
    assert a == 2 * (m * q + r) + s == 2 * m * q + (2 * r + s);
    Unique(a, 2 * m, q, 2 * r + s);
  }

  /** The two ends of a number are masked independently. */
  lemma {:induction false} AndSplit(a: nat, b: nat, k: nat)
    ensures And(a, b) == And(Low(a, Pow2(k)), Low(b, Pow2(k))) + Pow2(k) * And(High(a, Pow2(k)), High(b, Pow2(k)))
  {
    hide And, Low, High;
    if k == 0 {
      WholeNumber(a);
      WholeNumber(b);
      AndZero();
    } else {
      var m := Pow2(k - 1);
      AndStep(a, b);
      AndSplit(a / 2, b / 2, k - 1);
      DivMod(a, m);
      DivMod(b, m);
      AndStep(Low(a, 2 * m), Low(b, 2 * m));
      var h := And(High(a / 2, m), High(b / 2, m));
      assert 2 * (m * h) == 2 * m * h;
    }
  }

  lemma WholeNumber(a: nat)
    ensures Low(a, 1) == 0 && High(a, 1) == a
  {
  }

  lemma AndZero()
    ensures And(0, 0) == 0
  {
  }

  lemma AndNone(a: nat)
    ensures And(a, 0) == 0
  {
  }

  /** A mask of k ones keeps the remainder modulo 2^k. */
  lemma {:induction false} AndOnes(a: nat, k: nat)
    ensures And(a, Pow2(k) - 1) == Low(a, Pow2(k))
  {
    hide Low;
    if k == 0 {
      WholeNumber(a);
    } else {
      var m := Pow2(k - 1);
      AndStep(a, 2 * m - 1);
      assert (2 * m - 1) / 2 == m - 1 && (2 * m - 1) % 2 == 1;
      AndOnes(a / 2, k - 1);
      DivMod(a, m);
    }
  }

  /** a | b. */
  function Or(a: nat, b: nat): nat {
    if a == 0 then b else if b == 0 then a else 2 * Or(a / 2, b / 2) + if a % 2 == 1 || b % 2 == 1 then 1 else 0
  }

  lemma OrStep(a: nat, b: nat)
    ensures Or(a, b) == 2 * Or(a / 2, b / 2) + if a % 2 == 1 || b % 2 == 1 then 1 else 0
  {
  }

  lemma Twice(p: nat, b: nat)
    ensures (2 * p) * b == 2 * (p * b)
  {
  }

  /** Numbers without a common bit are added. */
  lemma {:induction false} OrShifted(a: nat, b: nat, k: nat)
    requires a < Pow2(k)
    ensures Or(a, Pow2(k) * b) == a + Pow2(k) * b
  {
    if k == 0 {
      assert Pow2(0) * b == b;
    } else {
      Twice(Pow2(k - 1), b);
      assert Pow2(k) == 2 * Pow2(k - 1);
      var c := Pow2(k - 1) * b;
      assert a / 2 < Pow2(k - 1);
      hide Pow2, Or;
      OrShifted(a / 2, b, k - 1);
      OrStep(a, 2 * c);
      assert (2 * c) / 2 == c && (2 * c) % 2 == 0;
    }
  }

  lemma OrZero(a: nat)
    ensures Or(a, 0) == a && Or(0, a) == a
  {
  }

  lemma {:induction false} Pow2Adds(j: nat, k: nat)
    ensures Pow2(j + k) == Pow2(j) * Pow2(k)
  {
    if j > 0 {
      Pow2Adds(j - 1, k);
      Twice(Pow2(j - 1), Pow2(k));
      assert Pow2(j) == 2 * Pow2(j - 1) && Pow2(j + k) == 2 * Pow2(j - 1 + k);
      hide Pow2;
    }
  }

  /** The powers of two that occur as sizes. */
  lemma Powers()
    ensures Pow2(8) == 0x100 && Pow2(14) == 0x4000 && Pow2(16) == 0x1_0000 && Pow2(18) == 0x4_0000
    ensures Pow2(20) == 0x10_0000 && Pow2(24) == 0x100_0000 && Pow2(26) == 0x400_0000
    ensures Pow2(32) == 0x1_0000_0000 && Pow2(64) == 0x1_0000_0000_0000_0000
  {
    assert Pow2(2) == 4;
    assert Pow2(4) == 16;
    assert Pow2(6) == 64;
    assert Pow2(8) == 0x100;
    Pow2Adds(8, 8);
    Pow2Adds(16, 16);
    Pow2Adds(32, 32);
    Pow2Adds(6, 8);
    Pow2Adds(2, 16);
    Pow2Adds(4, 16);
    Pow2Adds(8, 16);
    Pow2Adds(2, 24);
  }
}
