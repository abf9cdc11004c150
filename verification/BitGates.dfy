/** Bytes as the eight coefficients of a polynomial over GF(2) (FIPS 197, section 3.2), and circuits of
    XOR, AND and NOT gates over them.

    A circuit is written once, over any type T of wires.  With T = bool it is a function on one byte;
    with T = bv32 the same circuit works on 32 bytes at once, bit k of every wire belonging to byte k,
    which is what bit-sliced code does; with T = bv64 it tabulates itself on 64 bytes in one go.  A map of
    wires that respects the gates respects every circuit, so the three readings agree. */
module BitGates {
  datatype Gates<!T> = Gates(xor: (T, T) -> T, and: (T, T) -> T, not: T -> T)

  /** Eight wires; b0 is the coefficient of 1, b7 that of x^7. */
  datatype Slice<T> = Slice(b0: T, b1: T, b2: T, b3: T, b4: T, b5: T, b6: T, b7: T)

  type Byte = Slice<bool>

  const BITS: Gates<bool> := Gates((a, b) => a != b, (a, b) => a && b, a => !a)
  const WORDS: Gates<bv32> := Gates((a, b) => a ^ b, (a, b) => a & b, a => !a)
  const TABLES: Gates<bv64> := Gates((a, b) => a ^ b, (a, b) => a & b, a => !a)

  const ZERO: Byte := Slice(false, false, false, false, false, false, false, false)
  const ONE: Byte := Slice(true, false, false, false, false, false, false, false)

  function Map<S, T>(h: S -> T, a: Slice<S>): Slice<T> {
    Slice(h(a.b0), h(a.b1), h(a.b2), h(a.b3), h(a.b4), h(a.b5), h(a.b6), h(a.b7))
  }

  /** h carries the XOR gates of o to those of p. */
  ghost predicate XorHom<S(!new), T>(o: Gates<S>, p: Gates<T>, h: S -> T) {
    forall a, b :: h(o.xor(a, b)) == p.xor(h(a), h(b))
  }

  /** h carries the gates o to the gates p. */
  ghost predicate Hom<S(!new), T>(o: Gates<S>, p: Gates<T>, h: S -> T) {
    && XorHom(o, p, h)
    && (forall a, b :: h(o.and(a, b)) == p.and(h(a), h(b)))
    && (forall a :: h(o.not(a)) == p.not(h(a)))
  }

  lemma BitGate(a: bool, b: bool)
    ensures BITS.xor(a, b) == (a != b)
    ensures BITS.and(a, b) == (a && b)
    ensures BITS.not(a) == !a
  {
  }

  lemma WordXor(a: bv32, b: bv32)
    ensures WORDS.xor(a, b) == a ^ b
  {
  }

  lemma WordAnd(a: bv32, b: bv32)
    ensures WORDS.and(a, b) == a & b
  {
  }

  lemma WordNot(a: bv32)
    ensures WORDS.not(a) == !a
  {
  }

  lemma TableXor(a: bv64, b: bv64)
    ensures TABLES.xor(a, b) == a ^ b
  {
  }

  lemma TableAnd(a: bv64, b: bv64)
    ensures TABLES.and(a, b) == a & b
  {
  }

  lemma TableNot(a: bv64)
    ensures TABLES.not(a) == !a
  {
  }

  // ---------------------------------------------------------------------------------------------
  // Arithmetic of GF(2^8) modulo x^8 + x^4 + x^3 + x + 1 (FIPS 197, section 4), as circuits

  function Add<T>(o: Gates<T>, a: Slice<T>, b: Slice<T>): Slice<T> {
    Slice(o.xor(a.b0, b.b0), o.xor(a.b1, b.b1), o.xor(a.b2, b.b2), o.xor(a.b3, b.b3),
          o.xor(a.b4, b.b4), o.xor(a.b5, b.b5), o.xor(a.b6, b.b6), o.xor(a.b7, b.b7))
  }

  function Xtime<T>(o: Gates<T>, a: Slice<T>): Slice<T> {
    Slice(a.b7, o.xor(a.b0, a.b7), a.b1, o.xor(a.b2, a.b7), o.xor(a.b3, a.b7), a.b4, a.b5, a.b6)
  }

  function Scale<T>(o: Gates<T>, c: T, a: Slice<T>): Slice<T> {
    Slice(o.and(c, a.b0), o.and(c, a.b1), o.and(c, a.b2), o.and(c, a.b3),
          o.and(c, a.b4), o.and(c, a.b5), o.and(c, a.b6), o.and(c, a.b7))
  }

  function Mul<T>(o: Gates<T>, a: Slice<T>, b: Slice<T>): Slice<T> {
    var a1 := Xtime(o, a);
    var a2 := Xtime(o, a1);
    var a3 := Xtime(o, a2);
    var a4 := Xtime(o, a3);
    var a5 := Xtime(o, a4);
    var a6 := Xtime(o, a5);
    var a7 := Xtime(o, a6);
    Add(o, Add(o, Add(o, Scale(o, b.b0, a), Scale(o, b.b1, a1)), Add(o, Scale(o, b.b2, a2), Scale(o, b.b3, a3))),
        Add(o, Add(o, Scale(o, b.b4, a4), Scale(o, b.b5, a5)), Add(o, Scale(o, b.b6, a6), Scale(o, b.b7, a7))))
  }

  // Column mixing (section 5.1.3 and 5.3.3): row 0 of a mixed column; the other rows are the same
  // sum on the rotated column

  function Mix<T>(o: Gates<T>, a: Slice<T>, b: Slice<T>, c: Slice<T>, d: Slice<T>): Slice<T> {
    Add(o, Add(o, Xtime(o, a), Add(o, Xtime(o, b), b)), Add(o, c, d))
  }

  function InvMix<T>(o: Gates<T>, a: Slice<T>, b: Slice<T>, c: Slice<T>, d: Slice<T>): Slice<T> {
    Add(o, Add(o, MulE(o, a), MulB(o, b)), Add(o, MulD(o, c), Mul9(o, d)))
  }

  function Mul9<T>(o: Gates<T>, a: Slice<T>): Slice<T> {
    Add(o, Xtime(o, Xtime(o, Xtime(o, a))), a)
  }

  function MulB<T>(o: Gates<T>, a: Slice<T>): Slice<T> {
    Add(o, Mul9(o, a), Xtime(o, a))
  }

  function MulD<T>(o: Gates<T>, a: Slice<T>): Slice<T> {
    Add(o, Mul9(o, a), Xtime(o, Xtime(o, a)))
  }

  function MulE<T>(o: Gates<T>, a: Slice<T>): Slice<T> {
    Add(o, Add(o, Xtime(o, Xtime(o, Xtime(o, a))), Xtime(o, Xtime(o, a))), Xtime(o, a))
  }

  lemma AddHom<S(!new), T>(o: Gates<S>, p: Gates<T>, h: S -> T, a: Slice<S>, b: Slice<S>)
    requires XorHom(o, p, h)
    ensures Map(h, Add(o, a, b)) == Add(p, Map(h, a), Map(h, b))
  {
  }

  lemma MixHom<S(!new), T>(
    o: Gates<S>, p: Gates<T>, h: S -> T, a: Slice<S>, b: Slice<S>, c: Slice<S>, d: Slice<S>)
    requires XorHom(o, p, h)
    ensures Map(h, Mix(o, a, b, c, d)) == Mix(p, Map(h, a), Map(h, b), Map(h, c), Map(h, d))
  {
  }

  lemma InvMixHom<S(!new), T>(
    o: Gates<S>, p: Gates<T>, h: S -> T, a: Slice<S>, b: Slice<S>, c: Slice<S>, d: Slice<S>)
    requires XorHom(o, p, h)
    ensures Map(h, InvMix(o, a, b, c, d)) == InvMix(p, Map(h, a), Map(h, b), Map(h, c), Map(h, d))
  {
  }

  lemma MulHom<S(!new), T>(o: Gates<S>, p: Gates<T>, h: S -> T, a: Slice<S>, b: Slice<S>)
    requires Hom(o, p, h)
    ensures Map(h, Mul(o, a, b)) == Mul(p, Map(h, a), Map(h, b))
  {
  }
}
