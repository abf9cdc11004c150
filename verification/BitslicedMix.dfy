/** The column mixing of aes.c on bit-sliced words, against the column mixing of FIPS 197. */
module BitslicedMix {
  import opened BitGates
  import opened LinearCircuits

  /** The terms of mix_columns outside rotr16; r is q rotated right by 8. */
  function MixHere<T>(o: Gates<T>, q: Slice<T>, r: Slice<T>): Slice<T> {
    Slice(o.xor(o.xor(q.b7, r.b7), r.b0),
          o.xor(o.xor(o.xor(o.xor(q.b0, r.b0), q.b7), r.b7), r.b1),
          o.xor(o.xor(q.b1, r.b1), r.b2),
          o.xor(o.xor(o.xor(o.xor(q.b2, r.b2), q.b7), r.b7), r.b3),
          o.xor(o.xor(o.xor(o.xor(q.b3, r.b3), q.b7), r.b7), r.b4),
          o.xor(o.xor(q.b4, r.b4), r.b5),
          o.xor(o.xor(q.b5, r.b5), r.b6),
          o.xor(o.xor(q.b6, r.b6), r.b7))
  }

  /** The terms of mix_columns under rotr16. */
  function MixAcross<T>(o: Gates<T>, q: Slice<T>, r: Slice<T>): Slice<T> {
    Slice(o.xor(q.b0, r.b0),
          o.xor(q.b1, r.b1),
          o.xor(q.b2, r.b2),
          o.xor(q.b3, r.b3),
          o.xor(q.b4, r.b4),
          o.xor(q.b5, r.b5),
          o.xor(q.b6, r.b6),
          o.xor(q.b7, r.b7))
  }

  /** The terms of inv_mix_columns outside rotr16. */
  function InvMixHere<T>(o: Gates<T>, q: Slice<T>, r: Slice<T>): Slice<T> {
    Slice(o.xor(o.xor(o.xor(o.xor(o.xor(q.b5, q.b6), q.b7), r.b0), r.b5), r.b7),
          o.xor(o.xor(o.xor(o.xor(o.xor(o.xor(q.b0, q.b5), r.b0), r.b1), r.b5), r.b6), r.b7),
          o.xor(o.xor(o.xor(o.xor(o.xor(o.xor(q.b0, q.b1), q.b6), r.b1), r.b2), r.b6), r.b7),
          o.xor(o.xor(o.xor(o.xor(o.xor(o.xor(o.xor(o.xor(q.b0, q.b1), q.b2), q.b5), q.b6), r.b0), r.b2), r.b3),
            r.b5),
          o.xor(o.xor(o.xor(o.xor(o.xor(o.xor(o.xor(o.xor(o.xor(q.b1, q.b2), q.b3), q.b5), r.b1), r.b3), r.b4),
            r.b5), r.b6), r.b7),
          o.xor(o.xor(o.xor(o.xor(o.xor(o.xor(o.xor(o.xor(q.b2, q.b3), q.b4), q.b6), r.b2), r.b4), r.b5), r.b6),
            r.b7),
          o.xor(o.xor(o.xor(o.xor(o.xor(o.xor(o.xor(q.b3, q.b4), q.b5), q.b7), r.b3), r.b5), r.b6), r.b7),
          o.xor(o.xor(o.xor(o.xor(o.xor(q.b4, q.b5), q.b6), r.b4), r.b6), r.b7))
  }

  /** The terms of inv_mix_columns under rotr16. */
  function InvMixAcross<T>(o: Gates<T>, q: Slice<T>, r: Slice<T>): Slice<T> {
    Slice(o.xor(o.xor(o.xor(o.xor(q.b0, q.b5), q.b6), r.b0), r.b5),
          o.xor(o.xor(o.xor(o.xor(o.xor(q.b1, q.b5), q.b7), r.b1), r.b5), r.b6),
          o.xor(o.xor(o.xor(o.xor(o.xor(q.b0, q.b2), q.b6), r.b2), r.b6), r.b7),
          o.xor(o.xor(o.xor(o.xor(o.xor(o.xor(o.xor(o.xor(o.xor(q.b0, q.b1), q.b3), q.b5), q.b6), q.b7), r.b0),
            r.b3), r.b5), r.b7),
          o.xor(o.xor(o.xor(o.xor(o.xor(o.xor(o.xor(o.xor(q.b1, q.b2), q.b4), q.b5), q.b7), r.b1), r.b4), r.b5),
            r.b6),
          o.xor(o.xor(o.xor(o.xor(o.xor(o.xor(o.xor(q.b2, q.b3), q.b5), q.b6), r.b2), r.b5), r.b6), r.b7),
          o.xor(o.xor(o.xor(o.xor(o.xor(o.xor(q.b3, q.b4), q.b6), q.b7), r.b3), r.b6), r.b7),
          o.xor(o.xor(o.xor(o.xor(q.b4, q.b5), q.b7), r.b4), r.b7))
  }

  /** A mixed column read row by row: a and b are the rows the terms q and r come from, c and d the rows
      two below, which rotr16 brings here. */
  function MixCode<T>(o: Gates<T>, a: Slice<T>, b: Slice<T>, c: Slice<T>, d: Slice<T>): Slice<T> {
    Add(o, MixHere(o, a, b), MixAcross(o, c, d))
  }

  function InvMixCode<T>(o: Gates<T>, a: Slice<T>, b: Slice<T>, c: Slice<T>, d: Slice<T>): Slice<T> {
    Add(o, InvMixHere(o, a, b), InvMixAcross(o, c, d))
  }

  lemma HereHom<S(!new), T>(o: Gates<S>, p: Gates<T>, h: S -> T, q: Slice<S>, r: Slice<S>)
    requires XorHom(o, p, h)
    ensures Map(h, MixHere(o, q, r)) == MixHere(p, Map(h, q), Map(h, r))
    ensures Map(h, InvMixHere(o, q, r)) == InvMixHere(p, Map(h, q), Map(h, r))
  {
  }

  lemma AcrossHom<S(!new), T>(o: Gates<S>, p: Gates<T>, h: S -> T, q: Slice<S>, r: Slice<S>)
    requires XorHom(o, p, h)
    ensures Map(h, MixAcross(o, q, r)) == MixAcross(p, Map(h, q), Map(h, r))
    ensures Map(h, InvMixAcross(o, q, r)) == InvMixAcross(p, Map(h, q), Map(h, r))
  {
  }

  lemma CodeHom<S(!new), T>(o: Gates<S>, p: Gates<T>, h: S -> T, a: Slice<S>, b: Slice<S>, c: Slice<S>, d: Slice<S>)
    requires XorHom(o, p, h)
    ensures Map(h, MixCode(o, a, b, c, d)) == MixCode(p, Map(h, a), Map(h, b), Map(h, c), Map(h, d))
    ensures Map(h, InvMixCode(o, a, b, c, d)) == InvMixCode(p, Map(h, a), Map(h, b), Map(h, c), Map(h, d))
  {
    hide MixHere, InvMixHere, MixAcross, InvMixAcross, Map, Add;
    HereHom(o, p, h, a, b);
    AcrossHom(o, p, h, c, d);
    AddHom(o, p, h, MixHere(o, a, b), MixAcross(o, c, d));
    AddHom(o, p, h, InvMixHere(o, a, b), InvMixAcross(o, c, d));
  }

  lemma MixCodeOnBasis()
    ensures MixCode(WORDS, Row0(), Row1(), Row2(), Row3()) == Mix(WORDS, Row0(), Row1(), Row2(), Row3())
  {
  }

  lemma InvMixCodeOnBasis()
    ensures InvMixCode(WORDS, Row0(), Row1(), Row2(), Row3()) == InvMix(WORDS, Row0(), Row1(), Row2(), Row3())
  {
  }

  /** The sums written out in aes.c are the column mixing of FIPS 197 and its inverse. */
  lemma CodeIsMix(a: Byte, b: Byte, c: Byte, d: Byte)
    ensures MixCode(BITS, a, b, c, d) == Mix(BITS, a, b, c, d)
    ensures InvMixCode(BITS, a, b, c, d) == InvMix(BITS, a, b, c, d)
  {
    hide Mix, InvMix, MixCode, InvMixCode, Map, Read, ByteOf, Column, BITS, WORDS, Row0, Row1, Row2, Row3;
    var v := Column(a, b, c, d);
    ColumnRows(a, b, c, d);
    ReadHom(v);
    ReadRows(v);
    CodeHom(WORDS, BITS, Read(v), Row0(), Row1(), Row2(), Row3());
    MixHom(WORDS, BITS, Read(v), Row0(), Row1(), Row2(), Row3());
    InvMixHom(WORDS, BITS, Read(v), Row0(), Row1(), Row2(), Row3());
    MixCodeOnBasis();
    InvMixCodeOnBasis();
  }
}
