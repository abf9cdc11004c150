/** The S-box of aes.c: the gates of its bit-sliced circuit, the inverse S-box built from it, and the
    proof, by tabulating the circuit on all 256 bytes at once, that they are the S-box and inverse
    S-box of FIPS 197. */
module SboxCircuit {
  import opened BitGates

  /** The circuit of Boyar and Peralta; x0 and s0 are the high bits. */
  function Sub<T>(o: Gates<T>, q: Slice<T>): Slice<T> {
    var x0 := q.b7; var x1 := q.b6; var x2 := q.b5; var x3 := q.b4;
    var x4 := q.b3; var x5 := q.b2; var x6 := q.b1; var x7 := q.b0;
    // top linear transformation
    var y14 := o.xor(x3, x5); var y13 := o.xor(x0, x6); var y9 := o.xor(x0, x3); var y8 := o.xor(x0, x5);
    var t0 := o.xor(x1, x2); var y1 := o.xor(t0, x7); var y4 := o.xor(y1, x3); var y12 := o.xor(y13, y14);
    var y2 := o.xor(y1, x0); var y5 := o.xor(y1, x6); var y3 := o.xor(y5, y8); var t1 := o.xor(x4, y12);
    var y15 := o.xor(t1, x5); var y20 := o.xor(t1, x1); var y6 := o.xor(y15, x7); var y10 := o.xor(y15, t0);
    var y11 := o.xor(y20, y9); var y7 := o.xor(x7, y11); var y17 := o.xor(y10, y11); var y19 := o.xor(y10, y8);
    var y16 := o.xor(t0, y11); var y21 := o.xor(y13, y16); var y18 := o.xor(x0, y16);
    // non-linear section
    var t2 := o.and(y12, y15); var t3 := o.and(y3, y6); var t4 := o.xor(t3, t2); var t5 := o.and(y4, x7);
    var t6 := o.xor(t5, t2); var t7 := o.and(y13, y16); var t8 := o.and(y5, y1); var t9 := o.xor(t8, t7);
    var t10 := o.and(y2, y7); var t11 := o.xor(t10, t7); var t12 := o.and(y9, y11); var t13 := o.and(y14, y17);
    var t14 := o.xor(t13, t12); var t15 := o.and(y8, y10); var t16 := o.xor(t15, t12);
    var t17 := o.xor(t4, t14); var t18 := o.xor(t6, t16); var t19 := o.xor(t9, t14); var t20 := o.xor(t11, t16);
    var t21 := o.xor(t17, y20); var t22 := o.xor(t18, y19); var t23 := o.xor(t19, y21);
    var t24 := o.xor(t20, y18); var t25 := o.xor(t21, t22); var t26 := o.and(t21, t23);
    var t27 := o.xor(t24, t26); var t28 := o.and(t25, t27); var t29 := o.xor(t28, t22);
    var t30 := o.xor(t23, t24); var t31 := o.xor(t22, t26); var t32 := o.and(t31, t30);
    var t33 := o.xor(t32, t24); var t34 := o.xor(t23, t33); var t35 := o.xor(t27, t33);
    var t36 := o.and(t24, t35); var t37 := o.xor(t36, t34); var t38 := o.xor(t27, t36);
    var t39 := o.and(t29, t38); var t40 := o.xor(t25, t39); var t41 := o.xor(t40, t37);
    var t42 := o.xor(t29, t33); var t43 := o.xor(t29, t40); var t44 := o.xor(t33, t37);
    var t45 := o.xor(t42, t41); var z0 := o.and(t44, y15); var z1 := o.and(t37, y6); var z2 := o.and(t33, x7);
    var z3 := o.and(t43, y16); var z4 := o.and(t40, y1); var z5 := o.and(t29, y7); var z6 := o.and(t42, y11);
    var z7 := o.and(t45, y17); var z8 := o.and(t41, y10); var z9 := o.and(t44, y12); var z10 := o.and(t37, y3);
    var z11 := o.and(t33, y4); var z12 := o.and(t43, y13); var z13 := o.and(t40, y5); var z14 := o.and(t29, y2);
    var z15 := o.and(t42, y9); var z16 := o.and(t45, y14); var z17 := o.and(t41, y8);
    // bottom linear transformation
    var t46 := o.xor(z15, z16); var t47 := o.xor(z10, z11); var t48 := o.xor(z5, z13);
    var t49 := o.xor(z9, z10); var t50 := o.xor(z2, z12); var t51 := o.xor(z2, z5); var t52 := o.xor(z7, z8);
    var t53 := o.xor(z0, z3); var t54 := o.xor(z6, z7); var t55 := o.xor(z16, z17); var t56 := o.xor(z12, t48);
    var t57 := o.xor(t50, t53); var t58 := o.xor(z4, t46); var t59 := o.xor(z3, t54);
    var t60 := o.xor(t46, t57); var t61 := o.xor(z14, t57); var t62 := o.xor(t52, t58);
    var t63 := o.xor(t49, t58); var t64 := o.xor(z4, t59); var t65 := o.xor(t61, t62);
    var t66 := o.xor(z1, t63); var s0 := o.xor(t59, t63); var s6 := o.xor(t56, o.not(t62));
    var s7 := o.xor(t48, o.not(t60)); var t67 := o.xor(t64, t65); var s3 := o.xor(t53, t66);
    var s4 := o.xor(t51, t66); var s5 := o.xor(t47, t65); var s1 := o.xor(t64, o.not(s3));
    var s2 := o.xor(t55, o.not(t67));
    Slice(s7, s6, s5, s4, s3, s2, s1, s0)
  }

  /** Removes 0x63 and undoes the affine map. */
  function UnAffine<T>(o: Gates<T>, q: Slice<T>): Slice<T> {
    var q0 := o.not(q.b0);
    var q1 := o.not(q.b1);
    var q2 := q.b2;
    var q3 := q.b3;
    var q4 := q.b4;
    var q5 := o.not(q.b5);
    var q6 := o.not(q.b6);
    var q7 := q.b7;
    Slice(o.xor(o.xor(q2, q5), q7), o.xor(o.xor(q3, q6), q0), o.xor(o.xor(q4, q7), q1), o.xor(o.xor(q5, q0), q2),
          o.xor(o.xor(q6, q1), q3), o.xor(o.xor(q7, q2), q4), o.xor(o.xor(q0, q3), q5), o.xor(o.xor(q1, q4), q6))
  }

  function InvSub<T>(o: Gates<T>, q: Slice<T>): Slice<T> {
    UnAffine(o, Sub(o, UnAffine(o, q)))
  }

  /** The affine map of FIPS 197, section 5.1.1: bit i is b_i + b_(i+4) + b_(i+5) + b_(i+6) + b_(i+7) + c_i,
      indices modulo 8, with c = 0x63. */
  function Affine<T>(o: Gates<T>, b: Slice<T>): Slice<T> {
    Slice(o.not(Sum5(o, b.b0, b.b4, b.b5, b.b6, b.b7)), o.not(Sum5(o, b.b1, b.b5, b.b6, b.b7, b.b0)),
          Sum5(o, b.b2, b.b6, b.b7, b.b0, b.b1), Sum5(o, b.b3, b.b7, b.b0, b.b1, b.b2),
          Sum5(o, b.b4, b.b0, b.b1, b.b2, b.b3), o.not(Sum5(o, b.b5, b.b1, b.b2, b.b3, b.b4)),
          o.not(Sum5(o, b.b6, b.b2, b.b3, b.b4, b.b5)), Sum5(o, b.b7, b.b3, b.b4, b.b5, b.b6))
  }

  function Sum5<T>(o: Gates<T>, a: T, b: T, c: T, d: T, e: T): T {
    o.xor(o.xor(o.xor(a, b), o.xor(c, d)), e)
  }

  // ---------------------------------------------------------------------------------------------
  // A map of wires that respects the gates respects the circuits

  lemma SubHom<S(!new), T>(o: Gates<S>, p: Gates<T>, h: S -> T, q: Slice<S>)
    requires Hom(o, p, h)
    ensures Map(h, Sub(o, q)) == Sub(p, Map(h, q))
  {
  }

  lemma UnAffineHom<S(!new), T>(o: Gates<S>, p: Gates<T>, h: S -> T, q: Slice<S>)
    requires Hom(o, p, h)
    ensures Map(h, UnAffine(o, q)) == UnAffine(p, Map(h, q))
  {
  }

  lemma AffineHom<S(!new), T>(o: Gates<S>, p: Gates<T>, h: S -> T, q: Slice<S>)
    requires Hom(o, p, h)
    ensures Map(h, Affine(o, q)) == Affine(p, Map(h, q))
  {
  }

  lemma InvSubHom<S(!new), T>(o: Gates<S>, p: Gates<T>, h: S -> T, q: Slice<S>)
    requires Hom(o, p, h)
    ensures Map(h, InvSub(o, q)) == InvSub(p, Map(h, q))
  {
    hide Sub, UnAffine, Map;
    UnAffineHom(o, p, h, q);
    SubHom(o, p, h, UnAffine(o, q));
    UnAffineHom(o, p, h, Sub(o, UnAffine(o, q)));
  }

  // ---------------------------------------------------------------------------------------------
  // 64 bytes at once: with b6 and b7 given, entry i of the wires below spells the byte whose other
  // bits are those of i

  const SET: bv64 := 0xffff_ffff_ffff_ffff

  function All(b6: bool, b7: bool): Slice<bv64> {
    Slice(0xaaaa_aaaa_aaaa_aaaa, 0xcccc_cccc_cccc_cccc, 0xf0f0_f0f0_f0f0_f0f0,
          0xff00_ff00_ff00_ff00, 0xffff_0000_ffff_0000, 0xffff_ffff_0000_0000,
          if b6 then SET else 0, if b7 then SET else 0)
  }

  /** Set wherever the byte is not zero. */
  function NonZero(b6: bool, b7: bool): bv64 {
    if b6 || b7 then SET else 0xffff_ffff_ffff_fffe
  }

  lemma TableOfInvSub(b6: bool, b7: bool)
    ensures InvSub(TABLES, Sub(TABLES, All(b6, b7))) == All(b6, b7)
  {
    if b6 {
      if b7 {
      }
    } else if b7 {
    }
  }

  lemma TableOfSub(b6: bool, b7: bool)
    ensures Sub(TABLES, InvSub(TABLES, All(b6, b7))) == All(b6, b7)
  {
    if b6 {
      if b7 {
      }
    } else if b7 {
    }
  }

  lemma TableOfInverse(b6: bool, b7: bool)
    ensures Mul(TABLES, UnAffine(TABLES, Sub(TABLES, All(b6, b7))), All(b6, b7))
         == Slice(NonZero(b6, b7), 0, 0, 0, 0, 0, 0, 0)
  {
    if b6 {
      if b7 {
      }
    } else if b7 {
    }
  }

  lemma TableOfAffine(b6: bool, b7: bool)
    ensures Affine(TABLES, UnAffine(TABLES, All(b6, b7))) == All(b6, b7)
  {
    if b6 {
      if b7 {
      }
    } else if b7 {
    }
  }

  // ---------------------------------------------------------------------------------------------
  // From the tables back to one byte: entry i of every wire

  function Entry(w: bv64, i: bv64): bool
    requires i < 64
  {
    (w >> i) & 1 == 1
  }

  function EntryAt(i: bv64): bv64 -> bool
    requires i < 64
  {
    (w: bv64) => Entry(w, i)
  }

  lemma EntryXor(a: bv64, b: bv64, i: bv64)
    requires i < 64
    ensures Entry(a ^ b, i) == (Entry(a, i) != Entry(b, i))
  {
  }

  lemma EntryAnd(a: bv64, b: bv64, i: bv64)
    requires i < 64
    ensures Entry(a & b, i) == (Entry(a, i) && Entry(b, i))
  {
  }

  lemma EntryNot(a: bv64, i: bv64)
    requires i < 64
    ensures Entry(!a, i) == !Entry(a, i)
  {
  }

  lemma EntryAtXor(a: bv64, b: bv64, i: bv64)
    requires i < 64
    ensures EntryAt(i)(TABLES.xor(a, b)) == BITS.xor(EntryAt(i)(a), EntryAt(i)(b))
  {
    hide Entry, BITS, TABLES;
    TableXor(a, b);
    BitGate(Entry(a, i), Entry(b, i));
    EntryXor(a, b, i);
  }

  lemma EntryAtAnd(a: bv64, b: bv64, i: bv64)
    requires i < 64
    ensures EntryAt(i)(TABLES.and(a, b)) == BITS.and(EntryAt(i)(a), EntryAt(i)(b))
  {
    hide Entry, BITS, TABLES;
    TableAnd(a, b);
    BitGate(Entry(a, i), Entry(b, i));
    EntryAnd(a, b, i);
  }

  lemma EntryAtNot(a: bv64, i: bv64)
    requires i < 64
    ensures EntryAt(i)(TABLES.not(a)) == BITS.not(EntryAt(i)(a))
  {
    hide Entry, BITS, TABLES;
    TableNot(a);
    BitGate(Entry(a, i), Entry(a, i));
    EntryNot(a, i);
  }

  lemma EntryHom(i: bv64)
    requires i < 64
    ensures Hom(TABLES, BITS, EntryAt(i))
  {
    hide Entry, EntryAt, BITS, TABLES;
    var h := EntryAt(i);
    forall a, b
      ensures h(TABLES.xor(a, b)) == BITS.xor(h(a), h(b))
    {
      EntryAtXor(a, b, i);
    }
    forall a, b
      ensures h(TABLES.and(a, b)) == BITS.and(h(a), h(b))
    {
      EntryAtAnd(a, b, i);
    }
    forall a
      ensures h(TABLES.not(a)) == BITS.not(h(a))
    {
      EntryAtNot(a, i);
    }
  }

  /** Every byte is an entry of the table. */
  function Position(x: Byte): (i: bv64)
    ensures i < 64
  {
    (if x.b0 then 1 else 0) | (if x.b1 then 2 else 0) | (if x.b2 then 4 else 0) | (if x.b3 then 8 else 0) |
    (if x.b4 then 16 else 0) | (if x.b5 then 32 else 0)
  }

  lemma EntryOfAll(x: Byte)
    ensures Map(EntryAt(Position(x)), All(x.b6, x.b7)) == x
  {
  }

  lemma EntryOfConstants(x: Byte)
    ensures Entry(NonZero(x.b6, x.b7), Position(x)) == (x != ZERO)
    ensures !Entry(0, Position(x))
  {
  }

  // ---------------------------------------------------------------------------------------------
  // The S-box on one byte

  /** FIPS 197, section 5.1.1: the S-box is the affine map of the multiplicative inverse, zero counting as
      its own inverse. */
  ghost predicate IsInverse(v: Byte, x: Byte) {
    Mul(BITS, v, x) == ONE || (x == ZERO && v == ZERO)
  }

  lemma SubIsAffineOfInverse(x: Byte)
    ensures IsInverse(UnAffine(BITS, Sub(BITS, x)), x)
    ensures Sub(BITS, x) == Affine(BITS, UnAffine(BITS, Sub(BITS, x)))
  {
    hide All, EntryAt, Entry, Position, Map, Mul, Sub, UnAffine, Affine, BITS, TABLES, NonZero;
    var all := All(x.b6, x.b7);
    var h := EntryAt(Position(x));
    EntryHom(Position(x));
    EntryOfAll(x);
    TableOfInverse(x.b6, x.b7);
    SubHom(TABLES, BITS, h, all);
    UnAffineHom(TABLES, BITS, h, Sub(TABLES, all));
    MulHom(TABLES, BITS, h, UnAffine(TABLES, Sub(TABLES, all)), all);
    EntryOfProduct(x);
    UnAffineOfZero();
    AffineUndone(Sub(BITS, x));
  }

  lemma EntryOfProduct(x: Byte)
    ensures Map(EntryAt(Position(x)), Slice(NonZero(x.b6, x.b7), 0, 0, 0, 0, 0, 0, 0))
         == (if x == ZERO then ZERO else ONE)
  {
    hide Entry, Position, NonZero;
    EntryOfConstants(x);
  }

  lemma UnAffineOfZero()
    ensures UnAffine(BITS, Sub(BITS, ZERO)) == ZERO
  {
  }

  lemma AffineUndone(x: Byte)
    ensures Affine(BITS, UnAffine(BITS, x)) == x
  {
    hide All, EntryAt, Position, Map, Affine, UnAffine, BITS, TABLES;
    var all := All(x.b6, x.b7);
    var h := EntryAt(Position(x));
    EntryHom(Position(x));
    EntryOfAll(x);
    TableOfAffine(x.b6, x.b7);
    UnAffineHom(TABLES, BITS, h, all);
    AffineHom(TABLES, BITS, h, UnAffine(TABLES, all));
  }

  lemma SubUndone(x: Byte)
    ensures InvSub(BITS, Sub(BITS, x)) == x
    ensures Sub(BITS, InvSub(BITS, x)) == x
  {
    hide All, EntryAt, Position, Map, Sub, InvSub, BITS, TABLES;
    var all := All(x.b6, x.b7);
    var h := EntryAt(Position(x));
    EntryHom(Position(x));
    EntryOfAll(x);
    TableOfInvSub(x.b6, x.b7);
    TableOfSub(x.b6, x.b7);
    SubHom(TABLES, BITS, h, all);
    InvSubHom(TABLES, BITS, h, Sub(TABLES, all));
    InvSubHom(TABLES, BITS, h, all);
    SubHom(TABLES, BITS, h, InvSub(TABLES, all));
  }
}
