/** The arithmetic of poly1305.c: numbers modulo 2^130 - 5 in five limbs of 26 bits, multiplied with
    delayed carries in words of 64 bits. */
module Poly1305Limbs {
  import NatBits

  datatype Limbs = Limbs(l0: nat, l1: nat, l2: nat, l3: nat, l4: nat)

  /** The number in five limbs. */
  function Value(a: Limbs): nat {
    a.l0 + 0x400_0000 * a.l1 + 0x10_0000_0000_0000 * a.l2 + 0x4000_0000_0000_0000_0000 * a.l3
    + 0x100_0000_0000_0000_0000_0000_0000 * a.l4
  }

  function Times(x: nat, y: nat): nat {
    x * y
  }

  /** What an unsigned word of 64 bits keeps of a number. */
  function U64(x: nat): nat {
    x % 0x1_0000_0000_0000_0000
  }

  // ---------------------------------------------------------------------------------------------
  // One block: h := h * r, with partial reduction

  /** d0 .. d4: the products that reach the same power of 2^26, those beyond 2^130 coming back times 5. */
  function Products(h: Limbs, r: Limbs): Limbs {
    var s1, s2, s3, s4 := U64(r.l1 * 5), U64(r.l2 * 5), U64(r.l3 * 5), U64(r.l4 * 5);
    Limbs(U64(Times(h.l0, r.l0) + Times(h.l1, s4) + Times(h.l2, s3) + Times(h.l3, s2) + Times(h.l4, s1)),
          U64(Times(h.l0, r.l1) + Times(h.l1, r.l0) + Times(h.l2, s4) + Times(h.l3, s3) + Times(h.l4, s2)),
          U64(Times(h.l0, r.l2) + Times(h.l1, r.l1) + Times(h.l2, r.l0) + Times(h.l3, s4) + Times(h.l4, s3)),
          U64(Times(h.l0, r.l3) + Times(h.l1, r.l2) + Times(h.l2, r.l1) + Times(h.l3, r.l0) + Times(h.l4, s4)),
          U64(Times(h.l0, r.l4) + Times(h.l1, r.l3) + Times(h.l2, r.l2) + Times(h.l3, r.l1) + Times(h.l4, r.l0)))
  }

  /** x & 0x3ffffff. */
  function Low(x: nat): nat {
    x % 0x400_0000
  }

  /** x >> 26. */
  function High(x: nat): nat {
    x / 0x400_0000
  }

  /** The carries after the products. */
  function Carried(d: Limbs): Limbs {
    var d1 := U64(d.l1 + High(d.l0));
    var d2 := U64(d.l2 + High(d1));
    var d3 := U64(d.l3 + High(d2));
    var d4 := U64(d.l4 + High(d3));
    var h0 := U64(Low(d.l0) + High(d4) * 5);
    Limbs(Low(h0), U64(Low(d1) + High(h0)), Low(d2), Low(d3), Low(d4))
  }

  /** The limbs of r after clamping. */
  ghost predicate Small(r: Limbs) {
    r.l0 < 0x400_0000 && r.l1 < 0x400_0000 && r.l2 < 0x400_0000 && r.l3 < 0x400_0000 && r.l4 < 0x400_0000
  }

  /** What holds of h between blocks: l1 may keep a few carries. */
  ghost predicate Reduced(h: Limbs) {
    h.l0 < 0x400_0000 && h.l1 < 0x400_0100 && h.l2 < 0x400_0000 && h.l3 < 0x400_0000 && h.l4 < 0x400_0000
  }

  /** What holds of h after a block has been added. */
  ghost predicate Loose(h: Limbs) {
    h.l0 < 0x800_0000 && h.l1 < 0x800_0100 && h.l2 < 0x800_0000 && h.l3 < 0x800_0000 && h.l4 < 0x800_0000
  }

  /** The products without the words' limit. */
  function Exact(h: Limbs, r: Limbs): Limbs {
    Limbs(Times(h.l0, r.l0) + 5 * Times(h.l1, r.l4) + 5 * Times(h.l2, r.l3) + 5 * Times(h.l3, r.l2)
            + 5 * Times(h.l4, r.l1),
          Times(h.l0, r.l1) + Times(h.l1, r.l0) + 5 * Times(h.l2, r.l4) + 5 * Times(h.l3, r.l3) + 5 * Times(h.l4, r.l2),
          Times(h.l0, r.l2) + Times(h.l1, r.l1) + Times(h.l2, r.l0) + 5 * Times(h.l3, r.l4) + 5 * Times(h.l4, r.l3),
          Times(h.l0, r.l3) + Times(h.l1, r.l2) + Times(h.l2, r.l1) + Times(h.l3, r.l0) + 5 * Times(h.l4, r.l4),
          Times(h.l0, r.l4) + Times(h.l1, r.l3) + Times(h.l2, r.l2) + Times(h.l3, r.l1) + Times(h.l4, r.l0))
  }

  /** What the factor 5 leaves out of the products. */
  function Overflow(h: Limbs, r: Limbs): nat {
    Value(Limbs(Times(h.l1, r.l4) + Times(h.l2, r.l3) + Times(h.l3, r.l2) + Times(h.l4, r.l1),
                Times(h.l2, r.l4) + Times(h.l3, r.l3) + Times(h.l4, r.l2),
                Times(h.l3, r.l4) + Times(h.l4, r.l3), Times(h.l4, r.l4), 0))
  }

  lemma TimesCommutes(x: nat, y: nat)
    ensures Times(x, y) == Times(y, x)
  {
  }

  lemma TimesSum(x: nat, a: nat, b: nat, c: nat, d: nat, e: nat)
    ensures Times(x, a + b + c + d + e) == Times(x, a) + Times(x, b) + Times(x, c) + Times(x, d) + Times(x, e)
  {
  }

  lemma TimesScaled(x: nat, k: nat, a: nat)
    ensures Times(x, k * a) == k * Times(x, a)
  {
  }

  lemma TimesValue(x: nat, r: Limbs)
    ensures Times(x, Value(r))
         == Value(Limbs(Times(x, r.l0), Times(x, r.l1), Times(x, r.l2), Times(x, r.l3), Times(x, r.l4)))
  {
    hide Times;
    TimesSum(x, r.l0, 0x400_0000 * r.l1, 0x10_0000_0000_0000 * r.l2, 0x4000_0000_0000_0000_0000 * r.l3,
             0x100_0000_0000_0000_0000_0000_0000 * r.l4);
    TimesScaled(x, 0x400_0000, r.l1);
    TimesScaled(x, 0x10_0000_0000_0000, r.l2);
    TimesScaled(x, 0x4000_0000_0000_0000_0000, r.l3);
    TimesScaled(x, 0x100_0000_0000_0000_0000_0000_0000, r.l4);
  }

  /** The products represent h * r modulo 2^130 - 5. */
  lemma ExactIsProduct(h: Limbs, r: Limbs)
    ensures Times(Value(h), Value(r))
         == Value(Exact(h, r)) + 0x3_ffff_ffff_ffff_ffff_ffff_ffff_ffff_fffb * Overflow(h, r)
  {
    hide Times;
    var v := Value(r);
    TimesCommutes(Value(h), v);
    TimesValue(v, h);
    TimesCommutes(v, h.l0);
    TimesCommutes(v, h.l1);
    TimesCommutes(v, h.l2);
    TimesCommutes(v, h.l3);
    TimesCommutes(v, h.l4);
    TimesValue(h.l0, r);
    TimesValue(h.l1, r);
    TimesValue(h.l2, r);
    TimesValue(h.l3, r);
    TimesValue(h.l4, r);
  }

  lemma TimesBound(x: nat, y: nat)
    requires x <= 0x800_00ff && y <= 0x3ff_ffff
    ensures Times(x, y) <= 0x20_0003_f3ff_ff01
  {
    TimesGrows(x, y, 0x3ff_ffff);
    TimesGrows(0x3ff_ffff, x, 0x800_00ff);
    TimesCommutes(x, 0x3ff_ffff);
  }

  lemma TimesGrows(x: nat, y: nat, z: nat)
    requires y <= z
    ensures Times(x, y) <= Times(x, z)
  {
    assert x * z == x * y + x * (z - y);
  }

  lemma TimesFive(x: nat, y: nat)
    requires x <= 0x800_00ff && y <= 0x3ff_ffff
    ensures Times(x, U64(y * 5)) == 5 * Times(x, y)
  {
    hide Times;
    TimesScaled(x, 5, y);
  }

  lemma FiveProducts(h: Limbs, r: Limbs)
    requires Loose(h) && Small(r)
    ensures var s1, s2, s3, s4 := U64(r.l1 * 5), U64(r.l2 * 5), U64(r.l3 * 5), U64(r.l4 * 5);
      && Times(h.l1, s4) == 5 * Times(h.l1, r.l4) && Times(h.l2, s3) == 5 * Times(h.l2, r.l3)
      && Times(h.l3, s2) == 5 * Times(h.l3, r.l2) && Times(h.l4, s1) == 5 * Times(h.l4, r.l1)
      && Times(h.l2, s4) == 5 * Times(h.l2, r.l4) && Times(h.l3, s3) == 5 * Times(h.l3, r.l3)
      && Times(h.l4, s2) == 5 * Times(h.l4, r.l2) && Times(h.l3, s4) == 5 * Times(h.l3, r.l4)
      && Times(h.l4, s3) == 5 * Times(h.l4, r.l3) && Times(h.l4, s4) == 5 * Times(h.l4, r.l4)
  {
    hide Times, U64;
    TimesFive(h.l1, r.l4);
    TimesFive(h.l2, r.l3);
    TimesFive(h.l3, r.l2);
    TimesFive(h.l4, r.l1);
    TimesFive(h.l2, r.l4);
    TimesFive(h.l3, r.l3);
    TimesFive(h.l4, r.l2);
    TimesFive(h.l3, r.l4);
    TimesFive(h.l4, r.l3);
    TimesFive(h.l4, r.l4);
  }

  /** What the products may amount to: far from 2^64. */
  ghost predicate Bounded(d: Limbs) {
    && d.l0 < 0x400_0000_0000_0000 && d.l1 < 0x400_0000_0000_0000 && d.l2 < 0x400_0000_0000_0000
    && d.l3 < 0x400_0000_0000_0000 && d.l4 < 0x100_0000_0000_0000
  }

  lemma ExactBounded(h: Limbs, r: Limbs)
    requires Loose(h) && Small(r)
    ensures Bounded(Exact(h, r))
  {
    hide Times;
    forall x: nat, y: nat | x <= 0x800_00ff && y <= 0x3ff_ffff
      ensures Times(x, y) <= 0x20_0003_f3ff_ff01
    {
      TimesBound(x, y);
    }
  }

  /** No product, sum of products or carry leaves its word. */
  lemma ProductsExact(h: Limbs, r: Limbs)
    requires Loose(h) && Small(r)
    ensures Products(h, r) == Exact(h, r)
  {
    hide Times, U64;
    ExactBounded(h, r);
    FiveProducts(h, r);
    var d := Exact(h, r);
    Fits(d.l0);
    Fits(d.l1);
    Fits(d.l2);
    Fits(d.l3);
    Fits(d.l4);
  }

  lemma Fits(x: nat)
    requires x < 0x1_0000_0000_0000_0000
    ensures U64(x) == x
  {
  }

  lemma Cut(x: nat)
    ensures x == 0x400_0000 * High(x) + Low(x) && Low(x) < 0x400_0000
  {
  }

  /** The carries keep the number modulo 2^130 - 5 and bring the limbs back to size. */
  lemma CarriedValue(d: Limbs) returns (k: nat)
    requires Bounded(d)
    ensures Reduced(Carried(d))
    ensures Value(d) == Value(Carried(d)) + k * 0x3_ffff_ffff_ffff_ffff_ffff_ffff_ffff_fffb
  {
    hide Low, High, U64;
    Cut(d.l0);
    var d1 := d.l1 + High(d.l0);
    Fits(d1);
    Cut(d1);
    var d2 := d.l2 + High(d1);
    Fits(d2);
    Cut(d2);
    var d3 := d.l3 + High(d2);
    Fits(d3);
    Cut(d3);
    var d4 := d.l4 + High(d3);
    Fits(d4);
    Cut(d4);
    var h0 := Low(d.l0) + High(d4) * 5;
    Fits(h0);
    Cut(h0);
    Fits(Low(d1) + High(h0));
    k := High(d4);
  }

  // ---------------------------------------------------------------------------------------------
  // The end of poly1305_finish: full carries, and the canonical residue

  function FullyCarried(h: Limbs): Limbs {
    var h2 := U64(h.l2 + High(h.l1));
    var h3 := U64(h.l3 + High(h2));
    var h4 := U64(h.l4 + High(h3));
    var h0 := U64(h.l0 + High(h4) * 5);
    Limbs(Low(h0), U64(Low(h.l1) + High(h0)), Low(h2), Low(h3), Low(h4))
  }

  /** Every limb ends up below 2^26: a carry out of l0 needs one out of l4, and that one needs l1 to have
      just been emptied by its own. */
  lemma FullyCarriedValue(h: Limbs) returns (k: nat)
    requires Reduced(h)
    ensures Small(FullyCarried(h))
    ensures Value(h) == Value(FullyCarried(h)) + k * 0x3_ffff_ffff_ffff_ffff_ffff_ffff_ffff_fffb
  {
    hide Low, High, U64;
    Cut(h.l1);
    var h2 := h.l2 + High(h.l1);
    Fits(h2);
    Cut(h2);
    var h3 := h.l3 + High(h2);
    Fits(h3);
    Cut(h3);
    var h4 := h.l4 + High(h3);
    Fits(h4);
    Cut(h4);
    var h0 := h.l0 + High(h4) * 5;
    Fits(h0);
    Cut(h0);
    Fits(Low(h.l1) + High(h0));
    k := High(h4);
  }

  /** h + 5 - 2^130, the top limb wrapping around below zero. */
  function MinusP(h: Limbs): Limbs {
    var g0 := U64(h.l0 + 5);
    var g1 := U64(h.l1 + High(g0));
    var g2 := U64(h.l2 + High(g1));
    var g3 := U64(h.l3 + High(g2));
    Limbs(Low(g0), Low(g1), Low(g2), Low(g3), U64(h.l4 + High(g3) + (0x1_0000_0000_0000_0000 - 0x400_0000)))
  }

  /** All ones if the top limb did not wrap around, else zero. */
  function Mask(g4: nat): nat {
    U64(g4 / 0x8000_0000_0000_0000 + 0xffff_ffff_ffff_ffff)
  }

  /** (h & ~mask) | (g & mask). */
  function Select(h: nat, g: nat, mask: nat): nat
    requires mask <= 0xffff_ffff_ffff_ffff
  {
    NatBits.Or(NatBits.And(h, 0xffff_ffff_ffff_ffff - mask), NatBits.And(g, mask))
  }

  function Selected(h: Limbs): Limbs {
    var g := MinusP(h);
    var mask := Mask(g.l4);
    Limbs(Select(h.l0, g.l0, mask), Select(h.l1, g.l1, mask), Select(h.l2, g.l2, mask), Select(h.l3, g.l3, mask),
          Select(h.l4, g.l4, mask))
  }

  lemma MaskIs(x: nat)
    requires x < 0x800_0000
    ensures Mask(U64(x + (0x1_0000_0000_0000_0000 - 0x400_0000))) == if x < 0x400_0000 then 0 else 0xffff_ffff_ffff_ffff
    ensures x < 0x400_0000 ==>
      U64(x + (0x1_0000_0000_0000_0000 - 0x400_0000)) == x + (0x1_0000_0000_0000_0000 - 0x400_0000)
    ensures x >= 0x400_0000 ==> U64(x + (0x1_0000_0000_0000_0000 - 0x400_0000)) == x - 0x400_0000
  {
  }

  lemma SelectIs(h: nat, g: nat, over: bool)
    requires h < 0x1_0000_0000_0000_0000 && g < 0x1_0000_0000_0000_0000
    ensures Select(h, g, if over then 0xffff_ffff_ffff_ffff else 0) == if over then g else h
  {
    hide NatBits.And, NatBits.Or, NatBits.Pow2;
    NatBits.Powers();
    NatBits.AndOnes(h, 64);
    NatBits.AndOnes(g, 64);
    NatBits.AndNone(h);
    NatBits.AndNone(g);
    NatBits.OrZero(g);
    NatBits.OrZero(h);
  }

  /** One masked subtraction gives the canonical residue. */
  lemma SelectedValue(h: Limbs)
    requires Small(h)
    ensures Small(Selected(h)) && Value(Selected(h)) == Value(h) % 0x3_ffff_ffff_ffff_ffff_ffff_ffff_ffff_fffb
  {
    hide Low, High, U64, Mask, Select;
    var g := MinusP(h);
    var g0 := h.l0 + 5;
    Fits(g0);
    Cut(g0);
    var g1 := h.l1 + High(g0);
    Fits(g1);
    Cut(g1);
    var g2 := h.l2 + High(g1);
    Fits(g2);
    Cut(g2);
    var g3 := h.l3 + High(g2);
    Fits(g3);
    Cut(g3);
    var g4 := h.l4 + High(g3);
    MaskIs(g4);
    var over := g4 >= 0x400_0000;
    SelectIs(h.l0, g.l0, over);
    SelectIs(h.l1, g.l1, over);
    SelectIs(h.l2, g.l2, over);
    SelectIs(h.l3, g.l3, over);
    SelectIs(h.l4, g.l4, over);
    assert Value(Limbs(g.l0, g.l1, g.l2, g.l3, g4)) == Value(h) + 5;
    Residue(Value(h), over, Value(Selected(h)));
  }

  lemma Residue(h: nat, over: bool, s: nat)
    requires h < 0x4_0000_0000_0000_0000_0000_0000_0000_0000
    requires over <==> h >= 0x3_ffff_ffff_ffff_ffff_ffff_ffff_ffff_fffb
    requires s == if over then h - 0x3_ffff_ffff_ffff_ffff_ffff_ffff_ffff_fffb else h
    ensures s == h % 0x3_ffff_ffff_ffff_ffff_ffff_ffff_ffff_fffb
  {
  }
}
