/** AES key wrap (key_wrap.c, RFC 3394).  The block cipher under the key is a pair of functions. */
module KeyWrap {
  import opened BitGates
  import opened Fips197
  import NatBits

  type Half = h: seq<Byte> | |h| == 8 witness seq(8, _ => ZERO)

  /** Each undoes the other: what the two directions of a block cipher under one key promise. */
  ghost predicate Undoes(d: Block -> Block, e: Block -> Block) {
    forall x :: d(e(x)) == x
  }

  // ---------------------------------------------------------------------------------------------
  // RFC 3394, section 2.2.1 and 2.2.2, in the index-based form

  /** The register A, and the registers R[1] .. R[n] one after the other. */
  datatype State = State(a: Half, r: seq<Byte>)

  /** 0xa6, eight times over (section 2.2.3.1). */
  const A6: Byte := Slice(false, true, true, false, false, true, false, true)

  const IV: Half := [A6, A6, A6, A6, A6, A6, A6, A6]

  /** Bit k of the counter. */
  function CounterBit(t: nat, k: nat): bool {
    if k == 0 then t % 2 == 1 else CounterBit(t / 2, k - 1)
  }

  /** The byte of the counter whose lowest bit is bit k. */
  function CounterByte(t: nat, k: nat): Byte {
    Slice(CounterBit(t, k), CounterBit(t, k + 1), CounterBit(t, k + 2), CounterBit(t, k + 3),
          CounterBit(t, k + 4), CounterBit(t, k + 5), CounterBit(t, k + 6), CounterBit(t, k + 7))
  }

  /** The counter as eight bytes, the most significant first (htobe64); bits from 64 on are lost. */
  function Be64(t: nat): Half {
    [CounterByte(t, 56), CounterByte(t, 48), CounterByte(t, 40), CounterByte(t, 32),
     CounterByte(t, 24), CounterByte(t, 16), CounterByte(t, 8), CounterByte(t, 0)]
  }

  // Bytes as numbers

  function Digit(x: bool): nat {
    if x then 1 else 0
  }

  function Value(b: Byte): nat {
    Digit(b.b0) + 2 * Digit(b.b1) + 4 * Digit(b.b2) + 8 * Digit(b.b3)
    + 16 * Digit(b.b4) + 32 * Digit(b.b5) + 64 * Digit(b.b6) + 128 * Digit(b.b7)
  }

  /** The number in bytes, the most significant first. */
  function Number(h: seq<Byte>): nat {
    if h == [] then 0 else 0x100 * Number(h[..|h| - 1]) + Value(h[|h| - 1])
  }

  lemma InitialValue()
    ensures forall i :: 0 <= i < 8 ==> Value(IV[i]) == 0xa6
  {
  }

  function BitValue(t: nat, k: nat): nat {
    Digit(CounterBit(t, k))
  }

  /** The number in n bits of the counter, from bit k on. */
  function BitsFrom(t: nat, k: nat, n: nat): nat
    decreases n
  {
    if n == 0 then 0 else BitValue(t, k) + 2 * BitsFrom(t, k + 1, n - 1)
  }

  lemma {:induction false} BitsAbove(t: nat, k: nat, n: nat)
    ensures BitsFrom(t, k + 1, n) == BitsFrom(t / 2, k, n)
    decreases n
  {
    if n > 0 {
      BitsAbove(t, k + 1, n - 1);
    }
  }

  lemma {:induction false} LowBits(t: nat, n: nat)
    ensures BitsFrom(t, 0, n) == NatBits.Low(t, NatBits.Pow2(n))
  {
    if n == 0 {
      NatBits.WholeNumber(t);
    } else {
      BitsAbove(t, 0, n - 1);
      LowBits(t / 2, n - 1);
      NatBits.DivMod(t, NatBits.Pow2(n - 1));
    }
  }

  lemma TwoBits(t: nat, k: nat, k1: nat, k2: nat, n: nat)
    requires k1 == k + 1 && k2 == k + 2
    ensures BitsFrom(t, k, n + 2) == BitValue(t, k) + 2 * BitValue(t, k1) + 4 * BitsFrom(t, k2, n)
    ensures BitsFrom(t, k, 0) == 0
  {
    hide BitValue;
    assert BitsFrom(t, k, n + 2) == BitValue(t, k) + 2 * BitsFrom(t, k1, n + 1);
    assert BitsFrom(t, k1, n + 1) == BitValue(t, k1) + 2 * BitsFrom(t, k2, n);
  }

  lemma ByteValue(t: nat, k: nat)
    ensures Value(CounterByte(t, k))
      == BitValue(t, k) + 2 * BitValue(t, k + 1) + 4 * BitValue(t, k + 2) + 8 * BitValue(t, k + 3)
        + 16 * BitValue(t, k + 4) + 32 * BitValue(t, k + 5) + 64 * BitValue(t, k + 6) + 128 * BitValue(t, k + 7)
  {
    hide CounterBit;
  }

  lemma ByteBits(t: nat, k: nat)
    ensures Value(CounterByte(t, k)) == BitsFrom(t, k, 8)
  {
    hide CounterByte, BitValue, BitsFrom, Value;
    ByteValue(t, k);
    TwoBits(t, k, k + 1, k + 2, 6);
    TwoBits(t, k + 2, k + 3, k + 4, 4);
    TwoBits(t, k + 4, k + 5, k + 6, 2);
    TwoBits(t, k + 6, k + 7, k + 8, 0);
    TwoBits(t, k + 8, k + 9, k + 10, 0);
  }

  lemma LowByte(t: nat)
    ensures Value(CounterByte(t, 0)) == t % 0x100
  {
    hide Value, CounterByte, BitsFrom, NatBits.Pow2;
    ByteBits(t, 0);
    LowBits(t, 8);
    NatBits.Powers();
  }

  lemma NextByte(t: nat, k: nat)
    ensures CounterByte(t, k + 8) == CounterByte(t / 0x100, k)
  {
    hide CounterBit;
    forall i | k <= i < k + 8
      ensures CounterBit(t, i + 8) == CounterBit(t / 0x100, i)
    {
      EightBitsOn(t, i);
    }
  }

  lemma EightBitsOn(t: nat, i: nat)
    ensures CounterBit(t, i + 8) == CounterBit(t / 0x100, i)
  {
    hide CounterBit;
    hide NatBits.Pow2;
    BitsOn(t, 8, i);
    NatBits.Powers();
  }

  lemma {:induction false} BitsOn(t: nat, n: nat, i: nat)
    ensures CounterBit(t, i + n) == CounterBit(NatBits.High(t, NatBits.Pow2(n)), i)
  {
    if n == 0 {
      NatBits.WholeNumber(t);
    } else {
      BitsOn(t / 2, n - 1, i);
      NatBits.DivMod(t, NatBits.Pow2(n - 1));
    }
  }

  /** The lowest k bytes of the counter, the most significant first. */
  function CounterBytes(t: nat, k: nat): (b: seq<Byte>)
    ensures |b| == k
  {
    if k == 0 then [] else [CounterByte(t, 8 * (k - 1))] + CounterBytes(t, k - 1)
  }

  lemma {:induction false} BytesFromTheTop(t: nat, k: nat)
    requires k > 0
    ensures CounterBytes(t, k) == CounterBytes(t / 0x100, k - 1) + [CounterByte(t, 0)]
  {
    hide CounterByte;
    if k == 1 {
      assert CounterBytes(t, 0) == [];
    } else {
      BytesFromTheTop(t, k - 1);
      NextByte(t, 8 * (k - 2));
    }
  }

  function Pow256(k: nat): (p: nat)
    ensures p > 0
  {
    if k == 0 then 1 else 0x100 * Pow256(k - 1)
  }

  lemma {:induction false} BytesNumber(t: nat, k: nat)
    ensures Number(CounterBytes(t, k)) == NatBits.Low(t, Pow256(k))
  {
    hide NatBits.Low, CounterByte, Value;
    if k == 0 {
      NatBits.WholeNumber(t);
    } else {
      BytesFromTheTop(t, k);
      BytesNumber(t / 0x100, k - 1);
      LowByte(t);
      LowParts(t, Pow256(k - 1));
    }
  }

  lemma LowParts(t: nat, m: nat)
    requires m > 0
    ensures NatBits.Low(t, 0x100 * m) == 0x100 * NatBits.Low(t / 0x100, m) + t % 0x100
  {
    var q, r, s := t / 0x100 / m, t / 0x100 % m, t % 0x100;
    assert t / 0x100 == m * q + r;
    assert t == 0x100 * (m * q + r) + s == (0x100 * m) * q + (0x100 * r + s);
    NatBits.Unique(t, 0x100 * m, q, 0x100 * r + s);
  }

  /** The eight bytes are the counter as a number of 64 bits. */
  lemma CounterValue(t: nat)
    ensures Number(Be64(t)) == t % 0x1_0000_0000_0000_0000
  {
    BytesNumber(t, 8);
    EightBytes(t);
    assert Pow256(8) == 0x1_0000_0000_0000_0000;
  }

  lemma EightBytes(t: nat)
    ensures CounterBytes(t, 8) == Be64(t)
  {
    hide CounterByte;
    assert CounterBytes(t, 1) == [CounterByte(t, 0)];
    assert CounterBytes(t, 3) == [CounterByte(t, 16), CounterByte(t, 8), CounterByte(t, 0)];
    assert CounterBytes(t, 5) == [CounterByte(t, 32), CounterByte(t, 24)] + CounterBytes(t, 3);
    assert CounterBytes(t, 7) == [CounterByte(t, 48), CounterByte(t, 40)] + CounterBytes(t, 5);
  }

  function XorHalf(a: Half, b: Half): Half {
    seq(8, i requires 0 <= i < 8 => Plus(a[i], b[i]))
  }

  function Join(a: Half, b: Half): Block {
    a + b
  }

  function Msb(b: Block): Half {
    b[..8]
  }

  function Lsb(b: Block): Half {
    b[8..]
  }

  function HalfAt(r: seq<Byte>, o: nat): Half
    requires o + 8 <= |r|
  {
    r[o..o + 8]
  }

  function Splice(r: seq<Byte>, o: nat, h: seq<Byte>): (r': seq<Byte>)
    requires o + |h| <= |r|
    ensures |r'| == |r|
  {
    r[..o] + h + r[o + |h|..]
  }

  function WrapStep(e: Block -> Block, s: State, t: nat, o: nat): (s': State)
    requires o + 8 <= |s.r|
    ensures |s'.r| == |s.r|
  {
    var b := e(Join(s.a, HalfAt(s.r, o)));
    State(XorHalf(Msb(b), Be64(t)), Splice(s.r, o, Lsb(b)))
  }

  function UnwrapStep(d: Block -> Block, s: State, t: nat, o: nat): (s': State)
    requires o + 8 <= |s.r|
    ensures |s'.r| == |s.r|
  {
    var b := d(Join(XorHalf(s.a, Be64(t)), HalfAt(s.r, o)));
    State(Msb(b), Splice(s.r, o, Lsb(b)))
  }

  /** j full passes over the n registers and i steps of the next: step i of pass j counts n * j + i. */
  function WrapSteps(e: Block -> Block, n: nat, s: State, j: nat, i: nat): (s': State)
    requires |s.r| == 8 * n && i <= n
    ensures |s'.r| == |s.r|
    decreases j, i
  {
    if i > 0 then WrapStep(e, WrapSteps(e, n, s, j, i - 1), n * j + i, 8 * (i - 1))
    else if j > 0 then WrapSteps(e, n, s, j - 1, n)
    else s
  }

  /** The same steps, taken back in reverse order. */
  function UnwrapSteps(d: Block -> Block, n: nat, s: State, j: nat, i: nat): (s': State)
    requires |s.r| == 8 * n && i <= n
    ensures |s'.r| == |s.r|
    decreases j, i
  {
    if i > 0 then UnwrapSteps(d, n, UnwrapStep(d, s, n * j + i, 8 * (i - 1)), j, i - 1)
    else if j > 0 then UnwrapSteps(d, n, s, j - 1, n)
    else s
  }

  /** The ciphertext of n halves of plaintext. */
  function Wrapped(e: Block -> Block, n: nat, p: seq<Byte>): (c: seq<Byte>)
    requires |p| == 8 * n
    ensures |c| == 8 * n + 8
  {
    var s := WrapSteps(e, n, State(IV, p), 5, n);
    s.a + s.r
  }

  /** k steps of the 6n in a row: step k works on register (k - 1) mod n, and its number is k. */
  function Numbered(e: Block -> Block, n: nat, s: State, k: nat): (s': State)
    requires n > 0 && |s.r| == 8 * n
    ensures |s'.r| == |s.r|
  {
    if k == 0 then s else WrapStep(e, Numbered(e, n, s, k - 1), k, 8 * ((k - 1) % n))
  }

  lemma {:induction false} StepsNumbered(e: Block -> Block, n: nat, s: State, j: nat, i: nat)
    requires n > 0 && |s.r| == 8 * n && i <= n
    ensures WrapSteps(e, n, s, j, i) == Numbered(e, n, s, n * j + i)
    decreases j, i
  {
    hide WrapStep;
    if i > 0 {
      StepsNumbered(e, n, s, j, i - 1);
      NatBits.Unique(n * j + i - 1, n, j, i - 1);
    } else if j > 0 {
      StepsNumbered(e, n, s, j - 1, n);
      assert n * (j - 1) + n == n * j;
    }
  }

  /** Wrapping takes the steps 1 to 6n. */
  lemma WrappedBySteps(e: Block -> Block, n: nat, p: seq<Byte>)
    requires n > 0 && |p| == 8 * n
    ensures var s := Numbered(e, n, State(IV, p), 6 * n);
      Wrapped(e, n, p) == s.a + s.r
  {
    hide WrapSteps, Numbered, IV;
    StepsNumbered(e, n, State(IV, p), 5, n);
    assert n * 5 + n == 6 * n;
  }

  /** The registers at the end of unwrapping. */
  function Unwrapped(d: Block -> Block, n: nat, c: seq<Byte>): (s: State)
    requires |c| == 8 * n + 8
    ensures |s.r| == 8 * n
  {
    UnwrapSteps(d, n, State(c[..8], c[8..]), 5, n)
  }

  // ---------------------------------------------------------------------------------------------
  // Wrapping and unwrapping undo each other

  lemma HalfPlusUndone(a: Half, b: Half)
    ensures XorHalf(XorHalf(a, b), b) == a
  {
    var c := XorHalf(XorHalf(a, b), b);
    forall i | 0 <= i < 8
      ensures c[i] == a[i]
    {
      PlusUndone(a[i], b[i]);
      hide Plus;
    }
  }

  lemma JoinHalves(a: Half, b: Half)
    ensures Msb(Join(a, b)) == a && Lsb(Join(a, b)) == b
  {
  }

  lemma HalvesJoined(b: Block)
    ensures Join(Msb(b), Lsb(b)) == b
  {
  }

  lemma SpliceTwice(r: seq<Byte>, o: nat, h: Half)
    requires o + 8 <= |r|
    ensures HalfAt(Splice(r, o, h), o) == h
    ensures Splice(Splice(r, o, h), o, HalfAt(r, o)) == r
  {
  }

  lemma WrapStepUndone(e: Block -> Block, d: Block -> Block, s: State, t: nat, o: nat)
    requires Undoes(d, e) && o + 8 <= |s.r|
    ensures UnwrapStep(d, WrapStep(e, s, t, o), t, o) == s
  {
    hide XorHalf, Be64, Splice, HalfAt, Join, Msb, Lsb;
    var x := Join(s.a, HalfAt(s.r, o));
    var b := e(x);
    HalfPlusUndone(Msb(b), Be64(t));
    SpliceTwice(s.r, o, Lsb(b));
    HalvesJoined(b);
    JoinHalves(s.a, HalfAt(s.r, o));
  }

  lemma UnwrapStepUndone(e: Block -> Block, d: Block -> Block, s: State, t: nat, o: nat)
    requires Undoes(e, d) && o + 8 <= |s.r|
    ensures WrapStep(e, UnwrapStep(d, s, t, o), t, o) == s
  {
    hide XorHalf, Be64, Splice, HalfAt, Join, Msb, Lsb;
    var a := XorHalf(s.a, Be64(t));
    var x := Join(a, HalfAt(s.r, o));
    var b := d(x);
    HalfPlusUndone(s.a, Be64(t));
    SpliceTwice(s.r, o, Lsb(b));
    HalvesJoined(b);
    JoinHalves(a, HalfAt(s.r, o));
  }

  lemma {:induction false} WrapStepsUndone(e: Block -> Block, d: Block -> Block, n: nat, s: State, j: nat, i: nat)
    requires Undoes(d, e) && |s.r| == 8 * n && i <= n
    ensures UnwrapSteps(d, n, WrapSteps(e, n, s, j, i), j, i) == s
    decreases j, i
  {
    hide WrapStep, UnwrapStep;
    if i > 0 {
      WrapStepUndone(e, d, WrapSteps(e, n, s, j, i - 1), n * j + i, 8 * (i - 1));
      WrapStepsUndone(e, d, n, s, j, i - 1);
    } else if j > 0 {
      WrapStepsUndone(e, d, n, s, j - 1, n);
    }
  }

  lemma {:induction false} UnwrapStepsUndone(e: Block -> Block, d: Block -> Block, n: nat, s: State, j: nat, i: nat)
    requires Undoes(e, d) && |s.r| == 8 * n && i <= n
    ensures WrapSteps(e, n, UnwrapSteps(d, n, s, j, i), j, i) == s
    decreases j, i
  {
    hide WrapStep, UnwrapStep;
    if i > 0 {
      UnwrapStepsUndone(e, d, n, UnwrapStep(d, s, n * j + i, 8 * (i - 1)), j, i - 1);
      UnwrapStepUndone(e, d, s, n * j + i, 8 * (i - 1));
    } else if j > 0 {
      UnwrapStepsUndone(e, d, n, s, j - 1, n);
    }
  }

  /** Unwrapping a wrapped key gives the initial value, hence acceptance, and the key. */
  lemma UnwrapOfWrap(e: Block -> Block, d: Block -> Block, n: nat, p: seq<Byte>)
    requires Undoes(d, e) && |p| == 8 * n
    ensures Unwrapped(d, n, Wrapped(e, n, p)) == State(IV, p)
  {
    hide WrapSteps, UnwrapSteps, IV;
    var s := WrapSteps(e, n, State(IV, p), 5, n);
    assert (s.a + s.r)[..8] == s.a && (s.a + s.r)[8..] == s.r;
    WrapStepsUndone(e, d, n, State(IV, p), 5, n);
  }

  /** A ciphertext that unwraps to the initial value is the wrapping of what it unwraps to. */
  lemma WrapOfUnwrap(e: Block -> Block, d: Block -> Block, n: nat, c: seq<Byte>)
    requires Undoes(e, d) && |c| == 8 * n + 8
    requires Unwrapped(d, n, c).a == IV
    ensures Wrapped(e, n, Unwrapped(d, n, c).r) == c
  {
    hide WrapSteps, UnwrapSteps, IV;
    UnwrapStepsUndone(e, d, n, State(c[..8], c[8..]), 5, n);
    assert c[..8] + c[8..] == c;
  }

  /** Unwrapping accepts exactly the ciphertexts that wrapping produces. */
  lemma AcceptedExactlyWrapped(e: Block -> Block, d: Block -> Block, n: nat, c: seq<Byte>, p: seq<Byte>)
    requires Undoes(d, e) && Undoes(e, d) && |c| == 8 * n + 8 && |p| == 8 * n
    ensures Unwrapped(d, n, c) == State(IV, p) <==> c == Wrapped(e, n, p)
  {
    hide Wrapped, Unwrapped, IV;
    if Unwrapped(d, n, c) == State(IV, p) {
      WrapOfUnwrap(e, d, n, c);
    }
    UnwrapOfWrap(e, d, n, p);
  }

  /** AES under any round keys is such a pair. */
  lemma AesDirections(box: Sbox, w: seq<Block>)
    requires MutuallyInverse(box) && |w| >= 2
    ensures Undoes((y: Block) => InvCipher(box, w, y), (x: Block) => Cipher(box, w, x))
    ensures Undoes((x: Block) => Cipher(box, w, x), (y: Block) => InvCipher(box, w, y))
  {
    hide Cipher, InvCipher;
    forall x: Block
      ensures InvCipher(box, w, Cipher(box, w, x)) == x
      ensures Cipher(box, w, InvCipher(box, w, x)) == x
    {
      InvCipherOfCipher(box, w, x);
      CipherOfInvCipher(box, w, x);
    }
  }

  // ---------------------------------------------------------------------------------------------
  // The code.  P and C are places in one memory, and may overlap.

  method Write(mem: array<Byte>, o: nat, h: seq<Byte>)
    requires o + |h| <= mem.Length
    modifies mem
    ensures mem[..] == Splice(old(mem[..]), o, h)
  {
    forall k | 0 <= k < |h| {
      mem[o + k] := h[k];
    }
  }

  /** The memory with a state laid out from place c on. */
  function Laid(was: seq<Byte>, c: nat, s: State): (m: seq<Byte>)
    requires c + 8 + |s.r| <= |was|
    ensures |m| == |was|
  {
    Splice(was, c, s.a + s.r)
  }

  lemma ReadLaid(was: seq<Byte>, c: nat, s: State, o: nat)
    requires c + 8 + |s.r| <= |was| && o + 8 <= |s.r|
    ensures HalfAt(Laid(was, c, s), c) == s.a
    ensures HalfAt(Laid(was, c, s), c + 8 + o) == HalfAt(s.r, o)
  {
    var part := s.a + s.r;
    var m := Laid(was, c, s);
    assert m[c..c + |part|] == part;
    hide Laid;
    SliceWithin(m, c, part, 0, 8);
    SliceWithin(m, c, part, 8 + o, 8);
    assert part[0..8] == s.a;
    assert part[8 + o..8 + o + 8] == s.r[o..o + 8];
  }

  lemma SliceWithin(m: seq<Byte>, c: nat, part: seq<Byte>, o: nat, k: nat)
    requires c + |part| <= |m| && m[c..c + |part|] == part && o + k <= |part|
    ensures m[c + o..c + o + k] == part[o..o + k]
  {
    var a, b := m[c + o..c + o + k], part[o..o + k];
    forall i | 0 <= i < k
      ensures a[i] == b[i]
    {
      assert m[c..c + |part|][o + i] == m[c + o + i];
    }
  }

  lemma WriteLaid(was: seq<Byte>, c: nat, s: State, o: nat, a: Half, h: Half)
    requires c + 8 + |s.r| <= |was| && o + 8 <= |s.r|
    ensures Splice(Splice(Laid(was, c, s), c, a), c + 8 + o, h) == Laid(was, c, State(a, Splice(s.r, o, h)))
  {
    SpliceWithin(was, c, s.a + s.r, 0, a);
    SplicedFirst(s.a, s.r, a);
    SpliceWithin(was, c, a + s.r, 8 + o, h);
    SplicedRest(a, s.r, o, h);
    hide Splice;
  }

  lemma SplicedFirst(a: Half, r: seq<Byte>, b: Half)
    ensures Splice(a + r, 0, b) == b + r
  {
  }

  lemma SplicedRest(a: Half, r: seq<Byte>, o: nat, h: Half)
    requires o + 8 <= |r|
    ensures Splice(a + r, 8 + o, h) == a + Splice(r, o, h)
  {
    assert (a + r)[..8 + o] == a + r[..o];
    assert (a + r)[8 + o + 8..] == r[o + 8..];
  }

  /** Writing into a part is writing to the memory. */
  lemma SpliceWithin(was: seq<Byte>, c: nat, part: seq<Byte>, o: nat, h: seq<Byte>)
    requires c + |part| <= |was| && o + |h| <= |part|
    ensures Splice(Splice(was, c, part), c + o, h) == Splice(was, c, Splice(part, o, h))
  {
    var m := Splice(was, c, part);
    assert m[..c + o] == was[..c] + part[..o];
    assert m[c + o + |h|..] == part[o + |h|..] + was[c + |part|..];
  }

  /** aes_key_wrap. */
  method Wrap(e: Block -> Block, mem: array<Byte>, p: nat, n: nat, c: nat)
    requires p + 8 * n <= mem.Length && c + 8 + 8 * n <= mem.Length
    modifies mem
    ensures mem[..] == Splice(old(mem[..]), c, Wrapped(e, n, old(mem[p..p + 8 * n])))
  {
    hide WrapStep, Be64, XorHalf, IV, Laid, Splice, HalfAt;
    ghost var was, plain := mem[..], mem[p..p + 8 * n];
    ghost var s0 := State(IV, plain);
    Write(mem, c + 8, mem[p..p + 8 * n]);
    Write(mem, c, IV);
    StartLaid(was, c, plain);
    var t: nat := 1;
    for j := 0 to 6
      invariant t == n * j + 1
      invariant mem[..] == Laid(was, c, WrapSteps(e, n, s0, j, 0))
    {
      var r := c + 8;
      for i := 1 to n + 1
        invariant t == n * j + i && r == c + 8 * i
        invariant mem[..] == Laid(was, c, WrapSteps(e, n, s0, j, i - 1))
      {
        ghost var s := WrapSteps(e, n, s0, j, i - 1);
        ReadLaid(was, c, s, 8 * (i - 1));
        var b := e(Join(HalfAt(mem[..], c), HalfAt(mem[..], r)));
        var a := XorHalf(Msb(b), Be64(t));
        Write(mem, c, a);
        Write(mem, r, Lsb(b));
        WriteLaid(was, c, s, 8 * (i - 1), a, Lsb(b));
        WrapStepIs(e, s, t, 8 * (i - 1));
        r := r + 8;
        t := t + 1;
      }
    }
    WrappedLaid(was, c, e, n, plain);
  }

  /** aes_key_unwrap: 0 when the ciphertext is accepted. */
  method Unwrap(d: Block -> Block, mem: array<Byte>, c: nat, p: nat, n: nat) returns (r: int)
    requires p + 8 * n <= mem.Length && c + 8 + 8 * n <= mem.Length
    modifies mem
    ensures var s := Unwrapped(d, n, old(mem[c..c + 8 + 8 * n]));
      mem[..] == Splice(old(mem[..]), p, s.r) && r == if s.a == IV then 0 else 1
  {
    hide UnwrapStep, Be64, XorHalf, IV, Splice, HalfAt;
    ghost var was := mem[..];
    ghost var cipher := mem[c..c + 8 + 8 * n];
    var a: Half := mem[c..c + 8];
    Write(mem, p, mem[c + 8..c + 8 + 8 * n]);
    assert a == cipher[..8] && was[c + 8..c + 8 + 8 * n] == cipher[8..];
    ghost var s := State(a, cipher[8..]);
    var t: nat := 6 * n;
    for j := 6 downto 0
      invariant t == n * (j - 1) + n
      invariant |s.r| == 8 * n && s.a == a && mem[..] == Splice(was, p, s.r)
      invariant j > 0 ==> UnwrapSteps(d, n, s, j - 1, n) == Unwrapped(d, n, cipher)
      invariant j == 0 ==> s == Unwrapped(d, n, cipher)
    {
      for i := n downto 0
        invariant t == n * j + i
        invariant |s.r| == 8 * n && s.a == a && mem[..] == Splice(was, p, s.r)
        invariant UnwrapSteps(d, n, s, j, i) == Unwrapped(d, n, cipher)
      {
        var o := p + 8 * i;
        ReadSplice(was, p, s.r, 8 * i);
        var b := d(Join(XorHalf(a, Be64(t)), HalfAt(mem[..], o)));
        a := Msb(b);
        Write(mem, o, Lsb(b));
        WriteSplice(was, p, s.r, 8 * i, Lsb(b));
        UnwrapStepIs(d, s, t, 8 * i);
        s := UnwrapStep(d, s, t, 8 * i);
        t := t - 1;
      }
    }
    r := if a == IV then 0 else 1;
  }

  lemma ReadSplice(was: seq<Byte>, p: nat, r: seq<Byte>, o: nat)
    requires p + |r| <= |was| && o + 8 <= |r|
    ensures HalfAt(Splice(was, p, r), p + o) == HalfAt(r, o)
  {
  }

  lemma WriteSplice(was: seq<Byte>, p: nat, r: seq<Byte>, o: nat, h: Half)
    requires p + |r| <= |was| && o + 8 <= |r|
    ensures Splice(Splice(was, p, r), p + o, h) == Splice(was, p, Splice(r, o, h))
  {
  }

  lemma UnwrapStepIs(d: Block -> Block, s: State, t: nat, o: nat)
    requires o + 8 <= |s.r|
    ensures var b := d(Join(XorHalf(s.a, Be64(t)), HalfAt(s.r, o)));
      UnwrapStep(d, s, t, o) == State(Msb(b), Splice(s.r, o, Lsb(b)))
  {
  }

  lemma StartLaid(was: seq<Byte>, c: nat, plain: seq<Byte>)
    requires c + 8 + |plain| <= |was|
    ensures Splice(Splice(was, c + 8, plain), c, IV) == Laid(was, c, State(IV, plain))
  {
    hide IV;
  }

  lemma WrapStepIs(e: Block -> Block, s: State, t: nat, o: nat)
    requires o + 8 <= |s.r|
    ensures var b := e(Join(s.a, HalfAt(s.r, o)));
      WrapStep(e, s, t, o) == State(XorHalf(Msb(b), Be64(t)), Splice(s.r, o, Lsb(b)))
  {
  }

  lemma WrappedLaid(was: seq<Byte>, c: nat, e: Block -> Block, n: nat, plain: seq<Byte>)
    requires |plain| == 8 * n && c + 8 + |plain| <= |was|
    ensures Laid(was, c, WrapSteps(e, n, State(IV, plain), 5, n)) == Splice(was, c, Wrapped(e, n, plain))
  {
    hide WrapSteps, Splice;
  }
}
