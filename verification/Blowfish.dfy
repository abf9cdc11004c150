/** Blowfish (blf.c): the block cipher, for any contents of the S-boxes and subkeys. */
module Blowfish {
  import opened Feistel
  import opened BigEndian

  type Bytes8 = b: seq<bv8> | |b| == 8 witness seq(8, _ => 0)

  /** The S-boxes, one after the other, and the subkeys. */
  datatype Key = Key(s: seq<bv32>, p: seq<bv32>) {
    predicate Sized() {
      |s| == 0x400 && |p| == 18
    }
  }

  /** The macro F. */
  function F(s: seq<bv32>, x: bv32): bv32
    requires |s| == 0x400
  {
    var w := Xor(Plus(s[Byte3(x) as nat], s[0x100 + Byte2(x) as nat]), s[0x200 + Byte1(x) as nat]);
    Plus(w, s[0x300 + Byte0(x) as nat])
  }

  /** Addition modulo 2^32. */
  function Plus(a: bv32, b: bv32): bv32 {
    a + b
  }

  /** F of four bytes, the most significant first: each looks into a table of its own. */
  lemma FOfBytes(s: seq<bv32>, a: bv8, b: bv8, c: bv8, d: bv8)
    requires |s| == 0x400
    ensures F(s, Word(a, b, c, d))
      == Plus(Xor(Plus(s[a as nat], s[256 + b as nat]), s[512 + c as nat]), s[768 + d as nat])
  {
    hide Plus, Xor, Word, Byte0, Byte1, Byte2, Byte3;
    BytesOfWord(a, b, c, d);
  }

  function Xor(a: bv32, b: bv32): bv32 {
    a ^ b
  }

  lemma XorCancels()
    ensures Cancels(Xor)
  {
  }

  /** The macro BLFRND: the new value of i. */
  function Rnd(c: Key, i: bv32, j: bv32, n: nat): bv32
    requires c.Sized() && n < 18
  {
    Xor(i, Xor(F(c.s, j), c.p[n]))
  }

  // ---------------------------------------------------------------------------------------------
  // The cipher as Schneier states it: sixteen times, add the subkey to the left half, add F of the left
  // half to the right half, and swap; then undo the last swap and add the last two subkeys

  function Rounds(c: Key, x: Halves<bv32>, n: nat): Halves<bv32>
    requires c.Sized() && n <= 16
  {
    if n == 0 then x
    else
      var s := Rounds(c, x, n - 1);
      var l := Xor(s.l, c.p[n - 1]);
      Halves(Xor(s.r, F(c.s, l)), l)
  }

  function Blowfish(c: Key, x: Halves<bv32>): Halves<bv32>
    requires c.Sized()
  {
    var s := Rounds(c, x, 16).Swap();
    Halves(Xor(s.l, c.p[17]), Xor(s.r, c.p[16]))
  }

  // ---------------------------------------------------------------------------------------------
  // The code as a Feistel network without swaps

  function StepFunction(c: Key): (nat, bv32) -> bv32
    requires c.Sized()
  {
    (k: nat, v: bv32) => if 1 <= k <= 16 then Xor(F(c.s, v), c.p[k]) else 0
  }

  function Network(c: Key, s: Halves<bv32>, k: nat): Halves<bv32>
    requires c.Sized()
  {
    Steps(Xor, StepFunction(c), s, k)
  }

  function Enciphered(c: Key, x: Halves<bv32>): Halves<bv32>
    requires c.Sized()
  {
    var s := Network(c, Halves(Xor(x.l, c.p[0]), x.r), 16);
    Halves(Xor(s.r, c.p[17]), s.l)
  }

  /** The same subkeys in the opposite order. */
  function Reversed(c: Key): (d: Key)
    requires c.Sized()
    ensures d.Sized()
  {
    Key(c.s, seq(18, i requires 0 <= i < 18 => c.p[17 - i]))
  }

  /** Deciphering runs the cipher on the subkeys in the opposite order. */
  function Deciphered(c: Key, x: Halves<bv32>): Halves<bv32>
    requires c.Sized()
  {
    Enciphered(Reversed(c), x)
  }

  lemma ReversedSteps(c: Key, k: nat, v: bv32)
    requires c.Sized() && 1 <= k <= 16
    ensures StepFunction(Reversed(c))(k, v) == StepFunction(c)(17 - k, v)
  {
    hide F, Xor;
  }

  lemma ReversedTwice(c: Key)
    requires c.Sized()
    ensures Reversed(Reversed(c)) == c
  {
    assert Reversed(Reversed(c)).p == c.p;
  }

  /** Blowfish_decipher undoes Blowfish_encipher, for any contents of the S-boxes and subkeys. */
  lemma DecipherUndoesEncipher(c: Key, x: Halves<bv32>)
    requires c.Sized()
    ensures Deciphered(c, Enciphered(c, x)) == x
  {
    hide Xor, F, StepFunction;
    XorCancels();
    var f, g := StepFunction(c), StepFunction(Reversed(c));
    var s := Halves(Xor(x.l, c.p[0]), x.r);
    forall k: nat, v | 1 <= k <= 16
      ensures g(k, v) == f(17 - k, v)
    {
      ReversedSteps(c, k, v);
    }
    SwappedRetraces(Xor, f, g, s, 16, 16);
    var t := Steps(Xor, f, s, 16);
    assert Xor(Xor(t.r, c.p[17]), c.p[17]) == t.r;
    assert Xor(Xor(x.l, c.p[0]), c.p[0]) == x.l;
  }

  lemma EncipherUndoesDecipher(c: Key, x: Halves<bv32>)
    requires c.Sized()
    ensures Enciphered(c, Deciphered(c, x)) == x
  {
    hide Enciphered, Reversed;
    ReversedTwice(c);
    DecipherUndoesEncipher(Reversed(c), x);
  }

  lemma WordXorAssociates(a: bv32, b: bv32, c: bv32)
    ensures a ^ (b ^ c) == (a ^ b) ^ c
  {
  }

  lemma XorAssociates(a: bv32, b: bv32, c: bv32)
    ensures Xor(a, Xor(b, c)) == Xor(Xor(a, b), c)
  {
    WordXorAssociates(a, b, c);
    assert Xor(b, c) == b ^ c;
    assert Xor(a, b) == a ^ b;
  }

  /** The code adds each subkey one half-round early. */
  lemma {:induction false} NetworkIsRounds(c: Key, x: Halves<bv32>, n: nat)
    requires c.Sized() && n <= 16
    ensures var t, s := Network(c, Halves(Xor(x.l, c.p[0]), x.r), n), Rounds(c, x, n);
      (if n % 2 == 0 then t else t.Swap()) == Halves(Xor(s.l, c.p[n]), s.r)
  {
    hide Xor, F;
    if n > 0 {
      NetworkIsRounds(c, x, n - 1);
      var s := Rounds(c, x, n - 1);
      XorAssociates(s.r, F(c.s, Xor(s.l, c.p[n - 1])), c.p[n]);
    }
  }

  lemma EncipheredIsBlowfish(c: Key, x: Halves<bv32>)
    requires c.Sized()
    ensures Enciphered(c, x) == Blowfish(c, x)
  {
    hide Xor, F, Network, Rounds;
    NetworkIsRounds(c, x, 16);
  }

  lemma RoundPair(c: Key, s: Halves<bv32>, k: nat)
    requires c.Sized() && k < 16 && k % 2 == 1
    ensures var t := Network(c, s, k - 1);
      var r := Rnd(c, t.r, t.l, k);
      Network(c, s, k + 1) == Halves(Rnd(c, t.l, r, k + 1), r)
  {
    hide Xor, F;
    assert Network(c, s, k) == Step(Xor, StepFunction(c), Network(c, s, k - 1), k);
  }

  // ---------------------------------------------------------------------------------------------
  // The code

  method Encipher(c: Key, x: array<bv32>)
    requires c.Sized() && x.Length == 2
    modifies x
    ensures Halves(x[0], x[1]) == Enciphered(c, old(Halves(x[0], x[1])))
  {
    hide Xor, Rnd, Network;
    var xl, xr := x[0], x[1];
    xl := Xor(xl, c.p[0]);
    ghost var s := Halves(xl, xr);
    NetworkStarts(c, s);
    xr := Rnd(c, xr, xl, 1);
    xl := Rnd(c, xl, xr, 2);
    RoundPair(c, s, 1);
    assert Halves(xl, xr) == Network(c, s, 2);
    xr := Rnd(c, xr, xl, 3);
    xl := Rnd(c, xl, xr, 4);
    RoundPair(c, s, 3);
    assert Halves(xl, xr) == Network(c, s, 4);
    xr := Rnd(c, xr, xl, 5);
    xl := Rnd(c, xl, xr, 6);
    RoundPair(c, s, 5);
    assert Halves(xl, xr) == Network(c, s, 6);
    xr := Rnd(c, xr, xl, 7);
    xl := Rnd(c, xl, xr, 8);
    RoundPair(c, s, 7);
    assert Halves(xl, xr) == Network(c, s, 8);
    xr := Rnd(c, xr, xl, 9);
    xl := Rnd(c, xl, xr, 10);
    RoundPair(c, s, 9);
    assert Halves(xl, xr) == Network(c, s, 10);
    xr := Rnd(c, xr, xl, 11);
    xl := Rnd(c, xl, xr, 12);
    RoundPair(c, s, 11);
    assert Halves(xl, xr) == Network(c, s, 12);
    xr := Rnd(c, xr, xl, 13);
    xl := Rnd(c, xl, xr, 14);
    RoundPair(c, s, 13);
    assert Halves(xl, xr) == Network(c, s, 14);
    xr := Rnd(c, xr, xl, 15);
    xl := Rnd(c, xl, xr, 16);
    RoundPair(c, s, 15);
    assert Halves(xl, xr) == Network(c, s, 16);
    x[0] := Xor(xr, c.p[17]);
    x[1] := xl;
  }

  lemma NetworkStarts(c: Key, s: Halves<bv32>)
    requires c.Sized()
    ensures Network(c, s, 0) == s
  {
  }

  method Decipher(c: Key, x: array<bv32>)
    requires c.Sized() && x.Length == 2
    modifies x
    ensures Halves(x[0], x[1]) == Deciphered(c, old(Halves(x[0], x[1])))
  {
    hide Xor, F, Network;
    ghost var d := Reversed(c);
    var xl, xr := x[0], x[1];
    xl := Xor(xl, c.p[17]);
    ghost var s := Halves(xl, xr);
    NetworkStarts(d, s);
    xr := Rnd(c, xr, xl, 16);
    xl := Rnd(c, xl, xr, 15);
    RoundPair(d, s, 1);
    assert Halves(xl, xr) == Network(d, s, 2);
    xr := Rnd(c, xr, xl, 14);
    xl := Rnd(c, xl, xr, 13);
    RoundPair(d, s, 3);
    assert Halves(xl, xr) == Network(d, s, 4);
    xr := Rnd(c, xr, xl, 12);
    xl := Rnd(c, xl, xr, 11);
    RoundPair(d, s, 5);
    assert Halves(xl, xr) == Network(d, s, 6);
    xr := Rnd(c, xr, xl, 10);
    xl := Rnd(c, xl, xr, 9);
    RoundPair(d, s, 7);
    assert Halves(xl, xr) == Network(d, s, 8);
    xr := Rnd(c, xr, xl, 8);
    xl := Rnd(c, xl, xr, 7);
    RoundPair(d, s, 9);
    assert Halves(xl, xr) == Network(d, s, 10);
    xr := Rnd(c, xr, xl, 6);
    xl := Rnd(c, xl, xr, 5);
    RoundPair(d, s, 11);
    assert Halves(xl, xr) == Network(d, s, 12);
    xr := Rnd(c, xr, xl, 4);
    xl := Rnd(c, xl, xr, 3);
    RoundPair(d, s, 13);
    assert Halves(xl, xr) == Network(d, s, 14);
    xr := Rnd(c, xr, xl, 2);
    xl := Rnd(c, xl, xr, 1);
    RoundPair(d, s, 15);
    assert Halves(xl, xr) == Network(d, s, 16);
    x[0] := Xor(xr, c.p[0]);
    x[1] := xl;
  }

  // ---------------------------------------------------------------------------------------------
  // Blocks of eight bytes, most significant byte first

  function Load(b: Bytes8): Halves<bv32> {
    Halves(Word(b[0], b[1], b[2], b[3]), Word(b[4], b[5], b[6], b[7]))
  }

  function Stored(x: Halves<bv32>): Bytes8 {
    [Byte3(x.l), Byte2(x.l), Byte1(x.l), Byte0(x.l), Byte3(x.r), Byte2(x.r), Byte1(x.r), Byte0(x.r)]
  }

  lemma LoadStored(x: Halves<bv32>)
    ensures Load(Stored(x)) == x
  {
    hide Word, Byte3, Byte2, Byte1, Byte0;
    WordOfBytes(x.l);
    WordOfBytes(x.r);
  }

  lemma StoredLoad(b: Bytes8)
    ensures Stored(Load(b)) == b
  {
    hide Word, Byte3, Byte2, Byte1, Byte0;
    BytesOfWord(b[0], b[1], b[2], b[3]);
    BytesOfWord(b[4], b[5], b[6], b[7]);
  }

  function EncBlock(c: Key, b: Bytes8): Bytes8
    requires c.Sized()
  {
    Stored(Enciphered(c, Load(b)))
  }

  function DecBlock(c: Key, b: Bytes8): Bytes8
    requires c.Sized()
  {
    Stored(Deciphered(c, Load(b)))
  }

  lemma DecBlockUndoes(c: Key, b: Bytes8)
    requires c.Sized()
    ensures DecBlock(c, EncBlock(c, b)) == b
    ensures EncBlock(c, DecBlock(c, b)) == b
  {
    hide Load, Stored, Enciphered, Deciphered;
    LoadStored(Enciphered(c, Load(b)));
    LoadStored(Deciphered(c, Load(b)));
    DecipherUndoesEncipher(c, Load(b));
    EncipherUndoesDecipher(c, Load(b));
    StoredLoad(b);
  }

  function XorBytes(a: Bytes8, b: Bytes8): Bytes8 {
    seq(8, i requires 0 <= i < 8 => a[i] ^ b[i])
  }

  lemma ByteXorCancels(x: bv8, y: bv8)
    ensures (x ^ y) ^ y == x
  {
  }

  lemma XorBytesCancels(a: Bytes8, b: Bytes8)
    ensures XorBytes(XorBytes(a, b), b) == a
  {
    var x := XorBytes(XorBytes(a, b), b);
    forall i | 0 <= i < 8
      ensures x[i] == a[i]
    {
      ByteXorCancels(a[i], b[i]);
    }
  }
}
