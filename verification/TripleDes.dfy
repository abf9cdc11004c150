/** Triple DES (ecb_enc.c, ecb3_enc.c, des_locl.h), for any contents of the substitution tables and any key
    schedules. */
module TripleDes {
  import opened Feistel
  import opened BigEndian

  type Bytes8 = b: seq<bv8> | |b| == 8 witness [0, 0, 0, 0, 0, 0, 0, 0]

  /** des_SPtrans: eight tables of 64 words. */
  predicate AreTables(sp: seq<seq<bv32>>) {
    |sp| == 8 && forall i :: 0 <= i < 8 ==> |sp[i]| == 64
  }

  function Xor(a: bv32, b: bv32): bv32 {
    a ^ b
  }

  lemma XorCancels()
    ensures Cancels(Xor)
  {
  }

  // ---------------------------------------------------------------------------------------------
  // The initial and the final permutation

  /** The distances and masks with which PERM_OP is used. */
  datatype Trade = Trade4 | Trade16 | Trade2 | Trade8 | Trade1

  /** The macro PERM_OP: some bits of a and b trade places. */
  function PermOp(a: bv32, b: bv32, w: Trade): (bv32, bv32) {
    match w
    case Trade4 => var t := ((a >> 4) ^ b) & 0x0f0f0f0f; (a ^ (t << 4), b ^ t)
    case Trade16 => var t := ((a >> 16) ^ b) & 0x0000ffff; (a ^ (t << 16), b ^ t)
    case Trade2 => var t := ((a >> 2) ^ b) & 0x33333333; (a ^ (t << 2), b ^ t)
    case Trade8 => var t := ((a >> 8) ^ b) & 0x00ff00ff; (a ^ (t << 8), b ^ t)
    case Trade1 => var t := ((a >> 1) ^ b) & 0x55555555; (a ^ (t << 1), b ^ t)
  }

  lemma TradeTwice4(a: bv32, b: bv32)
    ensures (((a ^ ((((a >> 4) ^ b) & 0x0f0f0f0f) << 4)) >> 4) ^ (b ^ (((a >> 4) ^ b) & 0x0f0f0f0f))) & 0x0f0f0f0f
      == ((a >> 4) ^ b) & 0x0f0f0f0f
  {
  }

  lemma TradeTwice16(a: bv32, b: bv32)
    ensures (((a ^ ((((a >> 16) ^ b) & 0x0000ffff) << 16)) >> 16) ^ (b ^ (((a >> 16) ^ b) & 0x0000ffff))) & 0x0000ffff
      == ((a >> 16) ^ b) & 0x0000ffff
  {
  }

  lemma TradeTwice2(a: bv32, b: bv32)
    ensures (((a ^ ((((a >> 2) ^ b) & 0x33333333) << 2)) >> 2) ^ (b ^ (((a >> 2) ^ b) & 0x33333333))) & 0x33333333
      == ((a >> 2) ^ b) & 0x33333333
  {
  }

  lemma TradeTwice8(a: bv32, b: bv32)
    ensures (((a ^ ((((a >> 8) ^ b) & 0x00ff00ff) << 8)) >> 8) ^ (b ^ (((a >> 8) ^ b) & 0x00ff00ff))) & 0x00ff00ff
      == ((a >> 8) ^ b) & 0x00ff00ff
  {
  }

  lemma TradeTwice1(a: bv32, b: bv32)
    ensures (((a ^ ((((a >> 1) ^ b) & 0x55555555) << 1)) >> 1) ^ (b ^ (((a >> 1) ^ b) & 0x55555555))) & 0x55555555
      == ((a >> 1) ^ b) & 0x55555555
  {
  }

  lemma PermOpTwice4(a: bv32, b: bv32)
    ensures PermOp(PermOp(a, b, Trade4).0, PermOp(a, b, Trade4).1, Trade4) == (a, b)
  {
    TradeTwice4(a, b);
  }

  lemma PermOpTwice16(a: bv32, b: bv32)
    ensures PermOp(PermOp(a, b, Trade16).0, PermOp(a, b, Trade16).1, Trade16) == (a, b)
  {
    TradeTwice16(a, b);
  }

  lemma PermOpTwice2(a: bv32, b: bv32)
    ensures PermOp(PermOp(a, b, Trade2).0, PermOp(a, b, Trade2).1, Trade2) == (a, b)
  {
    TradeTwice2(a, b);
  }

  lemma PermOpTwice8(a: bv32, b: bv32)
    ensures PermOp(PermOp(a, b, Trade8).0, PermOp(a, b, Trade8).1, Trade8) == (a, b)
  {
    TradeTwice8(a, b);
  }

  lemma PermOpTwice1(a: bv32, b: bv32)
    ensures PermOp(PermOp(a, b, Trade1).0, PermOp(a, b, Trade1).1, Trade1) == (a, b)
  {
    TradeTwice1(a, b);
  }

  /** Trading again gives back what was traded. */
  lemma PermOpTwice(a: bv32, b: bv32, w: Trade)
    ensures PermOp(PermOp(a, b, w).0, PermOp(a, b, w).1, w) == (a, b)
  {
    hide PermOp;
    match w
    case Trade4 => PermOpTwice4(a, b);
    case Trade16 => PermOpTwice16(a, b);
    case Trade2 => PermOpTwice2(a, b);
    case Trade8 => PermOpTwice8(a, b);
    case Trade1 => PermOpTwice1(a, b);
  }

  /** PERM_OP on the halves, from the right one to the left one or the other way round. */
  function Traded(x: Halves<bv32>, w: Trade, fromRight: bool): Halves<bv32> {
    if fromRight then var (a, b) := PermOp(x.r, x.l, w); Halves(b, a)
    else var (a, b) := PermOp(x.l, x.r, w); Halves(a, b)
  }

  lemma TradedTwice(x: Halves<bv32>, w: Trade, fromRight: bool)
    ensures Traded(Traded(x, w, fromRight), w, fromRight) == x
  {
    hide PermOp;
    if fromRight {
      PermOpTwice(x.r, x.l, w);
    } else {
      PermOpTwice(x.l, x.r, w);
    }
  }

  /** The macro IP. */
  function Initial(x: Halves<bv32>): Halves<bv32> {
    Traded(Traded(Traded(Traded(Traded(x, Trade4, true), Trade16, false), Trade2, true), Trade8, false), Trade1, true)
  }

  /** The macro FP, called with the halves in the order FP(r, l). */
  function Final(x: Halves<bv32>): Halves<bv32> {
    Traded(Traded(Traded(Traded(Traded(x, Trade1, true), Trade8, false), Trade2, true), Trade16, false), Trade4, true)
  }

  lemma FinalUndoesInitial(x: Halves<bv32>)
    ensures Final(Initial(x)) == x
    ensures Initial(Final(x)) == x
  {
    hide Traded;
    var a := Traded(x, Trade4, true);
    var b := Traded(a, Trade16, false);
    var c := Traded(b, Trade2, true);
    var d := Traded(c, Trade8, false);
    TradedTwice(x, Trade4, true);
    TradedTwice(a, Trade16, false);
    TradedTwice(b, Trade2, true);
    TradedTwice(c, Trade8, false);
    TradedTwice(d, Trade1, true);
    var p := Traded(x, Trade1, true);
    var q := Traded(p, Trade8, false);
    var r := Traded(q, Trade2, true);
    var s := Traded(r, Trade16, false);
    TradedTwice(x, Trade1, true);
    TradedTwice(p, Trade8, false);
    TradedTwice(q, Trade2, true);
    TradedTwice(r, Trade16, false);
    TradedTwice(s, Trade4, true);
  }

  // ---------------------------------------------------------------------------------------------
  // The rounds

  function Index(x: bv32, n: bv32): (i: nat)
    requires n <= 24
    ensures i < 64
  {
    ((x >> n) & 0x3f) as int
  }

  function Ror4(x: bv32): bv32 {
    (x >> 4) + (x << 28)
  }

  /** What the macro D_ENCRYPT adds to the other half; s0 and s1 are the words of the schedule. */
  function F(sp: seq<seq<bv32>>, s0: bv32, s1: bv32, x: bv32): bv32
    requires AreTables(sp)
  {
    var u := x ^ s0;
    var t := Ror4(x ^ s1);
    sp[1][Index(t, 0)] | sp[3][Index(t, 8)] | sp[5][Index(t, 16)] | sp[7][Index(t, 24)]
    | sp[0][Index(u, 0)] | sp[2][Index(u, 8)] | sp[4][Index(u, 16)] | sp[6][Index(u, 24)]
  }

  /** Round k, counted in the direction of encryption, uses words 2k - 2 and 2k - 1; decryption takes the
      rounds in the opposite order. */
  function RoundFunction(sp: seq<seq<bv32>>, s: seq<bv32>, enc: bool): (nat, bv32) -> bv32
    requires AreTables(sp) && |s| == 32
  {
    (k: nat, v: bv32) =>
      if 1 <= k <= 16 then
        var i := if enc then 2 * k - 2 else 32 - 2 * k;
        F(sp, s[i], s[i + 1], v)
      else 0
  }

  function Network(sp: seq<seq<bv32>>, s: seq<bv32>, enc: bool, x: Halves<bv32>, k: nat): Halves<bv32>
    requires AreTables(sp) && |s| == 32
  {
    Steps(Xor, RoundFunction(sp, s, enc), x, k)
  }

  function Rol1(x: bv32): bv32 {
    (x << 1) | (x >> 31)
  }

  function Ror1(x: bv32): bv32 {
    (x >> 1) | (x << 31)
  }

  lemma RotatedBack(x: bv32)
    ensures Ror1(Rol1(x)) == x
    ensures Rol1(Ror1(x)) == x
  {
  }

  /** des_encrypt2. */
  function Crypted(sp: seq<seq<bv32>>, s: seq<bv32>, enc: bool, x: Halves<bv32>): Halves<bv32>
    requires AreTables(sp) && |s| == 32
  {
    var y := Network(sp, s, enc, Halves(Rol1(x.l), Rol1(x.r)), 16);
    Halves(Ror1(y.r), Ror1(y.l))
  }

  /** Each direction of des_encrypt2 undoes the other, for any tables and schedule. */
  lemma CryptedBack(sp: seq<seq<bv32>>, s: seq<bv32>, enc: bool, x: Halves<bv32>)
    requires AreTables(sp) && |s| == 32
    ensures Crypted(sp, s, !enc, Crypted(sp, s, enc, x)) == x
  {
    hide Rol1, Ror1, F, Xor;
    XorCancels();
    var f, g := RoundFunction(sp, s, enc), RoundFunction(sp, s, !enc);
    forall k: nat, v | 1 <= k <= 16
      ensures g(k, v) == f(17 - k, v)
    {
    }
    var x0 := Halves(Rol1(x.l), Rol1(x.r));
    SwappedRetraces(Xor, f, g, x0, 16, 16);
    var y := Steps(Xor, f, x0, 16);
    RotatedBack(y.l);
    RotatedBack(y.r);
    RotatedBack(x.l);
    RotatedBack(x.r);
    assert Steps(Xor, f, x0, 0) == x0;
  }

  lemma RoundIs(sp: seq<seq<bv32>>, s: seq<bv32>, enc: bool, k: nat, v: bv32)
    requires AreTables(sp) && |s| == 32 && 1 <= k <= 16
    ensures var i := if enc then 2 * k - 2 else 32 - 2 * k;
      RoundFunction(sp, s, enc)(k, v) == F(sp, s[i], s[i + 1], v)
  {
    hide F;
  }

  /** One turn of the round loop. */
  lemma TwoRounds(sp: seq<seq<bv32>>, s: seq<bv32>, enc: bool, x: Halves<bv32>, k: nat)
    requires AreTables(sp) && |s| == 32 && k % 2 == 0 && k <= 14
    ensures var i, j := if enc then 2 * k else 30 - 2 * k, if enc then 2 * k + 2 else 28 - 2 * k;
      var y := Network(sp, s, enc, x, k);
      var r := Xor(y.r, F(sp, s[i], s[i + 1], y.l));
      Network(sp, s, enc, x, k + 2) == Halves(Xor(y.l, F(sp, s[j], s[j + 1], r)), r)
  {
    hide F, Xor, RoundFunction;
    var f := RoundFunction(sp, s, enc);
    var y := Steps(Xor, f, x, k);
    RoundIs(sp, s, enc, k + 1, y.l);
    RoundIs(sp, s, enc, k + 2, Xor(y.r, f(k + 1, y.l)));
    assert Steps(Xor, f, x, k + 1) == Step(Xor, f, Steps(Xor, f, x, k), k + 1);
    assert Steps(Xor, f, x, k + 2) == Step(Xor, f, Steps(Xor, f, x, k + 1), k + 2);
  }

  lemma NetworkStarts(sp: seq<seq<bv32>>, s: seq<bv32>, enc: bool, x: Halves<bv32>)
    requires AreTables(sp) && |s| == 32
    ensures Network(sp, s, enc, x, 0) == x
  {
  }

  method Encrypt2(sp: seq<seq<bv32>>, data: array<bv32>, s: seq<bv32>, encrypt: bool)
    requires AreTables(sp) && |s| == 32 && data.Length == 2
    modifies data
    ensures Halves(data[0], data[1]) == Crypted(sp, s, encrypt, old(Halves(data[0], data[1])))
  {
    hide F, Xor, Network, Rol1, Ror1;
    var u := data[0];
    var r := data[1];
    var l := Rol1(r);
    r := Rol1(u);
    ghost var x := Halves(r, l);
    NetworkStarts(sp, s, encrypt, x);
    ghost var k := 0;
    if encrypt {
      var i := 0;
      while i < 32
        invariant k % 2 == 0 && k <= 16 && i == 2 * k
        invariant Halves(r, l) == Network(sp, s, true, x, k)
      {
        TwoRounds(sp, s, true, x, k);
        l := Xor(l, F(sp, s[i], s[i + 1], r));
        r := Xor(r, F(sp, s[i + 2], s[i + 3], l));
        i := i + 4;
        k := k + 2;
      }
    } else {
      var i := 30;
      while i > 0
        invariant k % 2 == 0 && k <= 16 && i == 30 - 2 * k
        invariant Halves(r, l) == Network(sp, s, false, x, k)
      {
        TwoRounds(sp, s, false, x, k);
        l := Xor(l, F(sp, s[i], s[i + 1], r));
        r := Xor(r, F(sp, s[i - 2], s[i - 1], l));
        i := i - 4;
        k := k + 2;
      }
    }
    l := Ror1(l);
    r := Ror1(r);
    data[0] := l;
    data[1] := r;
  }

  // ---------------------------------------------------------------------------------------------
  // Triple DES on a block

  function Load(b: Bytes8): Halves<bv32> {
    Halves(Word(b[3], b[2], b[1], b[0]), Word(b[7], b[6], b[5], b[4]))
  }

  function Stored(x: Halves<bv32>): Bytes8 {
    [Byte0(x.l), Byte1(x.l), Byte2(x.l), Byte3(x.l), Byte0(x.r), Byte1(x.r), Byte2(x.r), Byte3(x.r)]
  }

  lemma StoredLoad(b: Bytes8)
    ensures Stored(Load(b)) == b
  {
    hide Word, Byte0, Byte1, Byte2, Byte3;
    BytesOfWord(b[3], b[2], b[1], b[0]);
    BytesOfWord(b[7], b[6], b[5], b[4]);
  }

  lemma LoadStored(x: Halves<bv32>)
    ensures Load(Stored(x)) == x
  {
    hide Word, Byte0, Byte1, Byte2, Byte3;
    WordOfBytes(x.l);
    WordOfBytes(x.r);
  }

  /** des_ecb3_encrypt. */
  function Triple(sp: seq<seq<bv32>>, k1: seq<bv32>, k2: seq<bv32>, k3: seq<bv32>, enc: bool, b: Bytes8): Bytes8
    requires AreTables(sp) && |k1| == |k2| == |k3| == 32
  {
    Stored(Final(Crypted(sp, k3, enc, Crypted(sp, k2, !enc, Crypted(sp, k1, enc, Initial(Load(b)))))))
  }

  /** With the schedules in the opposite order and the other direction, what was done is undone. */
  lemma TripleBack(sp: seq<seq<bv32>>, k1: seq<bv32>, k2: seq<bv32>, k3: seq<bv32>, enc: bool, b: Bytes8)
    requires AreTables(sp) && |k1| == |k2| == |k3| == 32
    ensures Triple(sp, k3, k2, k1, !enc, Triple(sp, k1, k2, k3, enc, b)) == b
  {
    hide Crypted, Initial, Final, Load, Stored;
    var x := Initial(Load(b));
    var y := Crypted(sp, k1, enc, x);
    var z := Crypted(sp, k2, !enc, y);
    var v := Crypted(sp, k3, enc, z);
    LoadStored(Final(v));
    FinalUndoesInitial(v);
    CryptedBack(sp, k3, enc, z);
    CryptedBack(sp, k2, !enc, y);
    CryptedBack(sp, k1, enc, x);
    FinalUndoesInitial(Load(b));
    StoredLoad(b);
  }

  /** With the first two schedules the same, triple DES is DES under the third. */
  lemma TripleIsSingle(sp: seq<seq<bv32>>, k: seq<bv32>, k3: seq<bv32>, enc: bool, b: Bytes8)
    requires AreTables(sp) && |k| == |k3| == 32
    ensures Triple(sp, k, k, k3, enc, b) == Stored(Final(Crypted(sp, k3, enc, Initial(Load(b)))))
  {
    hide Crypted, Initial, Final, Load, Stored;
    CryptedBack(sp, k, enc, Initial(Load(b)));
  }

  method Ecb3Encrypt(sp: seq<seq<bv32>>, input: array<bv8>, output: array<bv8>,
                     ks1: seq<bv32>, ks2: seq<bv32>, ks3: seq<bv32>, encrypt: bool)
    requires AreTables(sp) && |ks1| == |ks2| == |ks3| == 32
    requires input.Length == 8 && output.Length == 8
    modifies output
    ensures output[..] == Triple(sp, ks1, ks2, ks3, encrypt, old(input[..]))
  {
    hide Crypted, Initial, Final, Stored, Word;
    ghost var b := input[..];
    var l0 := Word(input[3], input[2], input[1], input[0]);
    var l1 := Word(input[7], input[6], input[5], input[4]);
    assert Halves(l0, l1) == Load(b);
    l0, l1 := Ip(l0, l1);
    var ll := new bv32[2];
    ll[0] := l0;
    ll[1] := l1;
    Encrypt2(sp, ll, ks1, encrypt);
    Encrypt2(sp, ll, ks2, !encrypt);
    Encrypt2(sp, ll, ks3, encrypt);
    l0 := ll[0];
    l1 := ll[1];
    l1, l0 := Fp(l1, l0);
    StoreBlock(output, l0, l1);
  }

  /** Two uses of the macro l2c. */
  method StoreBlock(output: array<bv8>, l0: bv32, l1: bv32)
    requires output.Length == 8
    modifies output
    ensures output[..] == Stored(Halves(l0, l1))
  {
    hide Byte0, Byte1, Byte2, Byte3;
    output[0], output[1], output[2], output[3] := Byte0(l0), Byte1(l0), Byte2(l0), Byte3(l0);
    output[4], output[5], output[6], output[7] := Byte0(l1), Byte1(l1), Byte2(l1), Byte3(l1);
  }

  /** The macro IP. */
  method Ip(left: bv32, right: bv32) returns (l: bv32, r: bv32)
    ensures Halves(l, r) == Initial(Halves(left, right))
  {
    hide PermOp;
    l, r := left, right;
    var t := PermOp(r, l, Trade4);
    r, l := t.0, t.1;
    t := PermOp(l, r, Trade16);
    l, r := t.0, t.1;
    t := PermOp(r, l, Trade2);
    r, l := t.0, t.1;
    t := PermOp(l, r, Trade8);
    l, r := t.0, t.1;
    t := PermOp(r, l, Trade1);
    r, l := t.0, t.1;
  }

  /** The macro FP. */
  method Fp(left: bv32, right: bv32) returns (l: bv32, r: bv32)
    ensures Halves(r, l) == Final(Halves(right, left))
  {
    hide PermOp;
    l, r := left, right;
    var t := PermOp(l, r, Trade1);
    l, r := t.0, t.1;
    t := PermOp(r, l, Trade8);
    r, l := t.0, t.1;
    t := PermOp(l, r, Trade2);
    l, r := t.0, t.1;
    t := PermOp(r, l, Trade16);
    r, l := t.0, t.1;
    t := PermOp(l, r, Trade4);
    l, r := t.0, t.1;
  }
}
