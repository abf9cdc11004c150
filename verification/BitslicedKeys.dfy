/** The key schedule of aes.c: the words of FIPS 197 in little-endian order, a compressed form that keeps
    one of the two equal lanes of each bit-sliced word, and its expansion. */
module BitslicedKeys {
  import opened BitGates
  import opened Words
  import opened LinearCircuits
  import opened SboxCircuit
  import opened BitslicedState
  import opened Fips197
  import opened RoundConstants
  import opened WordBytes
  import opened Transpose
  import opened BitslicedCipher

  /** A word of the key schedule held in little-endian order. */
  function LeWord(x: bv32): Word {
    Word(ByteOf(x, 0), ByteOf(x, 8), ByteOf(x, 16), ByteOf(x, 24))
  }

  lemma XorLeWord(x: bv32, y: bv32)
    ensures LeWord(Xor(x, y)) == WordPlus(LeWord(x), LeWord(y))
  {
    hide ByteOf, Plus, Xor;
    XorByte(x, y, 0);
    XorByte(x, y, 8);
    XorByte(x, y, 16);
    XorByte(x, y, 24);
  }

  lemma Ror8Byte(x: bv32, s: bv32)
    requires s <= 16
    ensures ByteOf(Ror8(x), s) == ByteOf(x, s + 8)
  {
  }

  lemma Ror8TopByte(x: bv32)
    ensures ByteOf(Ror8(x), 24) == ByteOf(x, 0)
  {
  }

  lemma Ror8LeWord(x: bv32)
    ensures LeWord(Ror8(x)) == RotWord(LeWord(x))
  {
    hide Ror8, ByteOf;
    Ror8Byte(x, 0);
    Ror8Byte(x, 8);
    Ror8Byte(x, 16);
    Ror8TopByte(x);
  }

  // ---------------------------------------------------------------------------------------------
  // sub_word

  function Repeated(x: bv32): Slice<bv32> {
    Slice(x, x, x, x, x, x, x, x)
  }

  function SubbedWord(x: bv32): bv32 {
    Ortho(Sub(WORDS, Ortho(Repeated(x)))).b0
  }

  lemma SubbedByte(x: bv32, s: bv32)
    requires Aligned(s)
    ensures ByteOf(SubbedWord(x), s) == AES.sub(ByteOf(x, s))
  {
    hide Sub, Ortho, Lane, ByteOf, BITS, WORDS;
    var p := Ortho(Repeated(x));
    OrthoLanes(Repeated(x), s);
    AtHom(s);
    SubLane(p, s);
    OrthoLoadedRow(Sub(WORDS, p), s);
  }

  lemma SubLane(p: Slice<bv32>, k: bv32)
    requires k < 32
    ensures Lane(Sub(WORDS, p), k) == Sub(BITS, Lane(p, k))
  {
    hide Sub, At, Map, BITS, WORDS;
    AtHom(k);
    SubHom(WORDS, BITS, At(k), p);
  }

  lemma OrthoLoadedRow(q: Slice<bv32>, s: bv32)
    requires Aligned(s)
    ensures ByteOf(Ortho(q).b0, s) == Lane(q, s)
  {
    hide Ortho, Lane, ByteOf;
    OrthoTwice(q);
    OrthoLanes(Ortho(q), s);
  }

  method SubWordInPlace(x: bv32) returns (y: bv32)
    ensures LeWord(y) == SubWord(AES, LeWord(x))
  {
    hide Sub, Ortho, ByteOf, View, SubBytes;
    var q := new bv32[8];
    for i := 0 to 8
      invariant forall j :: 0 <= j < i ==> q[j] == x
    {
      q[i] := x;
    }
    assert Q(q) == Repeated(x);
    OrthoInPlace(q);
    SboxInPlace(q);
    OrthoInPlace(q);
    y := q[0];
    assert y == SubbedWord(x);
    SubbedByte(x, 0);
    SubbedByte(x, 8);
    SubbedByte(x, 16);
    SubbedByte(x, 24);
  }

  // ---------------------------------------------------------------------------------------------
  // aes_keysched_base

  lemma RconWord(k: nat)
    requires k < 10
    ensures LeWord(RconAt(k)) == Rcon(k + 1)
  {
    hide ByteOf, RconAt, RconByte;
    RconRow(k);
    RconRest(k);
  }

  /** What the loop of aes_keysched_base does to the previous word; j and k are its counters. */
  method NextTemp(previous: bv32, nk: nat, ghost i: nat, j: nat, k: nat) returns (tmp: bv32)
    requires nk in {4, 6, 8} && j < nk && k < 10 && i == nk * (k + 1) + j
    ensures LeWord(tmp) == Temp(AES, nk, i, LeWord(previous))
  {
    hide LeWord, ByteOf, Column, SubWord, Rcon, Xor, Ror8, RconAt, WordPlus, RotWord, AES;
    CountersAgree(nk, i, j, k);
    tmp := previous;
    if j == 0 {
      Ror8LeWord(tmp);
      tmp := Ror8(tmp);
      tmp := SubWordInPlace(tmp);
      RconWord(k);
      XorLeWord(tmp, RconAt(k));
      tmp := Xor(tmp, RconAt(k));
    } else if nk > 6 && j == 4 {
      tmp := SubWordInPlace(tmp);
    }
  }

  method KeyschedBase(skey: array<bv32>, key: seq<Byte>, keyLen: int) returns (numRounds: nat)
    requires skey.Length == 60
    requires keyLen in {16, 24, 32} ==> keyLen <= |key|
    modifies skey
    ensures numRounds == NumberOfRounds(keyLen)
    ensures if keyLen in {16, 24, 32} then 4 * numRounds == keyLen + 24 else numRounds == 0
    ensures numRounds == 0 ==> skey[..] == old(skey[..])
    ensures numRounds > 0 ==>
      forall i :: 0 <= i < 4 * numRounds + 4 ==> LeWord(skey[i]) == KeyWord(AES, keyLen / 4, key[..keyLen], i)
  {
    hide LeWord, ByteOf, Column, Xor, WordPlus, KeyWord, Temp, AES;
    if keyLen == 16 {
      numRounds := 10;
    } else if keyLen == 24 {
      numRounds := 12;
    } else if keyLen == 32 {
      numRounds := 14;
    } else {
      return 0;
    }
    var nk := keyLen / 4;
    var nkf := 4 * (numRounds + 1);
    ghost var bytes := key[..keyLen];
    for i := 0 to nk
      invariant forall m :: 0 <= m < i ==> LeWord(skey[m]) == KeyWord(AES, nk, bytes, m)
    {
      skey[i] := Column(key[4 * i], key[4 * i + 1], key[4 * i + 2], key[4 * i + 3]);
      LeWordOfColumn(key[4 * i], key[4 * i + 1], key[4 * i + 2], key[4 * i + 3]);
      KeyWordStart(AES, nk, bytes, i);
    }
    var tmp := skey[nk - 1];
    var j, k := 0, 0;
    for i := nk to nkf
      invariant 0 <= j < nk && 0 <= k && i == nk * (k + 1) + j
      invariant tmp == skey[i - 1]
      invariant forall m :: 0 <= m < i ==> LeWord(skey[m]) == KeyWord(AES, nk, bytes, m)
    {
      CountersAgree(nk, i, j, k);
      tmp := NextTemp(tmp, nk, i, j, k);
      KeyWordStep(AES, nk, bytes, i);
      XorLeWord(tmp, skey[i - nk]);
      WordPlusCommutes(LeWord(tmp), LeWord(skey[i - nk]));
      tmp := Xor(tmp, skey[i - nk]);
      skey[i] := tmp;
      j := j + 1;
      if j == nk {
        j := 0;
        k := k + 1;
      }
    }
  }

  /** j and k count i within and across the key's length. */
  lemma CountersAgree(nk: nat, i: nat, j: nat, k: nat)
    requires nk == 4 || nk == 6 || nk == 8
    requires j < nk && i == nk * (k + 1) + j
    ensures i % nk == j && i / nk == k + 1
  {
    if nk == 4 {
    } else if nk == 6 {
    } else {
    }
  }

  lemma LeWordOfColumn(a: Byte, b: Byte, c: Byte, d: Byte)
    ensures LeWord(Column(a, b, c, d)) == Word(a, b, c, d)
  {
    hide Column, ByteOf;
    ColumnRows(a, b, c, d);
  }

  // ---------------------------------------------------------------------------------------------
  // The compressed schedule and its expansion

  /** One word that keeps the even ranks of x and the odd ranks of y. */
  function Merged(x: bv32, y: bv32): bv32 {
    (x & 0x5555_5555) | (y & 0xaaaa_aaaa)
  }

  /** The even ranks, each copied to the odd rank above it. */
  function EvenTwice(c: bv32): bv32 {
    (c & 0x5555_5555) | ((c & 0x5555_5555) << 1)
  }

  /** The odd ranks, each copied to the even rank below it. */
  function OddTwice(c: bv32): bv32 {
    (c & 0xaaaa_aaaa) | ((c & 0xaaaa_aaaa) >> 1)
  }

  function Compressed(o: Slice<bv32>): (bv32, bv32, bv32, bv32) {
    (Merged(o.b0, o.b1), Merged(o.b2, o.b3), Merged(o.b4, o.b5), Merged(o.b6, o.b7))
  }

  function Expanded(c: (bv32, bv32, bv32, bv32)): Slice<bv32> {
    Slice(EvenTwice(c.0), OddTwice(c.0), EvenTwice(c.1), OddTwice(c.1),
          EvenTwice(c.2), OddTwice(c.2), EvenTwice(c.3), OddTwice(c.3))
  }

  lemma MergedByte(x: bv32, y: bv32, s: bv32)
    requires Aligned(s)
    ensures ByteOf(Merged(x, y), s)
         == Slice(Bit(x, s), Bit(y, s + 1), Bit(x, s + 2), Bit(y, s + 3), Bit(x, s + 4), Bit(y, s + 5), Bit(x, s + 6),
                  Bit(y, s + 7))
  {
    if s == 0 {
    } else if s == 8 {
    } else if s == 16 {
    } else {
    }
  }

  lemma TwiceIsSwap(c: bv32)
    ensures EvenTwice(c) == Swap2X(c, c)
    ensures OddTwice(c) == Swap2Y(c, c)
  {
  }

  predicate Paired(a: Byte) {
    a.b0 == a.b1 && a.b2 == a.b3 && a.b4 == a.b5 && a.b6 == a.b7
  }

  lemma EvenByte(x: bv32, y: bv32, s: bv32)
    requires Aligned(s)
    requires Paired(ByteOf(x, s))
    ensures ByteOf(EvenTwice(Merged(x, y)), s) == ByteOf(x, s)
  {
    hide Bit, Merged, EvenTwice, Swap2X, Aligned;
    TwiceIsSwap(Merged(x, y));
    MergedByte(x, y, s);
    Swap2XByte(Merged(x, y), Merged(x, y), s);
  }

  lemma OddByte(x: bv32, y: bv32, s: bv32)
    requires Aligned(s)
    requires Paired(ByteOf(y, s))
    ensures ByteOf(OddTwice(Merged(x, y)), s) == ByteOf(y, s)
  {
    hide Bit, Merged, OddTwice, Swap2Y, Aligned;
    TwiceIsSwap(Merged(x, y));
    MergedByte(x, y, s);
    Swap2YByte(Merged(x, y), Merged(x, y), s);
  }

  function Doubled(w0: bv32, w1: bv32, w2: bv32, w3: bv32): Slice<bv32> {
    Slice(w0, w0, w1, w1, w2, w2, w3, w3)
  }

  lemma TransposedPairs(r0: Byte, r1: Byte, r2: Byte, r3: Byte)
    ensures var m := Transposed(Slice(r0, r0, r1, r1, r2, r2, r3, r3));
      && Paired(m.b0) && Paired(m.b1) && Paired(m.b2) && Paired(m.b3)
      && Paired(m.b4) && Paired(m.b5) && Paired(m.b6) && Paired(m.b7)
  {
  }

  lemma ExpandedRows(w0: bv32, w1: bv32, w2: bv32, w3: bv32, s: bv32)
    requires Aligned(s)
    ensures var o := Ortho(Doubled(w0, w1, w2, w3)); Rows(Expanded(Compressed(o)), s) == Rows(o, s)
  {
    hide ByteOf, Merged, EvenTwice, OddTwice, Ortho, Aligned, Transposed, Paired;
    var q := Doubled(w0, w1, w2, w3);
    var o := Ortho(q);
    OrthoRows(q, s);
    TransposedPairs(ByteOf(w0, s), ByteOf(w1, s), ByteOf(w2, s), ByteOf(w3, s));
    EvenByte(o.b0, o.b1, s);
    OddByte(o.b0, o.b1, s);
    EvenByte(o.b2, o.b3, s);
    OddByte(o.b2, o.b3, s);
    EvenByte(o.b4, o.b5, s);
    OddByte(o.b4, o.b5, s);
    EvenByte(o.b6, o.b7, s);
    OddByte(o.b6, o.b7, s);
  }

  /** Compressing and expanding gives back a round key that was loaded into both lanes. */
  lemma ExpandedBack(w0: bv32, w1: bv32, w2: bv32, w3: bv32)
    ensures var o := Ortho(Doubled(w0, w1, w2, w3)); Expanded(Compressed(o)) == o
  {
    hide Rows, Ortho, Expanded, Compressed;
    var o := Ortho(Doubled(w0, w1, w2, w3));
    ExpandedRows(w0, w1, w2, w3, 0);
    ExpandedRows(w0, w1, w2, w3, 8);
    ExpandedRows(w0, w1, w2, w3, 16);
    ExpandedRows(w0, w1, w2, w3, 24);
    SameRows(Expanded(Compressed(o)), o);
  }

  lemma ExpandedView(w0: bv32, w1: bv32, w2: bv32, w3: bv32, l: bv32)
    requires l < 2
    ensures View(Expanded(Compressed(Ortho(Doubled(w0, w1, w2, w3)))), l) == InWords(w0, w1, w2, w3)
  {
    hide Ortho, View, InWords, Expanded, Compressed;
    ExpandedBack(w0, w1, w2, w3);
    OrthoView(Doubled(w0, w1, w2, w3), l);
  }

  /** The four words of compressed round key u. */
  function CompWords(c: seq<bv32>, u: nat): (bv32, bv32, bv32, bv32)
    requires 4 * u + 4 <= |c|
  {
    (c[4 * u], c[4 * u + 1], c[4 * u + 2], c[4 * u + 3])
  }

  /** Compressed round key u stands for the same block in both lanes. */
  predicate StandsFor(c: seq<bv32>, u: nat, k: Block)
    requires 4 * u + 4 <= |c|
  {
    View(Expanded(CompWords(c, u)), 0) == k && View(Expanded(CompWords(c, u)), 1) == k
  }

  lemma RowOfWord(x: bv32, r: nat)
    requires r < 4
    ensures Row(LeWord(x), r) == ByteOf(x, RowRank(r))
  {
    hide ByteOf;
  }

  lemma KeyInWords(skey: seq<bv32>, nk: nat, key: seq<Byte>, u: nat)
    requires nk > 0 && |key| == 4 * nk && 4 * u + 4 <= |skey|
    requires forall i :: 0 <= i < 4 * u + 4 ==> LeWord(skey[i]) == KeyWord(AES, nk, key, i)
    ensures InWords(skey[4 * u], skey[4 * u + 1], skey[4 * u + 2], skey[4 * u + 3]) == RoundKey(AES, nk, key, u)
  {
    hide ByteOf, KeyWord, AES, LeWord, Row, RowRank;
    var b := InWords(skey[4 * u], skey[4 * u + 1], skey[4 * u + 2], skey[4 * u + 3]);
    forall i: nat | i < 16
      ensures b[i] == RoundKey(AES, nk, key, u)[i]
    {
      RowOfWord(skey[4 * u + i / 4], i % 4);
    }
  }

  method Keysched(compSkey: array<bv32>, key: seq<Byte>, keyLen: int) returns (numRounds: nat)
    requires compSkey.Length == 60
    requires keyLen in {16, 24, 32} ==> keyLen <= |key|
    modifies compSkey
    ensures numRounds == NumberOfRounds(keyLen)
    ensures if keyLen in {16, 24, 32} then 4 * numRounds == keyLen + 24 else numRounds == 0
    ensures numRounds > 0 ==>
      forall u :: 0 <= u <= numRounds ==> StandsFor(compSkey[..], u, RoundKey(AES, keyLen / 4, key[..keyLen], u))
  {
    hide View, Expanded, Ortho, RoundKey, KeyWord, LeWord, InWords, StandsFor;
    var skey := new bv32[60];
    numRounds := KeyschedBase(skey, key, keyLen);
    ghost var words := skey[..];
    for u := 0 to numRounds + 1
      invariant skey[..] == words
      invariant numRounds > 0 ==>
        forall v :: 0 <= v < u ==> StandsFor(compSkey[..], v, RoundKey(AES, keyLen / 4, key[..keyLen], v))
    {
      CompressRound(compSkey, u, skey[4 * u], skey[4 * u + 1], skey[4 * u + 2], skey[4 * u + 3]);
      if numRounds > 0 {
        KeyInWords(words, keyLen / 4, key[..keyLen], u);
      }
    }
  }

  /** One turn of the loop of aes_ct_keysched. */
  method CompressRound(compSkey: array<bv32>, u: nat, w0: bv32, w1: bv32, w2: bv32, w3: bv32)
    requires 4 * u + 4 <= compSkey.Length
    modifies compSkey
    ensures StandsFor(compSkey[..], u, InWords(w0, w1, w2, w3))
    ensures forall v, k :: 0 <= v < u ==> StandsFor(compSkey[..], v, k) == StandsFor(old(compSkey[..]), v, k)
  {
    hide View, Expanded, Ortho, Merged, InWords, StandsFor;
    ghost var before := compSkey[..];
    var q := new bv32[8][w0, w0, w1, w1, w2, w2, w3, w3];
    assert Q(q) == Doubled(w0, w1, w2, w3);
    OrthoInPlace(q);
    compSkey[4 * u] := Merged(q[0], q[1]);
    compSkey[4 * u + 1] := Merged(q[2], q[3]);
    compSkey[4 * u + 2] := Merged(q[4], q[5]);
    compSkey[4 * u + 3] := Merged(q[6], q[7]);
    CompressedRound(before, compSkey[..], u, w0, w1, w2, w3);
  }

  /** Writing compressed round key u settles it and leaves the earlier ones alone. */
  lemma CompressedRound(before: seq<bv32>, after: seq<bv32>, u: nat, w0: bv32, w1: bv32, w2: bv32, w3: bv32)
    requires 4 * u + 4 <= |after| == |before|
    requires CompWords(after, u) == Compressed(Ortho(Doubled(w0, w1, w2, w3)))
    requires after[..4 * u] == before[..4 * u]
    ensures StandsFor(after, u, InWords(w0, w1, w2, w3))
    ensures forall v, k :: 0 <= v < u ==> StandsFor(after, v, k) == StandsFor(before, v, k)
  {
    hide View, Expanded, Compressed, Ortho, InWords;
    ExpandedView(w0, w1, w2, w3, 0);
    ExpandedView(w0, w1, w2, w3, 1);
    forall v: nat | v < u
      ensures CompWords(after, v) == CompWords(before, v)
    {
      assert after[..4 * u][4 * v] == before[..4 * u][4 * v];
      assert after[..4 * u][4 * v + 1] == before[..4 * u][4 * v + 1];
      assert after[..4 * u][4 * v + 2] == before[..4 * u][4 * v + 2];
      assert after[..4 * u][4 * v + 3] == before[..4 * u][4 * v + 3];
    }
  }

  method SkeyExpand(skey: array<bv32>, numRounds: nat, compSkey: array<bv32>)
    requires 4 * numRounds + 4 <= compSkey.Length && 8 * numRounds + 8 <= skey.Length && skey != compSkey
    modifies skey
    ensures forall u :: 0 <= u <= numRounds ==> KeyWords(skey[..], u) == Expanded(CompWords(compSkey[..], u))
  {
    hide EvenTwice, OddTwice;
    var n := 4 * (numRounds + 1);
    var v := 0;
    for u := 0 to n
      invariant v == 2 * u
      invariant forall m :: 0 <= m < u ==>
        skey[2 * m] == EvenTwice(compSkey[m]) && skey[2 * m + 1] == OddTwice(compSkey[m])
    {
      skey[v] := EvenTwice(compSkey[u]);
      skey[v + 1] := OddTwice(compSkey[u]);
      v := v + 2;
    }
    forall u | 0 <= u <= numRounds
      ensures KeyWords(skey[..], u) == Expanded(CompWords(compSkey[..], u))
    {
      assert skey[2 * (4 * u)] == EvenTwice(compSkey[4 * u]);
      assert skey[2 * (4 * u + 1)] == EvenTwice(compSkey[4 * u + 1]);
      assert skey[2 * (4 * u + 2)] == EvenTwice(compSkey[4 * u + 2]);
      assert skey[2 * (4 * u + 3)] == EvenTwice(compSkey[4 * u + 3]);
    }
  }
}
