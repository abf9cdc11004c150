/** The Advanced Encryption Standard as FIPS 197 states it: the block of 16 bytes read as a 4x4 matrix
    column by column, the cipher (section 5.1), its inverse (5.3), the equivalent inverse cipher (5.3.5)
    and the key expansion (5.2).  The two implementations, bit-sliced and table-driven, are proved
    against this module.

    The S-box is a parameter: nothing here depends on which byte permutation it is. */
module Fips197 {
  import opened BitGates
  import LinearCircuits

  type Block = b: seq<Byte> | |b| == 16 witness seq(16, _ => ZERO)

  /** A byte substitution together with its inverse. */
  datatype Sbox = Sbox(sub: Byte -> Byte, inv: Byte -> Byte)

  ghost predicate MutuallyInverse(box: Sbox) {
    && (forall x :: box.inv(box.sub(x)) == x)
    && (forall x :: box.sub(box.inv(x)) == x)
  }

  function Plus(a: Byte, b: Byte): Byte {
    Add(BITS, a, b)
  }

  // ---------------------------------------------------------------------------------------------
  // Section 5.1: the four transformations.  Byte r + 4c of a block is row r of column c.

  function SubBytes(box: Sbox, s: Block): (t: Block)
    ensures forall i :: 0 <= i < 16 ==> t[i] == box.sub(s[i])
  {
    seq(16, i requires 0 <= i < 16 => box.sub(s[i]))
  }

  function InvSubBytes(box: Sbox, s: Block): (t: Block)
    ensures forall i :: 0 <= i < 16 ==> t[i] == box.inv(s[i])
  {
    seq(16, i requires 0 <= i < 16 => box.inv(s[i]))
  }

  /** The byte that moves to place i when row r is rotated left by r columns. */
  function Source(i: nat): (j: nat)
    requires i < 16
    ensures j < 16
  {
    var j := i + 4 * (i % 4);
    if j < 16 then j else j - 16
  }

  /** The byte that moves to place i when row r is rotated right by r columns. */
  function InvSource(i: nat): (j: nat)
    requires i < 16
    ensures j < 16
  {
    if i >= 4 * (i % 4) then i - 4 * (i % 4) else i + 16 - 4 * (i % 4)
  }

  function ShiftRows(s: Block): Block {
    seq(16, i requires 0 <= i < 16 => s[Source(i)])
  }

  function InvShiftRows(s: Block): Block {
    seq(16, i requires 0 <= i < 16 => s[InvSource(i)])
  }

  /** The byte that follows byte i of a block by the given number of rows, in the same column. */
  function Next(i: nat, step: nat): (j: nat)
    requires i < 16 && step < 4
    ensures j < 16
  {
    if i % 4 + step < 4 then i + step else i + step - 4
  }

  function MixColumns(s: Block): Block {
    seq(16, i requires 0 <= i < 16 => Mix(BITS, s[i], s[Next(i, 1)], s[Next(i, 2)], s[Next(i, 3)]))
  }

  function InvMixColumns(s: Block): Block {
    seq(16, i requires 0 <= i < 16 => InvMix(BITS, s[i], s[Next(i, 1)], s[Next(i, 2)], s[Next(i, 3)]))
  }

  function AddRoundKey(s: Block, k: Block): Block {
    seq(16, i requires 0 <= i < 16 => Plus(s[i], k[i]))
  }

  // ---------------------------------------------------------------------------------------------
  // The transformations as section 5.1 writes them, by row and column

  /** Row r is rotated left by r columns (section 5.1.2). */
  lemma ShiftRowsMoves(s: Block, r: nat, c: nat)
    requires r < 4 && c < 4
    ensures ShiftRows(s)[r + 4 * c] == s[r + 4 * ((c + r) % 4)]
  {
    assert (r + 4 * c) % 4 == r;
  }

  const TWO: Byte := Slice(false, true, false, false, false, false, false, false)
  const THREE: Byte := Slice(true, true, false, false, false, false, false, false)
  const NINE: Byte := Slice(true, false, false, true, false, false, false, false)
  const ELEVEN: Byte := Slice(true, true, false, true, false, false, false, false)
  const THIRTEEN: Byte := Slice(true, false, true, true, false, false, false, false)
  const FOURTEEN: Byte := Slice(false, true, true, true, false, false, false, false)

  lemma TimesTwo(x: Byte)
    ensures Mul(BITS, x, TWO) == Xtime(BITS, x)
  {
  }

  lemma TimesThree(x: Byte)
    ensures Mul(BITS, x, THREE) == Add(BITS, Xtime(BITS, x), x)
  {
  }

  lemma TimesNine(x: Byte)
    ensures Mul(BITS, x, NINE) == Mul9(BITS, x)
  {
  }

  lemma TimesEleven(x: Byte)
    ensures Mul(BITS, x, ELEVEN) == MulB(BITS, x)
  {
  }

  lemma TimesThirteen(x: Byte)
    ensures Mul(BITS, x, THIRTEEN) == MulD(BITS, x)
  {
  }

  lemma TimesFourteen(x: Byte)
    ensures Mul(BITS, x, FOURTEEN) == MulE(BITS, x)
  {
  }

  /** Every column is multiplied by 3x^3 + x^2 + x + 2 (section 5.1.3). */
  lemma MixColumnsIs(s: Block, r: nat, c: nat)
    requires r < 4 && c < 4
    ensures MixColumns(s)[r + 4 * c]
      == Plus(Plus(Mul(BITS, s[r + 4 * c], TWO), Mul(BITS, s[(r + 1) % 4 + 4 * c], THREE)),
              Plus(s[(r + 2) % 4 + 4 * c], s[(r + 3) % 4 + 4 * c]))
  {
    hide Mul, Xtime, Add, BITS;
    RowsOfColumn(r, c);
    TimesTwo(s[r + 4 * c]);
    TimesThree(s[(r + 1) % 4 + 4 * c]);
  }

  lemma RowsOfColumn(r: nat, c: nat)
    requires r < 4 && c < 4
    ensures Next(r + 4 * c, 1) == (r + 1) % 4 + 4 * c
    ensures Next(r + 4 * c, 2) == (r + 2) % 4 + 4 * c
    ensures Next(r + 4 * c, 3) == (r + 3) % 4 + 4 * c
  {
    assert (r + 4 * c) % 4 == r;
  }

  /** ... and by 11x^3 + 13x^2 + 9x + 14 on the way back (section 5.3.3). */
  lemma InvMixColumnsIs(s: Block, r: nat, c: nat)
    requires r < 4 && c < 4
    ensures InvMixColumns(s)[r + 4 * c]
      == Plus(Plus(Mul(BITS, s[r + 4 * c], FOURTEEN), Mul(BITS, s[(r + 1) % 4 + 4 * c], ELEVEN)),
              Plus(Mul(BITS, s[(r + 2) % 4 + 4 * c], THIRTEEN), Mul(BITS, s[(r + 3) % 4 + 4 * c], NINE)))
  {
    hide Mul, MulE, MulB, MulD, Mul9, Add, BITS;
    RowsOfColumn(r, c);
    TimesFourteen(s[r + 4 * c]);
    TimesEleven(s[(r + 1) % 4 + 4 * c]);
    TimesThirteen(s[(r + 2) % 4 + 4 * c]);
    TimesNine(s[(r + 3) % 4 + 4 * c]);
  }

  // ---------------------------------------------------------------------------------------------
  // Sections 5.1, 5.3 and 5.3.5: the cipher, the inverse cipher, the equivalent inverse cipher.
  // w holds the round keys w[0] .. w[Nr].

  /** The state after the initial key addition and u full rounds. */
  function Rounds(box: Sbox, w: seq<Block>, x: Block, u: nat): Block
    requires u < |w|
  {
    if u == 0 then AddRoundKey(x, w[0])
    else AddRoundKey(MixColumns(ShiftRows(SubBytes(box, Rounds(box, w, x, u - 1)))), w[u])
  }

  function Cipher(box: Sbox, w: seq<Block>, x: Block): Block
    requires |w| >= 2
  {
    AddRoundKey(ShiftRows(SubBytes(box, Rounds(box, w, x, |w| - 2))), w[|w| - 1])
  }

  /** The state of the inverse cipher after the initial key addition and u full rounds. */
  function InvRounds(box: Sbox, w: seq<Block>, y: Block, u: nat): Block
    requires u < |w|
  {
    if u == 0 then AddRoundKey(y, w[|w| - 1])
    else InvMixColumns(AddRoundKey(InvSubBytes(box, InvShiftRows(InvRounds(box, w, y, u - 1))), w[|w| - 1 - u]))
  }

  function InvCipher(box: Sbox, w: seq<Block>, y: Block): Block
    requires |w| >= 2
  {
    AddRoundKey(InvSubBytes(box, InvShiftRows(InvRounds(box, w, y, |w| - 2))), w[0])
  }

  /** The equivalent inverse cipher runs the rounds in the order of the forward cipher, on a schedule
      dw of its own, used from dw[0] up. */
  function EqInvRounds(box: Sbox, dw: seq<Block>, y: Block, u: nat): Block
    requires u < |dw|
  {
    if u == 0 then AddRoundKey(y, dw[0])
    else AddRoundKey(InvMixColumns(InvShiftRows(InvSubBytes(box, EqInvRounds(box, dw, y, u - 1)))), dw[u])
  }

  function EqInvCipher(box: Sbox, dw: seq<Block>, y: Block): Block
    requires |dw| >= 2
  {
    AddRoundKey(InvShiftRows(InvSubBytes(box, EqInvRounds(box, dw, y, |dw| - 2))), dw[|dw| - 1])
  }

  /** The decryption schedule: the round keys in reverse order, all but the first and the last of them
      passed through InvMixColumns. */
  function DecryptionSchedule(w: seq<Block>): (dw: seq<Block>)
    ensures |dw| == |w|
  {
    seq(|w|, u requires 0 <= u < |w| =>
      if u == 0 || u == |w| - 1 then w[|w| - 1 - u] else InvMixColumns(w[|w| - 1 - u]))
  }

  // ---------------------------------------------------------------------------------------------
  // Each transformation is undone by its inverse

  lemma SubBytesUndone(box: Sbox, s: Block)
    requires MutuallyInverse(box)
    ensures InvSubBytes(box, SubBytes(box, s)) == s
    ensures SubBytes(box, InvSubBytes(box, s)) == s
  {
  }

  lemma SourceUndone(i: nat)
    requires i < 16
    ensures Source(InvSource(i)) == i
    ensures InvSource(Source(i)) == i
  {
    SameRow(i, Source(i));
    SameRow(i, InvSource(i));
  }

  lemma SameRow(i: nat, j: nat)
    requires i < 16 && (j == Source(i) || j == InvSource(i))
    ensures j % 4 == i % 4
  {
  }

  lemma ShiftRowsUndone(s: Block)
    ensures InvShiftRows(ShiftRows(s)) == s
    ensures ShiftRows(InvShiftRows(s)) == s
  {
    hide Source, InvSource;
    forall i: nat | i < 16
      ensures InvShiftRows(ShiftRows(s))[i] == s[i]
      ensures ShiftRows(InvShiftRows(s))[i] == s[i]
    {
      SourceUndone(i);
    }
  }

  lemma PlusUndone(a: Byte, b: Byte)
    ensures Plus(Plus(a, b), b) == a
  {
  }

  lemma AddRoundKeyUndone(s: Block, k: Block)
    ensures AddRoundKey(AddRoundKey(s, k), k) == s
  {
    var t := AddRoundKey(AddRoundKey(s, k), k);
    forall i | 0 <= i < 16
      ensures t[i] == s[i]
    {
      PlusUndone(s[i], k[i]);
      hide Plus;
    }
  }

  lemma MixColumnsAt(s: Block, i: nat)
    requires i < 16
    ensures MixColumns(s)[i] == Mix(BITS, s[i], s[Next(i, 1)], s[Next(i, 2)], s[Next(i, 3)])
    ensures InvMixColumns(s)[i] == InvMix(BITS, s[i], s[Next(i, 1)], s[Next(i, 2)], s[Next(i, 3)])
  {
    hide Mix, InvMix;
  }

  lemma NextOfNext(i: nat, j: nat, k: nat)
    requires i < 16 && j < 4 && k < 4
    ensures Next(Next(i, j), k) == Next(i, (j + k) % 4)
    ensures Next(i, 0) == i
  {
  }

  lemma MixColumnsUndoneAt(s: Block, i: nat)
    requires i < 16
    ensures InvMixColumns(MixColumns(s))[i] == s[i]
    ensures MixColumns(InvMixColumns(s))[i] == s[i]
  {
    hide Mix, InvMix, MixColumns, InvMixColumns, Next;
    var m, n := MixColumns(s), InvMixColumns(s);
    var i1, i2, i3 := Next(i, 1), Next(i, 2), Next(i, 3);
    forall j: nat, k: nat | j < 4 && k < 4
      ensures Next(Next(i, j), k) == Next(i, (j + k) % 4)
    {
      NextOfNext(i, j, k);
    }
    NextOfNext(i, 0, 0);
    MixColumnsAt(s, i);
    MixColumnsAt(s, i1);
    MixColumnsAt(s, i2);
    MixColumnsAt(s, i3);
    MixColumnsAt(m, i);
    MixColumnsAt(n, i);
    LinearCircuits.MixUndone(s[i], s[i1], s[i2], s[i3]);
    LinearCircuits.InvMixUndone(s[i], s[i1], s[i2], s[i3]);
  }

  lemma MixColumnsUndone(s: Block)
    ensures InvMixColumns(MixColumns(s)) == s
    ensures MixColumns(InvMixColumns(s)) == s
  {
    hide MixColumns, InvMixColumns;
    forall i | 0 <= i < 16
      ensures InvMixColumns(MixColumns(s))[i] == s[i]
      ensures MixColumns(InvMixColumns(s))[i] == s[i]
    {
      MixColumnsUndoneAt(s, i);
    }
  }

  /** One full round and the step of the inverse cipher that undoes it. */
  lemma RoundUndone(box: Sbox, s: Block, k: Block)
    requires MutuallyInverse(box)
    ensures var t := AddRoundKey(MixColumns(ShiftRows(SubBytes(box, s))), k);
      InvSubBytes(box, InvShiftRows(InvMixColumns(AddRoundKey(t, k)))) == s
    ensures var t := InvMixColumns(AddRoundKey(InvSubBytes(box, InvShiftRows(s)), k));
      ShiftRows(SubBytes(box, AddRoundKey(MixColumns(t), k))) == s
  {
    hide MixColumns, InvMixColumns, ShiftRows, InvShiftRows, SubBytes, InvSubBytes, AddRoundKey;
    var a := SubBytes(box, s);
    SubBytesUndone(box, s);
    ShiftRowsUndone(a);
    MixColumnsUndone(ShiftRows(a));
    AddRoundKeyUndone(MixColumns(ShiftRows(a)), k);
    var b := InvShiftRows(s);
    ShiftRowsUndone(s);
    SubBytesUndone(box, b);
    AddRoundKeyUndone(InvSubBytes(box, b), k);
    MixColumnsUndone(AddRoundKey(InvSubBytes(box, b), k));
  }

  /** Running the inverse cipher on the ciphertext passes through the states of the cipher, backwards. */
  lemma {:induction false} InverseRetraces(box: Sbox, w: seq<Block>, x: Block, u: nat)
    requires MutuallyInverse(box)
    requires |w| >= 2 && u <= |w| - 2
    ensures InvSubBytes(box, InvShiftRows(InvRounds(box, w, Cipher(box, w, x), u))) == Rounds(box, w, x, |w| - 2 - u)
  {
    hide MixColumns, InvMixColumns, ShiftRows, InvShiftRows, SubBytes, InvSubBytes, AddRoundKey;
    var n := |w| - 2;
    if u == 0 {
      var s := Rounds(box, w, x, n);
      SubBytesUndone(box, s);
      ShiftRowsUndone(SubBytes(box, s));
      AddRoundKeyUndone(ShiftRows(SubBytes(box, s)), w[n + 1]);
    } else {
      InverseRetraces(box, w, x, u - 1);
      var s := Rounds(box, w, x, n - u);
      RoundUndone(box, s, w[n + 1 - u]);
    }
  }

  /** The inverse cipher undoes the cipher, for every schedule and every block. */
  lemma InvCipherOfCipher(box: Sbox, w: seq<Block>, x: Block)
    requires MutuallyInverse(box)
    requires |w| >= 2
    ensures InvCipher(box, w, Cipher(box, w, x)) == x
  {
    hide Cipher, InvRounds, AddRoundKey, SubBytes, InvSubBytes, ShiftRows, InvShiftRows, MixColumns, InvMixColumns;
    InverseRetraces(box, w, x, |w| - 2);
    AddRoundKeyUndone(x, w[0]);
  }

  lemma {:induction false} CipherRetraces(box: Sbox, w: seq<Block>, y: Block, u: nat)
    requires MutuallyInverse(box)
    requires |w| >= 2 && u <= |w| - 2
    ensures ShiftRows(SubBytes(box, Rounds(box, w, InvCipher(box, w, y), u))) == InvRounds(box, w, y, |w| - 2 - u)
  {
    hide MixColumns, InvMixColumns, ShiftRows, InvShiftRows, SubBytes, InvSubBytes, AddRoundKey;
    var n := |w| - 2;
    if u == 0 {
      var s := InvRounds(box, w, y, n);
      ShiftRowsUndone(s);
      SubBytesUndone(box, InvShiftRows(s));
      AddRoundKeyUndone(InvSubBytes(box, InvShiftRows(s)), w[0]);
    } else {
      CipherRetraces(box, w, y, u - 1);
      var s := InvRounds(box, w, y, n - u);
      RoundUndone(box, s, w[u]);
    }
  }

  /** The cipher undoes the inverse cipher. */
  lemma CipherOfInvCipher(box: Sbox, w: seq<Block>, y: Block)
    requires MutuallyInverse(box)
    requires |w| >= 2
    ensures Cipher(box, w, InvCipher(box, w, y)) == y
  {
    hide InvCipher, Rounds, AddRoundKey, SubBytes, InvSubBytes, ShiftRows, InvShiftRows, MixColumns, InvMixColumns;
    CipherRetraces(box, w, y, |w| - 2);
    AddRoundKeyUndone(y, w[|w| - 1]);
  }

  // ---------------------------------------------------------------------------------------------
  // Section 5.3.5: the equivalent inverse cipher is the inverse cipher

  lemma InvStepsCommute(box: Sbox, s: Block)
    ensures InvShiftRows(InvSubBytes(box, s)) == InvSubBytes(box, InvShiftRows(s))
  {
  }

  lemma InvMixColumnsAdditive(s: Block, k: Block)
    ensures InvMixColumns(AddRoundKey(s, k)) == AddRoundKey(InvMixColumns(s), InvMixColumns(k))
  {
    hide Mix, InvMix, Add, Next;
    var t := AddRoundKey(s, k);
    forall i: nat | i < 16
      ensures InvMixColumns(t)[i] == Plus(InvMixColumns(s)[i], InvMixColumns(k)[i])
    {
      var i1, i2, i3 := Next(i, 1), Next(i, 2), Next(i, 3);
      LinearCircuits.InvMixAdditive(s[i], s[i1], s[i2], s[i3], k[i], k[i1], k[i2], k[i3]);
      assert t[i] == Plus(s[i], k[i]) && t[i1] == Plus(s[i1], k[i1]);
      assert t[i2] == Plus(s[i2], k[i2]) && t[i3] == Plus(s[i3], k[i3]);
    }
  }

  lemma {:induction false} EqInvRoundsAgree(box: Sbox, w: seq<Block>, y: Block, u: nat)
    requires |w| >= 2 && u <= |w| - 2
    ensures EqInvRounds(box, DecryptionSchedule(w), y, u) == InvRounds(box, w, y, u)
  {
    hide MixColumns, InvMixColumns, ShiftRows, InvShiftRows, SubBytes, InvSubBytes, AddRoundKey;
    if u > 0 {
      EqInvRoundsAgree(box, w, y, u - 1);
      var s := InvRounds(box, w, y, u - 1);
      InvStepsCommute(box, s);
      InvMixColumnsAdditive(InvSubBytes(box, InvShiftRows(s)), w[|w| - 1 - u]);
    }
  }

  lemma EqInvCipherIsInvCipher(box: Sbox, w: seq<Block>, y: Block)
    requires |w| >= 2
    ensures EqInvCipher(box, DecryptionSchedule(w), y) == InvCipher(box, w, y)
  {
    hide MixColumns, InvMixColumns, ShiftRows, InvShiftRows, SubBytes, InvSubBytes, AddRoundKey;
    EqInvRoundsAgree(box, w, y, |w| - 2);
    InvStepsCommute(box, InvRounds(box, w, y, |w| - 2));
  }

  // ---------------------------------------------------------------------------------------------
  // Section 5.2: key expansion

  datatype Word = Word(a0: Byte, a1: Byte, a2: Byte, a3: Byte)

  function WordPlus(v: Word, w: Word): Word {
    Word(Plus(v.a0, w.a0), Plus(v.a1, w.a1), Plus(v.a2, w.a2), Plus(v.a3, w.a3))
  }

  function RotWord(w: Word): Word {
    Word(w.a1, w.a2, w.a3, w.a0)
  }

  function SubWord(box: Sbox, w: Word): Word {
    Word(box.sub(w.a0), box.sub(w.a1), box.sub(w.a2), box.sub(w.a3))
  }

  /** x^(j-1), for j >= 1. */
  function RconByte(j: nat): Byte {
    if j <= 1 then ONE else Xtime(BITS, RconByte(j - 1))
  }

  function Rcon(j: nat): Word {
    Word(RconByte(j), ZERO, ZERO, ZERO)
  }

  /** The word in the four bytes from place o on. */
  function WordAt(p: seq<Byte>, o: nat): Word
    requires o + 4 <= |p|
  {
    Word(p[o], p[o + 1], p[o + 2], p[o + 3])
  }

  /** What word i of the expanded key adds to the word nk places before it. */
  function Temp(box: Sbox, nk: nat, i: nat, previous: Word): Word
    requires nk > 0
  {
    if i % nk == 0 then WordPlus(SubWord(box, RotWord(previous)), Rcon(i / nk))
    else if nk > 6 && i % nk == 4 then SubWord(box, previous)
    else previous
  }

  /** Word i of the expansion of a key of nk words. */
  function KeyWord(box: Sbox, nk: nat, key: seq<Byte>, i: nat): Word
    requires nk > 0 && |key| == 4 * nk
  {
    if i < nk then WordAt(key, 4 * i)
    else WordPlus(KeyWord(box, nk, key, i - nk), Temp(box, nk, i, KeyWord(box, nk, key, i - 1)))
  }

  /** Byte r of a word. */
  function Row(w: Word, r: nat): Byte {
    if r == 0 then w.a0 else if r == 1 then w.a1 else if r == 2 then w.a2 else w.a3
  }

  /** The round keys: each takes four words as its columns. */
  function KeyExpansion(box: Sbox, nk: nat, key: seq<Byte>, rounds: nat): (w: seq<Block>)
    requires nk > 0 && |key| == 4 * nk
    ensures |w| == rounds + 1
  {
    seq(rounds + 1, u requires 0 <= u <= rounds => RoundKey(box, nk, key, u))
  }

  function RoundKey(box: Sbox, nk: nat, key: seq<Byte>, u: nat): Block
    requires nk > 0 && |key| == 4 * nk
  {
    seq(16, i requires 0 <= i < 16 => Row(KeyWord(box, nk, key, 4 * u + i / 4), i % 4))
  }

  /** Nr for a key of the given number of bytes; none for any other length. */
  function NumberOfRounds(keyLength: int): (n: nat)
    ensures n == 0 <==> keyLength !in {16, 24, 32}
    ensures n > 0 ==> 4 * n == keyLength + 24
  {
    if keyLength == 16 then 10 else if keyLength == 24 then 12 else if keyLength == 32 then 14 else 0
  }

  lemma KeyWordStart(box: Sbox, nk: nat, key: seq<Byte>, i: nat)
    requires i < nk && |key| == 4 * nk
    ensures KeyWord(box, nk, key, i) == WordAt(key, 4 * i)
  {
  }

  lemma KeyWordStep(box: Sbox, nk: nat, key: seq<Byte>, i: nat)
    requires 0 < nk <= i && |key| == 4 * nk
    ensures KeyWord(box, nk, key, i)
         == WordPlus(KeyWord(box, nk, key, i - nk), Temp(box, nk, i, KeyWord(box, nk, key, i - 1)))
  {
  }

  // ---------------------------------------------------------------------------------------------
  // Addition is commutative and associative

  lemma PlusCommutes(p: Byte, q: Byte)
    ensures Plus(p, q) == Plus(q, p)
  {
  }

  lemma PlusAssociates(p: Byte, q: Byte, r: Byte)
    ensures Plus(Plus(p, q), r) == Plus(p, Plus(q, r))
  {
  }

  lemma WordPlusCommutes(v: Word, w: Word)
    ensures WordPlus(v, w) == WordPlus(w, v)
  {
    hide Plus;
    PlusCommutes(v.a0, w.a0);
    PlusCommutes(v.a1, w.a1);
    PlusCommutes(v.a2, w.a2);
    PlusCommutes(v.a3, w.a3);
  }

  lemma WordPlusAssociates(u: Word, v: Word, w: Word)
    ensures WordPlus(WordPlus(u, v), w) == WordPlus(u, WordPlus(v, w))
  {
    hide Plus;
    PlusAssociates(u.a0, v.a0, w.a0);
    PlusAssociates(u.a1, v.a1, w.a1);
    PlusAssociates(u.a2, v.a2, w.a2);
    PlusAssociates(u.a3, v.a3, w.a3);
  }
}
