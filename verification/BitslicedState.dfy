/** The bit-sliced state of aes.c: eight 32-bit words holding two AES states, and what each step of the
    cipher does to the 16 bytes of either of them.

    Word j holds bit j of every byte.  The byte in row r and column c of state l (0 or 1) sits at rank
    8r + 2c + l of all eight words. */
module BitslicedState {
  import opened BitGates
  import opened Words
  import opened SboxCircuit
  import opened BitslicedMix
  import opened Fips197

  const AES: Fips197.Sbox := Fips197.Sbox((x: Byte) => Sub(BITS, x), (x: Byte) => InvSub(BITS, x))

  lemma AesSboxInverse()
    ensures MutuallyInverse(AES)
  {
    hide Sub, InvSub, BITS;
    forall x
      ensures AES.inv(AES.sub(x)) == x
      ensures AES.sub(AES.inv(x)) == x
    {
      SubUndone(x);
    }
  }

  // ---------------------------------------------------------------------------------------------
  // Lanes

  function At(k: bv32): bv32 -> bool
    requires k < 32
  {
    (w: bv32) => Bit(w, k)
  }

  /** The byte at rank k. */
  function Lane(q: Slice<bv32>, k: bv32): Byte
    requires k < 32
  {
    Map(At(k), q)
  }

  lemma AtXor(a: bv32, b: bv32, k: bv32)
    requires k < 32
    ensures At(k)(WORDS.xor(a, b)) == BITS.xor(At(k)(a), At(k)(b))
  {
    hide Bit, BITS, WORDS;
    WordXor(a, b);
    BitGate(Bit(a, k), Bit(b, k));
    BitXor(a, b, k);
  }

  lemma AtAnd(a: bv32, b: bv32, k: bv32)
    requires k < 32
    ensures At(k)(WORDS.and(a, b)) == BITS.and(At(k)(a), At(k)(b))
  {
    hide Bit, BITS, WORDS;
    WordAnd(a, b);
    BitGate(Bit(a, k), Bit(b, k));
    BitAnd(a, b, k);
  }

  lemma AtNot(a: bv32, k: bv32)
    requires k < 32
    ensures At(k)(WORDS.not(a)) == BITS.not(At(k)(a))
  {
    hide Bit, BITS, WORDS;
    WordNot(a);
    BitGate(Bit(a, k), Bit(a, k));
    BitNot(a, k);
  }

  lemma AtHom(k: bv32)
    requires k < 32
    ensures Hom(WORDS, BITS, At(k))
  {
    hide At, BITS, WORDS;
    forall a, b
      ensures At(k)(WORDS.xor(a, b)) == BITS.xor(At(k)(a), At(k)(b))
    {
      AtXor(a, b, k);
    }
    forall a, b
      ensures At(k)(WORDS.and(a, b)) == BITS.and(At(k)(a), At(k)(b))
    {
      AtAnd(a, b, k);
    }
    forall a
      ensures At(k)(WORDS.not(a)) == BITS.not(At(k)(a))
    {
      AtNot(a, k);
    }
  }

  // ---------------------------------------------------------------------------------------------
  // The two states

  function RowRank(r: nat): bv32 {
    if r == 0 then 0 else if r == 1 then 8 else if r == 2 then 16 else 24
  }

  function ColumnRank(c: nat): bv32 {
    if c == 0 then 0 else if c == 1 then 2 else if c == 2 then 4 else 6
  }

  /** The rank of byte i of state l; byte r + 4c of a block is row r of column c. */
  function Rank(i: nat, l: bv32): (k: bv32)
    requires i < 16 && l < 2
    ensures k < 32
  {
    RowRank(i % 4) | ColumnRank(i / 4) | l
  }

  /** State l of the bit-sliced words. */
  function View(q: Slice<bv32>, l: bv32): (s: Block)
    requires l < 2
    ensures forall i: nat :: i < 16 ==> s[i] == Lane(q, Rank(i, l))
  {
    seq(16, i requires 0 <= i < 16 => Lane(q, Rank(i, l)))
  }

  lemma SubView(q: Slice<bv32>, l: bv32)
    requires l < 2
    ensures View(Sub(WORDS, q), l) == SubBytes(AES, View(q, l))
    ensures View(InvSub(WORDS, q), l) == InvSubBytes(AES, View(q, l))
  {
    hide Sub, InvSub, At, Map, Rank, BITS, WORDS;
    forall i: nat | i < 16
      ensures View(Sub(WORDS, q), l)[i] == AES.sub(View(q, l)[i])
      ensures View(InvSub(WORDS, q), l)[i] == AES.inv(View(q, l)[i])
    {
      var k := Rank(i, l);
      AtHom(k);
      SubHom(WORDS, BITS, At(k), q);
      InvSubHom(WORDS, BITS, At(k), q);
    }
  }

  lemma AddView(q: Slice<bv32>, key: Slice<bv32>, l: bv32)
    requires l < 2
    ensures View(Add(WORDS, q, key), l) == AddRoundKey(View(q, l), View(key, l))
  {
    hide Add, At, Map, Rank, BITS, WORDS;
    forall i: nat | i < 16
      ensures View(Add(WORDS, q, key), l)[i] == Plus(View(q, l)[i], View(key, l)[i])
    {
      var k := Rank(i, l);
      AtHom(k);
      AddHom(WORDS, BITS, At(k), q, key);
    }
  }

  // ---------------------------------------------------------------------------------------------
  // shift_rows and inv_shift_rows, one word at a time

  function ShiftWord(x: bv32): bv32 {
    (x & 0x0000_00ff)
    | ((x & 0x0000_fc00) >> 2) | ((x & 0x0000_0300) << 6)
    | ((x & 0x00f0_0000) >> 4) | ((x & 0x000f_0000) << 4)
    | ((x & 0xc000_0000) >> 6) | ((x & 0x3f00_0000) << 2)
  }

  function InvShiftWord(x: bv32): bv32 {
    (x & 0x0000_00ff)
    | ((x & 0x0000_3f00) << 2) | ((x & 0x0000_c000) >> 6)
    | ((x & 0x000f_0000) << 4) | ((x & 0x00f0_0000) >> 4)
    | ((x & 0x0300_0000) << 6) | ((x & 0xfc00_0000) >> 2)
  }

  /** The rank moved to rank k: its row is moved left by as many columns as its number. */
  function ShiftedRank(k: bv32): (m: bv32)
    requires k < 32
    ensures m < 32
  {
    (k & 0x18) | ((k + ((k >> 3) << 1)) & 0x07)
  }

  function InvShiftedRank(k: bv32): (m: bv32)
    requires k < 32
    ensures m < 32
  {
    (k & 0x18) | ((k - ((k >> 3) << 1)) & 0x07)
  }

  lemma ShiftWordBit(x: bv32, k: bv32)
    requires k < 32
    ensures Bit(ShiftWord(x), k) == Bit(x, ShiftedRank(k))
  {
  }

  lemma InvShiftWordBit(x: bv32, k: bv32)
    requires k < 32
    ensures Bit(InvShiftWord(x), k) == Bit(x, InvShiftedRank(k))
  {
  }

  lemma RankOfSource(i: nat, l: bv32)
    requires i < 16 && l < 2
    ensures ShiftedRank(Rank(i, l)) == Rank(Source(i), l)
  {
  }

  lemma RankOfInvSource(i: nat, l: bv32)
    requires i < 16 && l < 2
    ensures InvShiftedRank(Rank(i, l)) == Rank(InvSource(i), l)
  {
  }

  function ShiftWords(q: Slice<bv32>): Slice<bv32> {
    Slice(ShiftWord(q.b0), ShiftWord(q.b1), ShiftWord(q.b2), ShiftWord(q.b3),
          ShiftWord(q.b4), ShiftWord(q.b5), ShiftWord(q.b6), ShiftWord(q.b7))
  }

  function InvShiftWords(q: Slice<bv32>): Slice<bv32> {
    Slice(InvShiftWord(q.b0), InvShiftWord(q.b1), InvShiftWord(q.b2), InvShiftWord(q.b3),
          InvShiftWord(q.b4), InvShiftWord(q.b5), InvShiftWord(q.b6), InvShiftWord(q.b7))
  }

  lemma ShiftLane(q: Slice<bv32>, k: bv32)
    requires k < 32
    ensures Lane(ShiftWords(q), k) == Lane(q, ShiftedRank(k))
  {
    hide Bit, ShiftWord, ShiftedRank;
    ShiftWordBit(q.b0, k);
    ShiftWordBit(q.b1, k);
    ShiftWordBit(q.b2, k);
    ShiftWordBit(q.b3, k);
    ShiftWordBit(q.b4, k);
    ShiftWordBit(q.b5, k);
    ShiftWordBit(q.b6, k);
    ShiftWordBit(q.b7, k);
  }

  lemma InvShiftLane(q: Slice<bv32>, k: bv32)
    requires k < 32
    ensures Lane(InvShiftWords(q), k) == Lane(q, InvShiftedRank(k))
  {
    hide Bit, InvShiftWord, InvShiftedRank;
    InvShiftWordBit(q.b0, k);
    InvShiftWordBit(q.b1, k);
    InvShiftWordBit(q.b2, k);
    InvShiftWordBit(q.b3, k);
    InvShiftWordBit(q.b4, k);
    InvShiftWordBit(q.b5, k);
    InvShiftWordBit(q.b6, k);
    InvShiftWordBit(q.b7, k);
  }

  lemma ShiftView(q: Slice<bv32>, l: bv32)
    requires l < 2
    ensures View(ShiftWords(q), l) == ShiftRows(View(q, l))
    ensures View(InvShiftWords(q), l) == InvShiftRows(View(q, l))
  {
    hide Lane, ShiftWords, InvShiftWords, Rank, ShiftedRank, InvShiftedRank, Source, InvSource;
    var s := View(q, l);
    forall i: nat | i < 16
      ensures View(ShiftWords(q), l)[i] == ShiftRows(s)[i]
      ensures View(InvShiftWords(q), l)[i] == InvShiftRows(s)[i]
    {
      RankOfSource(i, l);
      RankOfInvSource(i, l);
      ShiftLane(q, Rank(i, l));
      InvShiftLane(q, Rank(i, l));
    }
  }

  // ---------------------------------------------------------------------------------------------
  // mix_columns and inv_mix_columns

  function Ror8(w: bv32): bv32 {
    (w >> 8) | (w << 24)
  }

  function Ror16(w: bv32): bv32 {
    (w << 16) | (w >> 16)
  }

  function Ror8Words(q: Slice<bv32>): Slice<bv32> {
    Slice(Ror8(q.b0), Ror8(q.b1), Ror8(q.b2), Ror8(q.b3),
          Ror8(q.b4), Ror8(q.b5), Ror8(q.b6), Ror8(q.b7))
  }

  function Ror16Words(q: Slice<bv32>): Slice<bv32> {
    Slice(Ror16(q.b0), Ror16(q.b1), Ror16(q.b2), Ror16(q.b3),
          Ror16(q.b4), Ror16(q.b5), Ror16(q.b6), Ror16(q.b7))
  }

  function MixWords(q: Slice<bv32>): Slice<bv32> {
    var r := Ror8Words(q);
    Add(WORDS, MixHere(WORDS, q, r), Ror16Words(MixAcross(WORDS, q, r)))
  }

  function InvMixWords(q: Slice<bv32>): Slice<bv32> {
    var r := Ror8Words(q);
    Add(WORDS, InvMixHere(WORDS, q, r), Ror16Words(InvMixAcross(WORDS, q, r)))
  }

  /** The rank d rows further down, cyclically. */
  function Below(k: bv32, d: bv32): (m: bv32)
    ensures m < 32
  {
    (k + 8 * d) & 0x1f
  }

  lemma Ror8Bit(w: bv32, k: bv32)
    requires k < 32
    ensures Bit(Ror8(w), k) == Bit(w, Below(k, 1))
  {
  }

  lemma Ror16Bit(w: bv32, k: bv32)
    requires k < 32
    ensures Bit(Ror16(w), k) == Bit(w, Below(k, 2))
  {
  }

  lemma BelowBelow(k: bv32)
    requires k < 32
    ensures Below(Below(k, 2), 1) == Below(k, 3)
  {
  }

  lemma Ror8Lane(q: Slice<bv32>, k: bv32)
    requires k < 32
    ensures Lane(Ror8Words(q), k) == Lane(q, Below(k, 1))
  {
    hide Bit, Ror8, Below;
    Ror8Bit(q.b0, k);
    Ror8Bit(q.b1, k);
    Ror8Bit(q.b2, k);
    Ror8Bit(q.b3, k);
    Ror8Bit(q.b4, k);
    Ror8Bit(q.b5, k);
    Ror8Bit(q.b6, k);
    Ror8Bit(q.b7, k);
  }

  lemma Ror16Lane(q: Slice<bv32>, k: bv32)
    requires k < 32
    ensures Lane(Ror16Words(q), k) == Lane(q, Below(k, 2))
  {
    hide Bit, Ror16, Below;
    Ror16Bit(q.b0, k);
    Ror16Bit(q.b1, k);
    Ror16Bit(q.b2, k);
    Ror16Bit(q.b3, k);
    Ror16Bit(q.b4, k);
    Ror16Bit(q.b5, k);
    Ror16Bit(q.b6, k);
    Ror16Bit(q.b7, k);
  }

  lemma MixLane(q: Slice<bv32>, k: bv32)
    requires k < 32
    ensures Lane(MixWords(q), k)
         == Mix(BITS, Lane(q, k), Lane(q, Below(k, 1)), Lane(q, Below(k, 2)), Lane(q, Below(k, 3)))
    ensures Lane(InvMixWords(q), k)
         == InvMix(BITS, Lane(q, k), Lane(q, Below(k, 1)), Lane(q, Below(k, 2)), Lane(q, Below(k, 3)))
  {
    hide Add, Map, At, MixHere, InvMixHere, MixAcross, InvMixAcross, Below, Ror8Words, Ror16Words, Mix, InvMix;
    hide BITS, WORDS;
    var r := Ror8Words(q);
    var s, t := MixAcross(WORDS, q, r), InvMixAcross(WORDS, q, r);
    var m := Below(k, 2);
    AtHom(k);
    AtHom(m);
    AddHom(WORDS, BITS, At(k), MixHere(WORDS, q, r), Ror16Words(s));
    AddHom(WORDS, BITS, At(k), InvMixHere(WORDS, q, r), Ror16Words(t));
    HereHom(WORDS, BITS, At(k), q, r);
    Ror16Lane(s, k);
    Ror16Lane(t, k);
    AcrossHom(WORDS, BITS, At(m), q, r);
    Ror8Lane(q, k);
    Ror8Lane(q, m);
    BelowBelow(k);
    CodeIsMix(Lane(q, k), Lane(q, Below(k, 1)), Lane(q, m), Lane(q, Below(k, 3)));
  }

  lemma RankOfNext1(i: nat, l: bv32)
    requires i < 16 && l < 2
    ensures Below(Rank(i, l), 1) == Rank(Next(i, 1), l)
  {
  }

  lemma RankOfNext2(i: nat, l: bv32)
    requires i < 16 && l < 2
    ensures Below(Rank(i, l), 2) == Rank(Next(i, 2), l)
  {
  }

  lemma RankOfNext3(i: nat, l: bv32)
    requires i < 16 && l < 2
    ensures Below(Rank(i, l), 3) == Rank(Next(i, 3), l)
  {
  }

  lemma MixView(q: Slice<bv32>, l: bv32)
    requires l < 2
    ensures View(MixWords(q), l) == MixColumns(View(q, l))
    ensures View(InvMixWords(q), l) == InvMixColumns(View(q, l))
  {
    hide Lane, MixWords, InvMixWords, Mix, InvMix, Rank, Below, Next;
    var s := View(q, l);
    forall i: nat | i < 16
      ensures View(MixWords(q), l)[i] == MixColumns(s)[i]
      ensures View(InvMixWords(q), l)[i] == InvMixColumns(s)[i]
    {
      MixColumnsAt(s, i);
      RankOfNext1(i, l);
      RankOfNext2(i, l);
      RankOfNext3(i, l);
      MixLane(q, Rank(i, l));
    }
  }
}
