/** The table lookups of rijndael.c, against the round transformations of FIPS 197.

    A 32-bit word is modelled by its four bytes, a0 the most significant: every operation of the code on a
    word takes one of its bytes, masks bytes of it, or is an XOR.  The tables are functions with the
    shape given for them in rijndael.c, over an S-box `box` of any contents. */
module RijndaelRounds {
  import opened BitGates
  import opened Fips197
  import opened BlockColumns

  function Times2(s: Byte): Byte {
    Xtime(BITS, s)
  }

  function Times3(s: Byte): Byte {
    Plus(Xtime(BITS, s), s)
  }

  function Te0(box: Sbox, x: Byte): Word {
    var s := box.sub(x); Word(Times2(s), s, s, Times3(s))
  }

  function Te1(box: Sbox, x: Byte): Word {
    var s := box.sub(x); Word(Times3(s), Times2(s), s, s)
  }

  function Te2(box: Sbox, x: Byte): Word {
    var s := box.sub(x); Word(s, Times3(s), Times2(s), s)
  }

  function Te3(box: Sbox, x: Byte): Word {
    var s := box.sub(x); Word(s, s, Times3(s), Times2(s))
  }

  function Td0(box: Sbox, x: Byte): Word {
    var s := box.inv(x); Word(MulE(BITS, s), Mul9(BITS, s), MulD(BITS, s), MulB(BITS, s))
  }

  function Td1(box: Sbox, x: Byte): Word {
    var s := box.inv(x); Word(MulB(BITS, s), MulE(BITS, s), Mul9(BITS, s), MulD(BITS, s))
  }

  function Td2(box: Sbox, x: Byte): Word {
    var s := box.inv(x); Word(MulD(BITS, s), MulB(BITS, s), MulE(BITS, s), Mul9(BITS, s))
  }

  function Td3(box: Sbox, x: Byte): Word {
    var s := box.inv(x); Word(Mul9(BITS, s), MulD(BITS, s), MulB(BITS, s), MulE(BITS, s))
  }

  function Td4(box: Sbox, x: Byte): Byte {
    box.inv(x)
  }

  /** u ^ v ^ w ^ x ^ k. */
  function Xor5(u: Word, v: Word, w: Word, x: Word, k: Word): Word {
    WordPlus(WordPlus(WordPlus(WordPlus(u, v), w), x), k)
  }

  /** The four bytes that the masks 0xff000000, 0x00ff0000, 0x0000ff00 and 0x000000ff keep, put together. */
  function Masked(u: Word, v: Word, w: Word, x: Word): Word {
    Word(u.a0, v.a1, w.a2, x.a3)
  }

  // ---------------------------------------------------------------------------------------------
  // The round transformations, one column at a time

  /** Column c + d, cyclically. */
  function Ahead(c: nat, d: nat): (e: nat)
    requires c < 4 && d < 4
    ensures e < 4
  {
    if c + d < 4 then c + d else c + d - 4
  }

  /** Column c after SubBytes and ShiftRows. */
  lemma ShiftedColumn(box: Sbox, b: Block, c: nat)
    requires c < 4
    ensures Col(ShiftRows(SubBytes(box, b)), c)
         == Word(box.sub(Col(b, c).a0), box.sub(Col(b, Ahead(c, 1)).a1), box.sub(Col(b, Ahead(c, 2)).a2),
                 box.sub(Col(b, Ahead(c, 3)).a3))
  {
    SourceOf(c, 0);
    SourceOf(c, 1);
    SourceOf(c, 2);
    SourceOf(c, 3);
    hide Source, InvSource, Ahead;
  }

  lemma InvShiftedColumn(box: Sbox, b: Block, c: nat)
    requires c < 4
    ensures Col(InvShiftRows(InvSubBytes(box, b)), c)
         == Word(box.inv(Col(b, c).a0), box.inv(Col(b, Ahead(c, 3)).a1), box.inv(Col(b, Ahead(c, 2)).a2),
                 box.inv(Col(b, Ahead(c, 1)).a3))
  {
    SourceOf(c, 0);
    SourceOf(c, 1);
    SourceOf(c, 2);
    SourceOf(c, 3);
    hide Source, InvSource, Ahead;
  }

  lemma SourceOf(c: nat, r: nat)
    requires c < 4 && r < 4
    ensures Source(4 * c + r) == 4 * Ahead(c, r) + r
    ensures InvSource(4 * c + r) == 4 * Ahead(c, if r == 0 then 0 else 4 - r) + r
  {
  }

  function MixWord(w: Word): Word {
    Word(Mix(BITS, w.a0, w.a1, w.a2, w.a3), Mix(BITS, w.a1, w.a2, w.a3, w.a0),
         Mix(BITS, w.a2, w.a3, w.a0, w.a1), Mix(BITS, w.a3, w.a0, w.a1, w.a2))
  }

  function InvMixWord(w: Word): Word {
    Word(InvMix(BITS, w.a0, w.a1, w.a2, w.a3), InvMix(BITS, w.a1, w.a2, w.a3, w.a0),
         InvMix(BITS, w.a2, w.a3, w.a0, w.a1), InvMix(BITS, w.a3, w.a0, w.a1, w.a2))
  }

  lemma MixedColumn(b: Block, c: nat)
    requires c < 4
    ensures Col(MixColumns(b), c) == MixWord(Col(b, c))
    ensures Col(InvMixColumns(b), c) == InvMixWord(Col(b, c))
  {
    hide Mix, InvMix;
  }

  // ---------------------------------------------------------------------------------------------
  // Four table lookups mix a column

  lemma PlusTurns(p: Byte, q: Byte, r: Byte, s: Byte)
    ensures Plus(Plus(Plus(p, q), r), s) == Plus(Plus(p, q), Plus(r, s))
    ensures Plus(Plus(Plus(p, q), r), s) == Plus(Plus(q, r), Plus(s, p))
    ensures Plus(Plus(Plus(p, q), r), s) == Plus(Plus(r, s), Plus(p, q))
    ensures Plus(Plus(Plus(p, q), r), s) == Plus(Plus(s, p), Plus(q, r))
  {
    hide Plus;
    PlusAssociates(Plus(p, q), r, s);
    PlusCommutes(Plus(p, q), Plus(r, s));
    PlusAssociates(p, q, r);
    PlusCommutes(p, Plus(q, r));
    PlusAssociates(Plus(q, r), p, s);
    PlusCommutes(p, s);
    PlusCommutes(Plus(q, r), Plus(s, p));
  }

  lemma LookupsMix(box: Sbox, a: Byte, b: Byte, c: Byte, d: Byte)
    ensures WordPlus(WordPlus(WordPlus(Te0(box, a), Te1(box, b)), Te2(box, c)), Te3(box, d))
         == MixWord(Word(box.sub(a), box.sub(b), box.sub(c), box.sub(d)))
  {
    hide Xtime, Add;
    var a, b, c, d := box.sub(a), box.sub(b), box.sub(c), box.sub(d);
    PlusTurns(Times2(a), Times3(b), c, d);
    PlusTurns(a, Times2(b), Times3(c), d);
    PlusTurns(a, b, Times2(c), Times3(d));
    PlusTurns(Times3(a), b, c, Times2(d));
  }

  lemma LookupsInvMix(box: Sbox, a: Byte, b: Byte, c: Byte, d: Byte)
    ensures WordPlus(WordPlus(WordPlus(Td0(box, a), Td1(box, b)), Td2(box, c)), Td3(box, d))
         == InvMixWord(Word(box.inv(a), box.inv(b), box.inv(c), box.inv(d)))
  {
    hide Mul9, MulB, MulD, MulE, Add;
    var a, b, c, d := box.inv(a), box.inv(b), box.inv(c), box.inv(d);
    PlusTurns(MulE(BITS, a), MulB(BITS, b), MulD(BITS, c), Mul9(BITS, d));
    PlusTurns(Mul9(BITS, a), MulE(BITS, b), MulB(BITS, c), MulD(BITS, d));
    PlusTurns(MulD(BITS, a), Mul9(BITS, b), MulE(BITS, c), MulB(BITS, d));
    PlusTurns(MulB(BITS, a), MulD(BITS, b), Mul9(BITS, c), MulE(BITS, d));
  }

  // ---------------------------------------------------------------------------------------------
  // Rounds on four words

  function EncColumn(box: Sbox, a: Word, b: Word, c: Word, d: Word, k: Word): Word {
    Xor5(Te0(box, a.a0), Te1(box, b.a1), Te2(box, c.a2), Te3(box, d.a3), k)
  }

  function LastEncColumn(box: Sbox, a: Word, b: Word, c: Word, d: Word, k: Word): Word {
    WordPlus(Masked(Te2(box, a.a0), Te3(box, b.a1), Te0(box, c.a2), Te1(box, d.a3)), k)
  }

  function DecColumn(box: Sbox, a: Word, b: Word, c: Word, d: Word, k: Word): Word {
    Xor5(Td0(box, a.a0), Td1(box, b.a1), Td2(box, c.a2), Td3(box, d.a3), k)
  }

  function LastDecColumn(box: Sbox, a: Word, b: Word, c: Word, d: Word, k: Word): Word {
    WordPlus(Word(Td4(box, a.a0), Td4(box, b.a1), Td4(box, c.a2), Td4(box, d.a3)), k)
  }

  lemma EncRoundColumn(box: Sbox, b: Block, k: Block, c: nat)
    requires c < 4
    ensures Col(AddRoundKey(MixColumns(ShiftRows(SubBytes(box, b))), k), c)
         == EncColumn(box, Col(b, c), Col(b, Ahead(c, 1)), Col(b, Ahead(c, 2)), Col(b, Ahead(c, 3)), Col(k, c))
  {
    hide Col, Ahead, WordPlus, MixWord, SubBytes, ShiftRows, MixColumns, AddRoundKey, Te0, Te1, Te2, Te3;
    ShiftedColumn(box, b, c);
    MixedColumn(ShiftRows(SubBytes(box, b)), c);
    AddedColumn(MixColumns(ShiftRows(SubBytes(box, b))), k, c);
    LookupsMix(box, Col(b, c).a0, Col(b, Ahead(c, 1)).a1, Col(b, Ahead(c, 2)).a2, Col(b, Ahead(c, 3)).a3);
  }

  lemma LastEncRoundColumn(box: Sbox, b: Block, k: Block, c: nat)
    requires c < 4
    ensures Col(AddRoundKey(ShiftRows(SubBytes(box, b)), k), c)
         == LastEncColumn(box, Col(b, c), Col(b, Ahead(c, 1)), Col(b, Ahead(c, 2)), Col(b, Ahead(c, 3)), Col(k, c))
  {
    hide Col, Ahead, WordPlus, SubBytes, ShiftRows, AddRoundKey, Times2, Times3;
    ShiftedColumn(box, b, c);
    AddedColumn(ShiftRows(SubBytes(box, b)), k, c);
  }

  lemma DecRoundColumn(box: Sbox, b: Block, k: Block, c: nat)
    requires c < 4
    ensures Col(AddRoundKey(InvMixColumns(InvShiftRows(InvSubBytes(box, b))), k), c)
         == DecColumn(box, Col(b, c), Col(b, Ahead(c, 3)), Col(b, Ahead(c, 2)), Col(b, Ahead(c, 1)), Col(k, c))
  {
    hide Col, Ahead, WordPlus, InvMixWord, InvSubBytes, InvShiftRows, InvMixColumns, AddRoundKey, Td0, Td1, Td2, Td3;
    InvShiftedColumn(box, b, c);
    MixedColumn(InvShiftRows(InvSubBytes(box, b)), c);
    AddedColumn(InvMixColumns(InvShiftRows(InvSubBytes(box, b))), k, c);
    LookupsInvMix(box, Col(b, c).a0, Col(b, Ahead(c, 3)).a1, Col(b, Ahead(c, 2)).a2, Col(b, Ahead(c, 1)).a3);
  }

  lemma LastDecRoundColumn(box: Sbox, b: Block, k: Block, c: nat)
    requires c < 4
    ensures Col(AddRoundKey(InvShiftRows(InvSubBytes(box, b)), k), c)
         == LastDecColumn(box, Col(b, c), Col(b, Ahead(c, 3)), Col(b, Ahead(c, 2)), Col(b, Ahead(c, 1)), Col(k, c))
  {
    hide Col, Ahead, WordPlus, InvSubBytes, InvShiftRows, AddRoundKey;
    InvShiftedColumn(box, b, c);
    AddedColumn(InvShiftRows(InvSubBytes(box, b)), k, c);
  }

  /** The four column assignments of the unrolled loop are one round of the cipher. */
  lemma EncRound(box: Sbox, s0: Word, s1: Word, s2: Word, s3: Word, rk: seq<Word>, u: nat)
    requires 4 * u + 4 <= |rk|
    ensures State(EncColumn(box, s0, s1, s2, s3, rk[4 * u]), EncColumn(box, s1, s2, s3, s0, rk[4 * u + 1]),
                  EncColumn(box, s2, s3, s0, s1, rk[4 * u + 2]), EncColumn(box, s3, s0, s1, s2, rk[4 * u + 3]))
         == AddRoundKey(MixColumns(ShiftRows(SubBytes(box, State(s0, s1, s2, s3)))), Columns(rk, u))
  {
    hide Col, State, Columns, EncColumn, SubBytes, ShiftRows, MixColumns, AddRoundKey;
    var b, k := State(s0, s1, s2, s3), Columns(rk, u);
    ColOfState(s0, s1, s2, s3);
    forall c: nat | c < 4
      ensures Col(k, c) == rk[4 * u + c]
    {
      ColOfColumns(rk, u, c);
    }
    EncRoundColumn(box, b, k, 0);
    EncRoundColumn(box, b, k, 1);
    EncRoundColumn(box, b, k, 2);
    EncRoundColumn(box, b, k, 3);
    StateIs(EncColumn(box, s0, s1, s2, s3, rk[4 * u]), EncColumn(box, s1, s2, s3, s0, rk[4 * u + 1]),
            EncColumn(box, s2, s3, s0, s1, rk[4 * u + 2]), EncColumn(box, s3, s0, s1, s2, rk[4 * u + 3]),
            AddRoundKey(MixColumns(ShiftRows(SubBytes(box, b))), k));
  }

  lemma LastEncRound(box: Sbox, s0: Word, s1: Word, s2: Word, s3: Word, rk: seq<Word>, u: nat)
    requires 4 * u + 4 <= |rk|
    ensures State(LastEncColumn(box, s0, s1, s2, s3, rk[4 * u]), LastEncColumn(box, s1, s2, s3, s0, rk[4 * u + 1]),
                  LastEncColumn(box, s2, s3, s0, s1, rk[4 * u + 2]), LastEncColumn(box, s3, s0, s1, s2, rk[4 * u + 3]))
         == AddRoundKey(ShiftRows(SubBytes(box, State(s0, s1, s2, s3))), Columns(rk, u))
  {
    hide Col, State, Columns, LastEncColumn, SubBytes, ShiftRows, AddRoundKey;
    var b, k := State(s0, s1, s2, s3), Columns(rk, u);
    ColOfState(s0, s1, s2, s3);
    forall c: nat | c < 4
      ensures Col(k, c) == rk[4 * u + c]
    {
      ColOfColumns(rk, u, c);
    }
    LastEncRoundColumn(box, b, k, 0);
    LastEncRoundColumn(box, b, k, 1);
    LastEncRoundColumn(box, b, k, 2);
    LastEncRoundColumn(box, b, k, 3);
    StateIs(LastEncColumn(box, s0, s1, s2, s3, rk[4 * u]), LastEncColumn(box, s1, s2, s3, s0, rk[4 * u + 1]),
            LastEncColumn(box, s2, s3, s0, s1, rk[4 * u + 2]), LastEncColumn(box, s3, s0, s1, s2, rk[4 * u + 3]),
            AddRoundKey(ShiftRows(SubBytes(box, b)), k));
  }

  lemma DecRound(box: Sbox, s0: Word, s1: Word, s2: Word, s3: Word, rk: seq<Word>, u: nat)
    requires 4 * u + 4 <= |rk|
    ensures State(DecColumn(box, s0, s3, s2, s1, rk[4 * u]), DecColumn(box, s1, s0, s3, s2, rk[4 * u + 1]),
                  DecColumn(box, s2, s1, s0, s3, rk[4 * u + 2]), DecColumn(box, s3, s2, s1, s0, rk[4 * u + 3]))
         == AddRoundKey(InvMixColumns(InvShiftRows(InvSubBytes(box, State(s0, s1, s2, s3)))), Columns(rk, u))
  {
    hide Col, State, Columns, DecColumn, InvSubBytes, InvShiftRows, InvMixColumns, AddRoundKey;
    var b, k := State(s0, s1, s2, s3), Columns(rk, u);
    ColOfState(s0, s1, s2, s3);
    forall c: nat | c < 4
      ensures Col(k, c) == rk[4 * u + c]
    {
      ColOfColumns(rk, u, c);
    }
    DecRoundColumn(box, b, k, 0);
    DecRoundColumn(box, b, k, 1);
    DecRoundColumn(box, b, k, 2);
    DecRoundColumn(box, b, k, 3);
    StateIs(DecColumn(box, s0, s3, s2, s1, rk[4 * u]), DecColumn(box, s1, s0, s3, s2, rk[4 * u + 1]),
            DecColumn(box, s2, s1, s0, s3, rk[4 * u + 2]), DecColumn(box, s3, s2, s1, s0, rk[4 * u + 3]),
            AddRoundKey(InvMixColumns(InvShiftRows(InvSubBytes(box, b))), k));
  }

  lemma LastDecRound(box: Sbox, s0: Word, s1: Word, s2: Word, s3: Word, rk: seq<Word>, u: nat)
    requires 4 * u + 4 <= |rk|
    ensures State(LastDecColumn(box, s0, s3, s2, s1, rk[4 * u]), LastDecColumn(box, s1, s0, s3, s2, rk[4 * u + 1]),
                  LastDecColumn(box, s2, s1, s0, s3, rk[4 * u + 2]), LastDecColumn(box, s3, s2, s1, s0, rk[4 * u + 3]))
         == AddRoundKey(InvShiftRows(InvSubBytes(box, State(s0, s1, s2, s3))), Columns(rk, u))
  {
    hide Col, State, Columns, LastDecColumn, InvSubBytes, InvShiftRows, AddRoundKey;
    var b, k := State(s0, s1, s2, s3), Columns(rk, u);
    ColOfState(s0, s1, s2, s3);
    forall c: nat | c < 4
      ensures Col(k, c) == rk[4 * u + c]
    {
      ColOfColumns(rk, u, c);
    }
    LastDecRoundColumn(box, b, k, 0);
    LastDecRoundColumn(box, b, k, 1);
    LastDecRoundColumn(box, b, k, 2);
    LastDecRoundColumn(box, b, k, 3);
    StateIs(LastDecColumn(box, s0, s3, s2, s1, rk[4 * u]), LastDecColumn(box, s1, s0, s3, s2, rk[4 * u + 1]),
            LastDecColumn(box, s2, s1, s0, s3, rk[4 * u + 2]), LastDecColumn(box, s3, s2, s1, s0, rk[4 * u + 3]),
            AddRoundKey(InvShiftRows(InvSubBytes(box, b)), k));
  }

  lemma FirstAddition(b: Block, rk: seq<Word>)
    requires 4 <= |rk|
    ensures State(WordPlus(Col(b, 0), rk[0]), WordPlus(Col(b, 1), rk[1]), WordPlus(Col(b, 2), rk[2]),
                  WordPlus(Col(b, 3), rk[3])) == AddRoundKey(b, Columns(rk, 0))
  {
    hide Col, State, Columns, AddRoundKey, WordPlus;
    var k := Columns(rk, 0);
    ColOfColumns(rk, 0, 0);
    ColOfColumns(rk, 0, 1);
    ColOfColumns(rk, 0, 2);
    ColOfColumns(rk, 0, 3);
    AddedColumn(b, k, 0);
    AddedColumn(b, k, 1);
    AddedColumn(b, k, 2);
    AddedColumn(b, k, 3);
    StateIs(WordPlus(Col(b, 0), rk[0]), WordPlus(Col(b, 1), rk[1]), WordPlus(Col(b, 2), rk[2]),
            WordPlus(Col(b, 3), rk[3]), AddRoundKey(b, k));
  }
}
