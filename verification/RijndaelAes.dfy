/** The table-driven AES of rijndael.c: key setup for both directions, encryption, and decryption by the
    equivalent inverse cipher.  The source and destination of a call may be the same buffer. */
module RijndaelAes {
  import opened BitGates
  import opened Fips197
  import opened BlockColumns
  import opened RijndaelRounds
  import opened RoundConstants
  import LinearCircuits

  /** The round keys held in rk. */
  function Keys(rk: seq<Word>, nr: nat): (w: seq<Block>)
    requires 4 * nr + 4 <= |rk|
    ensures |w| == nr + 1
    ensures forall u: nat :: u <= nr ==> w[u] == Columns(rk, u)
  {
    seq(nr + 1, u requires 0 <= u <= nr => Columns(rk, u))
  }

  /** PUTU32. */
  method PutU32(p: array<Byte>, o: nat, w: Word)
    requires o + 4 <= p.Length
    modifies p
    ensures WordAt(p[..], o) == w
    ensures forall j :: 0 <= j < p.Length && !(o <= j < o + 4) ==> p[j] == old(p[j])
  {
    p[o] := w.a0;
    p[o + 1] := w.a1;
    p[o + 2] := w.a2;
    p[o + 3] := w.a3;
  }

  /** rijndaelEncrypt, in the form with the loop of nr / 2 turns. */
  method Encrypt(box: Sbox, rk: array<Word>, nr: nat, pt: array<Byte>, ct: array<Byte>)
    requires nr >= 2 && nr % 2 == 0 && 4 * nr + 4 <= rk.Length
    requires pt.Length == 16 && ct.Length == 16 && ct as object != rk
    modifies ct
    ensures ct[..] == Cipher(box, Keys(rk[..], nr), old(pt[..]))
  {
    hide EncColumn, LastEncColumn, State, Columns, SubBytes, ShiftRows, MixColumns, AddRoundKey, WordPlus;
    ghost var w, x, keys := Keys(rk[..], nr), pt[..], rk[..];
    var s0 := WordPlus(WordAt(pt[..], 0), rk[0]);
    var s1 := WordPlus(WordAt(pt[..], 4), rk[1]);
    var s2 := WordPlus(WordAt(pt[..], 8), rk[2]);
    var s3 := WordPlus(WordAt(pt[..], 12), rk[3]);
    FirstAddition(x, keys);
    var t0, t1, t2, t3;
    var r, o := nr / 2, 0;
    ghost var u := 0;
    while true
      invariant 0 < r <= nr / 2 && u == 2 * (nr / 2 - r) && o == 4 * u
      invariant State(s0, s1, s2, s3) == Rounds(box, w, x, u)
      decreases r
    {
      EncRound(box, s0, s1, s2, s3, keys, u + 1);
      t0 := EncColumn(box, s0, s1, s2, s3, rk[o + 4]);
      t1 := EncColumn(box, s1, s2, s3, s0, rk[o + 5]);
      t2 := EncColumn(box, s2, s3, s0, s1, rk[o + 6]);
      t3 := EncColumn(box, s3, s0, s1, s2, rk[o + 7]);
      assert State(t0, t1, t2, t3) == Rounds(box, w, x, u + 1);
      o := o + 8;
      r := r - 1;
      if r == 0 {
        break;
      }
      EncRound(box, t0, t1, t2, t3, keys, u + 2);
      s0 := EncColumn(box, t0, t1, t2, t3, rk[o]);
      s1 := EncColumn(box, t1, t2, t3, t0, rk[o + 1]);
      s2 := EncColumn(box, t2, t3, t0, t1, rk[o + 2]);
      s3 := EncColumn(box, t3, t0, t1, t2, rk[o + 3]);
      u := u + 2;
    }
    LastEncRound(box, t0, t1, t2, t3, keys, nr);
    s0 := LastEncColumn(box, t0, t1, t2, t3, rk[o]);
    PutU32(ct, 0, s0);
    s1 := LastEncColumn(box, t1, t2, t3, t0, rk[o + 1]);
    PutU32(ct, 4, s1);
    s2 := LastEncColumn(box, t2, t3, t0, t1, rk[o + 2]);
    PutU32(ct, 8, s2);
    s3 := LastEncColumn(box, t3, t0, t1, t2, rk[o + 3]);
    PutU32(ct, 12, s3);
    StateIs(s0, s1, s2, s3, ct[..]);
  }

  /** rijndaelDecrypt. */
  method Decrypt(box: Sbox, rk: array<Word>, nr: nat, ct: array<Byte>, pt: array<Byte>)
    requires nr >= 2 && nr % 2 == 0 && 4 * nr + 4 <= rk.Length
    requires ct.Length == 16 && pt.Length == 16 && pt as object != rk
    modifies pt
    ensures pt[..] == EqInvCipher(box, Keys(rk[..], nr), old(ct[..]))
  {
    hide DecColumn, LastDecColumn, State, Columns, InvSubBytes, InvShiftRows, InvMixColumns, AddRoundKey, WordPlus;
    ghost var w, x, keys := Keys(rk[..], nr), ct[..], rk[..];
    var s0 := WordPlus(WordAt(ct[..], 0), rk[0]);
    var s1 := WordPlus(WordAt(ct[..], 4), rk[1]);
    var s2 := WordPlus(WordAt(ct[..], 8), rk[2]);
    var s3 := WordPlus(WordAt(ct[..], 12), rk[3]);
    FirstAddition(x, keys);
    var t0, t1, t2, t3;
    var r, o := nr / 2, 0;
    ghost var u := 0;
    while true
      invariant 0 < r <= nr / 2 && u == 2 * (nr / 2 - r) && o == 4 * u
      invariant State(s0, s1, s2, s3) == EqInvRounds(box, w, x, u)
      decreases r
    {
      DecRound(box, s0, s1, s2, s3, keys, u + 1);
      t0 := DecColumn(box, s0, s3, s2, s1, rk[o + 4]);
      t1 := DecColumn(box, s1, s0, s3, s2, rk[o + 5]);
      t2 := DecColumn(box, s2, s1, s0, s3, rk[o + 6]);
      t3 := DecColumn(box, s3, s2, s1, s0, rk[o + 7]);
      assert State(t0, t1, t2, t3) == EqInvRounds(box, w, x, u + 1);
      o := o + 8;
      r := r - 1;
      if r == 0 {
        break;
      }
      DecRound(box, t0, t1, t2, t3, keys, u + 2);
      s0 := DecColumn(box, t0, t3, t2, t1, rk[o]);
      s1 := DecColumn(box, t1, t0, t3, t2, rk[o + 1]);
      s2 := DecColumn(box, t2, t1, t0, t3, rk[o + 2]);
      s3 := DecColumn(box, t3, t2, t1, t0, rk[o + 3]);
      u := u + 2;
    }
    LastDecRound(box, t0, t1, t2, t3, keys, nr);
    s0 := LastDecColumn(box, t0, t3, t2, t1, rk[o]);
    PutU32(pt, 0, s0);
    s1 := LastDecColumn(box, t1, t0, t3, t2, rk[o + 1]);
    PutU32(pt, 4, s1);
    s2 := LastDecColumn(box, t2, t1, t0, t3, rk[o + 2]);
    PutU32(pt, 8, s2);
    s3 := LastDecColumn(box, t3, t2, t1, t0, rk[o + 3]);
    PutU32(pt, 12, s3);
    StateIs(s0, s1, s2, s3, pt[..]);
  }

  // ---------------------------------------------------------------------------------------------
  // Key setup

  /** The first n words of rk are those of the key expansion. */
  ghost predicate HoldsKey(rk: seq<Word>, box: Sbox, nk: nat, key: seq<Byte>, n: nat)
    requires nk > 0 && |key| == 4 * nk && n <= |rk|
  {
    forall m :: 0 <= m < n ==> rk[m] == KeyWord(box, nk, key, m)
  }

  lemma KeyWordTurn(box: Sbox, nk: nat, key: seq<Byte>, i: nat)
    requires nk == 4 || nk == 6 || nk == 8
    requires |key| == 4 * nk
    ensures nk * (i + 1) >= nk
    ensures var j := nk * (i + 1);
      KeyWord(box, nk, key, j)
         == WordPlus(WordPlus(KeyWord(box, nk, key, j - nk), SubWord(box, RotWord(KeyWord(box, nk, key, j - 1)))),
                     Rcon(i + 1))
  {
    hide KeyWord, WordPlus, SubWord, RotWord, Rcon;
    var j := nk * (i + 1);
    TurnCounts(nk, i);
    KeyWordStep(box, nk, key, j);
    WordPlusAssociates(KeyWord(box, nk, key, j - nk), SubWord(box, RotWord(KeyWord(box, nk, key, j - 1))), Rcon(i + 1));
  }

  lemma TurnCounts(nk: nat, i: nat)
    requires nk == 4 || nk == 6 || nk == 8
    ensures nk * (i + 1) >= nk && nk * (i + 1) % nk == 0 && nk * (i + 1) / nk == i + 1
  {
    if nk == 4 {
    } else if nk == 6 {
    } else {
    }
  }

  lemma KeyWordCopy(box: Sbox, nk: nat, key: seq<Byte>, j: nat)
    requires 0 < nk <= j && |key| == 4 * nk && j % nk != 0 && !(nk > 6 && j % nk == 4)
    ensures KeyWord(box, nk, key, j) == WordPlus(KeyWord(box, nk, key, j - nk), KeyWord(box, nk, key, j - 1))
  {
    hide KeyWord, WordPlus;
    KeyWordStep(box, nk, key, j);
  }

  lemma KeyWordSub(box: Sbox, key: seq<Byte>, j: nat)
    requires 8 <= j && |key| == 32 && j % 8 == 4
    ensures KeyWord(box, 8, key, j) == WordPlus(KeyWord(box, 8, key, j - 8), SubWord(box, KeyWord(box, 8, key, j - 1)))
  {
    hide KeyWord, WordPlus, SubWord;
    KeyWordStep(box, 8, key, j);
  }

  /** rcon[i]. */
  function RconWord(i: nat): Word
    requires i < 10
  {
    Word(LinearCircuits.ByteOf(RconAt(i), 0), ZERO, ZERO, ZERO)
  }

  lemma RconWordIs(i: nat)
    requires i < 10
    ensures RconWord(i) == Rcon(i + 1)
  {
    hide LinearCircuits.ByteOf, RconAt, RconByte;
    RconRow(i);
  }

  /** The lookups of a word turned by one byte. */
  function TurnedLookups(box: Sbox, temp: Word): Word {
    Masked(Te2(box, temp.a1), Te3(box, temp.a2), Te0(box, temp.a3), Te1(box, temp.a0))
  }

  function StraightLookups(box: Sbox, temp: Word): Word {
    Masked(Te2(box, temp.a0), Te3(box, temp.a1), Te0(box, temp.a2), Te1(box, temp.a3))
  }

  lemma LookupsSub(box: Sbox, temp: Word)
    ensures TurnedLookups(box, temp) == SubWord(box, RotWord(temp))
    ensures StraightLookups(box, temp) == SubWord(box, temp)
  {
    hide Times2, Times3;
  }

  /** The word that starts turn i of the key, from place o on. */
  method Turn(box: Sbox, rk: array<Word>, nk: nat, ghost key: seq<Byte>, o: nat, i: nat)
    requires nk == 4 || nk == 6 || nk == 8
    requires |key| == 4 * nk && i < 10 && o == nk * i && o + nk < rk.Length
    requires HoldsKey(rk[..], box, nk, key, o + nk)
    modifies rk
    ensures HoldsKey(rk[..], box, nk, key, o + nk + 1)
  {
    hide KeyWord, WordPlus, SubWord, RotWord, Rcon, RconWord, TurnedLookups;
    var temp := rk[o + nk - 1];
    KeyWordTurn(box, nk, key, i);
    LookupsSub(box, temp);
    RconWordIs(i);
    assert o + nk == nk * (i + 1);
    rk[o + nk] := WordPlus(WordPlus(rk[o], TurnedLookups(box, temp)), RconWord(i));
  }

  /** A word that adds its predecessor to the word nk places before it. */
  method Copy(box: Sbox, rk: array<Word>, nk: nat, ghost key: seq<Byte>, j: nat)
    requires 0 < nk <= j < rk.Length && |key| == 4 * nk && j % nk != 0 && !(nk > 6 && j % nk == 4)
    requires HoldsKey(rk[..], box, nk, key, j)
    modifies rk
    ensures HoldsKey(rk[..], box, nk, key, j + 1)
  {
    hide KeyWord, WordPlus;
    KeyWordCopy(box, nk, key, j);
    rk[j] := WordPlus(rk[j - nk], rk[j - 1]);
  }

  /** The S-box step in the middle of a 256-bit turn. */
  method Substitute(box: Sbox, rk: array<Word>, ghost key: seq<Byte>, j: nat)
    requires 8 <= j < rk.Length && |key| == 32 && j % 8 == 4
    requires HoldsKey(rk[..], box, 8, key, j)
    modifies rk
    ensures HoldsKey(rk[..], box, 8, key, j + 1)
  {
    hide KeyWord, WordPlus, SubWord, StraightLookups;
    KeyWordSub(box, key, j);
    var temp := rk[j - 1];
    LookupsSub(box, temp);
    rk[j] := WordPlus(rk[j - 8], StraightLookups(box, temp));
  }

  /** The loop for keys of 128 bits. */
  method Expand128(box: Sbox, rk: array<Word>, ghost key: seq<Byte>) returns (nr: nat)
    requires rk.Length == 60 && |key| == 16 && HoldsKey(rk[..], box, 4, key, 4)
    modifies rk
    ensures nr == 10 && HoldsKey(rk[..], box, 4, key, 44)
  {
    hide HoldsKey;
    var i: nat := 0;
    var o := 0;
    while true
      invariant i < 10 && o == 4 * i
      invariant HoldsKey(rk[..], box, 4, key, o + 4)
      decreases 10 - i
    {
      Turn(box, rk, 4, key, o, i);
      Copy(box, rk, 4, key, o + 5);
      Copy(box, rk, 4, key, o + 6);
      Copy(box, rk, 4, key, o + 7);
      i := i + 1;
      if i == 10 {
        return 10;
      }
      o := o + 4;
    }
  }

  /** The loop for keys of 192 bits. */
  method Expand192(box: Sbox, rk: array<Word>, ghost key: seq<Byte>) returns (nr: nat)
    requires rk.Length == 60 && |key| == 24 && HoldsKey(rk[..], box, 6, key, 6)
    modifies rk
    ensures nr == 12 && HoldsKey(rk[..], box, 6, key, 52)
  {
    hide HoldsKey;
    var i: nat := 0;
    var o := 0;
    while true
      invariant i < 8 && o == 6 * i
      invariant HoldsKey(rk[..], box, 6, key, o + 6)
      decreases 8 - i
    {
      Turn(box, rk, 6, key, o, i);
      Copy(box, rk, 6, key, o + 7);
      Copy(box, rk, 6, key, o + 8);
      Copy(box, rk, 6, key, o + 9);
      i := i + 1;
      if i == 8 {
        return 12;
      }
      Copy(box, rk, 6, key, o + 10);
      Copy(box, rk, 6, key, o + 11);
      o := o + 6;
    }
  }

  /** The loop for keys of 256 bits. */
  method Expand256(box: Sbox, rk: array<Word>, ghost key: seq<Byte>) returns (nr: nat)
    requires rk.Length == 60 && |key| == 32 && HoldsKey(rk[..], box, 8, key, 8)
    modifies rk
    ensures nr == 14 && HoldsKey(rk[..], box, 8, key, 60)
  {
    hide HoldsKey;
    var i: nat := 0;
    var o := 0;
    while true
      invariant i < 7 && o == 8 * i
      invariant HoldsKey(rk[..], box, 8, key, o + 8)
      decreases 7 - i
    {
      Turn(box, rk, 8, key, o, i);
      Copy(box, rk, 8, key, o + 9);
      Copy(box, rk, 8, key, o + 10);
      Copy(box, rk, 8, key, o + 11);
      i := i + 1;
      if i == 7 {
        return 14;
      }
      Substitute(box, rk, key, o + 12);
      Copy(box, rk, 8, key, o + 13);
      Copy(box, rk, 8, key, o + 14);
      Copy(box, rk, 8, key, o + 15);
      o := o + 8;
    }
  }

  /** The words of the key that are loaded before its length is known to be wrong. */
  function FirstWords(key: seq<Byte>): (w: seq<Word>)
    requires |key| >= 32
    ensures |w| == 8
  {
    [WordAt(key, 0), WordAt(key, 4), WordAt(key, 8), WordAt(key, 12),
     WordAt(key, 16), WordAt(key, 20), WordAt(key, 24), WordAt(key, 28)]
  }

  /** rijndaelKeySetupEnc. */
  method KeySetupEnc(box: Sbox, rk: array<Word>, cipherKey: seq<Byte>, keyBits: int) returns (nr: nat)
    requires rk.Length == 60
    requires |cipherKey| >= 16
    requires keyBits != 128 ==> |cipherKey| >= 24
    requires keyBits != 128 && keyBits != 192 ==> |cipherKey| >= 32
    modifies rk
    ensures nr == if keyBits == 128 then 10 else if keyBits == 192 then 12 else if keyBits == 256 then 14 else 0
    ensures nr > 0 ==> HoldsKey(rk[..], box, keyBits / 32, cipherKey[..keyBits / 8], 4 * nr + 4)
    ensures nr == 0 ==> rk[..] == FirstWords(cipherKey) + old(rk[8..])
  {
    hide KeyWord, HoldsKey, WordAt;
    rk[0] := WordAt(cipherKey, 0);
    rk[1] := WordAt(cipherKey, 4);
    rk[2] := WordAt(cipherKey, 8);
    rk[3] := WordAt(cipherKey, 12);
    if keyBits == 128 {
      KeyLoaded(box, 4, rk[..], cipherKey);
      nr := Expand128(box, rk, cipherKey[..16]);
      return;
    }
    rk[4] := WordAt(cipherKey, 16);
    rk[5] := WordAt(cipherKey, 20);
    if keyBits == 192 {
      KeyLoaded(box, 6, rk[..], cipherKey);
      nr := Expand192(box, rk, cipherKey[..24]);
      return;
    }
    rk[6] := WordAt(cipherKey, 24);
    rk[7] := WordAt(cipherKey, 28);
    if keyBits == 256 {
      KeyLoaded(box, 8, rk[..], cipherKey);
      nr := Expand256(box, rk, cipherKey[..32]);
      return;
    }
    return 0;
  }

  lemma KeyLoaded(box: Sbox, nk: nat, rk: seq<Word>, cipherKey: seq<Byte>)
    requires 0 < nk <= |rk| && 4 * nk <= |cipherKey|
    requires forall m :: 0 <= m < nk ==> rk[m] == WordAt(cipherKey, 4 * m)
    ensures HoldsKey(rk, box, nk, cipherKey[..4 * nk], nk)
  {
    hide KeyWord;
    forall m: nat | m < nk
      ensures rk[m] == KeyWord(box, nk, cipherKey[..4 * nk], m)
    {
      KeyWordStart(box, nk, cipherKey[..4 * nk], m);
    }
  }

  lemma KeysOfExpansion(box: Sbox, nk: nat, key: seq<Byte>, rk: seq<Word>, nr: nat)
    requires nk > 0 && |key| == 4 * nk && 4 * nr + 4 <= |rk|
    requires HoldsKey(rk, box, nk, key, 4 * nr + 4)
    ensures Keys(rk, nr) == KeyExpansion(box, nk, key, nr)
  {
    hide KeyWord, Row;
    forall u: nat | u <= nr
      ensures Keys(rk, nr)[u] == RoundKey(box, nk, key, u)
    {
      forall i: nat | i < 16
        ensures Columns(rk, u)[i] == RoundKey(box, nk, key, u)[i]
      {
        assert rk[4 * u + i / 4] == KeyWord(box, nk, key, 4 * u + i / 4);
      }
    }
  }

  // ---------------------------------------------------------------------------------------------
  // Decryption keys

  /** The four swaps of the loop that turns the round keys around. */
  method SwapRoundKeys(rk: array<Word>, nr: nat, i: nat, j: nat)
    requires i < j <= nr && 4 * nr + 4 <= rk.Length
    modifies rk
    ensures Keys(rk[..], nr) == old(Keys(rk[..], nr))[i := old(Keys(rk[..], nr))[j]][j := old(Keys(rk[..], nr))[i]]
  {
    hide Columns, Keys;
    ghost var was := rk[..];
    rk[4 * i], rk[4 * j] := rk[4 * j], rk[4 * i];
    rk[4 * i + 1], rk[4 * j + 1] := rk[4 * j + 1], rk[4 * i + 1];
    rk[4 * i + 2], rk[4 * j + 2] := rk[4 * j + 2], rk[4 * i + 2];
    rk[4 * i + 3], rk[4 * j + 3] := rk[4 * j + 3], rk[4 * i + 3];
    SwappedKeys(was, rk[..], nr, i, j);
  }

  lemma SwappedKeys(was: seq<Word>, now: seq<Word>, nr: nat, i: nat, j: nat)
    requires i < j <= nr && 4 * nr + 4 <= |was| == |now|
    requires now[4 * i] == was[4 * j] && now[4 * i + 1] == was[4 * j + 1]
    requires now[4 * i + 2] == was[4 * j + 2] && now[4 * i + 3] == was[4 * j + 3]
    requires now[4 * j] == was[4 * i] && now[4 * j + 1] == was[4 * i + 1]
    requires now[4 * j + 2] == was[4 * i + 2] && now[4 * j + 3] == was[4 * i + 3]
    requires forall m :: 0 <= m < |was| && !(4 * i <= m < 4 * i + 4) && !(4 * j <= m < 4 * j + 4) ==> now[m] == was[m]
    ensures Keys(now, nr) == Keys(was, nr)[i := Keys(was, nr)[j]][j := Keys(was, nr)[i]]
  {
    hide Columns;
    SameWords(now, i, was, j);
    SameWords(now, j, was, i);
    forall u: nat | u <= nr && u != i && u != j
      ensures Columns(now, u) == Columns(was, u)
    {
      SameWords(now, u, was, u);
    }
  }

  lemma SameWords(a: seq<Word>, u: nat, b: seq<Word>, v: nat)
    requires 4 * u + 4 <= |a| && 4 * v + 4 <= |b|
    requires a[4 * u] == b[4 * v] && a[4 * u + 1] == b[4 * v + 1]
    requires a[4 * u + 2] == b[4 * v + 2] && a[4 * u + 3] == b[4 * v + 3]
    ensures Columns(a, u) == Columns(b, v)
  {
    hide Row;
  }

  /** InvMixColumns of one word, by way of the encryption table and the decryption tables. */
  function UnmixLookups(box: Sbox, x: Word): Word {
    WordPlus(WordPlus(WordPlus(Td0(box, Te1(box, x.a0).a3), Td1(box, Te1(box, x.a1).a3)), Td2(box, Te1(box, x.a2).a3)),
             Td3(box, Te1(box, x.a3).a3))
  }

  lemma UnmixLookupsIs(box: Sbox, x: Word)
    requires MutuallyInverse(box)
    ensures UnmixLookups(box, x) == InvMixWord(x)
  {
    hide WordPlus, InvMixWord, Td0, Td1, Td2, Td3, Times2, Times3;
    LookupsInvMix(box, box.sub(x.a0), box.sub(x.a1), box.sub(x.a2), box.sub(x.a3));
  }

  method UnmixRoundKey(box: Sbox, rk: array<Word>, nr: nat, i: nat)
    requires MutuallyInverse(box)
    requires i <= nr && 4 * nr + 4 <= rk.Length
    modifies rk
    ensures Keys(rk[..], nr) == old(Keys(rk[..], nr))[i := InvMixColumns(old(Keys(rk[..], nr))[i])]
  {
    hide InvMixColumns, InvMixWord, UnmixLookups, Col;
    ghost var was := rk[..];
    for c := 0 to 4
      invariant forall m :: 0 <= m < rk.Length ==>
        rk[m] == if 4 * i <= m < 4 * i + c then UnmixLookups(box, was[m]) else was[m]
    {
      rk[4 * i + c] := UnmixLookups(box, rk[4 * i + c]);
    }
    var b := Columns(was, i);
    forall c: nat | c < 4
      ensures Col(Columns(rk[..], i), c) == Col(InvMixColumns(b), c)
    {
      UnmixLookupsIs(box, was[4 * i + c]);
      ColOfColumns(was, i, c);
      ColOfColumns(rk[..], i, c);
      MixedColumn(b, c);
    }
    SameColumns(Columns(rk[..], i), InvMixColumns(b));
    forall u: nat | u <= nr && u != i
      ensures Columns(rk[..], u) == Columns(was, u)
    {
      SameWords(rk[..], u, was, u);
    }
    hide Columns;
  }

  /** The ends of v, outside i .. j, are those of w turned around; the middle is that of w. */
  ghost predicate TurnedAround(v: seq<Block>, w: seq<Block>, i: int, j: int) {
    && |v| == |w|
    && (forall u :: 0 <= u < |w| && (u < i || j < u) ==> v[u] == w[|w| - 1 - u])
    && (forall u :: 0 <= u < |w| && i <= u <= j ==> v[u] == w[u])
  }

  lemma TurnedFurther(v: seq<Block>, w: seq<Block>, i: nat, j: nat)
    requires TurnedAround(v, w, i, j) && i < j && i + j == |w| - 1
    ensures TurnedAround(v[i := v[j]][j := v[i]], w, i + 1, j - 1)
  {
  }

  lemma NotYetTurned(w: seq<Block>)
    requires w != []
    ensures TurnedAround(w, w, 0, |w| - 1)
  {
  }

  /** v is w turned around, and its blocks from the second up to k have been unmixed. */
  ghost predicate Unmixed(v: seq<Block>, w: seq<Block>, k: nat) {
    && |v| == |w|
    && forall u :: 0 <= u < |w| ==> v[u] == if 1 <= u < k then InvMixColumns(w[|w| - 1 - u]) else w[|w| - 1 - u]
  }

  lemma TurnedFully(v: seq<Block>, w: seq<Block>, i: nat, j: int)
    requires TurnedAround(v, w, i, j) && i >= j && i + j == |w| - 1
    ensures Unmixed(v, w, 1)
  {
    hide InvMixColumns;
  }

  lemma UnmixedFurther(v: seq<Block>, w: seq<Block>, k: nat)
    requires Unmixed(v, w, k) && 1 <= k < |w|
    ensures Unmixed(v[k := InvMixColumns(v[k])], w, k + 1)
  {
    hide InvMixColumns;
  }

  lemma UnmixedAll(v: seq<Block>, w: seq<Block>, k: nat)
    requires Unmixed(v, w, k) && (k == |w| - 1 || (|w| == 1 && k == 1))
    ensures v == DecryptionSchedule(w)
  {
    hide InvMixColumns;
  }

  /** rijndaelKeySetupDec. */
  method KeySetupDec(box: Sbox, rk: array<Word>, cipherKey: seq<Byte>, keyBits: int) returns (nr: nat)
    requires MutuallyInverse(box)
    requires rk.Length == 60
    requires |cipherKey| >= 16
    requires keyBits != 128 ==> |cipherKey| >= 24
    requires keyBits != 128 && keyBits != 192 ==> |cipherKey| >= 32
    modifies rk
    ensures nr == if keyBits == 128 then 10 else if keyBits == 192 then 12 else if keyBits == 256 then 14 else 0
    ensures nr > 0 ==>
      Keys(rk[..], nr) == DecryptionSchedule(KeyExpansion(box, keyBits / 32, cipherKey[..keyBits / 8], nr))
  {
    hide Keys, KeyExpansion, HoldsKey, InvMixColumns, Columns, TurnedAround, Unmixed, DecryptionSchedule;
    nr := KeySetupEnc(box, rk, cipherKey, keyBits);
    ghost var w := Keys(rk[..], nr);
    if nr > 0 {
      KeysOfExpansion(box, keyBits / 32, cipherKey[..keyBits / 8], rk[..], nr);
    }
    NotYetTurned(w);
    var i, j := 0, nr;
    while i < j
      invariant 0 <= i <= j + 1 && i + j == nr
      invariant TurnedAround(Keys(rk[..], nr), w, i, j)
    {
      TurnedFurther(Keys(rk[..], nr), w, i, j);
      SwapRoundKeys(rk, nr, i, j);
      i := i + 1;
      j := j - 1;
    }
    TurnedFully(Keys(rk[..], nr), w, i, j);
    var k := 1;
    while k < nr
      invariant 1 <= k && (nr > 0 ==> k <= nr) && (nr == 0 ==> k == 1)
      invariant Unmixed(Keys(rk[..], nr), w, k)
    {
      UnmixedFurther(Keys(rk[..], nr), w, k);
      UnmixRoundKey(box, rk, nr, k);
      k := k + 1;
    }
    UnmixedAll(Keys(rk[..], nr), w, k);
  }

  /** The equivalent inverse cipher, on the schedule of rijndaelKeySetupDec, undoes the cipher. */
  lemma DecryptUndoesEncrypt(box: Sbox, w: seq<Block>, x: Block)
    requires MutuallyInverse(box)
    requires |w| >= 2
    ensures EqInvCipher(box, DecryptionSchedule(w), Cipher(box, w, x)) == x
    ensures Cipher(box, w, EqInvCipher(box, DecryptionSchedule(w), x)) == x
  {
    hide Cipher, EqInvCipher, InvCipher, DecryptionSchedule;
    EqInvCipherIsInvCipher(box, w, Cipher(box, w, x));
    InvCipherOfCipher(box, w, x);
    EqInvCipherIsInvCipher(box, w, x);
    CipherOfInvCipher(box, w, x);
  }

  // ---------------------------------------------------------------------------------------------

  /** rijndael_ctx, together with the S-box its tables are made from. */
  class RijndaelContext {
    const box: Sbox
    var encOnly: bool
    var nr: nat
    const ek: array<Word>
    const dk: array<Word>

    constructor (box: Sbox)
      ensures this.box == box && fresh(ek) && fresh(dk) && Sized()
    {
      this.box := box;
      ek := new Word[60](_ => Word(ZERO, ZERO, ZERO, ZERO));
      dk := new Word[60](_ => Word(ZERO, ZERO, ZERO, ZERO));
      nr := 0;
      encOnly := true;
    }

    predicate Sized() {
      ek.Length == 60 && dk.Length == 60 && ek != dk
    }

    /** The encryption keys are w and, unless the context only encrypts, the decryption keys are those of w. */
    ghost predicate HasKeys(w: seq<Block>)
      reads this, ek, dk
    {
      && Sized() && nr in {10, 12, 14}
      && Keys(ek[..], nr) == w
      && (encOnly || Keys(dk[..], nr) == DecryptionSchedule(w))
    }

    method SetKey(key: seq<Byte>, bits: int) returns (r: int)
      requires Sized() && MutuallyInverse(box)
      requires |key| >= 16
      requires bits != 128 ==> |key| >= 24
      requires bits != 128 && bits != 192 ==> |key| >= 32
      modifies this, ek, dk
      ensures r == if bits in {128, 192, 256} then 0 else -1
      ensures r == 0 ==> 32 * nr == bits + 192
      ensures r == 0 ==> HasKeys(KeyExpansion(box, bits / 32, key[..bits / 8], nr)) && !encOnly
      ensures r == -1 ==> nr == old(nr) && encOnly == old(encOnly)
      ensures r == -1 ==> ek[..] == FirstWords(key) + old(ek[8..]) && dk[..] == old(dk[..])
    {
      hide Keys, KeyExpansion, HoldsKey, DecryptionSchedule, FirstWords;
      var rounds := KeySetupEnc(box, ek, key, bits);
      if rounds == 0 {
        return -1;
      }
      KeysOfExpansion(box, bits / 32, key[..bits / 8], ek[..], rounds);
      var again := KeySetupDec(box, dk, key, bits);
      if again != rounds {
        return -1;
      }
      nr := rounds;
      encOnly := false;
      return 0;
    }

    method SetKeyEncOnly(key: seq<Byte>, bits: int) returns (r: int)
      requires Sized()
      requires |key| >= 16
      requires bits != 128 ==> |key| >= 24
      requires bits != 128 && bits != 192 ==> |key| >= 32
      modifies this, ek
      ensures r == if bits in {128, 192, 256} then 0 else -1
      ensures r == 0 ==> 32 * nr == bits + 192
      ensures r == 0 ==> HasKeys(KeyExpansion(box, bits / 32, key[..bits / 8], nr)) && encOnly
      ensures r == -1 ==> nr == old(nr) && encOnly == old(encOnly)
      ensures r == -1 ==> ek[..] == FirstWords(key) + old(ek[8..]) && dk[..] == old(dk[..])
    {
      hide Keys, KeyExpansion, HoldsKey, DecryptionSchedule, FirstWords;
      var rounds := KeySetupEnc(box, ek, key, bits);
      if rounds == 0 {
        return -1;
      }
      KeysOfExpansion(box, bits / 32, key[..bits / 8], ek[..], rounds);
      nr := rounds;
      encOnly := true;
      return 0;
    }

    method EncryptBlock(ghost w: seq<Block>, src: array<Byte>, dst: array<Byte>)
      requires HasKeys(w)
      requires src.Length == 16 && dst.Length == 16 && dst as object != ek && dst as object != dk
      modifies dst
      ensures HasKeys(w)
      ensures dst[..] == Cipher(box, w, old(src[..]))
    {
      hide Keys, Cipher, DecryptionSchedule;
      Encrypt(box, ek, nr, src, dst);
    }

    /** Decryption undoes encryption under the keys that were set. */
    method DecryptBlock(ghost w: seq<Block>, src: array<Byte>, dst: array<Byte>)
      requires HasKeys(w) && !encOnly && MutuallyInverse(box)
      requires src.Length == 16 && dst.Length == 16 && dst as object != ek && dst as object != dk
      modifies dst
      ensures HasKeys(w)
      ensures old(src[..]) == Cipher(box, w, dst[..])
      ensures forall x: Block :: old(src[..]) == Cipher(box, w, x) ==> dst[..] == x
    {
      hide Keys, Cipher, EqInvCipher, DecryptionSchedule;
      ghost var y := src[..];
      Decrypt(box, dk, nr, src, dst);
      DecryptUndoesEncrypt(box, w, y);
      forall x: Block | y == Cipher(box, w, x)
        ensures dst[..] == x
      {
        DecryptUndoesEncrypt(box, w, x);
      }
    }
  }
}
