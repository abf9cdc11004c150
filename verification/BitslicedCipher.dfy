/** The rounds of aes.c on the bit-sliced words, in place: both interleaved states go through the cipher of
    FIPS 197, each under its own lane of the expanded key. */
module BitslicedCipher {
  import opened BitGates
  import opened Words
  import opened SboxCircuit
  import opened BitslicedState
  import opened Fips197
  import opened Transpose

  /** The contents of q[0] .. q[7]. */
  function Q(q: array<bv32>): Slice<bv32>
    requires q.Length == 8
    reads q
  {
    Slice(q[0], q[1], q[2], q[3], q[4], q[5], q[6], q[7])
  }

  /** The eight words of round key u. */
  function KeyWords(skey: seq<bv32>, u: nat): Slice<bv32>
    requires 8 * u + 8 <= |skey|
  {
    Slice(skey[8 * u], skey[8 * u + 1], skey[8 * u + 2], skey[8 * u + 3],
          skey[8 * u + 4], skey[8 * u + 5], skey[8 * u + 6], skey[8 * u + 7])
  }

  /** The round keys that state l sees in an expanded key. */
  function LaneKeys(skey: seq<bv32>, numRounds: nat, l: bv32): (w: seq<Block>)
    requires 8 * numRounds + 8 <= |skey| && l < 2
    ensures |w| == numRounds + 1
    ensures forall u: nat :: u <= numRounds ==> w[u] == View(KeyWords(skey, u), l)
  {
    seq(numRounds + 1, u requires 0 <= u <= numRounds => View(KeyWords(skey, u), l))
  }

  method OrthoInPlace(q: array<bv32>)
    requires q.Length == 8
    modifies q
    ensures Q(q) == Ortho(old(Q(q)))
  {
    hide Swap2X, Swap2Y, Swap4X, Swap4Y, Swap8X, Swap8Y;
    ghost var was := Q(q);
    q[0], q[1] := Swap2X(q[0], q[1]), Swap2Y(q[0], q[1]);
    q[2], q[3] := Swap2X(q[2], q[3]), Swap2Y(q[2], q[3]);
    q[4], q[5] := Swap2X(q[4], q[5]), Swap2Y(q[4], q[5]);
    q[6], q[7] := Swap2X(q[6], q[7]), Swap2Y(q[6], q[7]);
    assert Q(q) == Swaps2(was);

    q[0], q[2] := Swap4X(q[0], q[2]), Swap4Y(q[0], q[2]);
    q[1], q[3] := Swap4X(q[1], q[3]), Swap4Y(q[1], q[3]);
    q[4], q[6] := Swap4X(q[4], q[6]), Swap4Y(q[4], q[6]);
    q[5], q[7] := Swap4X(q[5], q[7]), Swap4Y(q[5], q[7]);
    assert Q(q) == Swaps4(Swaps2(was));

    q[0], q[4] := Swap8X(q[0], q[4]), Swap8Y(q[0], q[4]);
    q[1], q[5] := Swap8X(q[1], q[5]), Swap8Y(q[1], q[5]);
    q[2], q[6] := Swap8X(q[2], q[6]), Swap8Y(q[2], q[6]);
    q[3], q[7] := Swap8X(q[3], q[7]), Swap8Y(q[3], q[7]);
  }

  method Store(q: array<bv32>, s: Slice<bv32>)
    requires q.Length == 8
    modifies q
    ensures Q(q) == s
  {
    q[0], q[1], q[2], q[3], q[4], q[5], q[6], q[7] := s.b0, s.b1, s.b2, s.b3, s.b4, s.b5, s.b6, s.b7;
  }

  method SboxInPlace(q: array<bv32>)
    requires q.Length == 8
    modifies q
    ensures View(Q(q), 0) == SubBytes(AES, old(View(Q(q), 0)))
    ensures View(Q(q), 1) == SubBytes(AES, old(View(Q(q), 1)))
    ensures Q(q) == Sub(WORDS, old(Q(q)))
  {
    hide View, Sub, SubBytes;
    SubView(Q(q), 0);
    SubView(Q(q), 1);
    Store(q, Sub(WORDS, Q(q)));
  }

  /** aes_ct_bitslice_invSbox runs the S-box circuit between two passes that remove the affine map. */
  method InvSboxInPlace(q: array<bv32>)
    requires q.Length == 8
    modifies q
    ensures View(Q(q), 0) == InvSubBytes(AES, old(View(Q(q), 0)))
    ensures View(Q(q), 1) == InvSubBytes(AES, old(View(Q(q), 1)))
  {
    hide View, Sub, UnAffine, InvSubBytes;
    SubView(Q(q), 0);
    SubView(Q(q), 1);
    Store(q, UnAffine(WORDS, Q(q)));
    SboxInPlace(q);
    Store(q, UnAffine(WORDS, Q(q)));
  }

  function XorWords(q: Slice<bv32>, k: Slice<bv32>): Slice<bv32> {
    Slice(Xor(q.b0, k.b0), Xor(q.b1, k.b1), Xor(q.b2, k.b2), Xor(q.b3, k.b3),
          Xor(q.b4, k.b4), Xor(q.b5, k.b5), Xor(q.b6, k.b6), Xor(q.b7, k.b7))
  }

  lemma XorIsGate(x: bv32, y: bv32)
    ensures WORDS.xor(x, y) == Xor(x, y)
  {
    WordXor(x, y);
  }

  lemma XorWordsIsAdd(q: Slice<bv32>, k: Slice<bv32>)
    ensures XorWords(q, k) == Add(WORDS, q, k)
  {
    hide WORDS, Xor;
    XorIsGate(q.b0, k.b0);
    XorIsGate(q.b1, k.b1);
    XorIsGate(q.b2, k.b2);
    XorIsGate(q.b3, k.b3);
    XorIsGate(q.b4, k.b4);
    XorIsGate(q.b5, k.b5);
    XorIsGate(q.b6, k.b6);
    XorIsGate(q.b7, k.b7);
  }

  method AddRoundKeyInPlace(q: array<bv32>, skey: array<bv32>, u: nat)
    requires q.Length == 8 && 8 * u + 8 <= skey.Length && q != skey
    modifies q
    ensures View(Q(q), 0) == AddRoundKey(old(View(Q(q), 0)), View(KeyWords(skey[..], u), 0))
    ensures View(Q(q), 1) == AddRoundKey(old(View(Q(q), 1)), View(KeyWords(skey[..], u), 1))
  {
    hide View, Add, AddRoundKey, Xor;
    ghost var was, keys := Q(q), KeyWords(skey[..], u);
    q[0] := Xor(q[0], skey[8 * u]);
    q[1] := Xor(q[1], skey[8 * u + 1]);
    q[2] := Xor(q[2], skey[8 * u + 2]);
    q[3] := Xor(q[3], skey[8 * u + 3]);
    q[4] := Xor(q[4], skey[8 * u + 4]);
    q[5] := Xor(q[5], skey[8 * u + 5]);
    q[6] := Xor(q[6], skey[8 * u + 6]);
    q[7] := Xor(q[7], skey[8 * u + 7]);
    assert Q(q) == XorWords(was, keys);
    XorWordsIsAdd(was, keys);
    AddView(was, keys, 0);
    AddView(was, keys, 1);
  }

  method ShiftRowsInPlace(q: array<bv32>)
    requires q.Length == 8
    modifies q
    ensures View(Q(q), 0) == ShiftRows(old(View(Q(q), 0)))
    ensures View(Q(q), 1) == ShiftRows(old(View(Q(q), 1)))
  {
    hide View, ShiftWord, ShiftRows;
    ShiftView(Q(q), 0);
    ShiftView(Q(q), 1);
    for i := 0 to 8
      invariant forall j :: 0 <= j < i ==> q[j] == ShiftWord(old(q[j]))
      invariant forall j :: i <= j < 8 ==> q[j] == old(q[j])
    {
      q[i] := ShiftWord(q[i]);
    }
  }

  method InvShiftRowsInPlace(q: array<bv32>)
    requires q.Length == 8
    modifies q
    ensures View(Q(q), 0) == InvShiftRows(old(View(Q(q), 0)))
    ensures View(Q(q), 1) == InvShiftRows(old(View(Q(q), 1)))
  {
    hide View, InvShiftWord, InvShiftRows;
    ShiftView(Q(q), 0);
    ShiftView(Q(q), 1);
    for i := 0 to 8
      invariant forall j :: 0 <= j < i ==> q[j] == InvShiftWord(old(q[j]))
      invariant forall j :: i <= j < 8 ==> q[j] == old(q[j])
    {
      q[i] := InvShiftWord(q[i]);
    }
  }

  method MixColumnsInPlace(q: array<bv32>)
    requires q.Length == 8
    modifies q
    ensures View(Q(q), 0) == MixColumns(old(View(Q(q), 0)))
    ensures View(Q(q), 1) == MixColumns(old(View(Q(q), 1)))
  {
    hide View, MixWords, MixColumns;
    MixView(Q(q), 0);
    MixView(Q(q), 1);
    Store(q, MixWords(Q(q)));
  }

  method InvMixColumnsInPlace(q: array<bv32>)
    requires q.Length == 8
    modifies q
    ensures View(Q(q), 0) == InvMixColumns(old(View(Q(q), 0)))
    ensures View(Q(q), 1) == InvMixColumns(old(View(Q(q), 1)))
  {
    hide View, InvMixWords, InvMixColumns;
    MixView(Q(q), 0);
    MixView(Q(q), 1);
    Store(q, InvMixWords(Q(q)));
  }

  /** One full round of aes_ct_bitslice_encrypt. */
  method RoundInPlace(q: array<bv32>, skey: array<bv32>, u: nat)
    requires q.Length == 8 && 8 * u + 8 <= skey.Length && q != skey
    modifies q
    ensures View(Q(q), 0)
         == AddRoundKey(MixColumns(ShiftRows(SubBytes(AES, old(View(Q(q), 0))))), View(KeyWords(skey[..], u), 0))
    ensures View(Q(q), 1)
         == AddRoundKey(MixColumns(ShiftRows(SubBytes(AES, old(View(Q(q), 1))))), View(KeyWords(skey[..], u), 1))
  {
    hide View, SubBytes, ShiftRows, MixColumns, AddRoundKey, KeyWords, Q;
    SboxInPlace(q);
    ShiftRowsInPlace(q);
    MixColumnsInPlace(q);
    AddRoundKeyInPlace(q, skey, u);
  }

  method BitsliceEncrypt(numRounds: nat, skey: array<bv32>, q: array<bv32>)
    requires q.Length == 8 && q != skey
    requires numRounds >= 1 && 8 * numRounds + 8 <= skey.Length
    modifies q
    ensures View(Q(q), 0) == Cipher(AES, LaneKeys(skey[..], numRounds, 0), old(View(Q(q), 0)))
    ensures View(Q(q), 1) == Cipher(AES, LaneKeys(skey[..], numRounds, 1), old(View(Q(q), 1)))
  {
    hide View, SubBytes, ShiftRows, MixColumns, AddRoundKey, KeyWords, Rounds, LaneKeys, Q;
    ghost var w0, w1 := LaneKeys(skey[..], numRounds, 0), LaneKeys(skey[..], numRounds, 1);
    ghost var x0, x1 := View(Q(q), 0), View(Q(q), 1);
    AddRoundKeyInPlace(q, skey, 0);
    RoundsStart(w0, x0);
    RoundsStart(w1, x1);
    for u := 1 to numRounds
      invariant View(Q(q), 0) == Rounds(AES, w0, x0, u - 1)
      invariant View(Q(q), 1) == Rounds(AES, w1, x1, u - 1)
    {
      RoundInPlace(q, skey, u);
      RoundsStep(w0, x0, u);
      RoundsStep(w1, x1, u);
    }
    SboxInPlace(q);
    ShiftRowsInPlace(q);
    AddRoundKeyInPlace(q, skey, numRounds);
  }

  lemma RoundsStart(w: seq<Block>, x: Block)
    requires |w| > 0
    ensures Rounds(AES, w, x, 0) == AddRoundKey(x, w[0])
  {
  }

  lemma RoundsStep(w: seq<Block>, x: Block, u: nat)
    requires 0 < u < |w|
    ensures Rounds(AES, w, x, u) == AddRoundKey(MixColumns(ShiftRows(SubBytes(AES, Rounds(AES, w, x, u - 1)))), w[u])
  {
    hide MixColumns, AddRoundKey, SubBytes, ShiftRows, AES;
  }

  /** One full round of aes_ct_bitslice_decrypt. */
  method InvRoundInPlace(q: array<bv32>, skey: array<bv32>, u: nat)
    requires q.Length == 8 && 8 * u + 8 <= skey.Length && q != skey
    modifies q
    ensures View(Q(q), 0)
         == InvMixColumns(AddRoundKey(InvSubBytes(AES, InvShiftRows(old(View(Q(q), 0)))),
                                      View(KeyWords(skey[..], u), 0)))
    ensures View(Q(q), 1)
         == InvMixColumns(AddRoundKey(InvSubBytes(AES, InvShiftRows(old(View(Q(q), 1)))),
                                      View(KeyWords(skey[..], u), 1)))
  {
    hide View, InvSubBytes, InvShiftRows, InvMixColumns, AddRoundKey, KeyWords, Q;
    InvShiftRowsInPlace(q);
    InvSboxInPlace(q);
    AddRoundKeyInPlace(q, skey, u);
    InvMixColumnsInPlace(q);
  }

  method BitsliceDecrypt(numRounds: nat, skey: array<bv32>, q: array<bv32>)
    requires q.Length == 8 && q != skey
    requires numRounds >= 1 && 8 * numRounds + 8 <= skey.Length
    modifies q
    ensures View(Q(q), 0) == InvCipher(AES, LaneKeys(skey[..], numRounds, 0), old(View(Q(q), 0)))
    ensures View(Q(q), 1) == InvCipher(AES, LaneKeys(skey[..], numRounds, 1), old(View(Q(q), 1)))
  {
    hide View, InvSubBytes, InvShiftRows, InvMixColumns, AddRoundKey, KeyWords, InvRounds, LaneKeys, Q;
    ghost var w0, w1 := LaneKeys(skey[..], numRounds, 0), LaneKeys(skey[..], numRounds, 1);
    ghost var y0, y1 := View(Q(q), 0), View(Q(q), 1);
    AddRoundKeyInPlace(q, skey, numRounds);
    InvRoundsStart(w0, y0);
    InvRoundsStart(w1, y1);
    for u := numRounds downto 1
      invariant View(Q(q), 0) == InvRounds(AES, w0, y0, numRounds - u)
      invariant View(Q(q), 1) == InvRounds(AES, w1, y1, numRounds - u)
    {
      ghost var s0, s1 := View(Q(q), 0), View(Q(q), 1);
      InvRoundInPlace(q, skey, u);
      assert View(Q(q), 0) == InvMixColumns(AddRoundKey(InvSubBytes(AES, InvShiftRows(s0)), w0[u]));
      assert View(Q(q), 1) == InvMixColumns(AddRoundKey(InvSubBytes(AES, InvShiftRows(s1)), w1[u]));
      InvRoundsStep(w0, y0, u);
      InvRoundsStep(w1, y1, u);
    }
    InvShiftRowsInPlace(q);
    InvSboxInPlace(q);
    AddRoundKeyInPlace(q, skey, 0);
  }

  lemma InvRoundsStart(w: seq<Block>, y: Block)
    requires |w| > 0
    ensures InvRounds(AES, w, y, 0) == AddRoundKey(y, w[|w| - 1])
  {
  }

  /** The inverse rounds, counted down as the code does. */
  lemma InvRoundsStep(w: seq<Block>, y: Block, u: nat)
    requires 0 < u < |w| - 1
    ensures InvRounds(AES, w, y, |w| - 1 - u)
         == InvMixColumns(AddRoundKey(InvSubBytes(AES, InvShiftRows(InvRounds(AES, w, y, |w| - 2 - u))), w[u]))
  {
    hide InvMixColumns, AddRoundKey, InvSubBytes, InvShiftRows, AES;
  }
}
