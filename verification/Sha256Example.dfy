/** SHA-256 of the message "abc", with the words of the schedule and the working variables on the way. */
module Sha256Example {
  import opened BigEndian
  import opened Words
  import opened Sha256

  const ABC: seq<bv8> := [0x61, 0x62, 0x63]

  /** m is the message, padded to one block. */
  predicate IsBlock(m: seq<bv8>) {
    && |m| == 64
    && m[0] == 0x61 && m[1] == 0x62 && m[2] == 0x63 && m[3] == 0x80 && m[63] == 0x18
    && forall i :: 4 <= i < 63 ==> m[i] == 0
  }

  lemma Extended(m: seq<bv8>, t: nat, a: bv32, b: bv32, c: bv32, d: bv32, w: bv32)
    requires |m| == 64 && t >= 16
    requires Schedule(m, t - 2) == a && Schedule(m, t - 7) == b && Schedule(m, t - 15) == c && Schedule(m, t - 16) == d
    requires Plus(Plus(Plus(SmallSigma1(a), b), SmallSigma0(c)), d) == w
    ensures Schedule(m, t) == w
  {
    hide Plus, SmallSigma0, SmallSigma1;
  }

  lemma Rounded(m: seq<bv8>, t: nat, r: Regs, k: bv32, w: bv32, a: bv32, e: bv32)
    requires |m| == 64 && t < 64 && Rounds(INITIAL, m, t) == r && K(t) == k && Schedule(m, t) == w
    requires Plus(T1(r, k, w), T2(r)) == a && Plus(r.d, T1(r, k, w)) == e
    ensures Rounds(INITIAL, m, t + 1) == Regs(a, r.a, r.b, r.c, e, r.e, r.f, r.g)
  {
    hide Plus, T1, T2, K, INITIAL, Schedule;
  }

  // ---------------------------------------------------------------------------------------------
  // The message schedule

  lemma FirstWord(m: seq<bv8>, t: nat)
    requires IsBlock(m) && t < 16
    ensures Schedule(m, t) == if t == 0 then 0x61626380 else if t == 15 then 0x18 else 0
  {
    BytesToWords();
    hide Word;
  }

  lemma BytesToWords()
    ensures Word(0, 0, 0, 0) == 0
    ensures Word(0x61, 0x62, 0x63, 0x80) == 0x61626380
    ensures Word(0, 0, 0, 0x18) == 0x18
  {
  }

  lemma Words0(m: seq<bv8>)
    requires IsBlock(m)
    ensures Schedule(m, 0) == 0x61626380
    ensures Schedule(m, 1) == 0x00000000
    ensures Schedule(m, 2) == 0x00000000
    ensures Schedule(m, 3) == 0x00000000
    ensures Schedule(m, 4) == 0x00000000
    ensures Schedule(m, 5) == 0x00000000
    ensures Schedule(m, 6) == 0x00000000
    ensures Schedule(m, 7) == 0x00000000
  {
    hide Schedule;
    FirstWord(m, 0);
    FirstWord(m, 1);
    FirstWord(m, 2);
    FirstWord(m, 3);
    FirstWord(m, 4);
    FirstWord(m, 5);
    FirstWord(m, 6);
    FirstWord(m, 7);
  }

  lemma Words1(m: seq<bv8>)
    requires IsBlock(m)
    ensures Schedule(m, 8) == 0x00000000
    ensures Schedule(m, 9) == 0x00000000
    ensures Schedule(m, 10) == 0x00000000
    ensures Schedule(m, 11) == 0x00000000
    ensures Schedule(m, 12) == 0x00000000
    ensures Schedule(m, 13) == 0x00000000
    ensures Schedule(m, 14) == 0x00000000
    ensures Schedule(m, 15) == 0x00000018
  {
    hide Schedule;
    FirstWord(m, 8);
    FirstWord(m, 9);
    FirstWord(m, 10);
    FirstWord(m, 11);
    FirstWord(m, 12);
    FirstWord(m, 13);
    FirstWord(m, 14);
    FirstWord(m, 15);
  }

  lemma Words2(m: seq<bv8>)
    requires IsBlock(m)
    ensures Schedule(m, 16) == 0x61626380
    ensures Schedule(m, 17) == 0x000f0000
    ensures Schedule(m, 18) == 0x7da86405
    ensures Schedule(m, 19) == 0x600003c6
    ensures Schedule(m, 20) == 0x3e9d7b78
    ensures Schedule(m, 21) == 0x0183fc00
    ensures Schedule(m, 22) == 0x12dcbfdb
    ensures Schedule(m, 23) == 0xe2e2c38e
  {
    hide Schedule;
    Words0(m);
    Words1(m);
    Extended(m, 16, 0x00000000, 0x00000000, 0x00000000, 0x61626380, 0x61626380);
    Extended(m, 17, 0x00000018, 0x00000000, 0x00000000, 0x00000000, 0x000f0000);
    Extended(m, 18, 0x61626380, 0x00000000, 0x00000000, 0x00000000, 0x7da86405);
    Extended(m, 19, 0x000f0000, 0x00000000, 0x00000000, 0x00000000, 0x600003c6);
    Extended(m, 20, 0x7da86405, 0x00000000, 0x00000000, 0x00000000, 0x3e9d7b78);
    Extended(m, 21, 0x600003c6, 0x00000000, 0x00000000, 0x00000000, 0x0183fc00);
    Extended(m, 22, 0x3e9d7b78, 0x00000018, 0x00000000, 0x00000000, 0x12dcbfdb);
    Extended(m, 23, 0x0183fc00, 0x61626380, 0x00000000, 0x00000000, 0xe2e2c38e);
  }

  lemma Words3(m: seq<bv8>)
    requires IsBlock(m)
    ensures Schedule(m, 24) == 0xc8215c1a
    ensures Schedule(m, 25) == 0xb73679a2
    ensures Schedule(m, 26) == 0xe5bc3909
    ensures Schedule(m, 27) == 0x32663c5b
    ensures Schedule(m, 28) == 0x9d209d67
    ensures Schedule(m, 29) == 0xec8726cb
    ensures Schedule(m, 30) == 0x702138a4
    ensures Schedule(m, 31) == 0xd3b7973b
  {
    hide Schedule;
    Words1(m);
    Words2(m);
    Extended(m, 24, 0x12dcbfdb, 0x000f0000, 0x00000000, 0x00000000, 0xc8215c1a);
    Extended(m, 25, 0xe2e2c38e, 0x7da86405, 0x00000000, 0x00000000, 0xb73679a2);
    Extended(m, 26, 0xc8215c1a, 0x600003c6, 0x00000000, 0x00000000, 0xe5bc3909);
    Extended(m, 27, 0xb73679a2, 0x3e9d7b78, 0x00000000, 0x00000000, 0x32663c5b);
    Extended(m, 28, 0xe5bc3909, 0x0183fc00, 0x00000000, 0x00000000, 0x9d209d67);
    Extended(m, 29, 0x32663c5b, 0x12dcbfdb, 0x00000000, 0x00000000, 0xec8726cb);
    Extended(m, 30, 0x9d209d67, 0xe2e2c38e, 0x00000018, 0x00000000, 0x702138a4);
    Extended(m, 31, 0xec8726cb, 0xc8215c1a, 0x61626380, 0x00000018, 0xd3b7973b);
  }

  lemma Words4(m: seq<bv8>)
    requires IsBlock(m)
    ensures Schedule(m, 32) == 0x93f5997f
    ensures Schedule(m, 33) == 0x3b68ba73
    ensures Schedule(m, 34) == 0xaff4ffc1
    ensures Schedule(m, 35) == 0xf10a5c62
    ensures Schedule(m, 36) == 0x0a8b3996
    ensures Schedule(m, 37) == 0x72af830a
    ensures Schedule(m, 38) == 0x9409e33e
    ensures Schedule(m, 39) == 0x24641522
  {
    hide Schedule;
    Words2(m);
    Words3(m);
    Extended(m, 32, 0x702138a4, 0xb73679a2, 0x000f0000, 0x61626380, 0x93f5997f);
    Extended(m, 33, 0xd3b7973b, 0xe5bc3909, 0x7da86405, 0x000f0000, 0x3b68ba73);
    Extended(m, 34, 0x93f5997f, 0x32663c5b, 0x600003c6, 0x7da86405, 0xaff4ffc1);
    Extended(m, 35, 0x3b68ba73, 0x9d209d67, 0x3e9d7b78, 0x600003c6, 0xf10a5c62);
    Extended(m, 36, 0xaff4ffc1, 0xec8726cb, 0x0183fc00, 0x3e9d7b78, 0x0a8b3996);
    Extended(m, 37, 0xf10a5c62, 0x702138a4, 0x12dcbfdb, 0x0183fc00, 0x72af830a);
    Extended(m, 38, 0x0a8b3996, 0xd3b7973b, 0xe2e2c38e, 0x12dcbfdb, 0x9409e33e);
    Extended(m, 39, 0x72af830a, 0x93f5997f, 0xc8215c1a, 0xe2e2c38e, 0x24641522);
  }

  lemma Words5(m: seq<bv8>)
    requires IsBlock(m)
    ensures Schedule(m, 40) == 0x9f47bf94
    ensures Schedule(m, 41) == 0xf0a64f5a
    ensures Schedule(m, 42) == 0x3e246a79
    ensures Schedule(m, 43) == 0x27333ba3
    ensures Schedule(m, 44) == 0x0c4763f2
    ensures Schedule(m, 45) == 0x840abf27
    ensures Schedule(m, 46) == 0x7a290d5d
    ensures Schedule(m, 47) == 0x065c43da
  {
    hide Schedule;
    Words3(m);
    Words4(m);
    Extended(m, 40, 0x9409e33e, 0x3b68ba73, 0xb73679a2, 0xc8215c1a, 0x9f47bf94);
    Extended(m, 41, 0x24641522, 0xaff4ffc1, 0xe5bc3909, 0xb73679a2, 0xf0a64f5a);
    Extended(m, 42, 0x9f47bf94, 0xf10a5c62, 0x32663c5b, 0xe5bc3909, 0x3e246a79);
    Extended(m, 43, 0xf0a64f5a, 0x0a8b3996, 0x9d209d67, 0x32663c5b, 0x27333ba3);
    Extended(m, 44, 0x3e246a79, 0x72af830a, 0xec8726cb, 0x9d209d67, 0x0c4763f2);
    Extended(m, 45, 0x27333ba3, 0x9409e33e, 0x702138a4, 0xec8726cb, 0x840abf27);
    Extended(m, 46, 0x0c4763f2, 0x24641522, 0xd3b7973b, 0x702138a4, 0x7a290d5d);
    Extended(m, 47, 0x840abf27, 0x9f47bf94, 0x93f5997f, 0xd3b7973b, 0x065c43da);
  }

  lemma Words6(m: seq<bv8>)
    requires IsBlock(m)
    ensures Schedule(m, 48) == 0xfb3e89cb
    ensures Schedule(m, 49) == 0xcc7617db
    ensures Schedule(m, 50) == 0xb9e66c34
    ensures Schedule(m, 51) == 0xa9993667
    ensures Schedule(m, 52) == 0x84badedd
    ensures Schedule(m, 53) == 0xc21462bc
    ensures Schedule(m, 54) == 0x1487472c
    ensures Schedule(m, 55) == 0xb20f7a99
  {
    hide Schedule;
    Words4(m);
    Words5(m);
    Extended(m, 48, 0x7a290d5d, 0xf0a64f5a, 0x3b68ba73, 0x93f5997f, 0xfb3e89cb);
    Extended(m, 49, 0x065c43da, 0x3e246a79, 0xaff4ffc1, 0x3b68ba73, 0xcc7617db);
    Extended(m, 50, 0xfb3e89cb, 0x27333ba3, 0xf10a5c62, 0xaff4ffc1, 0xb9e66c34);
    Extended(m, 51, 0xcc7617db, 0x0c4763f2, 0x0a8b3996, 0xf10a5c62, 0xa9993667);
    Extended(m, 52, 0xb9e66c34, 0x840abf27, 0x72af830a, 0x0a8b3996, 0x84badedd);
    Extended(m, 53, 0xa9993667, 0x7a290d5d, 0x9409e33e, 0x72af830a, 0xc21462bc);
    Extended(m, 54, 0x84badedd, 0x065c43da, 0x24641522, 0x9409e33e, 0x1487472c);
    Extended(m, 55, 0xc21462bc, 0xfb3e89cb, 0x9f47bf94, 0x24641522, 0xb20f7a99);
  }

  lemma Words7(m: seq<bv8>)
    requires IsBlock(m)
    ensures Schedule(m, 56) == 0xef57b9cd
    ensures Schedule(m, 57) == 0xebe6b238
    ensures Schedule(m, 58) == 0x9fe3095e
    ensures Schedule(m, 59) == 0x78bc8d4b
    ensures Schedule(m, 60) == 0xa43fcf15
    ensures Schedule(m, 61) == 0x668b2ff8
    ensures Schedule(m, 62) == 0xeeaba2cc
    ensures Schedule(m, 63) == 0x12b1edeb
  {
    hide Schedule;
    Words5(m);
    Words6(m);
    Extended(m, 56, 0x1487472c, 0xcc7617db, 0xf0a64f5a, 0x9f47bf94, 0xef57b9cd);
    Extended(m, 57, 0xb20f7a99, 0xb9e66c34, 0x3e246a79, 0xf0a64f5a, 0xebe6b238);
    Extended(m, 58, 0xef57b9cd, 0xa9993667, 0x27333ba3, 0x3e246a79, 0x9fe3095e);
    Extended(m, 59, 0xebe6b238, 0x84badedd, 0x0c4763f2, 0x27333ba3, 0x78bc8d4b);
    Extended(m, 60, 0x9fe3095e, 0xc21462bc, 0x840abf27, 0x0c4763f2, 0xa43fcf15);
    Extended(m, 61, 0x78bc8d4b, 0x1487472c, 0x7a290d5d, 0x840abf27, 0x668b2ff8);
    Extended(m, 62, 0xa43fcf15, 0xb20f7a99, 0x065c43da, 0x7a290d5d, 0xeeaba2cc);
    Extended(m, 63, 0x668b2ff8, 0xef57b9cd, 0xfb3e89cb, 0x065c43da, 0x12b1edeb);
  }

  // ---------------------------------------------------------------------------------------------
  // The rounds

  lemma Constants0()
    ensures K(0) == 0x428a2f98
    ensures K(1) == 0x71374491
    ensures K(2) == 0xb5c0fbcf
    ensures K(3) == 0xe9b5dba5
    ensures K(4) == 0x3956c25b
    ensures K(5) == 0x59f111f1
    ensures K(6) == 0x923f82a4
    ensures K(7) == 0xab1c5ed5
  {
  }

  lemma Rounds0(m: seq<bv8>)
    requires IsBlock(m)
    ensures Rounds(INITIAL, m, 8) ==
      Regs(0x85a07b5f, 0xe5030380, 0x2b4209f5, 0x04409a6a, 0x0c657a79, 0x9b27a401, 0x714260ad, 0x43ada245)
  {
    assert Rounds(INITIAL, m, 0) ==
      Regs(0x6a09e667, 0xbb67ae85, 0x3c6ef372, 0xa54ff53a, 0x510e527f, 0x9b05688c, 0x1f83d9ab, 0x5be0cd19);
    Constants0();
    Words0(m);
    hide Schedule, Rounds, K, INITIAL;
    Rounded(m, 0, Regs(0x6a09e667, 0xbb67ae85, 0x3c6ef372, 0xa54ff53a, 0x510e527f, 0x9b05688c, 0x1f83d9ab, 0x5be0cd19),
            0x428a2f98, 0x61626380, 0x5d6aebcd, 0xfa2a4622);
    Rounded(m, 1, Regs(0x5d6aebcd, 0x6a09e667, 0xbb67ae85, 0x3c6ef372, 0xfa2a4622, 0x510e527f, 0x9b05688c, 0x1f83d9ab),
            0x71374491, 0x00000000, 0x5a6ad9ad, 0x78ce7989);
    Rounded(m, 2, Regs(0x5a6ad9ad, 0x5d6aebcd, 0x6a09e667, 0xbb67ae85, 0x78ce7989, 0xfa2a4622, 0x510e527f, 0x9b05688c),
            0xb5c0fbcf, 0x00000000, 0xc8c347a7, 0xf92939eb);
    Rounded(m, 3, Regs(0xc8c347a7, 0x5a6ad9ad, 0x5d6aebcd, 0x6a09e667, 0xf92939eb, 0x78ce7989, 0xfa2a4622, 0x510e527f),
            0xe9b5dba5, 0x00000000, 0xd550f666, 0x24e00850);
    Rounded(m, 4, Regs(0xd550f666, 0xc8c347a7, 0x5a6ad9ad, 0x5d6aebcd, 0x24e00850, 0xf92939eb, 0x78ce7989, 0xfa2a4622),
            0x3956c25b, 0x00000000, 0x04409a6a, 0x43ada245);
    Rounded(m, 5, Regs(0x04409a6a, 0xd550f666, 0xc8c347a7, 0x5a6ad9ad, 0x43ada245, 0x24e00850, 0xf92939eb, 0x78ce7989),
            0x59f111f1, 0x00000000, 0x2b4209f5, 0x714260ad);
    Rounded(m, 6, Regs(0x2b4209f5, 0x04409a6a, 0xd550f666, 0xc8c347a7, 0x714260ad, 0x43ada245, 0x24e00850, 0xf92939eb),
            0x923f82a4, 0x00000000, 0xe5030380, 0x9b27a401);
    Rounded(m, 7, Regs(0xe5030380, 0x2b4209f5, 0x04409a6a, 0xd550f666, 0x9b27a401, 0x714260ad, 0x43ada245, 0x24e00850),
            0xab1c5ed5, 0x00000000, 0x85a07b5f, 0x0c657a79);
  }

  lemma Constants1()
    ensures K(8) == 0xd807aa98
    ensures K(9) == 0x12835b01
    ensures K(10) == 0x243185be
    ensures K(11) == 0x550c7dc3
    ensures K(12) == 0x72be5d74
    ensures K(13) == 0x80deb1fe
    ensures K(14) == 0x9bdc06a7
    ensures K(15) == 0xc19bf174
  {
  }

  lemma Rounds1(m: seq<bv8>)
    requires IsBlock(m)
    ensures Rounds(INITIAL, m, 16) ==
      Regs(0xb0fa238e, 0xc0645fde, 0xd932eb16, 0x87912990, 0x07590dcd, 0x0b92f20c, 0x745a48de, 0x1e578218)
  {
    Rounds0(m);
    Constants1();
    Words1(m);
    hide Schedule, Rounds, K, INITIAL;
    Rounded(m, 8, Regs(0x85a07b5f, 0xe5030380, 0x2b4209f5, 0x04409a6a, 0x0c657a79, 0x9b27a401, 0x714260ad, 0x43ada245),
            0xd807aa98, 0x00000000, 0x8e04ecb9, 0x32ca2d8c);
    Rounded(m, 9, Regs(0x8e04ecb9, 0x85a07b5f, 0xe5030380, 0x2b4209f5, 0x32ca2d8c, 0x0c657a79, 0x9b27a401, 0x714260ad),
            0x12835b01, 0x00000000, 0x8c87346b, 0x1cc92596);
    Rounded(m, 10, Regs(0x8c87346b, 0x8e04ecb9, 0x85a07b5f, 0xe5030380, 0x1cc92596, 0x32ca2d8c, 0x0c657a79, 0x9b27a401),
            0x243185be, 0x00000000, 0x4798a3f4, 0x436b23e8);
    Rounded(m, 11, Regs(0x4798a3f4, 0x8c87346b, 0x8e04ecb9, 0x85a07b5f, 0x436b23e8, 0x1cc92596, 0x32ca2d8c, 0x0c657a79),
            0x550c7dc3, 0x00000000, 0xf71fc5a9, 0x816fd6e9);
    Rounded(m, 12, Regs(0xf71fc5a9, 0x4798a3f4, 0x8c87346b, 0x8e04ecb9, 0x816fd6e9, 0x436b23e8, 0x1cc92596, 0x32ca2d8c),
            0x72be5d74, 0x00000000, 0x87912990, 0x1e578218);
    Rounded(m, 13, Regs(0x87912990, 0xf71fc5a9, 0x4798a3f4, 0x8c87346b, 0x1e578218, 0x816fd6e9, 0x436b23e8, 0x1cc92596),
            0x80deb1fe, 0x00000000, 0xd932eb16, 0x745a48de);
    Rounded(m, 14, Regs(0xd932eb16, 0x87912990, 0xf71fc5a9, 0x4798a3f4, 0x745a48de, 0x1e578218, 0x816fd6e9, 0x436b23e8),
            0x9bdc06a7, 0x00000000, 0xc0645fde, 0x0b92f20c);
    Rounded(m, 15, Regs(0xc0645fde, 0xd932eb16, 0x87912990, 0xf71fc5a9, 0x0b92f20c, 0x745a48de, 0x1e578218, 0x816fd6e9),
            0xc19bf174, 0x00000018, 0xb0fa238e, 0x07590dcd);
  }

  lemma Constants2()
    ensures K(16) == 0xe49b69c1
    ensures K(17) == 0xefbe4786
    ensures K(18) == 0x0fc19dc6
    ensures K(19) == 0x240ca1cc
    ensures K(20) == 0x2de92c6f
    ensures K(21) == 0x4a7484aa
    ensures K(22) == 0x5cb0a9dc
    ensures K(23) == 0x76f988da
  {
  }

  lemma Rounds2(m: seq<bv8>)
    requires IsBlock(m)
    ensures Rounds(INITIAL, m, 24) ==
      Regs(0xc5d53d8d, 0xa7a3623f, 0xc2606d6d, 0x9dc68b63, 0xaa47c347, 0x49f5114a, 0xe1257970, 0x8ada8930)
  {
    Rounds1(m);
    Constants2();
    Words2(m);
    hide Schedule, Rounds, K, INITIAL;
    Rounded(m, 16, Regs(0xb0fa238e, 0xc0645fde, 0xd932eb16, 0x87912990, 0x07590dcd, 0x0b92f20c, 0x745a48de, 0x1e578218),
            0xe49b69c1, 0x61626380, 0x21da9a9b, 0x8034229c);
    Rounded(m, 17, Regs(0x21da9a9b, 0xb0fa238e, 0xc0645fde, 0xd932eb16, 0x8034229c, 0x07590dcd, 0x0b92f20c, 0x745a48de),
            0xefbe4786, 0x000f0000, 0xc2fbd9d1, 0x846ee454);
    Rounded(m, 18, Regs(0xc2fbd9d1, 0x21da9a9b, 0xb0fa238e, 0xc0645fde, 0x846ee454, 0x8034229c, 0x07590dcd, 0x0b92f20c),
            0x0fc19dc6, 0x7da86405, 0xfe777bbf, 0xcc899961);
    Rounded(m, 19, Regs(0xfe777bbf, 0xc2fbd9d1, 0x21da9a9b, 0xb0fa238e, 0xcc899961, 0x846ee454, 0x8034229c, 0x07590dcd),
            0x240ca1cc, 0x600003c6, 0xe1f20c33, 0xb0638179);
    Rounded(m, 20, Regs(0xe1f20c33, 0xfe777bbf, 0xc2fbd9d1, 0x21da9a9b, 0xb0638179, 0xcc899961, 0x846ee454, 0x8034229c),
            0x2de92c6f, 0x3e9d7b78, 0x9dc68b63, 0x8ada8930);
    Rounded(m, 21, Regs(0x9dc68b63, 0xe1f20c33, 0xfe777bbf, 0xc2fbd9d1, 0x8ada8930, 0xb0638179, 0xcc899961, 0x846ee454),
            0x4a7484aa, 0x0183fc00, 0xc2606d6d, 0xe1257970);
    Rounded(m, 22, Regs(0xc2606d6d, 0x9dc68b63, 0xe1f20c33, 0xfe777bbf, 0xe1257970, 0x8ada8930, 0xb0638179, 0xcc899961),
            0x5cb0a9dc, 0x12dcbfdb, 0xa7a3623f, 0x49f5114a);
    Rounded(m, 23, Regs(0xa7a3623f, 0xc2606d6d, 0x9dc68b63, 0xe1f20c33, 0x49f5114a, 0xe1257970, 0x8ada8930, 0xb0638179),
            0x76f988da, 0xe2e2c38e, 0xc5d53d8d, 0xaa47c347);
  }

  lemma Constants3()
    ensures K(24) == 0x983e5152
    ensures K(25) == 0xa831c66d
    ensures K(26) == 0xb00327c8
    ensures K(27) == 0xbf597fc7
    ensures K(28) == 0xc6e00bf3
    ensures K(29) == 0xd5a79147
    ensures K(30) == 0x06ca6351
    ensures K(31) == 0x14292967
  {
  }

  lemma Rounds3(m: seq<bv8>)
    requires IsBlock(m)
    ensures Rounds(INITIAL, m, 32) ==
      Regs(0x73b33bf5, 0xea992a22, 0xa0060b30, 0x363482c9, 0xba591112, 0x0109ab3a, 0xade79437, 0x6112a3b7)
  {
    Rounds2(m);
    Constants3();
    Words3(m);
    hide Schedule, Rounds, K, INITIAL;
    Rounded(m, 24, Regs(0xc5d53d8d, 0xa7a3623f, 0xc2606d6d, 0x9dc68b63, 0xaa47c347, 0x49f5114a, 0xe1257970, 0x8ada8930),
            0x983e5152, 0xc8215c1a, 0x1c2c2838, 0x2823ef91);
    Rounded(m, 25, Regs(0x1c2c2838, 0xc5d53d8d, 0xa7a3623f, 0xc2606d6d, 0x2823ef91, 0xaa47c347, 0x49f5114a, 0xe1257970),
            0xa831c66d, 0xb73679a2, 0xcde8037d, 0x14383d8e);
    Rounded(m, 26, Regs(0xcde8037d, 0x1c2c2838, 0xc5d53d8d, 0xa7a3623f, 0x14383d8e, 0x2823ef91, 0xaa47c347, 0x49f5114a),
            0xb00327c8, 0xe5bc3909, 0xb62ec4bc, 0xc74c6516);
    Rounded(m, 27, Regs(0xb62ec4bc, 0xcde8037d, 0x1c2c2838, 0xc5d53d8d, 0xc74c6516, 0x14383d8e, 0x2823ef91, 0xaa47c347),
            0xbf597fc7, 0x32663c5b, 0x77d37528, 0xedffbff8);
    Rounded(m, 28, Regs(0x77d37528, 0xb62ec4bc, 0xcde8037d, 0x1c2c2838, 0xedffbff8, 0xc74c6516, 0x14383d8e, 0x2823ef91),
            0xc6e00bf3, 0x9d209d67, 0x363482c9, 0x6112a3b7);
    Rounded(m, 29, Regs(0x363482c9, 0x77d37528, 0xb62ec4bc, 0xcde8037d, 0x6112a3b7, 0xedffbff8, 0xc74c6516, 0x14383d8e),
            0xd5a79147, 0xec8726cb, 0xa0060b30, 0xade79437);
    Rounded(m, 30, Regs(0xa0060b30, 0x363482c9, 0x77d37528, 0xb62ec4bc, 0xade79437, 0x6112a3b7, 0xedffbff8, 0xc74c6516),
            0x06ca6351, 0x702138a4, 0xea992a22, 0x0109ab3a);
    Rounded(m, 31, Regs(0xea992a22, 0xa0060b30, 0x363482c9, 0x77d37528, 0x0109ab3a, 0xade79437, 0x6112a3b7, 0xedffbff8),
            0x14292967, 0xd3b7973b, 0x73b33bf5, 0xba591112);
  }

  lemma Constants4()
    ensures K(32) == 0x27b70a85
    ensures K(33) == 0x2e1b2138
    ensures K(34) == 0x4d2c6dfc
    ensures K(35) == 0x53380d13
    ensures K(36) == 0x650a7354
    ensures K(37) == 0x766a0abb
    ensures K(38) == 0x81c2c92e
    ensures K(39) == 0x92722c85
  {
  }

  lemma Rounds4(m: seq<bv8>)
    requires IsBlock(m)
    ensures Rounds(INITIAL, m, 40) ==
      Regs(0x79ea687a, 0x6dc57a8a, 0x34df1604, 0x41a65cb1, 0x1efbc0a0, 0xf0781bc8, 0xa507a53d, 0x0772a26b)
  {
    Rounds3(m);
    Constants4();
    Words4(m);
    hide Schedule, Rounds, K, INITIAL;
    Rounded(m, 32, Regs(0x73b33bf5, 0xea992a22, 0xa0060b30, 0x363482c9, 0xba591112, 0x0109ab3a, 0xade79437, 0x6112a3b7),
            0x27b70a85, 0x93f5997f, 0x98e12507, 0x9cd9f5f6);
    Rounded(m, 33, Regs(0x98e12507, 0x73b33bf5, 0xea992a22, 0xa0060b30, 0x9cd9f5f6, 0xba591112, 0x0109ab3a, 0xade79437),
            0x2e1b2138, 0x3b68ba73, 0xfe604df5, 0x59249dd3);
    Rounded(m, 34, Regs(0xfe604df5, 0x98e12507, 0x73b33bf5, 0xea992a22, 0x59249dd3, 0x9cd9f5f6, 0xba591112, 0x0109ab3a),
            0x4d2c6dfc, 0xaff4ffc1, 0xa9a7738c, 0x085f3833);
    Rounded(m, 35, Regs(0xa9a7738c, 0xfe604df5, 0x98e12507, 0x73b33bf5, 0x085f3833, 0x59249dd3, 0x9cd9f5f6, 0xba591112),
            0x53380d13, 0xf10a5c62, 0x65a0cfe4, 0xf4b002d6);
    Rounded(m, 36, Regs(0x65a0cfe4, 0xa9a7738c, 0xfe604df5, 0x98e12507, 0xf4b002d6, 0x085f3833, 0x59249dd3, 0x9cd9f5f6),
            0x650a7354, 0x0a8b3996, 0x41a65cb1, 0x0772a26b);
    Rounded(m, 37, Regs(0x41a65cb1, 0x65a0cfe4, 0xa9a7738c, 0xfe604df5, 0x0772a26b, 0xf4b002d6, 0x085f3833, 0x59249dd3),
            0x766a0abb, 0x72af830a, 0x34df1604, 0xa507a53d);
    Rounded(m, 38, Regs(0x34df1604, 0x41a65cb1, 0x65a0cfe4, 0xa9a7738c, 0xa507a53d, 0x0772a26b, 0xf4b002d6, 0x085f3833),
            0x81c2c92e, 0x9409e33e, 0x6dc57a8a, 0xf0781bc8);
    Rounded(m, 39, Regs(0x6dc57a8a, 0x34df1604, 0x41a65cb1, 0x65a0cfe4, 0xf0781bc8, 0xa507a53d, 0x0772a26b, 0xf4b002d6),
            0x92722c85, 0x24641522, 0x79ea687a, 0x1efbc0a0);
  }

  lemma Constants5()
    ensures K(40) == 0xa2bfe8a1
    ensures K(41) == 0xa81a664b
    ensures K(42) == 0xc24b8b70
    ensures K(43) == 0xc76c51a3
    ensures K(44) == 0xd192e819
    ensures K(45) == 0xd6990624
    ensures K(46) == 0xf40e3585
    ensures K(47) == 0x106aa070
  {
  }

  lemma Rounds5(m: seq<bv8>)
    requires IsBlock(m)
    ensures Rounds(INITIAL, m, 48) ==
      Regs(0x4172328d, 0xa14c14b0, 0x72ab4b91, 0x26628815, 0xfecf0bc6, 0xd57b94a9, 0xb7755da1, 0xa80f11f0)
  {
    Rounds4(m);
    Constants5();
    Words5(m);
    hide Schedule, Rounds, K, INITIAL;
    Rounded(m, 40, Regs(0x79ea687a, 0x6dc57a8a, 0x34df1604, 0x41a65cb1, 0x1efbc0a0, 0xf0781bc8, 0xa507a53d, 0x0772a26b),
            0xa2bfe8a1, 0x9f47bf94, 0xd6670766, 0x26352d63);
    Rounded(m, 41, Regs(0xd6670766, 0x79ea687a, 0x6dc57a8a, 0x34df1604, 0x26352d63, 0x1efbc0a0, 0xf0781bc8, 0xa507a53d),
            0xa81a664b, 0xf0a64f5a, 0xdf46652f, 0x838b2711);
    Rounded(m, 42, Regs(0xdf46652f, 0xd6670766, 0x79ea687a, 0x6dc57a8a, 0x838b2711, 0x26352d63, 0x1efbc0a0, 0xf0781bc8),
            0xc24b8b70, 0x3e246a79, 0x17aa0dfe, 0xdecd4715);
    Rounded(m, 43, Regs(0x17aa0dfe, 0xdf46652f, 0xd6670766, 0x79ea687a, 0xdecd4715, 0x838b2711, 0x26352d63, 0x1efbc0a0),
            0xc76c51a3, 0x27333ba3, 0x9d4baf93, 0xfda24c2e);
    Rounded(m, 44, Regs(0x9d4baf93, 0x17aa0dfe, 0xdf46652f, 0xd6670766, 0xfda24c2e, 0xdecd4715, 0x838b2711, 0x26352d63),
            0xd192e819, 0x0c4763f2, 0x26628815, 0xa80f11f0);
    Rounded(m, 45, Regs(0x26628815, 0x9d4baf93, 0x17aa0dfe, 0xdf46652f, 0xa80f11f0, 0xfda24c2e, 0xdecd4715, 0x838b2711),
            0xd6990624, 0x840abf27, 0x72ab4b91, 0xb7755da1);
    Rounded(m, 46, Regs(0x72ab4b91, 0x26628815, 0x9d4baf93, 0x17aa0dfe, 0xb7755da1, 0xa80f11f0, 0xfda24c2e, 0xdecd4715),
            0xf40e3585, 0x7a290d5d, 0xa14c14b0, 0xd57b94a9);
    Rounded(m, 47, Regs(0xa14c14b0, 0x72ab4b91, 0x26628815, 0x9d4baf93, 0xd57b94a9, 0xb7755da1, 0xa80f11f0, 0xfda24c2e),
            0x106aa070, 0x065c43da, 0x4172328d, 0xfecf0bc6);
  }

  lemma Constants6()
    ensures K(48) == 0x19a4c116
    ensures K(49) == 0x1e376c08
    ensures K(50) == 0x2748774c
    ensures K(51) == 0x34b0bcb5
    ensures K(52) == 0x391c0cb3
    ensures K(53) == 0x4ed8aa4a
    ensures K(54) == 0x5b9cca4f
    ensures K(55) == 0x682e6ff3
  {
  }

  lemma Rounds6(m: seq<bv8>)
    requires IsBlock(m)
    ensures Rounds(INITIAL, m, 56) ==
      Regs(0x38cc9913, 0x3ec45cdb, 0xf5702fdb, 0x101fd28f, 0x54cb266b, 0xe50e1b4f, 0x9f4787c3, 0x529e7d00)
  {
    Rounds5(m);
    Constants6();
    Words6(m);
    hide Schedule, Rounds, K, INITIAL;
    Rounded(m, 48, Regs(0x4172328d, 0xa14c14b0, 0x72ab4b91, 0x26628815, 0xfecf0bc6, 0xd57b94a9, 0xb7755da1, 0xa80f11f0),
            0x19a4c116, 0xfb3e89cb, 0x05757ceb, 0xbd714038);
    Rounded(m, 49, Regs(0x05757ceb, 0x4172328d, 0xa14c14b0, 0x72ab4b91, 0xbd714038, 0xfecf0bc6, 0xd57b94a9, 0xb7755da1),
            0x1e376c08, 0xcc7617db, 0xf11bfaa8, 0x6e5c390c);
    Rounded(m, 50, Regs(0xf11bfaa8, 0x05757ceb, 0x4172328d, 0xa14c14b0, 0x6e5c390c, 0xbd714038, 0xfecf0bc6, 0xd57b94a9),
            0x2748774c, 0xb9e66c34, 0x7a0508a1, 0x52f1ccf7);
    Rounded(m, 51, Regs(0x7a0508a1, 0xf11bfaa8, 0x05757ceb, 0x4172328d, 0x52f1ccf7, 0x6e5c390c, 0xbd714038, 0xfecf0bc6),
            0x34b0bcb5, 0xa9993667, 0x886e7a22, 0x49231c1e);
    Rounded(m, 52, Regs(0x886e7a22, 0x7a0508a1, 0xf11bfaa8, 0x05757ceb, 0x49231c1e, 0x52f1ccf7, 0x6e5c390c, 0xbd714038),
            0x391c0cb3, 0x84badedd, 0x101fd28f, 0x529e7d00);
    Rounded(m, 53, Regs(0x101fd28f, 0x886e7a22, 0x7a0508a1, 0xf11bfaa8, 0x529e7d00, 0x49231c1e, 0x52f1ccf7, 0x6e5c390c),
            0x4ed8aa4a, 0xc21462bc, 0xf5702fdb, 0x9f4787c3);
    Rounded(m, 54, Regs(0xf5702fdb, 0x101fd28f, 0x886e7a22, 0x7a0508a1, 0x9f4787c3, 0x529e7d00, 0x49231c1e, 0x52f1ccf7),
            0x5b9cca4f, 0x1487472c, 0x3ec45cdb, 0xe50e1b4f);
    Rounded(m, 55, Regs(0x3ec45cdb, 0xf5702fdb, 0x101fd28f, 0x886e7a22, 0xe50e1b4f, 0x9f4787c3, 0x529e7d00, 0x49231c1e),
            0x682e6ff3, 0xb20f7a99, 0x38cc9913, 0x54cb266b);
  }

  lemma Constants7()
    ensures K(56) == 0x748f82ee
    ensures K(57) == 0x78a5636f
    ensures K(58) == 0x84c87814
    ensures K(59) == 0x8cc70208
    ensures K(60) == 0x90befffa
    ensures K(61) == 0xa4506ceb
    ensures K(62) == 0xbef9a3f7
    ensures K(63) == 0xc67178f2
  {
  }

  lemma Rounds7(m: seq<bv8>)
    requires IsBlock(m)
    ensures Rounds(INITIAL, m, 64) ==
      Regs(0x506e3058, 0xd39a2165, 0x04d24d6c, 0xb85e2ce9, 0x5ef50f24, 0xfb121210, 0x948d25b6, 0x961f4894)
  {
    Rounds6(m);
    Constants7();
    Words7(m);
    hide Schedule, Rounds, K, INITIAL;
    Rounded(m, 56, Regs(0x38cc9913, 0x3ec45cdb, 0xf5702fdb, 0x101fd28f, 0x54cb266b, 0xe50e1b4f, 0x9f4787c3, 0x529e7d00),
            0x748f82ee, 0xef57b9cd, 0xfcd1887b, 0x9b5e906c);
    Rounded(m, 57, Regs(0xfcd1887b, 0x38cc9913, 0x3ec45cdb, 0xf5702fdb, 0x9b5e906c, 0x54cb266b, 0xe50e1b4f, 0x9f4787c3),
            0x78a5636f, 0xebe6b238, 0xc062d46f, 0x7e44008e);
    Rounded(m, 58, Regs(0xc062d46f, 0xfcd1887b, 0x38cc9913, 0x3ec45cdb, 0x7e44008e, 0x9b5e906c, 0x54cb266b, 0xe50e1b4f),
            0x84c87814, 0x9fe3095e, 0xffb70472, 0x6d83bfc6);
    Rounded(m, 59, Regs(0xffb70472, 0xc062d46f, 0xfcd1887b, 0x38cc9913, 0x6d83bfc6, 0x7e44008e, 0x9b5e906c, 0x54cb266b),
            0x8cc70208, 0x78bc8d4b, 0xb6ae8fff, 0xb21bad3d);
    Rounded(m, 60, Regs(0xb6ae8fff, 0xffb70472, 0xc062d46f, 0xfcd1887b, 0xb21bad3d, 0x6d83bfc6, 0x7e44008e, 0x9b5e906c),
            0x90befffa, 0xa43fcf15, 0xb85e2ce9, 0x961f4894);
    Rounded(m, 61, Regs(0xb85e2ce9, 0xb6ae8fff, 0xffb70472, 0xc062d46f, 0x961f4894, 0xb21bad3d, 0x6d83bfc6, 0x7e44008e),
            0xa4506ceb, 0x668b2ff8, 0x04d24d6c, 0x948d25b6);
    Rounded(m, 62, Regs(0x04d24d6c, 0xb85e2ce9, 0xb6ae8fff, 0xffb70472, 0x948d25b6, 0x961f4894, 0xb21bad3d, 0x6d83bfc6),
            0xbef9a3f7, 0xeeaba2cc, 0xd39a2165, 0xfb121210);
    Rounded(m, 63, Regs(0xd39a2165, 0x04d24d6c, 0xb85e2ce9, 0xb6ae8fff, 0xfb121210, 0x948d25b6, 0x961f4894, 0xb21bad3d),
            0xc67178f2, 0x12b1edeb, 0x506e3058, 0x5ef50f24);
  }

  // ---------------------------------------------------------------------------------------------
  // The digest

  lemma PaddedAbc()
    ensures |Padded(ABC)| == 64 && IsBlock(Padded(ABC))
  {
    LengthOfAbc();
    hide Be64;
    var p := Padded(ABC);
    assert p == ABC + [0x80] + Zeros(52) + Be64(24);
  }

  lemma LengthOfAbc()
    ensures Be64(24) == [0, 0, 0, 0, 0, 0, 0, 0x18]
  {
    hide LengthByte;
    LowByte();
    HighByte(0x100);
    HighByte(0x1_0000);
    HighByte(0x100_0000);
    HighByte(0x1_0000_0000);
    HighByte(0x100_0000_0000);
    HighByte(0x1_0000_0000_0000);
    HighByte(0x100_0000_0000_0000);
  }

  lemma LowByte()
    ensures LengthByte(24, 1) == 0x18
  {
  }

  lemma HighByte(p: nat)
    requires p > 24
    ensures LengthByte(24, p) == 0
  {
    assert 24 / p == 0;
  }

  lemma OneBlock(m: seq<bv8>)
    requires |m| == 64
    ensures HashBlocks(INITIAL, m) == Compress(INITIAL, m)
  {
    hide Compress, INITIAL;
    assert [] + m == m;
    HashStep(INITIAL, [], m);
  }

  lemma CompressedAbc(m: seq<bv8>)
    requires IsBlock(m)
    ensures Compress(INITIAL, m) == 
      Regs(0xba7816bf, 0x8f01cfea, 0x414140de, 0x5dae2223, 0xb00361a3, 0x96177a9c, 0xb410ff61, 0xf20015ad)
  {
    Rounds7(m);
    hide Rounds, IsBlock;
  }

  /** The digest of "abc". */
  lemma DigestOfAbc()
    ensures Hash(ABC) == [
      0xba, 0x78, 0x16, 0xbf, 0x8f, 0x01, 0xcf, 0xea,
      0x41, 0x41, 0x40, 0xde, 0x5d, 0xae, 0x22, 0x23,
      0xb0, 0x03, 0x61, 0xa3, 0x96, 0x17, 0x7a, 0x9c,
      0xb4, 0x10, 0xff, 0x61, 0xf2, 0x00, 0x15, 0xad]
  {
    hide HashBlocks, Compress, Padded, IsBlock;
    PaddedAbc();
    OneBlock(Padded(ABC));
    CompressedAbc(Padded(ABC));
    Digest();
  }

  lemma Digest()
    ensures DigestBytes(
      Regs(0xba7816bf, 0x8f01cfea, 0x414140de, 0x5dae2223, 0xb00361a3, 0x96177a9c, 0xb410ff61, 0xf20015ad)) == [
      0xba, 0x78, 0x16, 0xbf, 0x8f, 0x01, 0xcf, 0xea,
      0x41, 0x41, 0x40, 0xde, 0x5d, 0xae, 0x22, 0x23,
      0xb0, 0x03, 0x61, 0xa3, 0x96, 0x17, 0x7a, 0x9c,
      0xb4, 0x10, 0xff, 0x61, 0xf2, 0x00, 0x15, 0xad]
  {
  }
}
