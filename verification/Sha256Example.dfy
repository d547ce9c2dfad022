/**
 * The message "abc", worked through word by word and round by round to the digest
 * that is published as an example for FIPS 180-4.
 */
module Sha256Example {
  import opened Sha256
  import opened Sha256Facts

  const ABC: seq<octet> := [0x61, 0x62, 0x63]

  /** The padded message: its octets, the end marker, zeros, and the length in bits. */
  predicate IsBlock(block: seq<octet>) {
    block == ABC + [0x80] + Zeros(59) + [24]
  }

  // ---- The words of the schedule

  function W(block: seq<octet>, t: nat): word
    requires IsBlock(block) && t < 64
  {
    Schedule(block, t)
  }

  lemma WStep(block: seq<octet>, t: nat)
    requires IsBlock(block) && 16 <= t < 64
    ensures W(block, t) == NextWord(W(block, t - 2), W(block, t - 7), W(block, t - 15), W(block, t - 16))
  {
    hide NextWord, IsBlock;
  }

  lemma Words0(block: seq<octet>)
    requires IsBlock(block)
    ensures W(block, 0) == 0x61626380 && W(block, 1) == 0x00000000
    ensures W(block, 2) == 0x00000000 && W(block, 3) == 0x00000000
    ensures W(block, 4) == 0x00000000 && W(block, 5) == 0x00000000
    ensures W(block, 6) == 0x00000000 && W(block, 7) == 0x00000000
    ensures W(block, 8) == 0x00000000 && W(block, 9) == 0x00000000
    ensures W(block, 10) == 0x00000000 && W(block, 11) == 0x00000000
    ensures W(block, 12) == 0x00000000 && W(block, 13) == 0x00000000
    ensures W(block, 14) == 0x00000000 && W(block, 15) == 0x00000018
  {
    hide NextWord;
    assert block[0] == 0x61 && block[1] == 0x62 && block[2] == 0x63 && block[3] == 0x80;
    assert forall i :: 4 <= i < 63 ==> block[i] == 0;
    assert block[63] == 24;
  }

  lemma NextWords16()
    ensures NextWord(0x00000000, 0x00000000, 0x00000000, 0x61626380) == 0x61626380
    ensures NextWord(0x00000018, 0x00000000, 0x00000000, 0x00000000) == 0x000f0000
    ensures NextWord(0x61626380, 0x00000000, 0x00000000, 0x00000000) == 0x7da86405
    ensures NextWord(0x000f0000, 0x00000000, 0x00000000, 0x00000000) == 0x600003c6
    ensures NextWord(0x7da86405, 0x00000000, 0x00000000, 0x00000000) == 0x3e9d7b78
    ensures NextWord(0x600003c6, 0x00000000, 0x00000000, 0x00000000) == 0x0183fc00
    ensures NextWord(0x3e9d7b78, 0x00000018, 0x00000000, 0x00000000) == 0x12dcbfdb
    ensures NextWord(0x0183fc00, 0x61626380, 0x00000000, 0x00000000) == 0xe2e2c38e
    ensures NextWord(0x12dcbfdb, 0x000f0000, 0x00000000, 0x00000000) == 0xc8215c1a
    ensures NextWord(0xe2e2c38e, 0x7da86405, 0x00000000, 0x00000000) == 0xb73679a2
    ensures NextWord(0xc8215c1a, 0x600003c6, 0x00000000, 0x00000000) == 0xe5bc3909
    ensures NextWord(0xb73679a2, 0x3e9d7b78, 0x00000000, 0x00000000) == 0x32663c5b
    ensures NextWord(0xe5bc3909, 0x0183fc00, 0x00000000, 0x00000000) == 0x9d209d67
    ensures NextWord(0x32663c5b, 0x12dcbfdb, 0x00000000, 0x00000000) == 0xec8726cb
    ensures NextWord(0x9d209d67, 0xe2e2c38e, 0x00000018, 0x00000000) == 0x702138a4
    ensures NextWord(0xec8726cb, 0xc8215c1a, 0x61626380, 0x00000018) == 0xd3b7973b
  {
  }

  lemma Words16(block: seq<octet>)
    requires IsBlock(block)
    ensures W(block, 16) == 0x61626380 && W(block, 17) == 0x000f0000
    ensures W(block, 18) == 0x7da86405 && W(block, 19) == 0x600003c6
    ensures W(block, 20) == 0x3e9d7b78 && W(block, 21) == 0x0183fc00
    ensures W(block, 22) == 0x12dcbfdb && W(block, 23) == 0xe2e2c38e
    ensures W(block, 24) == 0xc8215c1a && W(block, 25) == 0xb73679a2
    ensures W(block, 26) == 0xe5bc3909 && W(block, 27) == 0x32663c5b
    ensures W(block, 28) == 0x9d209d67 && W(block, 29) == 0xec8726cb
    ensures W(block, 30) == 0x702138a4 && W(block, 31) == 0xd3b7973b
  {
    hide W, NextWord, IsBlock;
    Words0(block);
    NextWords16();
    WStep(block, 16); WStep(block, 17); WStep(block, 18); WStep(block, 19);
    WStep(block, 20); WStep(block, 21); WStep(block, 22); WStep(block, 23);
    WStep(block, 24); WStep(block, 25); WStep(block, 26); WStep(block, 27);
    WStep(block, 28); WStep(block, 29); WStep(block, 30); WStep(block, 31);
  }

  lemma NextWords32()
    ensures NextWord(0x702138a4, 0xb73679a2, 0x000f0000, 0x61626380) == 0x93f5997f
    ensures NextWord(0xd3b7973b, 0xe5bc3909, 0x7da86405, 0x000f0000) == 0x3b68ba73
    ensures NextWord(0x93f5997f, 0x32663c5b, 0x600003c6, 0x7da86405) == 0xaff4ffc1
    ensures NextWord(0x3b68ba73, 0x9d209d67, 0x3e9d7b78, 0x600003c6) == 0xf10a5c62
    ensures NextWord(0xaff4ffc1, 0xec8726cb, 0x0183fc00, 0x3e9d7b78) == 0x0a8b3996
    ensures NextWord(0xf10a5c62, 0x702138a4, 0x12dcbfdb, 0x0183fc00) == 0x72af830a
    ensures NextWord(0x0a8b3996, 0xd3b7973b, 0xe2e2c38e, 0x12dcbfdb) == 0x9409e33e
    ensures NextWord(0x72af830a, 0x93f5997f, 0xc8215c1a, 0xe2e2c38e) == 0x24641522
    ensures NextWord(0x9409e33e, 0x3b68ba73, 0xb73679a2, 0xc8215c1a) == 0x9f47bf94
    ensures NextWord(0x24641522, 0xaff4ffc1, 0xe5bc3909, 0xb73679a2) == 0xf0a64f5a
    ensures NextWord(0x9f47bf94, 0xf10a5c62, 0x32663c5b, 0xe5bc3909) == 0x3e246a79
    ensures NextWord(0xf0a64f5a, 0x0a8b3996, 0x9d209d67, 0x32663c5b) == 0x27333ba3
    ensures NextWord(0x3e246a79, 0x72af830a, 0xec8726cb, 0x9d209d67) == 0x0c4763f2
    ensures NextWord(0x27333ba3, 0x9409e33e, 0x702138a4, 0xec8726cb) == 0x840abf27
    ensures NextWord(0x0c4763f2, 0x24641522, 0xd3b7973b, 0x702138a4) == 0x7a290d5d
    ensures NextWord(0x840abf27, 0x9f47bf94, 0x93f5997f, 0xd3b7973b) == 0x065c43da
  {
  }

  lemma Words32(block: seq<octet>)
    requires IsBlock(block)
    ensures W(block, 32) == 0x93f5997f && W(block, 33) == 0x3b68ba73
    ensures W(block, 34) == 0xaff4ffc1 && W(block, 35) == 0xf10a5c62
    ensures W(block, 36) == 0x0a8b3996 && W(block, 37) == 0x72af830a
    ensures W(block, 38) == 0x9409e33e && W(block, 39) == 0x24641522
    ensures W(block, 40) == 0x9f47bf94 && W(block, 41) == 0xf0a64f5a
    ensures W(block, 42) == 0x3e246a79 && W(block, 43) == 0x27333ba3
    ensures W(block, 44) == 0x0c4763f2 && W(block, 45) == 0x840abf27
    ensures W(block, 46) == 0x7a290d5d && W(block, 47) == 0x065c43da
  {
    hide W, NextWord, IsBlock;
    Words16(block);
    NextWords32();
    WStep(block, 32); WStep(block, 33); WStep(block, 34); WStep(block, 35);
    WStep(block, 36); WStep(block, 37); WStep(block, 38); WStep(block, 39);
    WStep(block, 40); WStep(block, 41); WStep(block, 42); WStep(block, 43);
    WStep(block, 44); WStep(block, 45); WStep(block, 46); WStep(block, 47);
  }

  lemma NextWords48()
    ensures NextWord(0x7a290d5d, 0xf0a64f5a, 0x3b68ba73, 0x93f5997f) == 0xfb3e89cb
    ensures NextWord(0x065c43da, 0x3e246a79, 0xaff4ffc1, 0x3b68ba73) == 0xcc7617db
    ensures NextWord(0xfb3e89cb, 0x27333ba3, 0xf10a5c62, 0xaff4ffc1) == 0xb9e66c34
    ensures NextWord(0xcc7617db, 0x0c4763f2, 0x0a8b3996, 0xf10a5c62) == 0xa9993667
    ensures NextWord(0xb9e66c34, 0x840abf27, 0x72af830a, 0x0a8b3996) == 0x84badedd
    ensures NextWord(0xa9993667, 0x7a290d5d, 0x9409e33e, 0x72af830a) == 0xc21462bc
    ensures NextWord(0x84badedd, 0x065c43da, 0x24641522, 0x9409e33e) == 0x1487472c
    ensures NextWord(0xc21462bc, 0xfb3e89cb, 0x9f47bf94, 0x24641522) == 0xb20f7a99
    ensures NextWord(0x1487472c, 0xcc7617db, 0xf0a64f5a, 0x9f47bf94) == 0xef57b9cd
    ensures NextWord(0xb20f7a99, 0xb9e66c34, 0x3e246a79, 0xf0a64f5a) == 0xebe6b238
    ensures NextWord(0xef57b9cd, 0xa9993667, 0x27333ba3, 0x3e246a79) == 0x9fe3095e
    ensures NextWord(0xebe6b238, 0x84badedd, 0x0c4763f2, 0x27333ba3) == 0x78bc8d4b
    ensures NextWord(0x9fe3095e, 0xc21462bc, 0x840abf27, 0x0c4763f2) == 0xa43fcf15
    ensures NextWord(0x78bc8d4b, 0x1487472c, 0x7a290d5d, 0x840abf27) == 0x668b2ff8
    ensures NextWord(0xa43fcf15, 0xb20f7a99, 0x065c43da, 0x7a290d5d) == 0xeeaba2cc
    ensures NextWord(0x668b2ff8, 0xef57b9cd, 0xfb3e89cb, 0x065c43da) == 0x12b1edeb
  {
  }

  lemma Words48(block: seq<octet>)
    requires IsBlock(block)
    ensures W(block, 48) == 0xfb3e89cb && W(block, 49) == 0xcc7617db
    ensures W(block, 50) == 0xb9e66c34 && W(block, 51) == 0xa9993667
    ensures W(block, 52) == 0x84badedd && W(block, 53) == 0xc21462bc
    ensures W(block, 54) == 0x1487472c && W(block, 55) == 0xb20f7a99
    ensures W(block, 56) == 0xef57b9cd && W(block, 57) == 0xebe6b238
    ensures W(block, 58) == 0x9fe3095e && W(block, 59) == 0x78bc8d4b
    ensures W(block, 60) == 0xa43fcf15 && W(block, 61) == 0x668b2ff8
    ensures W(block, 62) == 0xeeaba2cc && W(block, 63) == 0x12b1edeb
  {
    hide W, NextWord, IsBlock;
    Words32(block);
    NextWords48();
    WStep(block, 48); WStep(block, 49); WStep(block, 50); WStep(block, 51);
    WStep(block, 52); WStep(block, 53); WStep(block, 54); WStep(block, 55);
    WStep(block, 56); WStep(block, 57); WStep(block, 58); WStep(block, 59);
    WStep(block, 60); WStep(block, 61); WStep(block, 62); WStep(block, 63);
  }

  // ---- The rounds

  /** The working variables after t rounds. */
  function After(block: seq<octet>, t: nat): Working
    requires IsBlock(block) && t <= 64
  {
    Rounds(block, StateAsWorking(H0), t)
  }

  lemma AfterStep(block: seq<octet>, t: nat)
    requires IsBlock(block) && t < 64
    ensures After(block, t + 1) == Round(After(block, t), K[t], W(block, t))
  {
    hide Round, K, IsBlock, Schedule;
  }

  lemma After0(block: seq<octet>)
    requires IsBlock(block)
    ensures After(block, 0)
         == Working(0x6a09e667, 0xbb67ae85, 0x3c6ef372, 0xa54ff53a, 0x510e527f, 0x9b05688c, 0x1f83d9ab, 0x5be0cd19)
  {
  }

  /** A round with constant k and word w takes a to h on to a1, a, b, c, e1, e, f, g. */
  predicate Turns(a: word, b: word, c: word, d: word, e: word, f: word, g: word, h: word,
                  k: word, w: word, a1: word, e1: word)
  {
    Round(Working(a, b, c, d, e, f, g, h), k, w) == Working(a1, a, b, c, e1, e, f, g)
  }

  lemma Rounds0()
    ensures Turns(0x6a09e667, 0xbb67ae85, 0x3c6ef372, 0xa54ff53a, 0x510e527f, 0x9b05688c, 0x1f83d9ab, 0x5be0cd19,
                  0x428a2f98, 0x61626380, 0x5d6aebcd, 0xfa2a4622)
    ensures Turns(0x5d6aebcd, 0x6a09e667, 0xbb67ae85, 0x3c6ef372, 0xfa2a4622, 0x510e527f, 0x9b05688c, 0x1f83d9ab,
                  0x71374491, 0x00000000, 0x5a6ad9ad, 0x78ce7989)
    ensures Turns(0x5a6ad9ad, 0x5d6aebcd, 0x6a09e667, 0xbb67ae85, 0x78ce7989, 0xfa2a4622, 0x510e527f, 0x9b05688c,
                  0xb5c0fbcf, 0x00000000, 0xc8c347a7, 0xf92939eb)
    ensures Turns(0xc8c347a7, 0x5a6ad9ad, 0x5d6aebcd, 0x6a09e667, 0xf92939eb, 0x78ce7989, 0xfa2a4622, 0x510e527f,
                  0xe9b5dba5, 0x00000000, 0xd550f666, 0x24e00850)
    ensures Turns(0xd550f666, 0xc8c347a7, 0x5a6ad9ad, 0x5d6aebcd, 0x24e00850, 0xf92939eb, 0x78ce7989, 0xfa2a4622,
                  0x3956c25b, 0x00000000, 0x04409a6a, 0x43ada245)
    ensures Turns(0x04409a6a, 0xd550f666, 0xc8c347a7, 0x5a6ad9ad, 0x43ada245, 0x24e00850, 0xf92939eb, 0x78ce7989,
                  0x59f111f1, 0x00000000, 0x2b4209f5, 0x714260ad)
    ensures Turns(0x2b4209f5, 0x04409a6a, 0xd550f666, 0xc8c347a7, 0x714260ad, 0x43ada245, 0x24e00850, 0xf92939eb,
                  0x923f82a4, 0x00000000, 0xe5030380, 0x9b27a401)
    ensures Turns(0xe5030380, 0x2b4209f5, 0x04409a6a, 0xd550f666, 0x9b27a401, 0x714260ad, 0x43ada245, 0x24e00850,
                  0xab1c5ed5, 0x00000000, 0x85a07b5f, 0x0c657a79)
    ensures Turns(0x85a07b5f, 0xe5030380, 0x2b4209f5, 0x04409a6a, 0x0c657a79, 0x9b27a401, 0x714260ad, 0x43ada245,
                  0xd807aa98, 0x00000000, 0x8e04ecb9, 0x32ca2d8c)
    ensures Turns(0x8e04ecb9, 0x85a07b5f, 0xe5030380, 0x2b4209f5, 0x32ca2d8c, 0x0c657a79, 0x9b27a401, 0x714260ad,
                  0x12835b01, 0x00000000, 0x8c87346b, 0x1cc92596)
    ensures Turns(0x8c87346b, 0x8e04ecb9, 0x85a07b5f, 0xe5030380, 0x1cc92596, 0x32ca2d8c, 0x0c657a79, 0x9b27a401,
                  0x243185be, 0x00000000, 0x4798a3f4, 0x436b23e8)
    ensures Turns(0x4798a3f4, 0x8c87346b, 0x8e04ecb9, 0x85a07b5f, 0x436b23e8, 0x1cc92596, 0x32ca2d8c, 0x0c657a79,
                  0x550c7dc3, 0x00000000, 0xf71fc5a9, 0x816fd6e9)
    ensures Turns(0xf71fc5a9, 0x4798a3f4, 0x8c87346b, 0x8e04ecb9, 0x816fd6e9, 0x436b23e8, 0x1cc92596, 0x32ca2d8c,
                  0x72be5d74, 0x00000000, 0x87912990, 0x1e578218)
    ensures Turns(0x87912990, 0xf71fc5a9, 0x4798a3f4, 0x8c87346b, 0x1e578218, 0x816fd6e9, 0x436b23e8, 0x1cc92596,
                  0x80deb1fe, 0x00000000, 0xd932eb16, 0x745a48de)
    ensures Turns(0xd932eb16, 0x87912990, 0xf71fc5a9, 0x4798a3f4, 0x745a48de, 0x1e578218, 0x816fd6e9, 0x436b23e8,
                  0x9bdc06a7, 0x00000000, 0xc0645fde, 0x0b92f20c)
    ensures Turns(0xc0645fde, 0xd932eb16, 0x87912990, 0xf71fc5a9, 0x0b92f20c, 0x745a48de, 0x1e578218, 0x816fd6e9,
                  0xc19bf174, 0x00000018, 0xb0fa238e, 0x07590dcd)
  {
  }

  lemma After16(block: seq<octet>)
    requires IsBlock(block)
    ensures After(block, 16)
         == Working(0xb0fa238e, 0xc0645fde, 0xd932eb16, 0x87912990, 0x07590dcd, 0x0b92f20c, 0x745a48de, 0x1e578218)
  {
    hide After, Round, K, W, IsBlock;
    After0(block);
    Words0(block);
    Constants0();
    Rounds0();
    AfterStep(block, 0); AfterStep(block, 1); AfterStep(block, 2); AfterStep(block, 3);
    AfterStep(block, 4); AfterStep(block, 5); AfterStep(block, 6); AfterStep(block, 7);
    AfterStep(block, 8); AfterStep(block, 9); AfterStep(block, 10); AfterStep(block, 11);
    AfterStep(block, 12); AfterStep(block, 13); AfterStep(block, 14); AfterStep(block, 15);
  }

  lemma Rounds16()
    ensures Turns(0xb0fa238e, 0xc0645fde, 0xd932eb16, 0x87912990, 0x07590dcd, 0x0b92f20c, 0x745a48de, 0x1e578218,
                  0xe49b69c1, 0x61626380, 0x21da9a9b, 0x8034229c)
    ensures Turns(0x21da9a9b, 0xb0fa238e, 0xc0645fde, 0xd932eb16, 0x8034229c, 0x07590dcd, 0x0b92f20c, 0x745a48de,
                  0xefbe4786, 0x000f0000, 0xc2fbd9d1, 0x846ee454)
    ensures Turns(0xc2fbd9d1, 0x21da9a9b, 0xb0fa238e, 0xc0645fde, 0x846ee454, 0x8034229c, 0x07590dcd, 0x0b92f20c,
                  0x0fc19dc6, 0x7da86405, 0xfe777bbf, 0xcc899961)
    ensures Turns(0xfe777bbf, 0xc2fbd9d1, 0x21da9a9b, 0xb0fa238e, 0xcc899961, 0x846ee454, 0x8034229c, 0x07590dcd,
                  0x240ca1cc, 0x600003c6, 0xe1f20c33, 0xb0638179)
    ensures Turns(0xe1f20c33, 0xfe777bbf, 0xc2fbd9d1, 0x21da9a9b, 0xb0638179, 0xcc899961, 0x846ee454, 0x8034229c,
                  0x2de92c6f, 0x3e9d7b78, 0x9dc68b63, 0x8ada8930)
    ensures Turns(0x9dc68b63, 0xe1f20c33, 0xfe777bbf, 0xc2fbd9d1, 0x8ada8930, 0xb0638179, 0xcc899961, 0x846ee454,
                  0x4a7484aa, 0x0183fc00, 0xc2606d6d, 0xe1257970)
    ensures Turns(0xc2606d6d, 0x9dc68b63, 0xe1f20c33, 0xfe777bbf, 0xe1257970, 0x8ada8930, 0xb0638179, 0xcc899961,
                  0x5cb0a9dc, 0x12dcbfdb, 0xa7a3623f, 0x49f5114a)
    ensures Turns(0xa7a3623f, 0xc2606d6d, 0x9dc68b63, 0xe1f20c33, 0x49f5114a, 0xe1257970, 0x8ada8930, 0xb0638179,
                  0x76f988da, 0xe2e2c38e, 0xc5d53d8d, 0xaa47c347)
    ensures Turns(0xc5d53d8d, 0xa7a3623f, 0xc2606d6d, 0x9dc68b63, 0xaa47c347, 0x49f5114a, 0xe1257970, 0x8ada8930,
                  0x983e5152, 0xc8215c1a, 0x1c2c2838, 0x2823ef91)
    ensures Turns(0x1c2c2838, 0xc5d53d8d, 0xa7a3623f, 0xc2606d6d, 0x2823ef91, 0xaa47c347, 0x49f5114a, 0xe1257970,
                  0xa831c66d, 0xb73679a2, 0xcde8037d, 0x14383d8e)
    ensures Turns(0xcde8037d, 0x1c2c2838, 0xc5d53d8d, 0xa7a3623f, 0x14383d8e, 0x2823ef91, 0xaa47c347, 0x49f5114a,
                  0xb00327c8, 0xe5bc3909, 0xb62ec4bc, 0xc74c6516)
    ensures Turns(0xb62ec4bc, 0xcde8037d, 0x1c2c2838, 0xc5d53d8d, 0xc74c6516, 0x14383d8e, 0x2823ef91, 0xaa47c347,
                  0xbf597fc7, 0x32663c5b, 0x77d37528, 0xedffbff8)
    ensures Turns(0x77d37528, 0xb62ec4bc, 0xcde8037d, 0x1c2c2838, 0xedffbff8, 0xc74c6516, 0x14383d8e, 0x2823ef91,
                  0xc6e00bf3, 0x9d209d67, 0x363482c9, 0x6112a3b7)
    ensures Turns(0x363482c9, 0x77d37528, 0xb62ec4bc, 0xcde8037d, 0x6112a3b7, 0xedffbff8, 0xc74c6516, 0x14383d8e,
                  0xd5a79147, 0xec8726cb, 0xa0060b30, 0xade79437)
    ensures Turns(0xa0060b30, 0x363482c9, 0x77d37528, 0xb62ec4bc, 0xade79437, 0x6112a3b7, 0xedffbff8, 0xc74c6516,
                  0x06ca6351, 0x702138a4, 0xea992a22, 0x0109ab3a)
    ensures Turns(0xea992a22, 0xa0060b30, 0x363482c9, 0x77d37528, 0x0109ab3a, 0xade79437, 0x6112a3b7, 0xedffbff8,
                  0x14292967, 0xd3b7973b, 0x73b33bf5, 0xba591112)
  {
  }

  lemma After32(block: seq<octet>)
    requires IsBlock(block)
    ensures After(block, 32)
         == Working(0x73b33bf5, 0xea992a22, 0xa0060b30, 0x363482c9, 0xba591112, 0x0109ab3a, 0xade79437, 0x6112a3b7)
  {
    hide After, Round, K, W, IsBlock;
    After16(block);
    Words16(block);
    Constants16();
    Rounds16();
    AfterStep(block, 16); AfterStep(block, 17); AfterStep(block, 18); AfterStep(block, 19);
    AfterStep(block, 20); AfterStep(block, 21); AfterStep(block, 22); AfterStep(block, 23);
    AfterStep(block, 24); AfterStep(block, 25); AfterStep(block, 26); AfterStep(block, 27);
    AfterStep(block, 28); AfterStep(block, 29); AfterStep(block, 30); AfterStep(block, 31);
  }

  lemma Rounds32()
    ensures Turns(0x73b33bf5, 0xea992a22, 0xa0060b30, 0x363482c9, 0xba591112, 0x0109ab3a, 0xade79437, 0x6112a3b7,
                  0x27b70a85, 0x93f5997f, 0x98e12507, 0x9cd9f5f6)
    ensures Turns(0x98e12507, 0x73b33bf5, 0xea992a22, 0xa0060b30, 0x9cd9f5f6, 0xba591112, 0x0109ab3a, 0xade79437,
                  0x2e1b2138, 0x3b68ba73, 0xfe604df5, 0x59249dd3)
    ensures Turns(0xfe604df5, 0x98e12507, 0x73b33bf5, 0xea992a22, 0x59249dd3, 0x9cd9f5f6, 0xba591112, 0x0109ab3a,
                  0x4d2c6dfc, 0xaff4ffc1, 0xa9a7738c, 0x085f3833)
    ensures Turns(0xa9a7738c, 0xfe604df5, 0x98e12507, 0x73b33bf5, 0x085f3833, 0x59249dd3, 0x9cd9f5f6, 0xba591112,
                  0x53380d13, 0xf10a5c62, 0x65a0cfe4, 0xf4b002d6)
    ensures Turns(0x65a0cfe4, 0xa9a7738c, 0xfe604df5, 0x98e12507, 0xf4b002d6, 0x085f3833, 0x59249dd3, 0x9cd9f5f6,
                  0x650a7354, 0x0a8b3996, 0x41a65cb1, 0x0772a26b)
    ensures Turns(0x41a65cb1, 0x65a0cfe4, 0xa9a7738c, 0xfe604df5, 0x0772a26b, 0xf4b002d6, 0x085f3833, 0x59249dd3,
                  0x766a0abb, 0x72af830a, 0x34df1604, 0xa507a53d)
    ensures Turns(0x34df1604, 0x41a65cb1, 0x65a0cfe4, 0xa9a7738c, 0xa507a53d, 0x0772a26b, 0xf4b002d6, 0x085f3833,
                  0x81c2c92e, 0x9409e33e, 0x6dc57a8a, 0xf0781bc8)
    ensures Turns(0x6dc57a8a, 0x34df1604, 0x41a65cb1, 0x65a0cfe4, 0xf0781bc8, 0xa507a53d, 0x0772a26b, 0xf4b002d6,
                  0x92722c85, 0x24641522, 0x79ea687a, 0x1efbc0a0)
    ensures Turns(0x79ea687a, 0x6dc57a8a, 0x34df1604, 0x41a65cb1, 0x1efbc0a0, 0xf0781bc8, 0xa507a53d, 0x0772a26b,
                  0xa2bfe8a1, 0x9f47bf94, 0xd6670766, 0x26352d63)
    ensures Turns(0xd6670766, 0x79ea687a, 0x6dc57a8a, 0x34df1604, 0x26352d63, 0x1efbc0a0, 0xf0781bc8, 0xa507a53d,
                  0xa81a664b, 0xf0a64f5a, 0xdf46652f, 0x838b2711)
    ensures Turns(0xdf46652f, 0xd6670766, 0x79ea687a, 0x6dc57a8a, 0x838b2711, 0x26352d63, 0x1efbc0a0, 0xf0781bc8,
                  0xc24b8b70, 0x3e246a79, 0x17aa0dfe, 0xdecd4715)
    ensures Turns(0x17aa0dfe, 0xdf46652f, 0xd6670766, 0x79ea687a, 0xdecd4715, 0x838b2711, 0x26352d63, 0x1efbc0a0,
                  0xc76c51a3, 0x27333ba3, 0x9d4baf93, 0xfda24c2e)
    ensures Turns(0x9d4baf93, 0x17aa0dfe, 0xdf46652f, 0xd6670766, 0xfda24c2e, 0xdecd4715, 0x838b2711, 0x26352d63,
                  0xd192e819, 0x0c4763f2, 0x26628815, 0xa80f11f0)
    ensures Turns(0x26628815, 0x9d4baf93, 0x17aa0dfe, 0xdf46652f, 0xa80f11f0, 0xfda24c2e, 0xdecd4715, 0x838b2711,
                  0xd6990624, 0x840abf27, 0x72ab4b91, 0xb7755da1)
    ensures Turns(0x72ab4b91, 0x26628815, 0x9d4baf93, 0x17aa0dfe, 0xb7755da1, 0xa80f11f0, 0xfda24c2e, 0xdecd4715,
                  0xf40e3585, 0x7a290d5d, 0xa14c14b0, 0xd57b94a9)
    ensures Turns(0xa14c14b0, 0x72ab4b91, 0x26628815, 0x9d4baf93, 0xd57b94a9, 0xb7755da1, 0xa80f11f0, 0xfda24c2e,
                  0x106aa070, 0x065c43da, 0x4172328d, 0xfecf0bc6)
  {
  }

  lemma After48(block: seq<octet>)
    requires IsBlock(block)
    ensures After(block, 48)
         == Working(0x4172328d, 0xa14c14b0, 0x72ab4b91, 0x26628815, 0xfecf0bc6, 0xd57b94a9, 0xb7755da1, 0xa80f11f0)
  {
    hide After, Round, K, W, IsBlock;
    After32(block);
    Words32(block);
    Constants32();
    Rounds32();
    AfterStep(block, 32); AfterStep(block, 33); AfterStep(block, 34); AfterStep(block, 35);
    AfterStep(block, 36); AfterStep(block, 37); AfterStep(block, 38); AfterStep(block, 39);
    AfterStep(block, 40); AfterStep(block, 41); AfterStep(block, 42); AfterStep(block, 43);
    AfterStep(block, 44); AfterStep(block, 45); AfterStep(block, 46); AfterStep(block, 47);
  }

  lemma Rounds48()
    ensures Turns(0x4172328d, 0xa14c14b0, 0x72ab4b91, 0x26628815, 0xfecf0bc6, 0xd57b94a9, 0xb7755da1, 0xa80f11f0,
                  0x19a4c116, 0xfb3e89cb, 0x05757ceb, 0xbd714038)
    ensures Turns(0x05757ceb, 0x4172328d, 0xa14c14b0, 0x72ab4b91, 0xbd714038, 0xfecf0bc6, 0xd57b94a9, 0xb7755da1,
                  0x1e376c08, 0xcc7617db, 0xf11bfaa8, 0x6e5c390c)
    ensures Turns(0xf11bfaa8, 0x05757ceb, 0x4172328d, 0xa14c14b0, 0x6e5c390c, 0xbd714038, 0xfecf0bc6, 0xd57b94a9,
                  0x2748774c, 0xb9e66c34, 0x7a0508a1, 0x52f1ccf7)
    ensures Turns(0x7a0508a1, 0xf11bfaa8, 0x05757ceb, 0x4172328d, 0x52f1ccf7, 0x6e5c390c, 0xbd714038, 0xfecf0bc6,
                  0x34b0bcb5, 0xa9993667, 0x886e7a22, 0x49231c1e)
    ensures Turns(0x886e7a22, 0x7a0508a1, 0xf11bfaa8, 0x05757ceb, 0x49231c1e, 0x52f1ccf7, 0x6e5c390c, 0xbd714038,
                  0x391c0cb3, 0x84badedd, 0x101fd28f, 0x529e7d00)
    ensures Turns(0x101fd28f, 0x886e7a22, 0x7a0508a1, 0xf11bfaa8, 0x529e7d00, 0x49231c1e, 0x52f1ccf7, 0x6e5c390c,
                  0x4ed8aa4a, 0xc21462bc, 0xf5702fdb, 0x9f4787c3)
    ensures Turns(0xf5702fdb, 0x101fd28f, 0x886e7a22, 0x7a0508a1, 0x9f4787c3, 0x529e7d00, 0x49231c1e, 0x52f1ccf7,
                  0x5b9cca4f, 0x1487472c, 0x3ec45cdb, 0xe50e1b4f)
    ensures Turns(0x3ec45cdb, 0xf5702fdb, 0x101fd28f, 0x886e7a22, 0xe50e1b4f, 0x9f4787c3, 0x529e7d00, 0x49231c1e,
                  0x682e6ff3, 0xb20f7a99, 0x38cc9913, 0x54cb266b)
    ensures Turns(0x38cc9913, 0x3ec45cdb, 0xf5702fdb, 0x101fd28f, 0x54cb266b, 0xe50e1b4f, 0x9f4787c3, 0x529e7d00,
                  0x748f82ee, 0xef57b9cd, 0xfcd1887b, 0x9b5e906c)
    ensures Turns(0xfcd1887b, 0x38cc9913, 0x3ec45cdb, 0xf5702fdb, 0x9b5e906c, 0x54cb266b, 0xe50e1b4f, 0x9f4787c3,
                  0x78a5636f, 0xebe6b238, 0xc062d46f, 0x7e44008e)
    ensures Turns(0xc062d46f, 0xfcd1887b, 0x38cc9913, 0x3ec45cdb, 0x7e44008e, 0x9b5e906c, 0x54cb266b, 0xe50e1b4f,
                  0x84c87814, 0x9fe3095e, 0xffb70472, 0x6d83bfc6)
    ensures Turns(0xffb70472, 0xc062d46f, 0xfcd1887b, 0x38cc9913, 0x6d83bfc6, 0x7e44008e, 0x9b5e906c, 0x54cb266b,
                  0x8cc70208, 0x78bc8d4b, 0xb6ae8fff, 0xb21bad3d)
    ensures Turns(0xb6ae8fff, 0xffb70472, 0xc062d46f, 0xfcd1887b, 0xb21bad3d, 0x6d83bfc6, 0x7e44008e, 0x9b5e906c,
                  0x90befffa, 0xa43fcf15, 0xb85e2ce9, 0x961f4894)
    ensures Turns(0xb85e2ce9, 0xb6ae8fff, 0xffb70472, 0xc062d46f, 0x961f4894, 0xb21bad3d, 0x6d83bfc6, 0x7e44008e,
                  0xa4506ceb, 0x668b2ff8, 0x04d24d6c, 0x948d25b6)
    ensures Turns(0x04d24d6c, 0xb85e2ce9, 0xb6ae8fff, 0xffb70472, 0x948d25b6, 0x961f4894, 0xb21bad3d, 0x6d83bfc6,
                  0xbef9a3f7, 0xeeaba2cc, 0xd39a2165, 0xfb121210)
    ensures Turns(0xd39a2165, 0x04d24d6c, 0xb85e2ce9, 0xb6ae8fff, 0xfb121210, 0x948d25b6, 0x961f4894, 0xb21bad3d,
                  0xc67178f2, 0x12b1edeb, 0x506e3058, 0x5ef50f24)
  {
  }

  lemma After64(block: seq<octet>)
    requires IsBlock(block)
    ensures After(block, 64)
         == Working(0x506e3058, 0xd39a2165, 0x04d24d6c, 0xb85e2ce9, 0x5ef50f24, 0xfb121210, 0x948d25b6, 0x961f4894)
  {
    hide After, Round, K, W, IsBlock;
    After48(block);
    Words48(block);
    Constants48();
    Rounds48();
    AfterStep(block, 48); AfterStep(block, 49); AfterStep(block, 50); AfterStep(block, 51);
    AfterStep(block, 52); AfterStep(block, 53); AfterStep(block, 54); AfterStep(block, 55);
    AfterStep(block, 56); AfterStep(block, 57); AfterStep(block, 58); AfterStep(block, 59);
    AfterStep(block, 60); AfterStep(block, 61); AfterStep(block, 62); AfterStep(block, 63);
  }

  // ---- The digest

  const DIGEST: seq<octet> :=
    [0xba, 0x78, 0x16, 0xbf, 0x8f, 0x01, 0xcf, 0xea] +
    [0x41, 0x41, 0x40, 0xde, 0x5d, 0xae, 0x22, 0x23] +
    [0xb0, 0x03, 0x61, 0xa3, 0x96, 0x17, 0x7a, 0x9c] +
    [0xb4, 0x10, 0xff, 0x61, 0xf2, 0x00, 0x15, 0xad]

  lemma AbcPadded()
    ensures IsBlock(Padded(ABC))
  {
    assert ZeroCount(3) == 52;
    LengthOctets();
    assert Zeros(52) + Zeros(7) == Zeros(59);
  }

  lemma LengthOctets()
    ensures Wide(24, 8) == Zeros(7) + [24]
  {
    NoOctets(7);
    assert Octet(24) == 24;
  }

  lemma {:induction false} NoOctets(k: nat)
    ensures Wide(0, k) == Zeros(k)
  {
    if k > 0 {
      NoOctets(k - 1);
      assert Octet(0) == 0;
    }
  }

  lemma AbcState(block: seq<octet>)
    requires IsBlock(block)
    ensures Sum(H0, After(block, 64))
         == [0xba7816bf, 0x8f01cfea, 0x414140de, 0x5dae2223, 0xb00361a3, 0x96177a9c, 0xb410ff61, 0xf20015ad]
  {
    hide After, IsBlock, Add;
    After64(block);
    AbcSums();
  }

  lemma AbcSums()
    ensures Add(0x6a09e667, 0x506e3058) == 0xba7816bf && Add(0xbb67ae85, 0xd39a2165) == 0x8f01cfea
    ensures Add(0x3c6ef372, 0x04d24d6c) == 0x414140de && Add(0xa54ff53a, 0xb85e2ce9) == 0x5dae2223
    ensures Add(0x510e527f, 0x5ef50f24) == 0xb00361a3 && Add(0x9b05688c, 0xfb121210) == 0x96177a9c
    ensures Add(0x1f83d9ab, 0x948d25b6) == 0xb410ff61 && Add(0x5be0cd19, 0x961f4894) == 0xf20015ad
  {
  }

  lemma AbcWords()
    ensures 0xba7816bf == WordFrom(0xba, 0x78, 0x16, 0xbf) && 0x8f01cfea == WordFrom(0x8f, 0x01, 0xcf, 0xea)
    ensures 0x414140de == WordFrom(0x41, 0x41, 0x40, 0xde) && 0x5dae2223 == WordFrom(0x5d, 0xae, 0x22, 0x23)
    ensures 0xb00361a3 == WordFrom(0xb0, 0x03, 0x61, 0xa3) && 0x96177a9c == WordFrom(0x96, 0x17, 0x7a, 0x9c)
    ensures 0xb410ff61 == WordFrom(0xb4, 0x10, 0xff, 0x61) && 0xf20015ad == WordFrom(0xf2, 0x00, 0x15, 0xad)
  {
  }

  /** The digest of the message "abc". */
  lemma AbcDigest()
    ensures Digest(ABC) == DIGEST
  {
    hide After, IsBlock, WordFrom, Joined, Chain;
    AbcPadded();
    var block := Padded(ABC);
    AbcChain(block);
    OneBlockDigest(ABC);
    hide Padded, Digest, Sum, DIGEST;
    AbcState(block);
    AbcWords();
    AbcOctets();
  }

  lemma OneBlockDigest(m: seq<octet>)
    requires |Padded(m)| == 64
    ensures Digest(m) == Joined(Chain(Padded(m), 1))
  {
  }

  lemma AbcOctets()
    ensures Joined([0xba7816bf, 0x8f01cfea, 0x414140de, 0x5dae2223,
                    0xb00361a3, 0x96177a9c, 0xb410ff61, 0xf20015ad]) == DIGEST
  {
    hide Joined, WordFrom;
    AbcWords();
    var ws: seq<word> := [0xba7816bf, 0x8f01cfea, 0x414140de, 0x5dae2223,
                          0xb00361a3, 0x96177a9c, 0xb410ff61, 0xf20015ad];
    JoinedFrom(ws, DIGEST);
  }

  lemma AbcChain(block: seq<octet>)
    requires IsBlock(block)
    ensures |block| == 64 && Chain(block, 1) == Sum(H0, After(block, 64))
  {
    hide Rounds, Sum;
    assert block[0..64] == block;
    assert Initial() == H0;
  }
}
