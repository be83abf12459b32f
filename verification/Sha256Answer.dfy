/** What pins the tables and the operations of SHA-256 down from outside. The constants are the fractional
    bits of roots of the first primes (sections 4.2.2 and 5.3.3 of FIPS 180-4), and the message "abc" has the
    digest of the standard's example, found here word by word and round by round. */
module Sha256Answer {
  import opened Sha256

  // ----- the constants are roots of primes -----

  /** k is the first 32 bits behind the point of the cube root of p, and c what stands before it. */
  predicate CubeRoot(p: nat, c: nat, k: bv32) {
    var r := c * 0x1_0000_0000 + k as int;
    r * r * r <= p * 0x1_0000_0000_0000_0000_0000_0000 < (r + 1) * (r + 1) * (r + 1)
  }

  predicate SquareRoot(p: nat, c: nat, k: bv32) {
    var r := c * 0x1_0000_0000 + k as int;
    r * r <= p * 0x1_0000_0000_0000_0000 < (r + 1) * (r + 1)
  }

  /** The initial hash value is the square roots of the first eight primes. */
  lemma InitialHashIsRoots()
    ensures var h := InitialHash();
            && SquareRoot(2, 1, h.a) && SquareRoot(3, 1, h.b) && SquareRoot(5, 2, h.c) && SquareRoot(7, 2, h.d)
            && SquareRoot(11, 3, h.e) && SquareRoot(13, 3, h.f) && SquareRoot(17, 4, h.g) && SquareRoot(19, 4, h.h)
  {
  }

  /** The first 64 primes, by rows of eight. */
  function PrimeRow(r: nat): (k: seq<nat>)
    requires r < 8
    ensures |k| == 8
  {
    if r == 0 then [2, 3, 5, 7, 11, 13, 17, 19]
    else if r == 1 then [23, 29, 31, 37, 41, 43, 47, 53]
    else if r == 2 then [59, 61, 67, 71, 73, 79, 83, 89]
    else if r == 3 then [97, 101, 103, 107, 109, 113, 127, 131]
    else if r == 4 then [137, 139, 149, 151, 157, 163, 167, 173]
    else if r == 5 then [179, 181, 191, 193, 197, 199, 211, 223]
    else if r == 6 then [227, 229, 233, 239, 241, 251, 257, 263]
    else [269, 271, 277, 281, 283, 293, 307, 311]
  }

  /** The integer parts of their cube roots. */
  function WholeRow(r: nat): (k: seq<nat>)
    requires r < 8
    ensures |k| == 8
  {
    if r == 0 then [1, 1, 1, 1, 2, 2, 2, 2]
    else if r == 1 then [2, 3, 3, 3, 3, 3, 3, 3]
    else if r == 2 then [3, 3, 4, 4, 4, 4, 4, 4]
    else if r == 3 then [4, 4, 4, 4, 4, 4, 5, 5]
    else if r == 4 then [5, 5, 5, 5, 5, 5, 5, 5]
    else if r == 5 then [5, 5, 5, 5, 5, 5, 5, 6]
    else if r == 6 then [6, 6, 6, 6, 6, 6, 6, 6]
    else [6, 6, 6, 6, 6, 6, 6, 6]
  }

  lemma Roots0()
    ensures forall i :: 0 <= i < 8 ==> CubeRoot(PrimeRow(0)[i], WholeRow(0)[i], ConstantRow(0)[i])
  {
  }

  lemma Roots1()
    ensures forall i :: 0 <= i < 8 ==> CubeRoot(PrimeRow(1)[i], WholeRow(1)[i], ConstantRow(1)[i])
  {
  }

  lemma Roots2()
    ensures forall i :: 0 <= i < 8 ==> CubeRoot(PrimeRow(2)[i], WholeRow(2)[i], ConstantRow(2)[i])
  {
  }

  lemma Roots3()
    ensures forall i :: 0 <= i < 8 ==> CubeRoot(PrimeRow(3)[i], WholeRow(3)[i], ConstantRow(3)[i])
  {
  }

  lemma Roots4()
    ensures forall i :: 0 <= i < 8 ==> CubeRoot(PrimeRow(4)[i], WholeRow(4)[i], ConstantRow(4)[i])
  {
  }

  lemma Roots5()
    ensures forall i :: 0 <= i < 8 ==> CubeRoot(PrimeRow(5)[i], WholeRow(5)[i], ConstantRow(5)[i])
  {
  }

  lemma Roots6()
    ensures forall i :: 0 <= i < 8 ==> CubeRoot(PrimeRow(6)[i], WholeRow(6)[i], ConstantRow(6)[i])
  {
  }

  lemma Roots7()
    ensures forall i :: 0 <= i < 8 ==> CubeRoot(PrimeRow(7)[i], WholeRow(7)[i], ConstantRow(7)[i])
  {
  }

  /** The constants are the cube roots of the first 64 primes, in their order. */
  lemma ConstantsAreRoots(t: nat)
    requires t < 64
    ensures CubeRoot(PrimeRow(t / 8)[t % 8], WholeRow(t / 8)[t % 8], Constants()[t])
  {
    hide CubeRoot, ConstantRow, Constants, PrimeRow, WholeRow;
    ConstantAt(t / 8, t % 8);
    if t / 8 == 0 { Roots0(); }
    if t / 8 == 1 { Roots1(); }
    if t / 8 == 2 { Roots2(); }
    if t / 8 == 3 { Roots3(); }
    if t / 8 == 4 { Roots4(); }
    if t / 8 == 5 { Roots5(); }
    if t / 8 == 6 { Roots6(); }
    if t / 8 == 7 { Roots7(); }
  }

  // ----- the digest of "abc" -----

  /** The one block of the padded message. */
  function Abc(): (block: Octets)
    ensures |block| == 64
  {
    [0x61, 0x62, 0x63, 0x80] + Zeros(59) + [0x18]
  }

  lemma AbcPadded()
    ensures Pad([0x61, 0x62, 0x63]) == Abc()
  {
    hide Octet;
    assert BitCount(3) == 24;
    BigEndian24();
  }

  lemma BigEndian24()
    ensures AsOctets(BigEndian(24, 8)) == Zeros(7) + [0x18]
  {
  }

  /** The block's schedule from t on begins with these words. */
  ghost predicate Has(t: nat, ws: seq<bv32>) {
    t + |ws| <= 64 && forall i :: 0 <= i < |ws| ==> Schedule(Abc(), t + i) == ws[i]
  }

  function Mixed(w2: bv32, w7: bv32, w15: bv32, w16: bv32): bv32 {
    Add4(LowSigma1(w2), w7, LowSigma0(w15), w16)
  }

  lemma NextWord(t: nat)
    requires 16 <= t < 64
    ensures Schedule(Abc(), t)
            == Mixed(Schedule(Abc(), t - 2), Schedule(Abc(), t - 7), Schedule(Abc(), t - 15), Schedule(Abc(), t - 16))
  {
    hide LowSigma0, LowSigma1, Add4;
  }

  lemma Eight(t: nat, ws: seq<bv32>)
    requires Has(t, ws) && |ws| == 8
    ensures t + 8 <= 64
    ensures Schedule(Abc(), t) == ws[0] && Schedule(Abc(), t + 1) == ws[1] && Schedule(Abc(), t + 2) == ws[2]
    ensures Schedule(Abc(), t + 3) == ws[3] && Schedule(Abc(), t + 4) == ws[4] && Schedule(Abc(), t + 5) == ws[5]
    ensures Schedule(Abc(), t + 6) == ws[6] && Schedule(Abc(), t + 7) == ws[7]
  {
    hide Schedule;
    assert Schedule(Abc(), t + 0) == ws[0];
  }

  lemma EightAre(t: nat, ws: seq<bv32>)
    requires t + 8 <= 64 && |ws| == 8
    requires Schedule(Abc(), t) == ws[0] && Schedule(Abc(), t + 1) == ws[1] && Schedule(Abc(), t + 2) == ws[2]
    requires Schedule(Abc(), t + 3) == ws[3] && Schedule(Abc(), t + 4) == ws[4] && Schedule(Abc(), t + 5) == ws[5]
    requires Schedule(Abc(), t + 6) == ws[6] && Schedule(Abc(), t + 7) == ws[7]
    ensures Has(t, ws)
  {
    hide Schedule;
  }

  lemma EightWords(t: nat, a: seq<bv32>, b: seq<bv32>, c: seq<bv32>)
    requires 16 <= t && t + 8 <= 64 && |a| == 8 && |b| == 8 && |c| == 8 && Has(t - 16, a) && Has(t - 8, b)
    requires c[0] == Mixed(b[6], b[1], a[1], a[0]) && c[1] == Mixed(b[7], b[2], a[2], a[1])
    requires c[2] == Mixed(c[0], b[3], a[3], a[2]) && c[3] == Mixed(c[1], b[4], a[4], a[3])
    requires c[4] == Mixed(c[2], b[5], a[5], a[4]) && c[5] == Mixed(c[3], b[6], a[6], a[5])
    requires c[6] == Mixed(c[4], b[7], a[7], a[6]) && c[7] == Mixed(c[5], c[0], b[0], a[7])
    ensures Has(t, c)
  {
    hide Mixed, Schedule, Has;
    Eight(t - 16, a);
    Eight(t - 8, b);
    NextWord(t + 0);
    NextWord(t + 1);
    NextWord(t + 2);
    NextWord(t + 3);
    NextWord(t + 4);
    NextWord(t + 5);
    NextWord(t + 6);
    NextWord(t + 7);
    EightAre(t, c);
  }

  /** Its first two rows are the block's bytes, and each row follows from the two before it. */
  function WordRow(r: nat): (w: seq<bv32>)
    requires r < 8
    ensures |w| == 8
  {
    if r == 0 then [0x61626380, 0x00000000, 0x00000000, 0x00000000, 0x00000000, 0x00000000, 0x00000000, 0x00000000]
    else if r == 1 then [0x00000000, 0x00000000, 0x00000000, 0x00000000, 0x00000000, 0x00000000, 0x00000000, 0x00000018]
    else if r == 2 then [0x61626380, 0x000f0000, 0x7da86405, 0x600003c6, 0x3e9d7b78, 0x0183fc00, 0x12dcbfdb, 0xe2e2c38e]
    else if r == 3 then [0xc8215c1a, 0xb73679a2, 0xe5bc3909, 0x32663c5b, 0x9d209d67, 0xec8726cb, 0x702138a4, 0xd3b7973b]
    else if r == 4 then [0x93f5997f, 0x3b68ba73, 0xaff4ffc1, 0xf10a5c62, 0x0a8b3996, 0x72af830a, 0x9409e33e, 0x24641522]
    else if r == 5 then [0x9f47bf94, 0xf0a64f5a, 0x3e246a79, 0x27333ba3, 0x0c4763f2, 0x840abf27, 0x7a290d5d, 0x065c43da]
    else if r == 6 then [0xfb3e89cb, 0xcc7617db, 0xb9e66c34, 0xa9993667, 0x84badedd, 0xc21462bc, 0x1487472c, 0xb20f7a99]
    else [0xef57b9cd, 0xebe6b238, 0x9fe3095e, 0x78bc8d4b, 0xa43fcf15, 0x668b2ff8, 0xeeaba2cc, 0x12b1edeb]
  }

  lemma FirstWords()
    ensures Has(0, WordRow(0)) && Has(8, WordRow(1))
  {
    forall i | 0 <= i < 16
      ensures Schedule(Abc(), i) == if i == 0 then 0x61626380 else if i == 15 then 0x18 else 0
    {
      assert 0 < i < 15 ==>
        Abc()[4 * i] == 0 && Abc()[4 * i + 1] == 0 && Abc()[4 * i + 2] == 0 && Abc()[4 * i + 3] == 0;
      ZeroWord();
    }
  }

  lemma ZeroWord()
    ensures WordOf(0, 0, 0, 0) == 0 && WordOf(0, 0, 0, 0x18) == 0x18 && WordOf(0x61, 0x62, 0x63, 0x80) == 0x61626380
  {
  }

  lemma Words2()
    ensures Has(16, WordRow(2))
  {
    hide Schedule, Has;
    FirstWords();
    EightWords(16, WordRow(0), WordRow(1), WordRow(2));
  }

  lemma Words3()
    ensures Has(24, WordRow(3))
  {
    hide Schedule, Has;
    FirstWords();
    Words2();
    EightWords(24, WordRow(1), WordRow(2), WordRow(3));
  }

  lemma Words4()
    ensures Has(32, WordRow(4))
  {
    hide Schedule, Has;
    Words2();
    Words3();
    EightWords(32, WordRow(2), WordRow(3), WordRow(4));
  }

  lemma Words5()
    ensures Has(40, WordRow(5))
  {
    hide Schedule, Has;
    Words3();
    Words4();
    EightWords(40, WordRow(3), WordRow(4), WordRow(5));
  }

  lemma Words6()
    ensures Has(48, WordRow(6))
  {
    hide Schedule, Has;
    Words4();
    Words5();
    EightWords(48, WordRow(4), WordRow(5), WordRow(6));
  }

  lemma Words7()
    ensures Has(56, WordRow(7))
  {
    hide Schedule, Has;
    Words5();
    Words6();
    EightWords(56, WordRow(5), WordRow(6), WordRow(7));
  }

  /** One round, given the two words that are new in it. */
  function Next(v: Words, k: bv32, w: bv32, a: bv32, e: bv32): (n: Words)
    requires Round(v, k, w).a == a && Round(v, k, w).e == e
    ensures n == Round(v, k, w)
  {
    Words(a, v.a, v.b, v.c, e, v.e, v.f, v.g)
  }

  lemma OneRound(t: nat, v: Words, k: bv32, w: bv32, n: Words)
    requires t < 64 && Rounds(InitialHash(), Abc(), t) == v && Constants()[t] == k && Schedule(Abc(), t) == w
    requires Round(v, k, w) == n
    ensures Rounds(InitialHash(), Abc(), t + 1) == n
  {
    hide Round, Rounds, Schedule, Constants;
    RoundsStep(InitialHash(), Abc(), t);
  }

  /** Constants and words of eight rounds. */
  lemma RowGiven(r: nat)
    requires r < 8 && Has(8 * r, WordRow(r))
    ensures forall i :: 0 <= i < 8 ==> Constants()[8 * r + i] == ConstantRow(r)[i]
    ensures forall i :: 0 <= i < 8 ==> Schedule(Abc(), 8 * r + i) == WordRow(r)[i]
  {
    hide Constants, ConstantRow, WordRow, Schedule;
    forall i | 0 <= i < 8
      ensures Constants()[8 * r + i] == ConstantRow(r)[i]
    {
      ConstantAt(r, i);
    }
  }

  lemma Rounds0()
    ensures Rounds(InitialHash(), Abc(), 0)
            == Words(0x6a09e667, 0xbb67ae85, 0x3c6ef372, 0xa54ff53a, 0x510e527f, 0x9b05688c, 0x1f83d9ab, 0x5be0cd19)
  {
  }

  lemma Rounds8()
    ensures Rounds(InitialHash(), Abc(), 8)
            == Words(0x85a07b5f, 0xe5030380, 0x2b4209f5, 0x04409a6a, 0x0c657a79, 0x9b27a401, 0x714260ad, 0x43ada245)
  {
    hide Rounds, Schedule, Has, Constants, Abc, InitialHash;
    Rounds0();
    FirstWords();
    RowGiven(0);
    var v0 := Words(0x6a09e667, 0xbb67ae85, 0x3c6ef372, 0xa54ff53a, 0x510e527f, 0x9b05688c, 0x1f83d9ab, 0x5be0cd19);
    var v1 := Next(v0, 0x428a2f98, 0x61626380, 0x5d6aebcd, 0xfa2a4622);
    var v2 := Next(v1, 0x71374491, 0x00000000, 0x5a6ad9ad, 0x78ce7989);
    var v3 := Next(v2, 0xb5c0fbcf, 0x00000000, 0xc8c347a7, 0xf92939eb);
    var v4 := Next(v3, 0xe9b5dba5, 0x00000000, 0xd550f666, 0x24e00850);
    var v5 := Next(v4, 0x3956c25b, 0x00000000, 0x04409a6a, 0x43ada245);
    var v6 := Next(v5, 0x59f111f1, 0x00000000, 0x2b4209f5, 0x714260ad);
    var v7 := Next(v6, 0x923f82a4, 0x00000000, 0xe5030380, 0x9b27a401);
    var v8 := Next(v7, 0xab1c5ed5, 0x00000000, 0x85a07b5f, 0x0c657a79);
    OneRound(0, v0, ConstantRow(0)[0], WordRow(0)[0], v1);
    OneRound(1, v1, ConstantRow(0)[1], WordRow(0)[1], v2);
    OneRound(2, v2, ConstantRow(0)[2], WordRow(0)[2], v3);
    OneRound(3, v3, ConstantRow(0)[3], WordRow(0)[3], v4);
    OneRound(4, v4, ConstantRow(0)[4], WordRow(0)[4], v5);
    OneRound(5, v5, ConstantRow(0)[5], WordRow(0)[5], v6);
    OneRound(6, v6, ConstantRow(0)[6], WordRow(0)[6], v7);
    OneRound(7, v7, ConstantRow(0)[7], WordRow(0)[7], v8);
  }

  lemma Rounds16()
    ensures Rounds(InitialHash(), Abc(), 16)
            == Words(0xb0fa238e, 0xc0645fde, 0xd932eb16, 0x87912990, 0x07590dcd, 0x0b92f20c, 0x745a48de, 0x1e578218)
  {
    hide Rounds, Schedule, Has, Constants, Abc, InitialHash;
    Rounds8();
    FirstWords();
    RowGiven(1);
    var v0 := Words(0x85a07b5f, 0xe5030380, 0x2b4209f5, 0x04409a6a, 0x0c657a79, 0x9b27a401, 0x714260ad, 0x43ada245);
    var v1 := Next(v0, 0xd807aa98, 0x00000000, 0x8e04ecb9, 0x32ca2d8c);
    var v2 := Next(v1, 0x12835b01, 0x00000000, 0x8c87346b, 0x1cc92596);
    var v3 := Next(v2, 0x243185be, 0x00000000, 0x4798a3f4, 0x436b23e8);
    var v4 := Next(v3, 0x550c7dc3, 0x00000000, 0xf71fc5a9, 0x816fd6e9);
    var v5 := Next(v4, 0x72be5d74, 0x00000000, 0x87912990, 0x1e578218);
    var v6 := Next(v5, 0x80deb1fe, 0x00000000, 0xd932eb16, 0x745a48de);
    var v7 := Next(v6, 0x9bdc06a7, 0x00000000, 0xc0645fde, 0x0b92f20c);
    var v8 := Next(v7, 0xc19bf174, 0x00000018, 0xb0fa238e, 0x07590dcd);
    OneRound(8, v0, ConstantRow(1)[0], WordRow(1)[0], v1);
    OneRound(9, v1, ConstantRow(1)[1], WordRow(1)[1], v2);
    OneRound(10, v2, ConstantRow(1)[2], WordRow(1)[2], v3);
    OneRound(11, v3, ConstantRow(1)[3], WordRow(1)[3], v4);
    OneRound(12, v4, ConstantRow(1)[4], WordRow(1)[4], v5);
    OneRound(13, v5, ConstantRow(1)[5], WordRow(1)[5], v6);
    OneRound(14, v6, ConstantRow(1)[6], WordRow(1)[6], v7);
    OneRound(15, v7, ConstantRow(1)[7], WordRow(1)[7], v8);
  }

  lemma Rounds24()
    ensures Rounds(InitialHash(), Abc(), 24)
            == Words(0xc5d53d8d, 0xa7a3623f, 0xc2606d6d, 0x9dc68b63, 0xaa47c347, 0x49f5114a, 0xe1257970, 0x8ada8930)
  {
    hide Rounds, Schedule, Has, Constants, Abc, InitialHash;
    Rounds16();
    Words2();
    RowGiven(2);
    var v0 := Words(0xb0fa238e, 0xc0645fde, 0xd932eb16, 0x87912990, 0x07590dcd, 0x0b92f20c, 0x745a48de, 0x1e578218);
    var v1 := Next(v0, 0xe49b69c1, 0x61626380, 0x21da9a9b, 0x8034229c);
    var v2 := Next(v1, 0xefbe4786, 0x000f0000, 0xc2fbd9d1, 0x846ee454);
    var v3 := Next(v2, 0x0fc19dc6, 0x7da86405, 0xfe777bbf, 0xcc899961);
    var v4 := Next(v3, 0x240ca1cc, 0x600003c6, 0xe1f20c33, 0xb0638179);
    var v5 := Next(v4, 0x2de92c6f, 0x3e9d7b78, 0x9dc68b63, 0x8ada8930);
    var v6 := Next(v5, 0x4a7484aa, 0x0183fc00, 0xc2606d6d, 0xe1257970);
    var v7 := Next(v6, 0x5cb0a9dc, 0x12dcbfdb, 0xa7a3623f, 0x49f5114a);
    var v8 := Next(v7, 0x76f988da, 0xe2e2c38e, 0xc5d53d8d, 0xaa47c347);
    OneRound(16, v0, ConstantRow(2)[0], WordRow(2)[0], v1);
    OneRound(17, v1, ConstantRow(2)[1], WordRow(2)[1], v2);
    OneRound(18, v2, ConstantRow(2)[2], WordRow(2)[2], v3);
    OneRound(19, v3, ConstantRow(2)[3], WordRow(2)[3], v4);
    OneRound(20, v4, ConstantRow(2)[4], WordRow(2)[4], v5);
    OneRound(21, v5, ConstantRow(2)[5], WordRow(2)[5], v6);
    OneRound(22, v6, ConstantRow(2)[6], WordRow(2)[6], v7);
    OneRound(23, v7, ConstantRow(2)[7], WordRow(2)[7], v8);
  }

  lemma Rounds32()
    ensures Rounds(InitialHash(), Abc(), 32)
            == Words(0x73b33bf5, 0xea992a22, 0xa0060b30, 0x363482c9, 0xba591112, 0x0109ab3a, 0xade79437, 0x6112a3b7)
  {
    hide Rounds, Schedule, Has, Constants, Abc, InitialHash;
    Rounds24();
    Words3();
    RowGiven(3);
    var v0 := Words(0xc5d53d8d, 0xa7a3623f, 0xc2606d6d, 0x9dc68b63, 0xaa47c347, 0x49f5114a, 0xe1257970, 0x8ada8930);
    var v1 := Next(v0, 0x983e5152, 0xc8215c1a, 0x1c2c2838, 0x2823ef91);
    var v2 := Next(v1, 0xa831c66d, 0xb73679a2, 0xcde8037d, 0x14383d8e);
    var v3 := Next(v2, 0xb00327c8, 0xe5bc3909, 0xb62ec4bc, 0xc74c6516);
    var v4 := Next(v3, 0xbf597fc7, 0x32663c5b, 0x77d37528, 0xedffbff8);
    var v5 := Next(v4, 0xc6e00bf3, 0x9d209d67, 0x363482c9, 0x6112a3b7);
    var v6 := Next(v5, 0xd5a79147, 0xec8726cb, 0xa0060b30, 0xade79437);
    var v7 := Next(v6, 0x06ca6351, 0x702138a4, 0xea992a22, 0x0109ab3a);
    var v8 := Next(v7, 0x14292967, 0xd3b7973b, 0x73b33bf5, 0xba591112);
    OneRound(24, v0, ConstantRow(3)[0], WordRow(3)[0], v1);
    OneRound(25, v1, ConstantRow(3)[1], WordRow(3)[1], v2);
    OneRound(26, v2, ConstantRow(3)[2], WordRow(3)[2], v3);
    OneRound(27, v3, ConstantRow(3)[3], WordRow(3)[3], v4);
    OneRound(28, v4, ConstantRow(3)[4], WordRow(3)[4], v5);
    OneRound(29, v5, ConstantRow(3)[5], WordRow(3)[5], v6);
    OneRound(30, v6, ConstantRow(3)[6], WordRow(3)[6], v7);
    OneRound(31, v7, ConstantRow(3)[7], WordRow(3)[7], v8);
  }

  lemma Rounds40()
    ensures Rounds(InitialHash(), Abc(), 40)
            == Words(0x79ea687a, 0x6dc57a8a, 0x34df1604, 0x41a65cb1, 0x1efbc0a0, 0xf0781bc8, 0xa507a53d, 0x0772a26b)
  {
    hide Rounds, Schedule, Has, Constants, Abc, InitialHash;
    Rounds32();
    Words4();
    RowGiven(4);
    var v0 := Words(0x73b33bf5, 0xea992a22, 0xa0060b30, 0x363482c9, 0xba591112, 0x0109ab3a, 0xade79437, 0x6112a3b7);
    var v1 := Next(v0, 0x27b70a85, 0x93f5997f, 0x98e12507, 0x9cd9f5f6);
    var v2 := Next(v1, 0x2e1b2138, 0x3b68ba73, 0xfe604df5, 0x59249dd3);
    var v3 := Next(v2, 0x4d2c6dfc, 0xaff4ffc1, 0xa9a7738c, 0x085f3833);
    var v4 := Next(v3, 0x53380d13, 0xf10a5c62, 0x65a0cfe4, 0xf4b002d6);
    var v5 := Next(v4, 0x650a7354, 0x0a8b3996, 0x41a65cb1, 0x0772a26b);
    var v6 := Next(v5, 0x766a0abb, 0x72af830a, 0x34df1604, 0xa507a53d);
    var v7 := Next(v6, 0x81c2c92e, 0x9409e33e, 0x6dc57a8a, 0xf0781bc8);
    var v8 := Next(v7, 0x92722c85, 0x24641522, 0x79ea687a, 0x1efbc0a0);
    OneRound(32, v0, ConstantRow(4)[0], WordRow(4)[0], v1);
    OneRound(33, v1, ConstantRow(4)[1], WordRow(4)[1], v2);
    OneRound(34, v2, ConstantRow(4)[2], WordRow(4)[2], v3);
    OneRound(35, v3, ConstantRow(4)[3], WordRow(4)[3], v4);
    OneRound(36, v4, ConstantRow(4)[4], WordRow(4)[4], v5);
    OneRound(37, v5, ConstantRow(4)[5], WordRow(4)[5], v6);
    OneRound(38, v6, ConstantRow(4)[6], WordRow(4)[6], v7);
    OneRound(39, v7, ConstantRow(4)[7], WordRow(4)[7], v8);
  }

  lemma Rounds48()
    ensures Rounds(InitialHash(), Abc(), 48)
            == Words(0x4172328d, 0xa14c14b0, 0x72ab4b91, 0x26628815, 0xfecf0bc6, 0xd57b94a9, 0xb7755da1, 0xa80f11f0)
  {
    hide Rounds, Schedule, Has, Constants, Abc, InitialHash;
    Rounds40();
    Words5();
    RowGiven(5);
    var v0 := Words(0x79ea687a, 0x6dc57a8a, 0x34df1604, 0x41a65cb1, 0x1efbc0a0, 0xf0781bc8, 0xa507a53d, 0x0772a26b);
    var v1 := Next(v0, 0xa2bfe8a1, 0x9f47bf94, 0xd6670766, 0x26352d63);
    var v2 := Next(v1, 0xa81a664b, 0xf0a64f5a, 0xdf46652f, 0x838b2711);
    var v3 := Next(v2, 0xc24b8b70, 0x3e246a79, 0x17aa0dfe, 0xdecd4715);
    var v4 := Next(v3, 0xc76c51a3, 0x27333ba3, 0x9d4baf93, 0xfda24c2e);
    var v5 := Next(v4, 0xd192e819, 0x0c4763f2, 0x26628815, 0xa80f11f0);
    var v6 := Next(v5, 0xd6990624, 0x840abf27, 0x72ab4b91, 0xb7755da1);
    var v7 := Next(v6, 0xf40e3585, 0x7a290d5d, 0xa14c14b0, 0xd57b94a9);
    var v8 := Next(v7, 0x106aa070, 0x065c43da, 0x4172328d, 0xfecf0bc6);
    OneRound(40, v0, ConstantRow(5)[0], WordRow(5)[0], v1);
    OneRound(41, v1, ConstantRow(5)[1], WordRow(5)[1], v2);
    OneRound(42, v2, ConstantRow(5)[2], WordRow(5)[2], v3);
    OneRound(43, v3, ConstantRow(5)[3], WordRow(5)[3], v4);
    OneRound(44, v4, ConstantRow(5)[4], WordRow(5)[4], v5);
    OneRound(45, v5, ConstantRow(5)[5], WordRow(5)[5], v6);
    OneRound(46, v6, ConstantRow(5)[6], WordRow(5)[6], v7);
    OneRound(47, v7, ConstantRow(5)[7], WordRow(5)[7], v8);
  }

  lemma Rounds56()
    ensures Rounds(InitialHash(), Abc(), 56)
            == Words(0x38cc9913, 0x3ec45cdb, 0xf5702fdb, 0x101fd28f, 0x54cb266b, 0xe50e1b4f, 0x9f4787c3, 0x529e7d00)
  {
    hide Rounds, Schedule, Has, Constants, Abc, InitialHash;
    Rounds48();
    Words6();
    RowGiven(6);
    var v0 := Words(0x4172328d, 0xa14c14b0, 0x72ab4b91, 0x26628815, 0xfecf0bc6, 0xd57b94a9, 0xb7755da1, 0xa80f11f0);
    var v1 := Next(v0, 0x19a4c116, 0xfb3e89cb, 0x05757ceb, 0xbd714038);
    var v2 := Next(v1, 0x1e376c08, 0xcc7617db, 0xf11bfaa8, 0x6e5c390c);
    var v3 := Next(v2, 0x2748774c, 0xb9e66c34, 0x7a0508a1, 0x52f1ccf7);
    var v4 := Next(v3, 0x34b0bcb5, 0xa9993667, 0x886e7a22, 0x49231c1e);
    var v5 := Next(v4, 0x391c0cb3, 0x84badedd, 0x101fd28f, 0x529e7d00);
    var v6 := Next(v5, 0x4ed8aa4a, 0xc21462bc, 0xf5702fdb, 0x9f4787c3);
    var v7 := Next(v6, 0x5b9cca4f, 0x1487472c, 0x3ec45cdb, 0xe50e1b4f);
    var v8 := Next(v7, 0x682e6ff3, 0xb20f7a99, 0x38cc9913, 0x54cb266b);
    OneRound(48, v0, ConstantRow(6)[0], WordRow(6)[0], v1);
    OneRound(49, v1, ConstantRow(6)[1], WordRow(6)[1], v2);
    OneRound(50, v2, ConstantRow(6)[2], WordRow(6)[2], v3);
    OneRound(51, v3, ConstantRow(6)[3], WordRow(6)[3], v4);
    OneRound(52, v4, ConstantRow(6)[4], WordRow(6)[4], v5);
    OneRound(53, v5, ConstantRow(6)[5], WordRow(6)[5], v6);
    OneRound(54, v6, ConstantRow(6)[6], WordRow(6)[6], v7);
    OneRound(55, v7, ConstantRow(6)[7], WordRow(6)[7], v8);
  }

  lemma Rounds64()
    ensures Rounds(InitialHash(), Abc(), 64)
            == Words(0x506e3058, 0xd39a2165, 0x04d24d6c, 0xb85e2ce9, 0x5ef50f24, 0xfb121210, 0x948d25b6, 0x961f4894)
  {
    hide Rounds, Schedule, Has, Constants, Abc, InitialHash;
    Rounds56();
    Words7();
    RowGiven(7);
    var v0 := Words(0x38cc9913, 0x3ec45cdb, 0xf5702fdb, 0x101fd28f, 0x54cb266b, 0xe50e1b4f, 0x9f4787c3, 0x529e7d00);
    var v1 := Next(v0, 0x748f82ee, 0xef57b9cd, 0xfcd1887b, 0x9b5e906c);
    var v2 := Next(v1, 0x78a5636f, 0xebe6b238, 0xc062d46f, 0x7e44008e);
    var v3 := Next(v2, 0x84c87814, 0x9fe3095e, 0xffb70472, 0x6d83bfc6);
    var v4 := Next(v3, 0x8cc70208, 0x78bc8d4b, 0xb6ae8fff, 0xb21bad3d);
    var v5 := Next(v4, 0x90befffa, 0xa43fcf15, 0xb85e2ce9, 0x961f4894);
    var v6 := Next(v5, 0xa4506ceb, 0x668b2ff8, 0x04d24d6c, 0x948d25b6);
    var v7 := Next(v6, 0xbef9a3f7, 0xeeaba2cc, 0xd39a2165, 0xfb121210);
    var v8 := Next(v7, 0xc67178f2, 0x12b1edeb, 0x506e3058, 0x5ef50f24);
    OneRound(56, v0, ConstantRow(7)[0], WordRow(7)[0], v1);
    OneRound(57, v1, ConstantRow(7)[1], WordRow(7)[1], v2);
    OneRound(58, v2, ConstantRow(7)[2], WordRow(7)[2], v3);
    OneRound(59, v3, ConstantRow(7)[3], WordRow(7)[3], v4);
    OneRound(60, v4, ConstantRow(7)[4], WordRow(7)[4], v5);
    OneRound(61, v5, ConstantRow(7)[5], WordRow(7)[5], v6);
    OneRound(62, v6, ConstantRow(7)[6], WordRow(7)[6], v7);
    OneRound(63, v7, ConstantRow(7)[7], WordRow(7)[7], v8);
  }

  lemma AbcCompressed()
    ensures Compress(InitialHash(), Abc())
            == Words(0xba7816bf, 0x8f01cfea, 0x414140de, 0x5dae2223, 0xb00361a3, 0x96177a9c, 0xb410ff61, 0xf20015ad)
  {
    hide Rounds, Schedule, Abc;
    Rounds64();
  }

  lemma OneBlock(block: Octets)
    requires |block| == 64
    ensures Chain(block) == Compress(InitialHash(), block)
  {
    hide Compress, InitialHash;
    assert block[..0] == [] && block[0..] == block;
    ChainNothing();
  }

  lemma ChainNothing()
    ensures Chain([]) == InitialHash()
  {
  }

  lemma {:induction false} WordBytesAt(ws: seq<bv32>, k: nat)
    requires k < |ws|
    ensures BytesOfWords(ws)[4 * k] == BytesOf(ws[k])[0] && BytesOfWords(ws)[4 * k + 1] == BytesOf(ws[k])[1]
    ensures BytesOfWords(ws)[4 * k + 2] == BytesOf(ws[k])[2] && BytesOfWords(ws)[4 * k + 3] == BytesOf(ws[k])[3]
  {
    hide BytesOf;
    if k < |ws| - 1 {
      WordBytesAt(ws[..|ws| - 1], k);
    }
  }

  /** The digest of "abc". */
  lemma AbcDigest()
    ensures Hash([0x61, 0x62, 0x63]) ==
            [0xba, 0x78, 0x16, 0xbf, 0x8f, 0x01, 0xcf, 0xea, 0x41, 0x41, 0x40, 0xde, 0x5d, 0xae, 0x22, 0x23,
             0xb0, 0x03, 0x61, 0xa3, 0x96, 0x17, 0x7a, 0x9c, 0xb4, 0x10, 0xff, 0x61, 0xf2, 0x00, 0x15, 0xad]
  {
    hide Chain, Compress, Pad, Abc, InitialHash, BytesOfWords, BytesOf;
    AbcPadded();
    OneBlock(Abc());
    AbcCompressed();
    var v := Words(0xba7816bf, 0x8f01cfea, 0x414140de, 0x5dae2223, 0xb00361a3, 0x96177a9c, 0xb410ff61, 0xf20015ad);
    WordBytesAt(ListOf(v), 0);
    WordBytesAt(ListOf(v), 1);
    WordBytesAt(ListOf(v), 2);
    WordBytesAt(ListOf(v), 3);
    WordBytesAt(ListOf(v), 4);
    WordBytesAt(ListOf(v), 5);
    WordBytesAt(ListOf(v), 6);
    WordBytesAt(ListOf(v), 7);
    DigestBytes();
  }

  lemma DigestBytes()

    ensures BytesOf(0xba7816bf) == [0xba, 0x78, 0x16, 0xbf]
    ensures BytesOf(0x8f01cfea) == [0x8f, 0x01, 0xcf, 0xea]
    ensures BytesOf(0x414140de) == [0x41, 0x41, 0x40, 0xde]
    ensures BytesOf(0x5dae2223) == [0x5d, 0xae, 0x22, 0x23]
    ensures BytesOf(0xb00361a3) == [0xb0, 0x03, 0x61, 0xa3]
    ensures BytesOf(0x96177a9c) == [0x96, 0x17, 0x7a, 0x9c]
    ensures BytesOf(0xb410ff61) == [0xb4, 0x10, 0xff, 0x61]
    ensures BytesOf(0xf20015ad) == [0xf2, 0x00, 0x15, 0xad]
  {
  }}
