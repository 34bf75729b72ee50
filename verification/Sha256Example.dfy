/**
 * The constants of SHA-256 as sections 4.2.2 and 5.3.3 of FIPS 180-4 define them, and the message "abc" with
 * its digest, round by round (appendix B.1 of FIPS 180-2). They fix every function the hash is made of.
 */
module Sha256Example {
  import opened Sha256

  // ----- the constants are fractional parts of roots ----------------------------------------------

  const TWO_32: nat := 0x1_0000_0000

  /** word is the first 32 bits of the fractional part of the cube root of n. */
  predicate CubeRootBits(word: nat, n: nat) {
    exists whole: nat :: whole <= 6 && FloorCube(whole * TWO_32 + word, n)
  }

  predicate FloorCube(c: nat, n: nat) { c * c * c <= n * TWO_32 * TWO_32 * TWO_32 < (c + 1) * (c + 1) * (c + 1) }

  /** word is the first 32 bits of the fractional part of the square root of n. */
  predicate SquareRootBits(word: nat, n: nat) {
    exists whole: nat :: whole <= 4 && FloorSquare(whole * TWO_32 + word, n)
  }

  predicate FloorSquare(c: nat, n: nat) { c * c <= n * TWO_32 * TWO_32 < (c + 1) * (c + 1) }

  lemma CubeRoot(t: nat, word: Word, bits: nat, whole: nat, c: nat, n: nat)
    requires t < 64 && RoundConstant(t) == word && word as nat == bits
    requires whole <= 6 && c == whole * TWO_32 + bits && FloorCube(c, n)
    ensures CubeRootBits(RoundConstant(t) as nat, n)
  {
    hide RoundConstant;
  }

  lemma RowsLow(i: nat)
    requires i < 8
    ensures RoundConstant(i) == K0[i] && RoundConstant(8 + i) == K1[i] && RoundConstant(16 + i) == K2[i]
  {
  }

  lemma RowsMid(i: nat)
    requires i < 8
    ensures RoundConstant(24 + i) == K3[i] && RoundConstant(32 + i) == K4[i] && RoundConstant(40 + i) == K5[i]
  {
  }

  lemma RowsHigh(i: nat)
    requires i < 8
    ensures RoundConstant(48 + i) == K6[i] && RoundConstant(56 + i) == K7[i]
  {
  }

  lemma Constants0()
    ensures CubeRootBits(RoundConstant(0) as nat, 2) && CubeRootBits(RoundConstant(1) as nat, 3)
    ensures CubeRootBits(RoundConstant(2) as nat, 5) && CubeRootBits(RoundConstant(3) as nat, 7)
    ensures CubeRootBits(RoundConstant(4) as nat, 11) && CubeRootBits(RoundConstant(5) as nat, 13)
    ensures CubeRootBits(RoundConstant(6) as nat, 17) && CubeRootBits(RoundConstant(7) as nat, 19)
  {
    hide RoundConstant, CubeRootBits;
    RowsLow(0);
    CubeRoot(0, 0x428a2f98, 0x428a2f98, 1, 0x1428a2f98, 2);
    RowsLow(1);
    CubeRoot(1, 0x71374491, 0x71374491, 1, 0x171374491, 3);
    RowsLow(2);
    CubeRoot(2, 0xb5c0fbcf, 0xb5c0fbcf, 1, 0x1b5c0fbcf, 5);
    RowsLow(3);
    CubeRoot(3, 0xe9b5dba5, 0xe9b5dba5, 1, 0x1e9b5dba5, 7);
    RowsLow(4);
    CubeRoot(4, 0x3956c25b, 0x3956c25b, 2, 0x23956c25b, 11);
    RowsLow(5);
    CubeRoot(5, 0x59f111f1, 0x59f111f1, 2, 0x259f111f1, 13);
    RowsLow(6);
    CubeRoot(6, 0x923f82a4, 0x923f82a4, 2, 0x2923f82a4, 17);
    RowsLow(7);
    CubeRoot(7, 0xab1c5ed5, 0xab1c5ed5, 2, 0x2ab1c5ed5, 19);
  }

  lemma Constants1()
    ensures CubeRootBits(RoundConstant(8) as nat, 23) && CubeRootBits(RoundConstant(9) as nat, 29)
    ensures CubeRootBits(RoundConstant(10) as nat, 31) && CubeRootBits(RoundConstant(11) as nat, 37)
    ensures CubeRootBits(RoundConstant(12) as nat, 41) && CubeRootBits(RoundConstant(13) as nat, 43)
    ensures CubeRootBits(RoundConstant(14) as nat, 47) && CubeRootBits(RoundConstant(15) as nat, 53)
  {
    hide RoundConstant, CubeRootBits;
    RowsLow(0);
    CubeRoot(8, 0xd807aa98, 0xd807aa98, 2, 0x2d807aa98, 23);
    RowsLow(1);
    CubeRoot(9, 0x12835b01, 0x12835b01, 3, 0x312835b01, 29);
    RowsLow(2);
    CubeRoot(10, 0x243185be, 0x243185be, 3, 0x3243185be, 31);
    RowsLow(3);
    CubeRoot(11, 0x550c7dc3, 0x550c7dc3, 3, 0x3550c7dc3, 37);
    RowsLow(4);
    CubeRoot(12, 0x72be5d74, 0x72be5d74, 3, 0x372be5d74, 41);
    RowsLow(5);
    CubeRoot(13, 0x80deb1fe, 0x80deb1fe, 3, 0x380deb1fe, 43);
    RowsLow(6);
    CubeRoot(14, 0x9bdc06a7, 0x9bdc06a7, 3, 0x39bdc06a7, 47);
    RowsLow(7);
    CubeRoot(15, 0xc19bf174, 0xc19bf174, 3, 0x3c19bf174, 53);
  }

  lemma Constants2()
    ensures CubeRootBits(RoundConstant(16) as nat, 59) && CubeRootBits(RoundConstant(17) as nat, 61)
    ensures CubeRootBits(RoundConstant(18) as nat, 67) && CubeRootBits(RoundConstant(19) as nat, 71)
    ensures CubeRootBits(RoundConstant(20) as nat, 73) && CubeRootBits(RoundConstant(21) as nat, 79)
    ensures CubeRootBits(RoundConstant(22) as nat, 83) && CubeRootBits(RoundConstant(23) as nat, 89)
  {
    hide RoundConstant, CubeRootBits;
    RowsLow(0);
    CubeRoot(16, 0xe49b69c1, 0xe49b69c1, 3, 0x3e49b69c1, 59);
    RowsLow(1);
    CubeRoot(17, 0xefbe4786, 0xefbe4786, 3, 0x3efbe4786, 61);
    RowsLow(2);
    CubeRoot(18, 0x0fc19dc6, 0x0fc19dc6, 4, 0x40fc19dc6, 67);
    RowsLow(3);
    CubeRoot(19, 0x240ca1cc, 0x240ca1cc, 4, 0x4240ca1cc, 71);
    RowsLow(4);
    CubeRoot(20, 0x2de92c6f, 0x2de92c6f, 4, 0x42de92c6f, 73);
    RowsLow(5);
    CubeRoot(21, 0x4a7484aa, 0x4a7484aa, 4, 0x44a7484aa, 79);
    RowsLow(6);
    CubeRoot(22, 0x5cb0a9dc, 0x5cb0a9dc, 4, 0x45cb0a9dc, 83);
    RowsLow(7);
    CubeRoot(23, 0x76f988da, 0x76f988da, 4, 0x476f988da, 89);
  }

  lemma Constants3()
    ensures CubeRootBits(RoundConstant(24) as nat, 97) && CubeRootBits(RoundConstant(25) as nat, 101)
    ensures CubeRootBits(RoundConstant(26) as nat, 103) && CubeRootBits(RoundConstant(27) as nat, 107)
    ensures CubeRootBits(RoundConstant(28) as nat, 109) && CubeRootBits(RoundConstant(29) as nat, 113)
    ensures CubeRootBits(RoundConstant(30) as nat, 127) && CubeRootBits(RoundConstant(31) as nat, 131)
  {
    hide RoundConstant, CubeRootBits;
    RowsMid(0);
    CubeRoot(24, 0x983e5152, 0x983e5152, 4, 0x4983e5152, 97);
    RowsMid(1);
    CubeRoot(25, 0xa831c66d, 0xa831c66d, 4, 0x4a831c66d, 101);
    RowsMid(2);
    CubeRoot(26, 0xb00327c8, 0xb00327c8, 4, 0x4b00327c8, 103);
    RowsMid(3);
    CubeRoot(27, 0xbf597fc7, 0xbf597fc7, 4, 0x4bf597fc7, 107);
    RowsMid(4);
    CubeRoot(28, 0xc6e00bf3, 0xc6e00bf3, 4, 0x4c6e00bf3, 109);
    RowsMid(5);
    CubeRoot(29, 0xd5a79147, 0xd5a79147, 4, 0x4d5a79147, 113);
    RowsMid(6);
    CubeRoot(30, 0x06ca6351, 0x06ca6351, 5, 0x506ca6351, 127);
    RowsMid(7);
    CubeRoot(31, 0x14292967, 0x14292967, 5, 0x514292967, 131);
  }

  lemma Constants4()
    ensures CubeRootBits(RoundConstant(32) as nat, 137) && CubeRootBits(RoundConstant(33) as nat, 139)
    ensures CubeRootBits(RoundConstant(34) as nat, 149) && CubeRootBits(RoundConstant(35) as nat, 151)
    ensures CubeRootBits(RoundConstant(36) as nat, 157) && CubeRootBits(RoundConstant(37) as nat, 163)
    ensures CubeRootBits(RoundConstant(38) as nat, 167) && CubeRootBits(RoundConstant(39) as nat, 173)
  {
    hide RoundConstant, CubeRootBits;
    RowsMid(0);
    CubeRoot(32, 0x27b70a85, 0x27b70a85, 5, 0x527b70a85, 137);
    RowsMid(1);
    CubeRoot(33, 0x2e1b2138, 0x2e1b2138, 5, 0x52e1b2138, 139);
    RowsMid(2);
    CubeRoot(34, 0x4d2c6dfc, 0x4d2c6dfc, 5, 0x54d2c6dfc, 149);
    RowsMid(3);
    CubeRoot(35, 0x53380d13, 0x53380d13, 5, 0x553380d13, 151);
    RowsMid(4);
    CubeRoot(36, 0x650a7354, 0x650a7354, 5, 0x5650a7354, 157);
    RowsMid(5);
    CubeRoot(37, 0x766a0abb, 0x766a0abb, 5, 0x5766a0abb, 163);
    RowsMid(6);
    CubeRoot(38, 0x81c2c92e, 0x81c2c92e, 5, 0x581c2c92e, 167);
    RowsMid(7);
    CubeRoot(39, 0x92722c85, 0x92722c85, 5, 0x592722c85, 173);
  }

  lemma Constants5()
    ensures CubeRootBits(RoundConstant(40) as nat, 179) && CubeRootBits(RoundConstant(41) as nat, 181)
    ensures CubeRootBits(RoundConstant(42) as nat, 191) && CubeRootBits(RoundConstant(43) as nat, 193)
    ensures CubeRootBits(RoundConstant(44) as nat, 197) && CubeRootBits(RoundConstant(45) as nat, 199)
    ensures CubeRootBits(RoundConstant(46) as nat, 211) && CubeRootBits(RoundConstant(47) as nat, 223)
  {
    hide RoundConstant, CubeRootBits;
    RowsMid(0);
    CubeRoot(40, 0xa2bfe8a1, 0xa2bfe8a1, 5, 0x5a2bfe8a1, 179);
    RowsMid(1);
    CubeRoot(41, 0xa81a664b, 0xa81a664b, 5, 0x5a81a664b, 181);
    RowsMid(2);
    CubeRoot(42, 0xc24b8b70, 0xc24b8b70, 5, 0x5c24b8b70, 191);
    RowsMid(3);
    CubeRoot(43, 0xc76c51a3, 0xc76c51a3, 5, 0x5c76c51a3, 193);
    RowsMid(4);
    CubeRoot(44, 0xd192e819, 0xd192e819, 5, 0x5d192e819, 197);
    RowsMid(5);
    CubeRoot(45, 0xd6990624, 0xd6990624, 5, 0x5d6990624, 199);
    RowsMid(6);
    CubeRoot(46, 0xf40e3585, 0xf40e3585, 5, 0x5f40e3585, 211);
    RowsMid(7);
    CubeRoot(47, 0x106aa070, 0x106aa070, 6, 0x6106aa070, 223);
  }

  lemma Constants6()
    ensures CubeRootBits(RoundConstant(48) as nat, 227) && CubeRootBits(RoundConstant(49) as nat, 229)
    ensures CubeRootBits(RoundConstant(50) as nat, 233) && CubeRootBits(RoundConstant(51) as nat, 239)
    ensures CubeRootBits(RoundConstant(52) as nat, 241) && CubeRootBits(RoundConstant(53) as nat, 251)
    ensures CubeRootBits(RoundConstant(54) as nat, 257) && CubeRootBits(RoundConstant(55) as nat, 263)
  {
    hide RoundConstant, CubeRootBits;
    RowsHigh(0);
    CubeRoot(48, 0x19a4c116, 0x19a4c116, 6, 0x619a4c116, 227);
    RowsHigh(1);
    CubeRoot(49, 0x1e376c08, 0x1e376c08, 6, 0x61e376c08, 229);
    RowsHigh(2);
    CubeRoot(50, 0x2748774c, 0x2748774c, 6, 0x62748774c, 233);
    RowsHigh(3);
    CubeRoot(51, 0x34b0bcb5, 0x34b0bcb5, 6, 0x634b0bcb5, 239);
    RowsHigh(4);
    CubeRoot(52, 0x391c0cb3, 0x391c0cb3, 6, 0x6391c0cb3, 241);
    RowsHigh(5);
    CubeRoot(53, 0x4ed8aa4a, 0x4ed8aa4a, 6, 0x64ed8aa4a, 251);
    RowsHigh(6);
    CubeRoot(54, 0x5b9cca4f, 0x5b9cca4f, 6, 0x65b9cca4f, 257);
    RowsHigh(7);
    CubeRoot(55, 0x682e6ff3, 0x682e6ff3, 6, 0x6682e6ff3, 263);
  }

  lemma Constants7()
    ensures CubeRootBits(RoundConstant(56) as nat, 269) && CubeRootBits(RoundConstant(57) as nat, 271)
    ensures CubeRootBits(RoundConstant(58) as nat, 277) && CubeRootBits(RoundConstant(59) as nat, 281)
    ensures CubeRootBits(RoundConstant(60) as nat, 283) && CubeRootBits(RoundConstant(61) as nat, 293)
    ensures CubeRootBits(RoundConstant(62) as nat, 307) && CubeRootBits(RoundConstant(63) as nat, 311)
  {
    hide RoundConstant, CubeRootBits;
    RowsHigh(0);
    CubeRoot(56, 0x748f82ee, 0x748f82ee, 6, 0x6748f82ee, 269);
    RowsHigh(1);
    CubeRoot(57, 0x78a5636f, 0x78a5636f, 6, 0x678a5636f, 271);
    RowsHigh(2);
    CubeRoot(58, 0x84c87814, 0x84c87814, 6, 0x684c87814, 277);
    RowsHigh(3);
    CubeRoot(59, 0x8cc70208, 0x8cc70208, 6, 0x68cc70208, 281);
    RowsHigh(4);
    CubeRoot(60, 0x90befffa, 0x90befffa, 6, 0x690befffa, 283);
    RowsHigh(5);
    CubeRoot(61, 0xa4506ceb, 0xa4506ceb, 6, 0x6a4506ceb, 293);
    RowsHigh(6);
    CubeRoot(62, 0xbef9a3f7, 0xbef9a3f7, 6, 0x6bef9a3f7, 307);
    RowsHigh(7);
    CubeRoot(63, 0xc67178f2, 0xc67178f2, 6, 0x6c67178f2, 311);
  }

  lemma SquareRoot(word: Word, bits: nat, whole: nat, c: nat, n: nat)
    requires word as nat == bits && whole <= 4 && c == whole * TWO_32 + bits && FloorSquare(c, n)
    ensures SquareRootBits(word as nat, n)
  {
  }

  /** The initial hash value comes from the square roots of the first eight primes. */
  lemma InitialValue()
    ensures SquareRootBits(INITIAL.a as nat, 2) && SquareRootBits(INITIAL.b as nat, 3)
    ensures SquareRootBits(INITIAL.c as nat, 5) && SquareRootBits(INITIAL.d as nat, 7)
    ensures SquareRootBits(INITIAL.e as nat, 11) && SquareRootBits(INITIAL.f as nat, 13)
    ensures SquareRootBits(INITIAL.g as nat, 17) && SquareRootBits(INITIAL.h as nat, 19)
  {
    hide SquareRootBits;
    SquareRoot(0x6a09e667, 0x6a09e667, 1, 0x16a09e667, 2);
    SquareRoot(0xbb67ae85, 0xbb67ae85, 1, 0x1bb67ae85, 3);
    SquareRoot(0x3c6ef372, 0x3c6ef372, 2, 0x23c6ef372, 5);
    SquareRoot(0xa54ff53a, 0xa54ff53a, 2, 0x2a54ff53a, 7);
    SquareRoot(0x510e527f, 0x510e527f, 3, 0x3510e527f, 11);
    SquareRoot(0x9b05688c, 0x9b05688c, 3, 0x39b05688c, 13);
    SquareRoot(0x1f83d9ab, 0x1f83d9ab, 4, 0x41f83d9ab, 17);
    SquareRoot(0x5be0cd19, 0x5be0cd19, 4, 0x45be0cd19, 19);
  }

  // ----- the message "abc" ---------------------------------------------------------------------------

  const ABC: seq<Byte> := [0x61, 0x62, 0x63]

  /** The one block of the padded message. */
  const BLOCK: seq<Byte> := ABC + [0x80] + Zeros(59) + [24]

  lemma PaddedAbc()
    ensures |BLOCK| == 64 && Padded(ABC) == BLOCK
  {
    var length := LengthBytes(24);
    forall i | 0 <= i < 8
      ensures length[i] == if i < 7 then 0 else 24
    {
      assert Shifted(24, 7 - i) == if i < 7 then 0 else 24 by { SmallShift(24, 7 - i); }
    }
  }

  lemma {:induction false} SmallShift(n: nat, k: nat)
    requires n < 256
    ensures Shifted(n, k) == if k == 0 then n else 0
  {
    if k > 0 {
      SmallShift(n / 256, k - 1);
    }
  }

  /** The rotations written out. */
  predicate Turned(x: Word) {
    && Rotr(x, 2) == (x >> 2) | (x << 30) && Rotr(x, 13) == (x >> 13) | (x << 19) && Rotr(x, 22) == (x >> 22) | (x << 10)
    && Rotr(x, 6) == (x >> 6) | (x << 26) && Rotr(x, 11) == (x >> 11) | (x << 21) && Rotr(x, 25) == (x >> 25) | (x << 7)
    && Rotr(x, 7) == (x >> 7) | (x << 25) && Rotr(x, 18) == (x >> 18) | (x << 14)
    && Rotr(x, 17) == (x >> 17) | (x << 15) && Rotr(x, 19) == (x >> 19) | (x << 13)
  }

  lemma Written(x: Word)
    ensures Rotr(x, 2) == (x >> 2) | (x << 30) && Rotr(x, 13) == (x >> 13) | (x << 19) && Rotr(x, 22) == (x >> 22) | (x << 10)
    ensures Rotr(x, 6) == (x >> 6) | (x << 26) && Rotr(x, 11) == (x >> 11) | (x << 21) && Rotr(x, 25) == (x >> 25) | (x << 7)
    ensures Rotr(x, 7) == (x >> 7) | (x << 25) && Rotr(x, 18) == (x >> 18) | (x << 14)
    ensures Rotr(x, 17) == (x >> 17) | (x << 15) && Rotr(x, 19) == (x >> 19) | (x << 13)
  {
  }

  lemma Turns(x: Word)
    ensures Turned(x)
  {
    hide Rotr;
    Written(x);
  }

  lemma FirstWords(t: nat)
    requires t < 16
    ensures Schedule(BLOCK, t) == if t == 0 then 0x61626380 else if t == 15 then 24 else 0
  {
    var b := BLOCK;
    assert b == ABC + [0x80] + Zeros(59) + [24];
    if t == 0 {
      assert b[0] == 0x61 && b[1] == 0x62 && b[2] == 0x63 && b[3] == 0x80;
      assert BigEndian(0x61, 0x62, 0x63, 0x80) == 0x61626380;
    } else if t == 15 {
      assert b[60] == 0 && b[61] == 0 && b[62] == 0 && b[63] == 24;
      assert BigEndian(0, 0, 0, 24) == 24;
    } else {
      assert b[4 * t] == 0 && b[4 * t + 1] == 0 && b[4 * t + 2] == 0 && b[4 * t + 3] == 0;
      assert BigEndian(0, 0, 0, 0) == 0;
    }
  }

  lemma NextWord(t: nat, a: Word, b: Word, c: Word, d: Word)
    requires 16 <= t < 64 && Schedule(BLOCK, t - 2) == a && Schedule(BLOCK, t - 7) == b
    requires Schedule(BLOCK, t - 15) == c && Schedule(BLOCK, t - 16) == d
    ensures Schedule(BLOCK, t) == Sum(SmallSigma1(a), b, SmallSigma0(c), d) && Turned(a) && Turned(c)
  {
    hide BigEndian, SmallSigma0, SmallSigma1, Sum, Turned;
    Turns(a);
    Turns(c);
  }

  lemma NextRound(t: nat, v: State, k: Word, w: Word)
    requires t < 64 && Rounds(INITIAL, BLOCK, t) == v && RoundConstant(t) == k && Schedule(BLOCK, t) == w
    ensures Rounds(INITIAL, BLOCK, t + 1) == Round(v, k, w) && Turned(v.a) && Turned(v.e)
  {
    hide Round, Turned;
    Turns(v.a);
    Turns(v.e);
  }

  lemma Words0()
    ensures Schedule(BLOCK, 0) == 0x61626380 && Schedule(BLOCK, 1) == 0x00000000 && Schedule(BLOCK, 2) == 0x00000000 && Schedule(BLOCK, 3) == 0x00000000
    ensures Schedule(BLOCK, 4) == 0x00000000 && Schedule(BLOCK, 5) == 0x00000000 && Schedule(BLOCK, 6) == 0x00000000 && Schedule(BLOCK, 7) == 0x00000000
    ensures Schedule(BLOCK, 8) == 0x00000000 && Schedule(BLOCK, 9) == 0x00000000 && Schedule(BLOCK, 10) == 0x00000000 && Schedule(BLOCK, 11) == 0x00000000
    ensures Schedule(BLOCK, 12) == 0x00000000 && Schedule(BLOCK, 13) == 0x00000000 && Schedule(BLOCK, 14) == 0x00000000 && Schedule(BLOCK, 15) == 0x00000018
  {
    hide Schedule;
    FirstWords(0);
    FirstWords(1);
    FirstWords(2);
    FirstWords(3);
    FirstWords(4);
    FirstWords(5);
    FirstWords(6);
    FirstWords(7);
    FirstWords(8);
    FirstWords(9);
    FirstWords(10);
    FirstWords(11);
    FirstWords(12);
    FirstWords(13);
    FirstWords(14);
    FirstWords(15);
  }

  lemma Words16()
    ensures Schedule(BLOCK, 16) == 0x61626380 && Schedule(BLOCK, 17) == 0x000f0000 && Schedule(BLOCK, 18) == 0x7da86405 && Schedule(BLOCK, 19) == 0x600003c6
    ensures Schedule(BLOCK, 20) == 0x3e9d7b78 && Schedule(BLOCK, 21) == 0x0183fc00 && Schedule(BLOCK, 22) == 0x12dcbfdb && Schedule(BLOCK, 23) == 0xe2e2c38e
    ensures Schedule(BLOCK, 24) == 0xc8215c1a && Schedule(BLOCK, 25) == 0xb73679a2 && Schedule(BLOCK, 26) == 0xe5bc3909 && Schedule(BLOCK, 27) == 0x32663c5b
    ensures Schedule(BLOCK, 28) == 0x9d209d67 && Schedule(BLOCK, 29) == 0xec8726cb && Schedule(BLOCK, 30) == 0x702138a4 && Schedule(BLOCK, 31) == 0xd3b7973b
  {
    hide Schedule, Rotr;
    Words0();
    NextWord(16, 0x00000000, 0x00000000, 0x00000000, 0x61626380);
    NextWord(17, 0x00000018, 0x00000000, 0x00000000, 0x00000000);
    NextWord(18, 0x61626380, 0x00000000, 0x00000000, 0x00000000);
    NextWord(19, 0x000f0000, 0x00000000, 0x00000000, 0x00000000);
    NextWord(20, 0x7da86405, 0x00000000, 0x00000000, 0x00000000);
    NextWord(21, 0x600003c6, 0x00000000, 0x00000000, 0x00000000);
    NextWord(22, 0x3e9d7b78, 0x00000018, 0x00000000, 0x00000000);
    NextWord(23, 0x0183fc00, 0x61626380, 0x00000000, 0x00000000);
    NextWord(24, 0x12dcbfdb, 0x000f0000, 0x00000000, 0x00000000);
    NextWord(25, 0xe2e2c38e, 0x7da86405, 0x00000000, 0x00000000);
    NextWord(26, 0xc8215c1a, 0x600003c6, 0x00000000, 0x00000000);
    NextWord(27, 0xb73679a2, 0x3e9d7b78, 0x00000000, 0x00000000);
    NextWord(28, 0xe5bc3909, 0x0183fc00, 0x00000000, 0x00000000);
    NextWord(29, 0x32663c5b, 0x12dcbfdb, 0x00000000, 0x00000000);
    NextWord(30, 0x9d209d67, 0xe2e2c38e, 0x00000018, 0x00000000);
    NextWord(31, 0xec8726cb, 0xc8215c1a, 0x61626380, 0x00000018);
  }

  lemma Words32()
    ensures Schedule(BLOCK, 32) == 0x93f5997f && Schedule(BLOCK, 33) == 0x3b68ba73 && Schedule(BLOCK, 34) == 0xaff4ffc1 && Schedule(BLOCK, 35) == 0xf10a5c62
    ensures Schedule(BLOCK, 36) == 0x0a8b3996 && Schedule(BLOCK, 37) == 0x72af830a && Schedule(BLOCK, 38) == 0x9409e33e && Schedule(BLOCK, 39) == 0x24641522
    ensures Schedule(BLOCK, 40) == 0x9f47bf94 && Schedule(BLOCK, 41) == 0xf0a64f5a && Schedule(BLOCK, 42) == 0x3e246a79 && Schedule(BLOCK, 43) == 0x27333ba3
    ensures Schedule(BLOCK, 44) == 0x0c4763f2 && Schedule(BLOCK, 45) == 0x840abf27 && Schedule(BLOCK, 46) == 0x7a290d5d && Schedule(BLOCK, 47) == 0x065c43da
  {
    hide Schedule, Rotr;
    Words16();
    NextWord(32, 0x702138a4, 0xb73679a2, 0x000f0000, 0x61626380);
    NextWord(33, 0xd3b7973b, 0xe5bc3909, 0x7da86405, 0x000f0000);
    NextWord(34, 0x93f5997f, 0x32663c5b, 0x600003c6, 0x7da86405);
    NextWord(35, 0x3b68ba73, 0x9d209d67, 0x3e9d7b78, 0x600003c6);
    NextWord(36, 0xaff4ffc1, 0xec8726cb, 0x0183fc00, 0x3e9d7b78);
    NextWord(37, 0xf10a5c62, 0x702138a4, 0x12dcbfdb, 0x0183fc00);
    NextWord(38, 0x0a8b3996, 0xd3b7973b, 0xe2e2c38e, 0x12dcbfdb);
    NextWord(39, 0x72af830a, 0x93f5997f, 0xc8215c1a, 0xe2e2c38e);
    NextWord(40, 0x9409e33e, 0x3b68ba73, 0xb73679a2, 0xc8215c1a);
    NextWord(41, 0x24641522, 0xaff4ffc1, 0xe5bc3909, 0xb73679a2);
    NextWord(42, 0x9f47bf94, 0xf10a5c62, 0x32663c5b, 0xe5bc3909);
    NextWord(43, 0xf0a64f5a, 0x0a8b3996, 0x9d209d67, 0x32663c5b);
    NextWord(44, 0x3e246a79, 0x72af830a, 0xec8726cb, 0x9d209d67);
    NextWord(45, 0x27333ba3, 0x9409e33e, 0x702138a4, 0xec8726cb);
    NextWord(46, 0x0c4763f2, 0x24641522, 0xd3b7973b, 0x702138a4);
    NextWord(47, 0x840abf27, 0x9f47bf94, 0x93f5997f, 0xd3b7973b);
  }

  lemma Words48()
    ensures Schedule(BLOCK, 48) == 0xfb3e89cb && Schedule(BLOCK, 49) == 0xcc7617db && Schedule(BLOCK, 50) == 0xb9e66c34 && Schedule(BLOCK, 51) == 0xa9993667
    ensures Schedule(BLOCK, 52) == 0x84badedd && Schedule(BLOCK, 53) == 0xc21462bc && Schedule(BLOCK, 54) == 0x1487472c && Schedule(BLOCK, 55) == 0xb20f7a99
    ensures Schedule(BLOCK, 56) == 0xef57b9cd && Schedule(BLOCK, 57) == 0xebe6b238 && Schedule(BLOCK, 58) == 0x9fe3095e && Schedule(BLOCK, 59) == 0x78bc8d4b
    ensures Schedule(BLOCK, 60) == 0xa43fcf15 && Schedule(BLOCK, 61) == 0x668b2ff8 && Schedule(BLOCK, 62) == 0xeeaba2cc && Schedule(BLOCK, 63) == 0x12b1edeb
  {
    hide Schedule, Rotr;
    Words32();
    NextWord(48, 0x7a290d5d, 0xf0a64f5a, 0x3b68ba73, 0x93f5997f);
    NextWord(49, 0x065c43da, 0x3e246a79, 0xaff4ffc1, 0x3b68ba73);
    NextWord(50, 0xfb3e89cb, 0x27333ba3, 0xf10a5c62, 0xaff4ffc1);
    NextWord(51, 0xcc7617db, 0x0c4763f2, 0x0a8b3996, 0xf10a5c62);
    NextWord(52, 0xb9e66c34, 0x840abf27, 0x72af830a, 0x0a8b3996);
    NextWord(53, 0xa9993667, 0x7a290d5d, 0x9409e33e, 0x72af830a);
    NextWord(54, 0x84badedd, 0x065c43da, 0x24641522, 0x9409e33e);
    NextWord(55, 0xc21462bc, 0xfb3e89cb, 0x9f47bf94, 0x24641522);
    NextWord(56, 0x1487472c, 0xcc7617db, 0xf0a64f5a, 0x9f47bf94);
    NextWord(57, 0xb20f7a99, 0xb9e66c34, 0x3e246a79, 0xf0a64f5a);
    NextWord(58, 0xef57b9cd, 0xa9993667, 0x27333ba3, 0x3e246a79);
    NextWord(59, 0xebe6b238, 0x84badedd, 0x0c4763f2, 0x27333ba3);
    NextWord(60, 0x9fe3095e, 0xc21462bc, 0x840abf27, 0x0c4763f2);
    NextWord(61, 0x78bc8d4b, 0x1487472c, 0x7a290d5d, 0x840abf27);
    NextWord(62, 0xa43fcf15, 0xb20f7a99, 0x065c43da, 0x7a290d5d);
    NextWord(63, 0x668b2ff8, 0xef57b9cd, 0xfb3e89cb, 0x065c43da);
  }

  lemma Rounds4()
    ensures Rounds(INITIAL, BLOCK, 4)
      == State(0xd550f666, 0xc8c347a7, 0x5a6ad9ad, 0x5d6aebcd, 0x24e00850, 0xf92939eb, 0x78ce7989, 0xfa2a4622)
  {
    hide Rounds, Schedule, RoundConstant, Rotr;
    FirstRound();
    Words0();
    RowsLow(0);
    NextRound(0, State(0x6a09e667, 0xbb67ae85, 0x3c6ef372, 0xa54ff53a, 0x510e527f, 0x9b05688c, 0x1f83d9ab, 0x5be0cd19), 0x428a2f98, 0x61626380);
    RowsLow(1);
    NextRound(1, State(0x5d6aebcd, 0x6a09e667, 0xbb67ae85, 0x3c6ef372, 0xfa2a4622, 0x510e527f, 0x9b05688c, 0x1f83d9ab), 0x71374491, 0x00000000);
    RowsLow(2);
    NextRound(2, State(0x5a6ad9ad, 0x5d6aebcd, 0x6a09e667, 0xbb67ae85, 0x78ce7989, 0xfa2a4622, 0x510e527f, 0x9b05688c), 0xb5c0fbcf, 0x00000000);
    RowsLow(3);
    NextRound(3, State(0xc8c347a7, 0x5a6ad9ad, 0x5d6aebcd, 0x6a09e667, 0xf92939eb, 0x78ce7989, 0xfa2a4622, 0x510e527f), 0xe9b5dba5, 0x00000000);
  }

  lemma Rounds8()
    ensures Rounds(INITIAL, BLOCK, 8)
      == State(0x85a07b5f, 0xe5030380, 0x2b4209f5, 0x04409a6a, 0x0c657a79, 0x9b27a401, 0x714260ad, 0x43ada245)
  {
    hide Rounds, Schedule, RoundConstant, Rotr;
    Rounds4();
    Words0();
    RowsLow(4);
    NextRound(4, State(0xd550f666, 0xc8c347a7, 0x5a6ad9ad, 0x5d6aebcd, 0x24e00850, 0xf92939eb, 0x78ce7989, 0xfa2a4622), 0x3956c25b, 0x00000000);
    RowsLow(5);
    NextRound(5, State(0x04409a6a, 0xd550f666, 0xc8c347a7, 0x5a6ad9ad, 0x43ada245, 0x24e00850, 0xf92939eb, 0x78ce7989), 0x59f111f1, 0x00000000);
    RowsLow(6);
    NextRound(6, State(0x2b4209f5, 0x04409a6a, 0xd550f666, 0xc8c347a7, 0x714260ad, 0x43ada245, 0x24e00850, 0xf92939eb), 0x923f82a4, 0x00000000);
    RowsLow(7);
    NextRound(7, State(0xe5030380, 0x2b4209f5, 0x04409a6a, 0xd550f666, 0x9b27a401, 0x714260ad, 0x43ada245, 0x24e00850), 0xab1c5ed5, 0x00000000);
  }

  lemma Rounds12()
    ensures Rounds(INITIAL, BLOCK, 12)
      == State(0xf71fc5a9, 0x4798a3f4, 0x8c87346b, 0x8e04ecb9, 0x816fd6e9, 0x436b23e8, 0x1cc92596, 0x32ca2d8c)
  {
    hide Rounds, Schedule, RoundConstant, Rotr;
    Rounds8();
    Words0();
    RowsLow(0);
    NextRound(8, State(0x85a07b5f, 0xe5030380, 0x2b4209f5, 0x04409a6a, 0x0c657a79, 0x9b27a401, 0x714260ad, 0x43ada245), 0xd807aa98, 0x00000000);
    RowsLow(1);
    NextRound(9, State(0x8e04ecb9, 0x85a07b5f, 0xe5030380, 0x2b4209f5, 0x32ca2d8c, 0x0c657a79, 0x9b27a401, 0x714260ad), 0x12835b01, 0x00000000);
    RowsLow(2);
    NextRound(10, State(0x8c87346b, 0x8e04ecb9, 0x85a07b5f, 0xe5030380, 0x1cc92596, 0x32ca2d8c, 0x0c657a79, 0x9b27a401), 0x243185be, 0x00000000);
    RowsLow(3);
    NextRound(11, State(0x4798a3f4, 0x8c87346b, 0x8e04ecb9, 0x85a07b5f, 0x436b23e8, 0x1cc92596, 0x32ca2d8c, 0x0c657a79), 0x550c7dc3, 0x00000000);
  }

  lemma Rounds16()
    ensures Rounds(INITIAL, BLOCK, 16)
      == State(0xb0fa238e, 0xc0645fde, 0xd932eb16, 0x87912990, 0x07590dcd, 0x0b92f20c, 0x745a48de, 0x1e578218)
  {
    hide Rounds, Schedule, RoundConstant, Rotr;
    Rounds12();
    Words0();
    RowsLow(4);
    NextRound(12, State(0xf71fc5a9, 0x4798a3f4, 0x8c87346b, 0x8e04ecb9, 0x816fd6e9, 0x436b23e8, 0x1cc92596, 0x32ca2d8c), 0x72be5d74, 0x00000000);
    RowsLow(5);
    NextRound(13, State(0x87912990, 0xf71fc5a9, 0x4798a3f4, 0x8c87346b, 0x1e578218, 0x816fd6e9, 0x436b23e8, 0x1cc92596), 0x80deb1fe, 0x00000000);
    RowsLow(6);
    NextRound(14, State(0xd932eb16, 0x87912990, 0xf71fc5a9, 0x4798a3f4, 0x745a48de, 0x1e578218, 0x816fd6e9, 0x436b23e8), 0x9bdc06a7, 0x00000000);
    RowsLow(7);
    NextRound(15, State(0xc0645fde, 0xd932eb16, 0x87912990, 0xf71fc5a9, 0x0b92f20c, 0x745a48de, 0x1e578218, 0x816fd6e9), 0xc19bf174, 0x00000018);
  }

  lemma Rounds20()
    ensures Rounds(INITIAL, BLOCK, 20)
      == State(0xe1f20c33, 0xfe777bbf, 0xc2fbd9d1, 0x21da9a9b, 0xb0638179, 0xcc899961, 0x846ee454, 0x8034229c)
  {
    hide Rounds, Schedule, RoundConstant, Rotr;
    Rounds16();
    Words16();
    RowsLow(0);
    NextRound(16, State(0xb0fa238e, 0xc0645fde, 0xd932eb16, 0x87912990, 0x07590dcd, 0x0b92f20c, 0x745a48de, 0x1e578218), 0xe49b69c1, 0x61626380);
    RowsLow(1);
    NextRound(17, State(0x21da9a9b, 0xb0fa238e, 0xc0645fde, 0xd932eb16, 0x8034229c, 0x07590dcd, 0x0b92f20c, 0x745a48de), 0xefbe4786, 0x000f0000);
    RowsLow(2);
    NextRound(18, State(0xc2fbd9d1, 0x21da9a9b, 0xb0fa238e, 0xc0645fde, 0x846ee454, 0x8034229c, 0x07590dcd, 0x0b92f20c), 0x0fc19dc6, 0x7da86405);
    RowsLow(3);
    NextRound(19, State(0xfe777bbf, 0xc2fbd9d1, 0x21da9a9b, 0xb0fa238e, 0xcc899961, 0x846ee454, 0x8034229c, 0x07590dcd), 0x240ca1cc, 0x600003c6);
  }

  lemma Rounds24()
    ensures Rounds(INITIAL, BLOCK, 24)
      == State(0xc5d53d8d, 0xa7a3623f, 0xc2606d6d, 0x9dc68b63, 0xaa47c347, 0x49f5114a, 0xe1257970, 0x8ada8930)
  {
    hide Rounds, Schedule, RoundConstant, Rotr;
    Rounds20();
    Words16();
    RowsLow(4);
    NextRound(20, State(0xe1f20c33, 0xfe777bbf, 0xc2fbd9d1, 0x21da9a9b, 0xb0638179, 0xcc899961, 0x846ee454, 0x8034229c), 0x2de92c6f, 0x3e9d7b78);
    RowsLow(5);
    NextRound(21, State(0x9dc68b63, 0xe1f20c33, 0xfe777bbf, 0xc2fbd9d1, 0x8ada8930, 0xb0638179, 0xcc899961, 0x846ee454), 0x4a7484aa, 0x0183fc00);
    RowsLow(6);
    NextRound(22, State(0xc2606d6d, 0x9dc68b63, 0xe1f20c33, 0xfe777bbf, 0xe1257970, 0x8ada8930, 0xb0638179, 0xcc899961), 0x5cb0a9dc, 0x12dcbfdb);
    RowsLow(7);
    NextRound(23, State(0xa7a3623f, 0xc2606d6d, 0x9dc68b63, 0xe1f20c33, 0x49f5114a, 0xe1257970, 0x8ada8930, 0xb0638179), 0x76f988da, 0xe2e2c38e);
  }

  lemma Rounds28()
    ensures Rounds(INITIAL, BLOCK, 28)
      == State(0x77d37528, 0xb62ec4bc, 0xcde8037d, 0x1c2c2838, 0xedffbff8, 0xc74c6516, 0x14383d8e, 0x2823ef91)
  {
    hide Rounds, Schedule, RoundConstant, Rotr;
    Rounds24();
    Words16();
    RowsMid(0);
    NextRound(24, State(0xc5d53d8d, 0xa7a3623f, 0xc2606d6d, 0x9dc68b63, 0xaa47c347, 0x49f5114a, 0xe1257970, 0x8ada8930), 0x983e5152, 0xc8215c1a);
    RowsMid(1);
    NextRound(25, State(0x1c2c2838, 0xc5d53d8d, 0xa7a3623f, 0xc2606d6d, 0x2823ef91, 0xaa47c347, 0x49f5114a, 0xe1257970), 0xa831c66d, 0xb73679a2);
    RowsMid(2);
    NextRound(26, State(0xcde8037d, 0x1c2c2838, 0xc5d53d8d, 0xa7a3623f, 0x14383d8e, 0x2823ef91, 0xaa47c347, 0x49f5114a), 0xb00327c8, 0xe5bc3909);
    RowsMid(3);
    NextRound(27, State(0xb62ec4bc, 0xcde8037d, 0x1c2c2838, 0xc5d53d8d, 0xc74c6516, 0x14383d8e, 0x2823ef91, 0xaa47c347), 0xbf597fc7, 0x32663c5b);
  }

  lemma Rounds32()
    ensures Rounds(INITIAL, BLOCK, 32)
      == State(0x73b33bf5, 0xea992a22, 0xa0060b30, 0x363482c9, 0xba591112, 0x0109ab3a, 0xade79437, 0x6112a3b7)
  {
    hide Rounds, Schedule, RoundConstant, Rotr;
    Rounds28();
    Words16();
    RowsMid(4);
    NextRound(28, State(0x77d37528, 0xb62ec4bc, 0xcde8037d, 0x1c2c2838, 0xedffbff8, 0xc74c6516, 0x14383d8e, 0x2823ef91), 0xc6e00bf3, 0x9d209d67);
    RowsMid(5);
    NextRound(29, State(0x363482c9, 0x77d37528, 0xb62ec4bc, 0xcde8037d, 0x6112a3b7, 0xedffbff8, 0xc74c6516, 0x14383d8e), 0xd5a79147, 0xec8726cb);
    RowsMid(6);
    NextRound(30, State(0xa0060b30, 0x363482c9, 0x77d37528, 0xb62ec4bc, 0xade79437, 0x6112a3b7, 0xedffbff8, 0xc74c6516), 0x06ca6351, 0x702138a4);
    RowsMid(7);
    NextRound(31, State(0xea992a22, 0xa0060b30, 0x363482c9, 0x77d37528, 0x0109ab3a, 0xade79437, 0x6112a3b7, 0xedffbff8), 0x14292967, 0xd3b7973b);
  }

  lemma Rounds36()
    ensures Rounds(INITIAL, BLOCK, 36)
      == State(0x65a0cfe4, 0xa9a7738c, 0xfe604df5, 0x98e12507, 0xf4b002d6, 0x085f3833, 0x59249dd3, 0x9cd9f5f6)
  {
    hide Rounds, Schedule, RoundConstant, Rotr;
    Rounds32();
    Words32();
    RowsMid(0);
    NextRound(32, State(0x73b33bf5, 0xea992a22, 0xa0060b30, 0x363482c9, 0xba591112, 0x0109ab3a, 0xade79437, 0x6112a3b7), 0x27b70a85, 0x93f5997f);
    RowsMid(1);
    NextRound(33, State(0x98e12507, 0x73b33bf5, 0xea992a22, 0xa0060b30, 0x9cd9f5f6, 0xba591112, 0x0109ab3a, 0xade79437), 0x2e1b2138, 0x3b68ba73);
    RowsMid(2);
    NextRound(34, State(0xfe604df5, 0x98e12507, 0x73b33bf5, 0xea992a22, 0x59249dd3, 0x9cd9f5f6, 0xba591112, 0x0109ab3a), 0x4d2c6dfc, 0xaff4ffc1);
    RowsMid(3);
    NextRound(35, State(0xa9a7738c, 0xfe604df5, 0x98e12507, 0x73b33bf5, 0x085f3833, 0x59249dd3, 0x9cd9f5f6, 0xba591112), 0x53380d13, 0xf10a5c62);
  }

  lemma Rounds40()
    ensures Rounds(INITIAL, BLOCK, 40)
      == State(0x79ea687a, 0x6dc57a8a, 0x34df1604, 0x41a65cb1, 0x1efbc0a0, 0xf0781bc8, 0xa507a53d, 0x0772a26b)
  {
    hide Rounds, Schedule, RoundConstant, Rotr;
    Rounds36();
    Words32();
    RowsMid(4);
    NextRound(36, State(0x65a0cfe4, 0xa9a7738c, 0xfe604df5, 0x98e12507, 0xf4b002d6, 0x085f3833, 0x59249dd3, 0x9cd9f5f6), 0x650a7354, 0x0a8b3996);
    RowsMid(5);
    NextRound(37, State(0x41a65cb1, 0x65a0cfe4, 0xa9a7738c, 0xfe604df5, 0x0772a26b, 0xf4b002d6, 0x085f3833, 0x59249dd3), 0x766a0abb, 0x72af830a);
    RowsMid(6);
    NextRound(38, State(0x34df1604, 0x41a65cb1, 0x65a0cfe4, 0xa9a7738c, 0xa507a53d, 0x0772a26b, 0xf4b002d6, 0x085f3833), 0x81c2c92e, 0x9409e33e);
    RowsMid(7);
    NextRound(39, State(0x6dc57a8a, 0x34df1604, 0x41a65cb1, 0x65a0cfe4, 0xf0781bc8, 0xa507a53d, 0x0772a26b, 0xf4b002d6), 0x92722c85, 0x24641522);
  }

  lemma Rounds44()
    ensures Rounds(INITIAL, BLOCK, 44)
      == State(0x9d4baf93, 0x17aa0dfe, 0xdf46652f, 0xd6670766, 0xfda24c2e, 0xdecd4715, 0x838b2711, 0x26352d63)
  {
    hide Rounds, Schedule, RoundConstant, Rotr;
    Rounds40();
    Words32();
    RowsMid(0);
    NextRound(40, State(0x79ea687a, 0x6dc57a8a, 0x34df1604, 0x41a65cb1, 0x1efbc0a0, 0xf0781bc8, 0xa507a53d, 0x0772a26b), 0xa2bfe8a1, 0x9f47bf94);
    RowsMid(1);
    NextRound(41, State(0xd6670766, 0x79ea687a, 0x6dc57a8a, 0x34df1604, 0x26352d63, 0x1efbc0a0, 0xf0781bc8, 0xa507a53d), 0xa81a664b, 0xf0a64f5a);
    RowsMid(2);
    NextRound(42, State(0xdf46652f, 0xd6670766, 0x79ea687a, 0x6dc57a8a, 0x838b2711, 0x26352d63, 0x1efbc0a0, 0xf0781bc8), 0xc24b8b70, 0x3e246a79);
    RowsMid(3);
    NextRound(43, State(0x17aa0dfe, 0xdf46652f, 0xd6670766, 0x79ea687a, 0xdecd4715, 0x838b2711, 0x26352d63, 0x1efbc0a0), 0xc76c51a3, 0x27333ba3);
  }

  lemma Rounds48()
    ensures Rounds(INITIAL, BLOCK, 48)
      == State(0x4172328d, 0xa14c14b0, 0x72ab4b91, 0x26628815, 0xfecf0bc6, 0xd57b94a9, 0xb7755da1, 0xa80f11f0)
  {
    hide Rounds, Schedule, RoundConstant, Rotr;
    Rounds44();
    Words32();
    RowsMid(4);
    NextRound(44, State(0x9d4baf93, 0x17aa0dfe, 0xdf46652f, 0xd6670766, 0xfda24c2e, 0xdecd4715, 0x838b2711, 0x26352d63), 0xd192e819, 0x0c4763f2);
    RowsMid(5);
    NextRound(45, State(0x26628815, 0x9d4baf93, 0x17aa0dfe, 0xdf46652f, 0xa80f11f0, 0xfda24c2e, 0xdecd4715, 0x838b2711), 0xd6990624, 0x840abf27);
    RowsMid(6);
    NextRound(46, State(0x72ab4b91, 0x26628815, 0x9d4baf93, 0x17aa0dfe, 0xb7755da1, 0xa80f11f0, 0xfda24c2e, 0xdecd4715), 0xf40e3585, 0x7a290d5d);
    RowsMid(7);
    NextRound(47, State(0xa14c14b0, 0x72ab4b91, 0x26628815, 0x9d4baf93, 0xd57b94a9, 0xb7755da1, 0xa80f11f0, 0xfda24c2e), 0x106aa070, 0x065c43da);
  }

  lemma Rounds52()
    ensures Rounds(INITIAL, BLOCK, 52)
      == State(0x886e7a22, 0x7a0508a1, 0xf11bfaa8, 0x05757ceb, 0x49231c1e, 0x52f1ccf7, 0x6e5c390c, 0xbd714038)
  {
    hide Rounds, Schedule, RoundConstant, Rotr;
    Rounds48();
    Words48();
    RowsHigh(0);
    NextRound(48, State(0x4172328d, 0xa14c14b0, 0x72ab4b91, 0x26628815, 0xfecf0bc6, 0xd57b94a9, 0xb7755da1, 0xa80f11f0), 0x19a4c116, 0xfb3e89cb);
    RowsHigh(1);
    NextRound(49, State(0x05757ceb, 0x4172328d, 0xa14c14b0, 0x72ab4b91, 0xbd714038, 0xfecf0bc6, 0xd57b94a9, 0xb7755da1), 0x1e376c08, 0xcc7617db);
    RowsHigh(2);
    NextRound(50, State(0xf11bfaa8, 0x05757ceb, 0x4172328d, 0xa14c14b0, 0x6e5c390c, 0xbd714038, 0xfecf0bc6, 0xd57b94a9), 0x2748774c, 0xb9e66c34);
    RowsHigh(3);
    NextRound(51, State(0x7a0508a1, 0xf11bfaa8, 0x05757ceb, 0x4172328d, 0x52f1ccf7, 0x6e5c390c, 0xbd714038, 0xfecf0bc6), 0x34b0bcb5, 0xa9993667);
  }

  lemma Rounds56()
    ensures Rounds(INITIAL, BLOCK, 56)
      == State(0x38cc9913, 0x3ec45cdb, 0xf5702fdb, 0x101fd28f, 0x54cb266b, 0xe50e1b4f, 0x9f4787c3, 0x529e7d00)
  {
    hide Rounds, Schedule, RoundConstant, Rotr;
    Rounds52();
    Words48();
    RowsHigh(4);
    NextRound(52, State(0x886e7a22, 0x7a0508a1, 0xf11bfaa8, 0x05757ceb, 0x49231c1e, 0x52f1ccf7, 0x6e5c390c, 0xbd714038), 0x391c0cb3, 0x84badedd);
    RowsHigh(5);
    NextRound(53, State(0x101fd28f, 0x886e7a22, 0x7a0508a1, 0xf11bfaa8, 0x529e7d00, 0x49231c1e, 0x52f1ccf7, 0x6e5c390c), 0x4ed8aa4a, 0xc21462bc);
    RowsHigh(6);
    NextRound(54, State(0xf5702fdb, 0x101fd28f, 0x886e7a22, 0x7a0508a1, 0x9f4787c3, 0x529e7d00, 0x49231c1e, 0x52f1ccf7), 0x5b9cca4f, 0x1487472c);
    RowsHigh(7);
    NextRound(55, State(0x3ec45cdb, 0xf5702fdb, 0x101fd28f, 0x886e7a22, 0xe50e1b4f, 0x9f4787c3, 0x529e7d00, 0x49231c1e), 0x682e6ff3, 0xb20f7a99);
  }

  lemma Rounds60()
    ensures Rounds(INITIAL, BLOCK, 60)
      == State(0xb6ae8fff, 0xffb70472, 0xc062d46f, 0xfcd1887b, 0xb21bad3d, 0x6d83bfc6, 0x7e44008e, 0x9b5e906c)
  {
    hide Rounds, Schedule, RoundConstant, Rotr;
    Rounds56();
    Words48();
    RowsHigh(0);
    NextRound(56, State(0x38cc9913, 0x3ec45cdb, 0xf5702fdb, 0x101fd28f, 0x54cb266b, 0xe50e1b4f, 0x9f4787c3, 0x529e7d00), 0x748f82ee, 0xef57b9cd);
    RowsHigh(1);
    NextRound(57, State(0xfcd1887b, 0x38cc9913, 0x3ec45cdb, 0xf5702fdb, 0x9b5e906c, 0x54cb266b, 0xe50e1b4f, 0x9f4787c3), 0x78a5636f, 0xebe6b238);
    RowsHigh(2);
    NextRound(58, State(0xc062d46f, 0xfcd1887b, 0x38cc9913, 0x3ec45cdb, 0x7e44008e, 0x9b5e906c, 0x54cb266b, 0xe50e1b4f), 0x84c87814, 0x9fe3095e);
    RowsHigh(3);
    NextRound(59, State(0xffb70472, 0xc062d46f, 0xfcd1887b, 0x38cc9913, 0x6d83bfc6, 0x7e44008e, 0x9b5e906c, 0x54cb266b), 0x8cc70208, 0x78bc8d4b);
  }

  lemma Rounds64()
    ensures Rounds(INITIAL, BLOCK, 64)
      == State(0x506e3058, 0xd39a2165, 0x04d24d6c, 0xb85e2ce9, 0x5ef50f24, 0xfb121210, 0x948d25b6, 0x961f4894)
  {
    hide Rounds, Schedule, RoundConstant, Rotr;
    Rounds60();
    Words48();
    RowsHigh(4);
    NextRound(60, State(0xb6ae8fff, 0xffb70472, 0xc062d46f, 0xfcd1887b, 0xb21bad3d, 0x6d83bfc6, 0x7e44008e, 0x9b5e906c), 0x90befffa, 0xa43fcf15);
    RowsHigh(5);
    NextRound(61, State(0xb85e2ce9, 0xb6ae8fff, 0xffb70472, 0xc062d46f, 0x961f4894, 0xb21bad3d, 0x6d83bfc6, 0x7e44008e), 0xa4506ceb, 0x668b2ff8);
    RowsHigh(6);
    NextRound(62, State(0x04d24d6c, 0xb85e2ce9, 0xb6ae8fff, 0xffb70472, 0x948d25b6, 0x961f4894, 0xb21bad3d, 0x6d83bfc6), 0xbef9a3f7, 0xeeaba2cc);
    RowsHigh(7);
    NextRound(63, State(0xd39a2165, 0x04d24d6c, 0xb85e2ce9, 0xb6ae8fff, 0xfb121210, 0x948d25b6, 0x961f4894, 0xb21bad3d), 0xc67178f2, 0x12b1edeb);
  }

  lemma FirstRound()
    ensures Rounds(INITIAL, BLOCK, 0) == INITIAL
  {
  }

  lemma OneBlock()
    ensures Blocks(INITIAL, BLOCK) == Add(INITIAL, Rounds(INITIAL, BLOCK, 64))
  {
    hide Rounds, Add;
    assert |BLOCK| == 64;
    assert BLOCK[..0] == [] && BLOCK[0..] == BLOCK;
    assert Blocks(INITIAL, []) == INITIAL;
  }

  lemma WordIs(w: Word, a: Byte, b: Byte, c: Byte, d: Byte)
    requires ((w >> 24) & 0xFF) as Byte == a && ((w >> 16) & 0xFF) as Byte == b
    requires ((w >> 8) & 0xFF) as Byte == c && (w & 0xFF) as Byte == d
    ensures WordBytes(w) == [a, b, c, d]
  {
  }

  /** The digest of "abc". */
  lemma DigestOfAbc()
    ensures Hash(ABC) == [
      0xba, 0x78, 0x16, 0xbf, 0x8f, 0x01, 0xcf, 0xea, 0x41, 0x41, 0x40, 0xde, 0x5d, 0xae, 0x22, 0x23,
      0xb0, 0x03, 0x61, 0xa3, 0x96, 0x17, 0x7a, 0x9c, 0xb4, 0x10, 0xff, 0x61, 0xf2, 0x00, 0x15, 0xad]
  {
    hide Rounds, Blocks, Padded;
    PaddedAbc();
    OneBlock();
    Rounds64();
    var v := State(0xba7816bf, 0x8f01cfea, 0x414140de, 0x5dae2223, 0xb00361a3, 0x96177a9c, 0xb410ff61, 0xf20015ad);
    assert Add(INITIAL, Rounds(INITIAL, BLOCK, 64)) == v;
    WordIs(v.a, 0xba, 0x78, 0x16, 0xbf);
    WordIs(v.b, 0x8f, 0x01, 0xcf, 0xea);
    WordIs(v.c, 0x41, 0x41, 0x40, 0xde);
    WordIs(v.d, 0x5d, 0xae, 0x22, 0x23);
    WordIs(v.e, 0xb0, 0x03, 0x61, 0xa3);
    WordIs(v.f, 0x96, 0x17, 0x7a, 0x9c);
    WordIs(v.g, 0xb4, 0x10, 0xff, 0x61);
    WordIs(v.h, 0xf2, 0x00, 0x15, 0xad);

    assert DigestOf(v) == WordBytes(v.a) + WordBytes(v.b) + WordBytes(v.c) + WordBytes(v.d)
      + WordBytes(v.e) + WordBytes(v.f) + WordBytes(v.g) + WordBytes(v.h);
  }
}
