/** The table-driven CRC-32 and the bit-at-a-time division it stands for (src/core.cpp:294-314). */
module Crc32 {

  function Xor(a: bv32, b: bv32): bv32 { a ^ b }

  function Low(a: bv32): bv32 { a & 1 }

  function Half(a: bv32): bv32 { a >> 1 }

  function LowByte(a: bv32): bv32 { a & 0xFF }

  function UpperBytes(a: bv32): bv32 { a & 0xFFFFFF00 }

  function DropByte(a: bv32): bv32 { a >> 8 }

  /** One step of the reflected division: shift the register right and reduce when a one falls out. */
  function Step(crc: bv32): bv32 {
    if crc & 1 != 0 then 0xEDB88320 ^ (crc >> 1) else crc >> 1
  }

  function Steps(crc: bv32, n: nat): bv32
    decreases n
  {
    if n == 0 then crc else Steps(Step(crc), n - 1)
  }

  // ----- the reference: message bits enter the register one at a time ------------

  /** Feeds the lowest n bits of b, least significant first. */
  function FeedBits(crc: bv32, b: bv32, n: nat): bv32
    decreases n
  {
    if n == 0 then crc else FeedBits(Step(Xor(crc, Low(b))), Half(b), n - 1)
  }

  function FeedBytes(crc: bv32, bytes: seq<bv8>): bv32 {
    if bytes == [] then crc
    else FeedBits(FeedBytes(crc, bytes[..|bytes| - 1]), bytes[|bytes| - 1] as bv32, 8)
  }

  /** CRC-32: initial register all ones, result complemented. */
  function Division(bytes: seq<bv8>): bv32 {
    Xor(FeedBytes(0xFFFFFFFF, bytes), 0xFFFFFFFF)
  }

  // ----- linearity ------------------------------------------------------------------

  lemma XorShift(x: bv32, y: bv32)
    ensures (x ^ y) >> 1 == (x >> 1) ^ (y >> 1)
  {
  }

  lemma ReduceBoth(x: bv32, y: bv32)
    ensures (x ^ y) >> 1 == (0xEDB88320 ^ (x >> 1)) ^ (0xEDB88320 ^ (y >> 1))
  {
  }

  lemma ReduceLeft(x: bv32, y: bv32)
    ensures 0xEDB88320 ^ ((x ^ y) >> 1) == (0xEDB88320 ^ (x >> 1)) ^ (y >> 1)
  {
  }

  lemma ReduceRight(x: bv32, y: bv32)
    ensures 0xEDB88320 ^ ((x ^ y) >> 1) == (x >> 1) ^ (0xEDB88320 ^ (y >> 1))
  {
  }

  lemma XorLowBit(x: bv32, y: bv32)
    ensures x & 1 == 0 || x & 1 == 1
    ensures y & 1 == 0 || y & 1 == 1
    ensures (x ^ y) & 1 == 0 <==> x & 1 == y & 1
  {
  }

  lemma StepOfXor(x: bv32, y: bv32)
    ensures Step(x ^ y) == Step(x) ^ Step(y)
  {
    XorLowBit(x, y);
    if x & 1 == 1 {
      if y & 1 == 1 { ReduceBoth(x, y); } else { ReduceLeft(x, y); }
    } else {
      if y & 1 == 1 { ReduceRight(x, y); } else { XorShift(x, y); }
    }
  }

  /** The division step is linear over exclusive or. */
  lemma StepLinear(x: bv32, y: bv32)
    ensures Step(Xor(x, y)) == Xor(Step(x), Step(y))
  {
    StepOfXor(x, y);
    hide Step;
  }

  lemma {:induction false} StepsLinear(x: bv32, y: bv32, n: nat)
    ensures Steps(Xor(x, y), n) == Xor(Steps(x, n), Steps(y, n))
    decreases n
  {
    hide Step, Xor;
    if n > 0 {
      StepLinear(x, y);
      StepsLinear(Step(x), Step(y), n - 1);
    }
  }

  function Shifted(b: bv32, n: nat): bv32
    decreases n
  {
    if n == 0 then b else Shifted(Half(b), n - 1)
  }

  lemma SplitLowBit(crc: bv32, b: bv32)
    ensures Xor(crc, b) == Xor(Xor(crc, Low(b)), b & 0xFFFFFFFE)
  {
  }

  lemma StepEven(b: bv32)
    ensures Step(b & 0xFFFFFFFE) == Half(b)
  {
  }

  /** Entering one bit at a time or all at once differ by the bits not yet entered. */
  lemma OneBit(crc: bv32, b: bv32)
    ensures Step(Xor(crc, b)) == Xor(Step(Xor(crc, Low(b))), Half(b))
  {
    SplitLowBit(crc, b);
    StepEven(b);
    StepLinear(Xor(crc, Low(b)), b & 0xFFFFFFFE);
    hide Step, Xor, Low, Half;
  }

  lemma {:induction false} BitsAtOnce(crc: bv32, b: bv32, n: nat)
    ensures Steps(Xor(crc, b), n) == Xor(FeedBits(crc, b, n), Shifted(b, n))
    decreases n
  {
    hide Step, Xor, Low, Half;
    if n > 0 {
      OneBit(crc, b);
      BitsAtOnce(Step(Xor(crc, Low(b))), Half(b), n - 1);
    }
  }

  // ----- whole bytes ------------------------------------------------------------------

  /** The lowest n bits of x are zero. */
  predicate LowZero(x: bv32, n: nat)
    decreases n
  {
    n == 0 || (Low(x) == 0 && LowZero(Half(x), n - 1))
  }

  lemma StepOfEven(x: bv32)
    requires Low(x) == 0
    ensures Step(x) == Half(x)
  {
  }

  /** While no one falls out there is nothing to reduce. */
  lemma {:induction false} NoReduction(x: bv32, n: nat)
    requires LowZero(x, n)
    ensures Steps(x, n) == Shifted(x, n)
    decreases n
  {
    hide Step, Low, Half;
    if n > 0 {
      StepOfEven(x);
      NoReduction(Half(x), n - 1);
    }
  }

  function Half4(x: bv32): bv32 { Half(Half(Half(Half(x)))) }

  lemma ShiftedFour(x: bv32, n: nat)
    requires n >= 4
    ensures Shifted(x, n) == Shifted(Half4(x), n - 4)
  {
    hide Half;
    var y := Half(Half(x));
    assert Shifted(x, n) == Shifted(Half(x), n - 1) == Shifted(y, n - 2);
    assert Shifted(y, n - 2) == Shifted(Half(y), n - 3) == Shifted(Half(Half(y)), n - 4);
  }

  lemma LowZeroFour(x: bv32, n: nat)
    requires n >= 4 && Low(x) == 0 && Low(Half(x)) == 0 && Low(Half(Half(x))) == 0 && Low(Half(Half(Half(x)))) == 0
    requires LowZero(Half4(x), n - 4)
    ensures LowZero(x, n)
  {
    hide Half, Low;
    var y := Half(Half(x));
    assert LowZero(Half(y), n - 3);
    assert LowZero(y, n - 2);
    assert LowZero(Half(x), n - 1);
  }

  lemma HalvesAreShifts(x: bv32)
    ensures Half4(Half4(x)) == x >> 8
    ensures x & 0xFF == 0 ==> Low(x) == 0 && Low(Half(x)) == 0 && Low(Half(Half(x))) == 0 && Low(Half(Half(Half(x)))) == 0
    ensures x & 0xFF == 0 ==> Half4(x) & 0xF == 0
  {
  }

  lemma LowNibble(y: bv32)
    requires y & 0xF == 0
    ensures Low(y) == 0 && Low(Half(y)) == 0 && Low(Half(Half(y))) == 0 && Low(Half(Half(Half(y)))) == 0
  {
  }

  lemma ByteClear(x: bv32)
    requires LowByte(x) == 0
    ensures Steps(x, 8) == DropByte(x)
  {
    HalvesAreShifts(x);
    LowNibble(Half4(x));
    hide Half, Half4, Low, Step;
    LowZeroFour(Half4(x), 4);
    LowZeroFour(x, 8);
    NoReduction(x, 8);
    ShiftedFour(x, 8);
    ShiftedFour(Half4(x), 4);
  }

  lemma ByteGone(b: bv8)
    ensures Shifted(b as bv32, 8) == 0
  {
    var x := b as bv32;
    HalvesAreShifts(x);
    ByteShiftsOut(b);
    hide Half, Half4;
    ShiftedFour(x, 8);
    ShiftedFour(Half4(x), 4);
  }

  lemma ByteShiftsOut(b: bv8)
    ensures (b as bv32) >> 8 == 0
  {
  }

  /** Eight steps at once: those of the low byte, exclusive-ored with the rest of the register. */
  lemma TableStep(x: bv32)
    ensures Steps(x, 8) == Xor(Steps(LowByte(x), 8), DropByte(x))
  {
    hide Step, Steps, Xor, LowByte, DropByte, UpperBytes;
    SplitByte(x);
    StepsLinear(LowByte(x), UpperBytes(x), 8);
    ByteClear(UpperBytes(x));
  }

  lemma SplitByte(x: bv32)
    ensures x == Xor(LowByte(x), UpperBytes(x))
    ensures LowByte(UpperBytes(x)) == 0
    ensures DropByte(UpperBytes(x)) == DropByte(x)
  {
  }

  lemma XorZero(x: bv32)
    ensures Xor(x, 0) == x
  {
  }

  /** One table step is feeding the eight bits of the byte. */
  lemma ByteStep(crc: bv32, b: bv8)
    ensures FeedBits(crc, b as bv32, 8) == Xor(Steps(LowByte(Xor(crc, b as bv32)), 8), DropByte(crc))
  {
    hide Steps, Step, FeedBits, Shifted, Xor, LowByte, DropByte;
    BitsAtOnce(crc, b as bv32, 8);
    ByteGone(b);
    XorZero(FeedBits(crc, b as bv32, 8));
    TableStep(Xor(crc, b as bv32));
    HighUntouched(crc, b);
  }

  lemma HighUntouched(crc: bv32, b: bv8)
    ensures DropByte(Xor(crc, b as bv32)) == DropByte(crc)
  {
  }

  // ----- the table and the loop ---------------------------------------------------------

  /** Entry i of the table holds eight division steps of i. */
  ghost predicate IsTable(table: seq<bv32>) {
    |table| == 256 && forall i: nat :: i < 256 ==> table[i] == Steps(i as bv32, 8)
  }

  method BuildTable() returns (table: seq<bv32>)
    ensures IsTable(table)
  {
    hide Step, Steps;
    table := [];
    for i := 0 to 256
      invariant |table| == i && forall k: nat :: k < i ==> table[k] == Steps(k as bv32, 8)
    {
      var crc := i as bv32;
      for bit := 0 to 8
        invariant Steps(crc, 8 - bit) == Steps(i as bv32, 8)
      {
        StepsUnfold(crc, 8 - bit);
        crc := if crc & 1 != 0 then 0xEDB88320 ^ (crc >> 1) else crc >> 1;
      }
      StepsDone(crc);
      table := table + [crc];
    }
  }

  lemma StepsUnfold(crc: bv32, n: nat)
    requires n > 0
    ensures Steps(crc, n) == Steps(if crc & 1 != 0 then 0xEDB88320 ^ (crc >> 1) else crc >> 1, n - 1)
  {
  }

  lemma StepsDone(crc: bv32)
    ensures Steps(crc, 0) == crc
  {
  }

  lemma IndexFits(x: bv32)
    ensures (LowByte(x) as nat) < 256 && ((LowByte(x) as nat) as bv32) == LowByte(x)
  {
  }

  /** The register after one byte, by table lookup. */
  method Lookup(table: seq<bv32>, crc: bv32, b: bv8) returns (next: bv32)
    requires IsTable(table)
    ensures next == FeedBits(crc, b as bv32, 8)
  {
    var x := crc ^ (b as bv32);
    IndexFits(x);
    ByteStep(crc, b);
    hide Step, Steps, FeedBits;
    var index := (x & 0xFF) as nat;
    assert table[index] == Steps(LowByte(x), 8);
    next := table[index] ^ (crc >> 8);
  }

  lemma Complement(x: bv32)
    ensures x ^ 0xFFFFFFFF == Xor(x, 0xFFFFFFFF)
  {
  }

  /** The checksum loop, one table lookup per byte, equals the bit-at-a-time division for every byte string. */
  method Checksum(bytes: seq<bv8>) returns (crc: bv32)
    ensures crc == Division(bytes)
  {
    hide Step, Steps, FeedBits, Xor, IsTable;
    var table := BuildTable();
    crc := 0xFFFFFFFF;
    for i := 0 to |bytes|
      invariant crc == FeedBytes(0xFFFFFFFF, bytes[..i])
    {
      assert bytes[..i + 1][..i] == bytes[..i];
      crc := Lookup(table, crc, bytes[i]);
    }
    assert bytes[..|bytes|] == bytes;
    Complement(crc);
    crc := crc ^ 0xFFFFFFFF;
  }

  // ----- the check value ---------------------------------------------------------------

  /** One bit: what the register holds after it and what is left of the byte. */
  lemma NextBit(crc: bv32, b: bv32, n: nat, after: bv32, left: bv32)
    requires n > 0 && after == Step(Xor(crc, Low(b))) && left == Half(b)
    ensures FeedBits(crc, b, n) == FeedBits(after, left, n - 1)
  {
    hide Step, Xor, Low, Half;
  }

  lemma NextByte(bytes: seq<bv8>, b: bv8, before: bv32, after: bv32)
    requires FeedBytes(0xFFFFFFFF, bytes) == before && FeedBits(before, b as bv32, 8) == after
    ensures FeedBytes(0xFFFFFFFF, bytes + [b]) == after
  {
    hide FeedBits;
    assert (bytes + [b])[..|bytes|] == bytes;
  }

  lemma NoBits(crc: bv32)
    ensures FeedBits(crc, 0, 0) == crc
  {
  }

  lemma Digit1()
    ensures FeedBits(0xFFFFFFFF, 0x31, 8) == 0x7C231048
  {
    hide FeedBits;
    NextBit(0xFFFFFFFF, 0x31, 8, 0x7FFFFFFF, 0x18);
    NextBit(0x7FFFFFFF, 0x18, 7, 0xD2477CDF, 0x0C);
    NextBit(0xD2477CDF, 0x0C, 6, 0x849B3D4F, 0x06);
    NextBit(0x849B3D4F, 0x06, 5, 0xAFF51D87, 0x03);
    NextBit(0xAFF51D87, 0x03, 4, 0x57FA8EC3, 0x01);
    NextBit(0x57FA8EC3, 0x01, 3, 0x2BFD4761, 0x00);
    NextBit(0x2BFD4761, 0x00, 2, 0xF8462090, 0x00);
    NextBit(0xF8462090, 0x00, 1, 0x7C231048, 0x00);
    NoBits(0x7C231048);
  }

  lemma Digit2()
    ensures FeedBits(0x7C231048, 0x32, 8) == 0xB0ACBB32
  {
    hide FeedBits;
    NextBit(0x7C231048, 0x32, 8, 0x3E118824, 0x19);
    NextBit(0x3E118824, 0x19, 7, 0xF2B04732, 0x0C);
    NextBit(0xF2B04732, 0x0C, 6, 0x79582399, 0x06);
    NextBit(0x79582399, 0x06, 5, 0xD11492EC, 0x03);
    NextBit(0xD11492EC, 0x03, 4, 0x8532CA56, 0x01);
    NextBit(0x8532CA56, 0x01, 3, 0xAF21E60B, 0x00);
    NextBit(0xAF21E60B, 0x00, 2, 0xBA287025, 0x00);
    NextBit(0xBA287025, 0x00, 1, 0xB0ACBB32, 0x00);
    NoBits(0xB0ACBB32);
  }

  lemma Digit3()
    ensures FeedBits(0xB0ACBB32, 0x33, 8) == 0x77B79C2D
  {
    hide FeedBits;
    NextBit(0xB0ACBB32, 0x33, 8, 0xB5EEDEB9, 0x19);
    NextBit(0xB5EEDEB9, 0x19, 7, 0x5AF76F5C, 0x0C);
    NextBit(0x5AF76F5C, 0x0C, 6, 0x2D7BB7AE, 0x06);
    NextBit(0x2D7BB7AE, 0x06, 5, 0x16BDDBD7, 0x03);
    NextBit(0x16BDDBD7, 0x03, 4, 0x0B5EEDEB, 0x01);
    NextBit(0x0B5EEDEB, 0x01, 3, 0x05AF76F5, 0x00);
    NextBit(0x05AF76F5, 0x00, 2, 0xEF6F385A, 0x00);
    NextBit(0xEF6F385A, 0x00, 1, 0x77B79C2D, 0x00);
    NoBits(0x77B79C2D);
  }

  lemma Digit4()
    ensures FeedBits(0x77B79C2D, 0x34, 8) == 0x641C1F5C
  {
    hide FeedBits;
    NextBit(0x77B79C2D, 0x34, 8, 0xD6634D36, 0x1A);
    NextBit(0xD6634D36, 0x1A, 7, 0x6B31A69B, 0x0D);
    NextBit(0x6B31A69B, 0x0D, 6, 0x3598D34D, 0x06);
    NextBit(0x3598D34D, 0x06, 5, 0xF774EA86, 0x03);
    NextBit(0xF774EA86, 0x03, 4, 0x9602F663, 0x01);
    NextBit(0x9602F663, 0x01, 3, 0x4B017B31, 0x00);
    NextBit(0x4B017B31, 0x00, 2, 0xC8383EB8, 0x00);
    NextBit(0xC8383EB8, 0x00, 1, 0x641C1F5C, 0x00);
    NoBits(0x641C1F5C);
  }

  lemma Digit5()
    ensures FeedBits(0x641C1F5C, 0x35, 8) == 0x340AC5E3
  {
    hide FeedBits;
    NextBit(0x641C1F5C, 0x35, 8, 0xDFB68C8E, 0x1A);
    NextBit(0xDFB68C8E, 0x1A, 7, 0x6FDB4647, 0x0D);
    NextBit(0x6FDB4647, 0x0D, 6, 0x37EDA323, 0x06);
    NextBit(0x37EDA323, 0x06, 5, 0xF64E52B1, 0x03);
    NextBit(0xF64E52B1, 0x03, 4, 0x7B272958, 0x01);
    NextBit(0x7B272958, 0x01, 3, 0xD02B178C, 0x00);
    NextBit(0xD02B178C, 0x00, 2, 0x68158BC6, 0x00);
    NextBit(0x68158BC6, 0x00, 1, 0x340AC5E3, 0x00);
    NoBits(0x340AC5E3);
  }

  lemma Digit6()
    ensures FeedBits(0x340AC5E3, 0x36, 8) == 0xF68D2C9E
  {
    hide FeedBits;
    NextBit(0x340AC5E3, 0x36, 8, 0xF7BDE1D1, 0x1B);
    NextBit(0xF7BDE1D1, 0x1B, 7, 0x7BDEF0E8, 0x0D);
    NextBit(0x7BDEF0E8, 0x0D, 6, 0xD057FB54, 0x06);
    NextBit(0xD057FB54, 0x06, 5, 0x682BFDAA, 0x03);
    NextBit(0x682BFDAA, 0x03, 4, 0xD9AD7DF5, 0x01);
    NextBit(0xD9AD7DF5, 0x01, 3, 0x6CD6BEFA, 0x00);
    NextBit(0x6CD6BEFA, 0x00, 2, 0x366B5F7D, 0x00);
    NextBit(0x366B5F7D, 0x00, 1, 0xF68D2C9E, 0x00);
    NoBits(0xF68D2C9E);
  }

  lemma Digit7()
    ensures FeedBits(0xF68D2C9E, 0x37, 8) == 0xAFFC9660
  {
    hide FeedBits;
    NextBit(0xF68D2C9E, 0x37, 8, 0x96FE156F, 0x1B);
    NextBit(0x96FE156F, 0x1B, 7, 0x4B7F0AB7, 0x0D);
    NextBit(0x4B7F0AB7, 0x0D, 6, 0x25BF855B, 0x06);
    NextBit(0x25BF855B, 0x06, 5, 0xFF67418D, 0x03);
    NextBit(0xFF67418D, 0x03, 4, 0x7FB3A0C6, 0x01);
    NextBit(0x7FB3A0C6, 0x01, 3, 0xD2615343, 0x00);
    NextBit(0xD2615343, 0x00, 2, 0x84882A81, 0x00);
    NextBit(0x84882A81, 0x00, 1, 0xAFFC9660, 0x00);
    NoBits(0xAFFC9660);
  }

  lemma Digit8()
    ensures FeedBits(0xAFFC9660, 0x38, 8) == 0x651F2550
  {
    hide FeedBits;
    NextBit(0xAFFC9660, 0x38, 8, 0x57FE4B30, 0x1C);
    NextBit(0x57FE4B30, 0x1C, 7, 0x2BFF2598, 0x0E);
    NextBit(0x2BFF2598, 0x0E, 6, 0x15FF92CC, 0x07);
    NextBit(0x15FF92CC, 0x07, 5, 0xE7474A46, 0x03);
    NextBit(0xE7474A46, 0x03, 4, 0x9E1B2603, 0x01);
    NextBit(0x9E1B2603, 0x01, 3, 0x4F0D9301, 0x00);
    NextBit(0x4F0D9301, 0x00, 2, 0xCA3E4AA0, 0x00);
    NextBit(0xCA3E4AA0, 0x00, 1, 0x651F2550, 0x00);
    NoBits(0x651F2550);
  }

  lemma Digit9()
    ensures FeedBits(0x651F2550, 0x39, 8) == 0x340BC6D9
  {
    hide FeedBits;
    NextBit(0x651F2550, 0x39, 8, 0xDF371188, 0x1C);
    NextBit(0xDF371188, 0x1C, 7, 0x6F9B88C4, 0x0E);
    NextBit(0x6F9B88C4, 0x0E, 6, 0x37CDC462, 0x07);
    NextBit(0x37CDC462, 0x07, 5, 0xF65E6111, 0x03);
    NextBit(0xF65E6111, 0x03, 4, 0x7B2F3088, 0x01);
    NextBit(0x7B2F3088, 0x01, 3, 0xD02F1B64, 0x00);
    NextBit(0xD02F1B64, 0x00, 2, 0x68178DB2, 0x00);
    NextBit(0x68178DB2, 0x00, 1, 0x340BC6D9, 0x00);
    NoBits(0x340BC6D9);
  }

  /** The checksum of the characters "123456789" is the check value of CRC-32. */
  lemma CheckValue()
    ensures Division([0x31, 0x32, 0x33, 0x34, 0x35, 0x36, 0x37, 0x38, 0x39]) == 0xCBF43926
  {
    hide FeedBits, FeedBytes;
    NoBytes(0xFFFFFFFF);
    var bytes: seq<bv8> := [];
    Digit1();
    NextByte(bytes, 0x31, 0xFFFFFFFF, 0x7C231048);
    bytes := bytes + [0x31];
    Digit2();
    NextByte(bytes, 0x32, 0x7C231048, 0xB0ACBB32);
    bytes := bytes + [0x32];
    Digit3();
    NextByte(bytes, 0x33, 0xB0ACBB32, 0x77B79C2D);
    bytes := bytes + [0x33];
    Digit4();
    NextByte(bytes, 0x34, 0x77B79C2D, 0x641C1F5C);
    bytes := bytes + [0x34];
    Digit5();
    NextByte(bytes, 0x35, 0x641C1F5C, 0x340AC5E3);
    bytes := bytes + [0x35];
    Digit6();
    NextByte(bytes, 0x36, 0x340AC5E3, 0xF68D2C9E);
    bytes := bytes + [0x36];
    Digit7();
    NextByte(bytes, 0x37, 0xF68D2C9E, 0xAFFC9660);
    bytes := bytes + [0x37];
    Digit8();
    NextByte(bytes, 0x38, 0xAFFC9660, 0x651F2550);
    bytes := bytes + [0x38];
    Digit9();
    NextByte(bytes, 0x39, 0x651F2550, 0x340BC6D9);
    bytes := bytes + [0x39];
    assert bytes == [0x31, 0x32, 0x33, 0x34, 0x35, 0x36, 0x37, 0x38, 0x39];
  }

  lemma NoBytes(crc: bv32)
    ensures FeedBytes(crc, []) == crc
  {
  }
}
