/** The table-driven CRC-32 and the bit-at-a-time definition it stands for. */
module Crc32 {

  const POLYNOMIAL: bv32 := 0xedb8_8320

  function Xor(a: bv32, b: bv32): bv32 {
    a ^ b
  }

  function Half(a: bv32): bv32 {
    a >> 1
  }

  predicate Odd(a: bv32) {
    a & 1 == 1
  }

  /** One bit of the reflected CRC: shift right, and subtract the polynomial if a 1 fell out. */
  function BitStep(c: bv32): bv32 {
    if Odd(c) then Xor(Half(c), POLYNOMIAL) else Half(c)
  }

  function EightSteps(c: bv32): bv32 {
    BitStep(BitStep(BitStep(BitStep(BitStep(BitStep(BitStep(BitStep(c))))))))
  }

  // The table, sixteen entries to a row.

  function R0(): (r: seq<bv32>)
    ensures |r| == 16
  {
    [0x00000000, 0x77073096, 0xee0e612c, 0x990951ba, 0x076dc419, 0x706af48f, 0xe963a535, 0x9e6495a3,
      0x0edb8832, 0x79dcb8a4, 0xe0d5e91e, 0x97d2d988, 0x09b64c2b, 0x7eb17cbd, 0xe7b82d07, 0x90bf1d91]
  }

  function R1(): (r: seq<bv32>)
    ensures |r| == 16
  {
    [0x1db71064, 0x6ab020f2, 0xf3b97148, 0x84be41de, 0x1adad47d, 0x6ddde4eb, 0xf4d4b551, 0x83d385c7,
      0x136c9856, 0x646ba8c0, 0xfd62f97a, 0x8a65c9ec, 0x14015c4f, 0x63066cd9, 0xfa0f3d63, 0x8d080df5]
  }

  function R2(): (r: seq<bv32>)
    ensures |r| == 16
  {
    [0x3b6e20c8, 0x4c69105e, 0xd56041e4, 0xa2677172, 0x3c03e4d1, 0x4b04d447, 0xd20d85fd, 0xa50ab56b,
      0x35b5a8fa, 0x42b2986c, 0xdbbbc9d6, 0xacbcf940, 0x32d86ce3, 0x45df5c75, 0xdcd60dcf, 0xabd13d59]
  }

  function R3(): (r: seq<bv32>)
    ensures |r| == 16
  {
    [0x26d930ac, 0x51de003a, 0xc8d75180, 0xbfd06116, 0x21b4f4b5, 0x56b3c423, 0xcfba9599, 0xb8bda50f,
      0x2802b89e, 0x5f058808, 0xc60cd9b2, 0xb10be924, 0x2f6f7c87, 0x58684c11, 0xc1611dab, 0xb6662d3d]
  }

  function R4(): (r: seq<bv32>)
    ensures |r| == 16
  {
    [0x76dc4190, 0x01db7106, 0x98d220bc, 0xefd5102a, 0x71b18589, 0x06b6b51f, 0x9fbfe4a5, 0xe8b8d433,
      0x7807c9a2, 0x0f00f934, 0x9609a88e, 0xe10e9818, 0x7f6a0dbb, 0x086d3d2d, 0x91646c97, 0xe6635c01]
  }

  function R5(): (r: seq<bv32>)
    ensures |r| == 16
  {
    [0x6b6b51f4, 0x1c6c6162, 0x856530d8, 0xf262004e, 0x6c0695ed, 0x1b01a57b, 0x8208f4c1, 0xf50fc457,
      0x65b0d9c6, 0x12b7e950, 0x8bbeb8ea, 0xfcb9887c, 0x62dd1ddf, 0x15da2d49, 0x8cd37cf3, 0xfbd44c65]
  }

  function R6(): (r: seq<bv32>)
    ensures |r| == 16
  {
    [0x4db26158, 0x3ab551ce, 0xa3bc0074, 0xd4bb30e2, 0x4adfa541, 0x3dd895d7, 0xa4d1c46d, 0xd3d6f4fb,
      0x4369e96a, 0x346ed9fc, 0xad678846, 0xda60b8d0, 0x44042d73, 0x33031de5, 0xaa0a4c5f, 0xdd0d7cc9]
  }

  function R7(): (r: seq<bv32>)
    ensures |r| == 16
  {
    [0x5005713c, 0x270241aa, 0xbe0b1010, 0xc90c2086, 0x5768b525, 0x206f85b3, 0xb966d409, 0xce61e49f,
      0x5edef90e, 0x29d9c998, 0xb0d09822, 0xc7d7a8b4, 0x59b33d17, 0x2eb40d81, 0xb7bd5c3b, 0xc0ba6cad]
  }

  function R8(): (r: seq<bv32>)
    ensures |r| == 16
  {
    [0xedb88320, 0x9abfb3b6, 0x03b6e20c, 0x74b1d29a, 0xead54739, 0x9dd277af, 0x04db2615, 0x73dc1683,
      0xe3630b12, 0x94643b84, 0x0d6d6a3e, 0x7a6a5aa8, 0xe40ecf0b, 0x9309ff9d, 0x0a00ae27, 0x7d079eb1]
  }

  function R9(): (r: seq<bv32>)
    ensures |r| == 16
  {
    [0xf00f9344, 0x8708a3d2, 0x1e01f268, 0x6906c2fe, 0xf762575d, 0x806567cb, 0x196c3671, 0x6e6b06e7,
      0xfed41b76, 0x89d32be0, 0x10da7a5a, 0x67dd4acc, 0xf9b9df6f, 0x8ebeeff9, 0x17b7be43, 0x60b08ed5]
  }

  function RA(): (r: seq<bv32>)
    ensures |r| == 16
  {
    [0xd6d6a3e8, 0xa1d1937e, 0x38d8c2c4, 0x4fdff252, 0xd1bb67f1, 0xa6bc5767, 0x3fb506dd, 0x48b2364b,
      0xd80d2bda, 0xaf0a1b4c, 0x36034af6, 0x41047a60, 0xdf60efc3, 0xa867df55, 0x316e8eef, 0x4669be79]
  }

  function RB(): (r: seq<bv32>)
    ensures |r| == 16
  {
    [0xcb61b38c, 0xbc66831a, 0x256fd2a0, 0x5268e236, 0xcc0c7795, 0xbb0b4703, 0x220216b9, 0x5505262f,
      0xc5ba3bbe, 0xb2bd0b28, 0x2bb45a92, 0x5cb36a04, 0xc2d7ffa7, 0xb5d0cf31, 0x2cd99e8b, 0x5bdeae1d]
  }

  function RC(): (r: seq<bv32>)
    ensures |r| == 16
  {
    [0x9b64c2b0, 0xec63f226, 0x756aa39c, 0x026d930a, 0x9c0906a9, 0xeb0e363f, 0x72076785, 0x05005713,
      0x95bf4a82, 0xe2b87a14, 0x7bb12bae, 0x0cb61b38, 0x92d28e9b, 0xe5d5be0d, 0x7cdcefb7, 0x0bdbdf21]
  }

  function RD(): (r: seq<bv32>)
    ensures |r| == 16
  {
    [0x86d3d2d4, 0xf1d4e242, 0x68ddb3f8, 0x1fda836e, 0x81be16cd, 0xf6b9265b, 0x6fb077e1, 0x18b74777,
      0x88085ae6, 0xff0f6a70, 0x66063bca, 0x11010b5c, 0x8f659eff, 0xf862ae69, 0x616bffd3, 0x166ccf45]
  }

  function RE(): (r: seq<bv32>)
    ensures |r| == 16
  {
    [0xa00ae278, 0xd70dd2ee, 0x4e048354, 0x3903b3c2, 0xa7672661, 0xd06016f7, 0x4969474d, 0x3e6e77db,
      0xaed16a4a, 0xd9d65adc, 0x40df0b66, 0x37d83bf0, 0xa9bcae53, 0xdebb9ec5, 0x47b2cf7f, 0x30b5ffe9]
  }

  function RF(): (r: seq<bv32>)
    ensures |r| == 16
  {
    [0xbdbdf21c, 0xcabac28a, 0x53b39330, 0x24b4a3a6, 0xbad03605, 0xcdd70693, 0x54de5729, 0x23d967bf,
      0xb3667a2e, 0xc4614ab8, 0x5d681b02, 0x2a6f2b94, 0xb40bbe37, 0xc30c8ea1, 0x5a05df1b, 0x2d02ef8d]
  }

  // Subscripts of the table are bit vectors: four bits choose the row, four the entry.

  function At(row: seq<bv32>, j: bv32): bv32
    requires |row| == 16
  {
    if j == 0 then row[0] else if j == 1 then row[1] else if j == 2 then row[2] else if j == 3 then row[3] else
    if j == 4 then row[4] else if j == 5 then row[5] else if j == 6 then row[6] else if j == 7 then row[7] else
    if j == 8 then row[8] else if j == 9 then row[9] else if j == 10 then row[10] else if j == 11 then row[11] else
    if j == 12 then row[12] else if j == 13 then row[13] else if j == 14 then row[14] else row[15]
  }

  function RowOf(h: bv32): (r: seq<bv32>)
    ensures |r| == 16
  {
    if h == 0 then R0() else if h == 1 then R1() else if h == 2 then R2() else if h == 3 then R3() else
    if h == 4 then R4() else if h == 5 then R5() else if h == 6 then R6() else if h == 7 then R7() else
    if h == 8 then R8() else if h == 9 then R9() else if h == 10 then RA() else if h == 11 then RB() else
    if h == 12 then RC() else if h == 13 then RD() else if h == 14 then RE() else RF()
  }

  function Entry(i: bv32): bv32 {
    At(RowOf(i >> 4), i & 15)
  }

  // ------------------------------------------------------------------
  // All 256 entries are eight bit steps of their index

  lemma OddXor(a: bv32, b: bv32)
    ensures Odd(Xor(a, b)) == (Odd(a) != Odd(b))
  {
  }

  lemma HalfXor(a: bv32, b: bv32)
    ensures Half(Xor(a, b)) == Xor(Half(a), Half(b))
  {
  }

  lemma XorAssoc(a: bv32, b: bv32, c: bv32)
    ensures Xor(Xor(a, b), c) == Xor(a, Xor(b, c))
  {
  }

  lemma XorSwap(a: bv32, b: bv32, c: bv32)
    ensures Xor(Xor(a, b), c) == Xor(Xor(a, c), b)
  {
    assert Xor(b, c) == Xor(c, b);
    hide Xor;
    XorAssoc(a, b, c);
    XorAssoc(a, c, b);
  }

  lemma XorSelf(a: bv32, b: bv32)
    ensures Xor(Xor(a, b), b) == a
  {
  }

  /** Steps commute with exclusive or. */
  lemma BitStepLinear(a: bv32, b: bv32)
    ensures BitStep(Xor(a, b)) == Xor(BitStep(a), BitStep(b))
  {
    hide Xor, Half, Odd;
    OddXor(a, b);
    HalfXor(a, b);
    var h, k, p := Half(a), Half(b), POLYNOMIAL;
    XorSwap(h, p, k);
    XorAssoc(h, k, p);
    XorAssoc(Xor(h, p), k, p);
    XorSelf(Xor(h, k), p);
  }

  lemma Linear(a: bv32, b: bv32)
    ensures EightSteps(Xor(a, b)) == Xor(EightSteps(a), EightSteps(b))
  {
    hide BitStep, Xor;
    var a1, b1 := BitStep(a), BitStep(b);
    var a2, b2 := BitStep(a1), BitStep(b1);
    var a3, b3 := BitStep(a2), BitStep(b2);
    var a4, b4 := BitStep(a3), BitStep(b3);
    var a5, b5 := BitStep(a4), BitStep(b4);
    var a6, b6 := BitStep(a5), BitStep(b5);
    var a7, b7 := BitStep(a6), BitStep(b6);
    BitStepLinear(a, b);
    BitStepLinear(a1, b1);
    BitStepLinear(a2, b2);
    BitStepLinear(a3, b3);
    BitStepLinear(a4, b4);
    BitStepLinear(a5, b5);
    BitStepLinear(a6, b6);
    BitStepLinear(a7, b7);
  }

  /** The entries of a row belong to the indices that have the bits `f` in common. */
  predicate Right(row: seq<bv32>, f: bv32)
    requires |row| == 16
  {
    && row[0] == EightSteps(Xor(f, 0)) && row[1] == EightSteps(Xor(f, 1))
    && row[2] == EightSteps(Xor(f, 2)) && row[3] == EightSteps(Xor(f, 3))
    && row[4] == EightSteps(Xor(f, 4)) && row[5] == EightSteps(Xor(f, 5))
    && row[6] == EightSteps(Xor(f, 6)) && row[7] == EightSteps(Xor(f, 7))
    && row[8] == EightSteps(Xor(f, 8)) && row[9] == EightSteps(Xor(f, 9))
    && row[10] == EightSteps(Xor(f, 10)) && row[11] == EightSteps(Xor(f, 11))
    && row[12] == EightSteps(Xor(f, 12)) && row[13] == EightSteps(Xor(f, 13))
    && row[14] == EightSteps(Xor(f, 14)) && row[15] == EightSteps(Xor(f, 15))
  }

  // The single bits of the low half of an index.

  lemma BitNone()
    ensures EightSteps(0) == R0()[0]
  {
  }

  lemma Bit1()
    ensures EightSteps(1) == R0()[1]
  {
  }

  lemma Bit2()
    ensures EightSteps(2) == R0()[2]
  {
  }

  lemma Bit4()
    ensures EightSteps(4) == R0()[4]
  {
  }

  lemma Bit8()
    ensures EightSteps(8) == R0()[8]
  {
  }

  /** The entry at `i ^ j` is the exclusive or of the entries at `i` and at `j`. */
  lemma Entries(i: bv32, j: bv32, k: bv32, x: bv32, y: bv32, z: bv32)
    requires Xor(i, j) == k && EightSteps(i) == x && EightSteps(j) == y && Xor(x, y) == z
    ensures EightSteps(k) == z
  {
    hide EightSteps, Xor;
    Linear(i, j);
  }

  lemma Row0()
    ensures Right(R0(), 0)
  {
    hide EightSteps;
    BitNone();
    Bit1();
    Bit2();
    Bit4();
    Bit8();
    var r := R0();
    Entries(2, 1, 3, r[2], r[1], r[3]);
    Entries(4, 1, 5, r[4], r[1], r[5]);
    Entries(4, 2, 6, r[4], r[2], r[6]);
    Entries(4, 3, 7, r[4], r[3], r[7]);
    Entries(8, 1, 9, r[8], r[1], r[9]);
    Entries(8, 2, 10, r[8], r[2], r[10]);
    Entries(8, 3, 11, r[8], r[3], r[11]);
    Entries(8, 4, 12, r[8], r[4], r[12]);
    Entries(8, 5, 13, r[8], r[5], r[13]);
    Entries(8, 6, 14, r[8], r[6], r[14]);
    Entries(8, 7, 15, r[8], r[7], r[15]);
  }

  /** A row is the first row, moved by its own first entry. */
  predicate Moved(row: seq<bv32>)
    requires |row| == 16
  {
    && row[0] == Xor(row[0], R0()[0]) && row[1] == Xor(row[0], R0()[1])
    && row[2] == Xor(row[0], R0()[2]) && row[3] == Xor(row[0], R0()[3])
    && row[4] == Xor(row[0], R0()[4]) && row[5] == Xor(row[0], R0()[5])
    && row[6] == Xor(row[0], R0()[6]) && row[7] == Xor(row[0], R0()[7])
    && row[8] == Xor(row[0], R0()[8]) && row[9] == Xor(row[0], R0()[9])
    && row[10] == Xor(row[0], R0()[10]) && row[11] == Xor(row[0], R0()[11])
    && row[12] == Xor(row[0], R0()[12]) && row[13] == Xor(row[0], R0()[13])
    && row[14] == Xor(row[0], R0()[14]) && row[15] == Xor(row[0], R0()[15])
  }

  lemma MovedRow(row: seq<bv32>, f: bv32)
    requires |row| == 16 && Moved(row) && EightSteps(f) == row[0]
    ensures Right(row, f)
  {
    hide EightSteps;
    Row0();
    ZeroFirst();
    hide Xor;
    Linear(f, 0); Linear(f, 1); Linear(f, 2); Linear(f, 3);
    Linear(f, 4); Linear(f, 5); Linear(f, 6); Linear(f, 7);
    Linear(f, 8); Linear(f, 9); Linear(f, 10); Linear(f, 11);
    Linear(f, 12); Linear(f, 13); Linear(f, 14); Linear(f, 15);
  }

  lemma ZeroFirst()
    ensures forall k: bv32 :: Xor(0, k) == k
  {
  }

  lemma Row1()
    ensures Right(R1(), 16)
  {
    MovedRow(R1(), 16);
  }

  lemma Row2()
    ensures Right(R2(), 32)
  {
    MovedRow(R2(), 32);
  }

  lemma Row3()
    ensures Right(R3(), 48)
  {
    MovedRow(R3(), 48);
  }

  lemma Row4()
    ensures Right(R4(), 64)
  {
    MovedRow(R4(), 64);
  }

  lemma Row5()
    ensures Right(R5(), 80)
  {
    MovedRow(R5(), 80);
  }

  lemma Row6()
    ensures Right(R6(), 96)
  {
    MovedRow(R6(), 96);
  }

  lemma Row7()
    ensures Right(R7(), 112)
  {
    MovedRow(R7(), 112);
  }

  lemma Row8()
    ensures Right(R8(), 128)
  {
    MovedRow(R8(), 128);
  }

  lemma Row9()
    ensures Right(R9(), 144)
  {
    MovedRow(R9(), 144);
  }

  lemma RowA()
    ensures Right(RA(), 160)
  {
    MovedRow(RA(), 160);
  }

  lemma RowB()
    ensures Right(RB(), 176)
  {
    MovedRow(RB(), 176);
  }

  lemma RowC()
    ensures Right(RC(), 192)
  {
    MovedRow(RC(), 192);
  }

  lemma RowD()
    ensures Right(RD(), 208)
  {
    MovedRow(RD(), 208);
  }

  lemma RowE()
    ensures Right(RE(), 224)
  {
    MovedRow(RE(), 224);
  }

  lemma RowF()
    ensures Right(RF(), 240)
  {
    MovedRow(RF(), 240);
  }

  lemma InRow(row: seq<bv32>, f: bv32, j: bv32)
    requires |row| == 16 && j < 16 && Right(row, f)
    ensures At(row, j) == EightSteps(Xor(f, j))
  {
    hide EightSteps, Xor;
    Nibble(j);
  }

  lemma Nibble(j: bv32)
    requires j < 16
    ensures j == 0 || j == 1 || j == 2 || j == 3 || j == 4 || j == 5 || j == 6 || j == 7
            || j == 8 || j == 9 || j == 10 || j == 11 || j == 12 || j == 13 || j == 14 || j == 15
  {
  }

  lemma Split(i: bv32)
    requires i < 256
    ensures i >> 4 < 16 && i & 15 < 16 && i == Xor(HighBits(i >> 4), i & 15)
  {
  }

  function HighBits(h: bv32): bv32 {
    h << 4
  }

  lemma EveryRow(h: bv32)
    requires h < 16
    ensures Right(RowOf(h), HighBits(h))
  {
    Nibbles();
    hide EightSteps, Right, HighBits, R0, R1, R2, R3, R4, R5, R6, R7, R8, R9, RA, RB, RC, RD, RE, RF;
    Nibble(h);
    if h == 0 { Row0(); } else if h == 1 { Row1(); } else if h == 2 { Row2(); } else if h == 3 { Row3(); }
    else if h == 4 { Row4(); } else if h == 5 { Row5(); } else if h == 6 { Row6(); } else if h == 7 { Row7(); }
    else if h == 8 { Row8(); } else if h == 9 { Row9(); } else if h == 10 { RowA(); } else if h == 11 { RowB(); }
    else if h == 12 { RowC(); } else if h == 13 { RowD(); } else if h == 14 { RowE(); } else { RowF(); }
  }

  lemma Nibbles()
    ensures HighBits(0) == 0 && HighBits(1) == 16 && HighBits(2) == 32 && HighBits(3) == 48 && HighBits(4) == 64
    ensures HighBits(5) == 80 && HighBits(6) == 96 && HighBits(7) == 112 && HighBits(8) == 128 && HighBits(9) == 144
    ensures HighBits(10) == 160 && HighBits(11) == 176 && HighBits(12) == 192
    ensures HighBits(13) == 208 && HighBits(14) == 224 && HighBits(15) == 240
  {
  }

  /** Every entry of the table is eight bit steps of its index. */
  lemma EveryEntry(i: bv32)
    requires i < 256
    ensures Entry(i) == EightSteps(i)
  {
    hide EightSteps, Right, At, Xor, HighBits, RowOf;
    Split(i);
    EveryRow(i >> 4);
    InRow(RowOf(i >> 4), HighBits(i >> 4), i & 15);
  }

  // ------------------------------------------------------------------
  // The reference: the message bit by bit, lowest bit of each byte first

  function BitIn(c: bv32, bit: bool): bv32 {
    if Odd(c) != bit then Xor(Half(c), POLYNOMIAL) else Half(c)
  }

  function BitsIn(c: bv32, bits: seq<bool>): bv32
    decreases |bits|
  {
    if bits == [] then c else BitsIn(BitIn(c, bits[0]), bits[1..])
  }

  /** `y` and the values its bits move through as it is shifted out. */
  function Shifted(y: bv32): (s: seq<bv32>)
    ensures |s| == 9
  {
    var y1 := Half(y);
    var y2 := Half(y1);
    var y3 := Half(y2);
    var y4 := Half(y3);
    var y5 := Half(y4);
    var y6 := Half(y5);
    var y7 := Half(y6);
    [y, y1, y2, y3, y4, y5, y6, y7, Half(y7)]
  }

  function BitsOfByte(b: bv8): (s: seq<bool>)
    ensures |s| == 8
  {
    var t := Shifted(b as bv32);
    [Odd(t[0]), Odd(t[1]), Odd(t[2]), Odd(t[3]), Odd(t[4]), Odd(t[5]), Odd(t[6]), Odd(t[7])]
  }

  function BitsOf(s: seq<bv8>): seq<bool> {
    if s == [] then [] else BitsOf(s[..|s| - 1]) + BitsOfByte(s[|s| - 1])
  }

  /** The bit-at-a-time CRC-32: all ones to begin with, complemented at the end. */
  function Reference(s: seq<bv8>): bv32 {
    Complement(Fed(s))
  }

  function Complement(c: bv32): bv32 {
    c ^ 0xffff_ffff
  }

  /** The register after all bits of some bytes. */
  function Fed(s: seq<bv8>): bv32 {
    BitsIn(0xffff_ffff, BitsOf(s))
  }

  lemma {:induction false} BitsInAppend(c: bv32, a: seq<bool>, b: seq<bool>)
    ensures BitsIn(c, a + b) == BitsIn(BitsIn(c, a), b)
    decreases |a|
  {
    hide BitIn;
    if a == [] {
      assert a + b == b;
    } else {
      assert (a + b)[1..] == a[1..] + b;
      BitsInAppend(BitIn(c, a[0]), a[1..], b);
    }
  }

  function EightBits(c: bv32, s: seq<bool>): bv32
    requires |s| == 8
  {
    BitIn(BitIn(BitIn(BitIn(BitIn(BitIn(BitIn(BitIn(c, s[0]), s[1]), s[2]), s[3]), s[4]), s[5]), s[6]), s[7])
  }

  lemma EightBitsIn(c: bv32, s: seq<bool>)
    requires |s| == 8
    ensures BitsIn(c, s) == EightBits(c, s)
  {
    hide BitIn;
    var c1 := BitIn(c, s[0]);
    var c2 := BitIn(c1, s[1]);
    var c3 := BitIn(c2, s[2]);
    var c4 := BitIn(c3, s[3]);
    var c5 := BitIn(c4, s[4]);
    var c6 := BitIn(c5, s[5]);
    var c7 := BitIn(c6, s[6]);
    OneBit(c, s, 0);
    OneBit(c1, s, 1);
    OneBit(c2, s, 2);
    OneBit(c3, s, 3);
    OneBit(c4, s, 4);
    OneBit(c5, s, 5);
    OneBit(c6, s, 6);
    OneBit(c7, s, 7);
    assert s[0..] == s && s[8..] == [];
  }

  lemma OneBit(c: bv32, s: seq<bool>, k: nat)
    requires k < |s|
    ensures BitsIn(c, s[k..]) == BitsIn(BitIn(c, s[k]), s[k + 1..])
  {
    assert s[k..][1..] == s[k + 1..];
  }

  /** A bit from the message is a bit of the register flipped. */
  lemma OneStep(c: bv32, y: bv32)
    ensures BitStep(Xor(c, y)) == Xor(BitIn(c, Odd(y)), Half(y))
  {
    hide Xor, Half, Odd;
    OddXor(c, y);
    HalfXor(c, y);
    XorSwap(Half(c), Half(y), POLYNOMIAL);
  }

  lemma ByteGone(b: bv8, c: bv32)
    ensures Xor(c, Shifted(b as bv32)[8]) == c
  {
  }

  /** Feeding a byte bit by bit is mixing it in and then taking eight steps. */
  lemma ByteIn(c: bv32, b: bv8)
    ensures EightBits(c, BitsOfByte(b)) == EightSteps(Xor(c, b as bv32))
  {
    hide BitStep, BitIn, Xor, Half, Odd;
    var t := Shifted(b as bv32);
    var bits := BitsOfByte(b);
    var c1 := BitIn(c, bits[0]);
    var c2 := BitIn(c1, bits[1]);
    var c3 := BitIn(c2, bits[2]);
    var c4 := BitIn(c3, bits[3]);
    var c5 := BitIn(c4, bits[4]);
    var c6 := BitIn(c5, bits[5]);
    var c7 := BitIn(c6, bits[6]);
    OneStep(c, t[0]);
    OneStep(c1, t[1]);
    OneStep(c2, t[2]);
    OneStep(c3, t[3]);
    OneStep(c4, t[4]);
    OneStep(c5, t[5]);
    OneStep(c6, t[6]);
    OneStep(c7, t[7]);
    ByteGone(b, BitIn(c7, bits[7]));
  }

  function LowByte(x: bv32): bv32 {
    x & 0xff
  }

  function UpperBytes(x: bv32): bv32 {
    x & 0xffff_ff00
  }

  function Shr8(x: bv32): bv32 {
    x >> 8
  }

  lemma Parts(x: bv32)
    ensures x == Xor(LowByte(x), UpperBytes(x))
  {
  }

  lemma LowByteBound(x: bv32)
    ensures LowByte(x) < 256
  {
  }

  lemma UpperShifted(x: bv32)
    ensures Shr8(UpperBytes(x)) == Shr8(x)
  {
  }

  lemma EightHalves(y: bv32)
    ensures Shifted(y)[8] == Shr8(y)
  {
    assert (y >> 1) >> 1 == y >> 2 && (y >> 2) >> 1 == y >> 3 && (y >> 3) >> 1 == y >> 4;
    assert (y >> 4) >> 1 == y >> 5 && (y >> 5) >> 1 == y >> 6 && (y >> 6) >> 1 == y >> 7;
    assert (y >> 7) >> 1 == y >> 8;
  }

  predicate Clear(y: bv32, mask: bv32) {
    y & mask == 0
  }

  lemma UpperClear(x: bv32)
    ensures Clear(UpperBytes(x), 0xff)
  {
  }

  lemma HalfClear(y: bv32, mask: bv32, next: bv32)
    requires Clear(y, mask) && Odd(mask) && next == Half(mask)
    ensures !Odd(y) && Clear(Half(y), next)
  {
  }

  /** The lowest eight bits of the upper bytes are zero. */
  lemma Bytes(x: bv32)
    ensures var t := Shifted(UpperBytes(x));
            && x == Xor(LowByte(x), t[0]) && LowByte(x) < 256 && t[8] == Shr8(x)
            && !Odd(t[0]) && !Odd(t[1]) && !Odd(t[2]) && !Odd(t[3])
            && !Odd(t[4]) && !Odd(t[5]) && !Odd(t[6]) && !Odd(t[7])
  {
    Masks();
    hide Xor, Odd, Half, LowByte, UpperBytes, Shr8, Clear;
    var t := Shifted(UpperBytes(x));
    Parts(x);
    LowByteBound(x);
    UpperShifted(x);
    EightHalves(UpperBytes(x));
    UpperClear(x);
    HalfClear(t[0], 0xff, 0x7f);
    HalfClear(t[1], 0x7f, 0x3f);
    HalfClear(t[2], 0x3f, 0x1f);
    HalfClear(t[3], 0x1f, 0x0f);
    HalfClear(t[4], 0x0f, 0x07);
    HalfClear(t[5], 0x07, 0x03);
    HalfClear(t[6], 0x03, 0x01);
    HalfClear(t[7], 0x01, 0x00);
  }

  lemma Masks()
    ensures Odd(0xff) && Odd(0x7f) && Odd(0x3f) && Odd(0x1f) && Odd(0x0f) && Odd(0x07) && Odd(0x03) && Odd(0x01)
    ensures 0x7f == Half(0xff) && 0x3f == Half(0x7f) && 0x1f == Half(0x3f) && 0x0f == Half(0x1f)
    ensures 0x07 == Half(0x0f) && 0x03 == Half(0x07) && 0x01 == Half(0x03) && 0x00 == Half(0x01)
  {
  }

  /** A step only shifts the bits above a zero. */
  lemma UpperStep(l: bv32, h: bv32)
    requires !Odd(h)
    ensures BitStep(Xor(l, h)) == Xor(BitStep(l), Half(h))
  {
    hide Xor, Half, Odd;
    OneStep(l, h);
  }

  /** Eight steps shift the upper bits down and depend on the lowest byte alone otherwise. */
  lemma EightStepsSplit(x: bv32)
    ensures EightSteps(x) == Xor(EightSteps(LowByte(x)), Shr8(x))
  {
    hide BitStep, Xor, Half, Odd, LowByte, UpperBytes, Shr8;
    var t := Shifted(UpperBytes(x));
    Bytes(x);
    var l0 := LowByte(x);
    var l1 := BitStep(l0);
    var l2 := BitStep(l1);
    var l3 := BitStep(l2);
    var l4 := BitStep(l3);
    var l5 := BitStep(l4);
    var l6 := BitStep(l5);
    var l7 := BitStep(l6);
    UpperStep(l0, t[0]);
    UpperStep(l1, t[1]);
    UpperStep(l2, t[2]);
    UpperStep(l3, t[3]);
    UpperStep(l4, t[4]);
    UpperStep(l5, t[5]);
    UpperStep(l6, t[6]);
    UpperStep(l7, t[7]);
  }

  /** One round of the table-driven loop. */
  function TableStep(c: bv32, b: bv8): bv32 {
    Xor(Entry(LowByte(Xor(c, b as bv32))), Shr8(c))
  }

  lemma TableStepIsByte(c: bv32, b: bv8)
    ensures TableStep(c, b) == BitsIn(c, BitsOfByte(b))
  {
    hide EightSteps, Entry, BitsIn, EightBits, BitsOfByte, Xor, LowByte, Shr8, Shifted;
    var x := Xor(c, b as bv32);
    OnlyLowByte(c, b);
    Bytes(x);
    EveryEntry(LowByte(x));
    EightStepsSplit(x);
    ByteIn(c, b);
    EightBitsIn(c, BitsOfByte(b));
  }

  lemma OnlyLowByte(c: bv32, b: bv8)
    ensures Shr8(Xor(c, b as bv32)) == Shr8(c)
  {
  }

  lemma NothingFed()
    ensures Fed([]) == 0xffff_ffff
  {
  }

  /** One more byte is one round of the table-driven loop. */
  lemma FeedByte(s: seq<bv8>, b: bv8)
    ensures Fed(s + [b]) == TableStep(Fed(s), b)
  {
    hide Entry, TableStep, BitsOfByte, BitIn;
    assert (s + [b])[..|s|] == s;
    TableStepIsByte(Fed(s), b);
    BitsInAppend(0xffff_ffff, BitsOf(s), BitsOfByte(b));
  }

  /** What the program calls the CRC of a buffer. */
  function Crc(s: seq<bv8>): bv32 {
    if s == [] then 0xffff_ffff else Reference(s)
  }

  /** `getCRC32`: the table-driven loop computes the bit-at-a-time CRC of every non-empty
      buffer; an empty one gives all ones, where the bit-at-a-time CRC would be zero. */
  method GetCrc32(buf: seq<bv8>) returns (crc: bv32)
    ensures crc == Crc(buf)
  {
    if |buf| < 1 {
      return 0xffff_ffff;
    }
    hide TableStep, Fed, Complement;
    NothingFed();
    crc := 0xffff_ffff;
    var i := 0;
    assert buf[..0] == [];
    while i < |buf|
      invariant 0 <= i <= |buf|
      invariant crc == Fed(buf[..i])
    {
      Upto(buf, i);
      crc := TableStep(crc, buf[i]);
      i := i + 1;
    }
    assert buf[..i] == buf;
    crc := Complement(crc);
  }

  // The check value that catalogues of CRCs give for this one: the digits 1 to 9.

  lemma Digit1()
    ensures TableStep(0xffff_ffff, 49) == 0x7c23_1048
  {
  }

  lemma Digit2()
    ensures TableStep(0x7c23_1048, 50) == 0xb0ac_bb32
  {
  }

  lemma Digit3()
    ensures TableStep(0xb0ac_bb32, 51) == 0x77b7_9c2d
  {
  }

  lemma Digit4()
    ensures TableStep(0x77b7_9c2d, 52) == 0x641c_1f5c
  {
  }

  lemma Digit5()
    ensures TableStep(0x641c_1f5c, 53) == 0x340a_c5e3
  {
  }

  lemma Digit6()
    ensures TableStep(0x340a_c5e3, 54) == 0xf68d_2c9e
  {
  }

  lemma Digit7()
    ensures TableStep(0xf68d_2c9e, 55) == 0xaffc_9660
  {
  }

  lemma Digit8()
    ensures TableStep(0xaffc_9660, 56) == 0x651f_2550
  {
  }

  lemma Digit9()
    ensures TableStep(0x651f_2550, 57) == 0x340b_c6d9
  {
  }

  lemma CheckValue()
    ensures Reference([49, 50, 51, 52, 53, 54, 55, 56, 57]) == 0xcbf4_3926
  {
    NothingFed();
    Digit1(); Digit2(); Digit3(); Digit4(); Digit5(); Digit6(); Digit7(); Digit8(); Digit9();
    hide TableStep, Fed;
    var d: seq<bv8> := [49, 50, 51, 52, 53, 54, 55, 56, 57];
    Upto(d, 0);
    Upto(d, 1);
    Upto(d, 2);
    Upto(d, 3);
    Upto(d, 4);
    Upto(d, 5);
    Upto(d, 6);
    Upto(d, 7);
    Upto(d, 8);
    assert d[..0] == [] && d[..9] == d;
  }

  lemma Upto(d: seq<bv8>, i: nat)
    requires i < |d|
    ensures Fed(d[..i + 1]) == TableStep(Fed(d[..i]), d[i])
  {
    hide TableStep, Fed;
    FeedByte(d[..i], d[i]);
    assert d[..i + 1] == d[..i] + [d[i]];
  }
}
