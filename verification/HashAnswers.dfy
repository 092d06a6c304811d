/** Known answers of the hash functions: the check values that their authors and standards publish for
    short keys, and where there are none, as for the seed of hash_murmur and the initial value of
    hash_jenkins, the values that follow from hashkit.c. They hold the constants. */
module HashAnswers {
  import opened Bytes
  import ByteHashes
  import Crc
  import CrcSpec
  import CrcTables
  import opened JenkinsSpec
  import Murmur

  const DIGITS: seq<byte> := [0x31, 0x32, 0x33, 0x34, 0x35, 0x36, 0x37, 0x38, 0x39]

  // ----- CRC-32 of "123456789" -----

  lemma CrcStep(crc: bv32, key: seq<byte>, x: nat, b: byte, next: bv32)
    requires x < |key| && key[x] == b
    requires Xor(CrcTables.Crc32Tab(Crc.LowByte(Xor(crc, b as bv32))), Crc.Drop8(crc)) == next
    ensures CrcSpec.Register(crc, CrcSpec.BitsOf(key[x..])) == CrcSpec.Register(next, CrcSpec.BitsOf(key[x + 1..]))
  {
    hide *;
    Crc.OneByte(crc, b);
    Crc.RegisterRest(crc, key, x);
  }

  lemma Crc32Values()
    ensures Xor(CrcTables.Crc32Tab(Crc.LowByte(Xor(0xffffffff, 0x31))), Crc.Drop8(0xffffffff)) == 0x7c231048
    ensures Xor(CrcTables.Crc32Tab(Crc.LowByte(Xor(0x7c231048, 0x32))), Crc.Drop8(0x7c231048)) == 0xb0acbb32
    ensures Xor(CrcTables.Crc32Tab(Crc.LowByte(Xor(0xb0acbb32, 0x33))), Crc.Drop8(0xb0acbb32)) == 0x77b79c2d
    ensures Xor(CrcTables.Crc32Tab(Crc.LowByte(Xor(0x77b79c2d, 0x34))), Crc.Drop8(0x77b79c2d)) == 0x641c1f5c
    ensures Xor(CrcTables.Crc32Tab(Crc.LowByte(Xor(0x641c1f5c, 0x35))), Crc.Drop8(0x641c1f5c)) == 0x340ac5e3
    ensures Xor(CrcTables.Crc32Tab(Crc.LowByte(Xor(0x340ac5e3, 0x36))), Crc.Drop8(0x340ac5e3)) == 0xf68d2c9e
    ensures Xor(CrcTables.Crc32Tab(Crc.LowByte(Xor(0xf68d2c9e, 0x37))), Crc.Drop8(0xf68d2c9e)) == 0xaffc9660
    ensures Xor(CrcTables.Crc32Tab(Crc.LowByte(Xor(0xaffc9660, 0x38))), Crc.Drop8(0xaffc9660)) == 0x651f2550
    ensures Xor(CrcTables.Crc32Tab(Crc.LowByte(Xor(0x651f2550, 0x39))), Crc.Drop8(0x651f2550)) == 0x340bc6d9
  {
    assert Crc.LowByte(Xor(0xffffffff, 0x31)) == 0xce && CrcTables.Crc32Tab(0xce) == 0x7cdcefb7;
    assert Crc.LowByte(Xor(0x7c231048, 0x32)) == 0x7a && CrcTables.Crc32Tab(0x7a) == 0xb0d09822;
    assert Crc.LowByte(Xor(0xb0acbb32, 0x33)) == 0x1 && CrcTables.Crc32Tab(0x1) == 0x77073096;
    assert Crc.LowByte(Xor(0x77b79c2d, 0x34)) == 0x19 && CrcTables.Crc32Tab(0x19) == 0x646ba8c0;
    assert Crc.LowByte(Xor(0x641c1f5c, 0x35)) == 0x69 && CrcTables.Crc32Tab(0x69) == 0x346ed9fc;
    assert Crc.LowByte(Xor(0x340ac5e3, 0x36)) == 0xd5 && CrcTables.Crc32Tab(0xd5) == 0xf6b9265b;
    assert Crc.LowByte(Xor(0xf68d2c9e, 0x37)) == 0xa9 && CrcTables.Crc32Tab(0xa9) == 0xaf0a1b4c;
    assert Crc.LowByte(Xor(0xaffc9660, 0x38)) == 0x58 && CrcTables.Crc32Tab(0x58) == 0x65b0d9c6;
    assert Crc.LowByte(Xor(0x651f2550, 0x39)) == 0x69 && CrcTables.Crc32Tab(0x69) == 0x346ed9fc;
    hide CrcTables.Crc32Tab;
  }

  lemma Digits()
    ensures |DIGITS| == 9 && DIGITS[0..] == DIGITS == DIGITS[..9] && DIGITS[9..] == [] && DIGITS[..0] == []
    ensures DIGITS[0] == 0x31 && DIGITS[1] == 0x32 && DIGITS[2] == 0x33 && DIGITS[3] == 0x34 && DIGITS[4] == 0x35
    ensures DIGITS[5] == 0x36 && DIGITS[6] == 0x37 && DIGITS[7] == 0x38 && DIGITS[8] == 0x39
  {
  }

  lemma Crc32OfDigits()
    ensures CrcSpec.Crc32(DIGITS) == 0xcbf43926
  {
    Crc32Of(DIGITS, 0x340bc6d9);
    hide *;
    Crc32Values();
    Digits();
    CrcStep(0xffffffff, DIGITS, 0, 0x31, 0x7c231048);
    CrcStep(0x7c231048, DIGITS, 1, 0x32, 0xb0acbb32);
    CrcStep(0xb0acbb32, DIGITS, 2, 0x33, 0x77b79c2d);
    CrcStep(0x77b79c2d, DIGITS, 3, 0x34, 0x641c1f5c);
    CrcStep(0x641c1f5c, DIGITS, 4, 0x35, 0x340ac5e3);
    CrcStep(0x340ac5e3, DIGITS, 5, 0x36, 0xf68d2c9e);
    CrcStep(0xf68d2c9e, DIGITS, 6, 0x37, 0xaffc9660);
    CrcStep(0xaffc9660, DIGITS, 7, 0x38, 0x651f2550);
    CrcStep(0x651f2550, DIGITS, 8, 0x39, 0x340bc6d9);
    Crc.RegisterNothing(0x340bc6d9, DIGITS[9..]);
  }

  lemma Crc32Of(key: seq<byte>, r: bv32)
    ensures CrcSpec.Register(0xffffffff, CrcSpec.BitsOf(key)) == r ==> CrcSpec.Crc32(key) == r ^ 0xffffffff
  {
    hide CrcSpec.Register, CrcSpec.BitsOf;
  }

  /** The bits that hash_crc32 returns: 16 to 30, in the lowest places. */
  lemma Bits16To30Are(c: bv32, j: bv8)
    requires j < 32
    ensures (Crc.Bits16To30(c) >> j) & 1 == if j < 15 then (c >> (j + 16)) & 1 else 0
  {
  }

  // ----- CRC-16 of "123456789" -----

  lemma Crc16Step(key: seq<byte>, x: nat, c: bv32, b: byte, next: bv32)
    requires x < |key| && key[x] == b && CrcSpec.Crc16(key[..x]) == c <= 0xffff
    requires Xor(Crc.LowUp8(c), CrcTables.Crc16Tab(Crc.Byte1(c) ^ b) as bv32) == next
    ensures CrcSpec.Crc16(key[..x + 1]) == next
  {
    hide *;
    assert key[..x] + [b] == key[..x + 1];
    Crc.Crc16Next(key[..x], b);
    Crc.TableStep16(c, b);
  }

  lemma Crc16Values()
    ensures Xor(Crc.LowUp8(0x00000000), CrcTables.Crc16Tab(Crc.Byte1(0x00000000) ^ 0x31) as bv32) == 0x00002672
    ensures Xor(Crc.LowUp8(0x00002672), CrcTables.Crc16Tab(Crc.Byte1(0x00002672) ^ 0x32) as bv32) == 0x000020b5
    ensures Xor(Crc.LowUp8(0x000020b5), CrcTables.Crc16Tab(Crc.Byte1(0x000020b5) ^ 0x33) as bv32) == 0x00009752
    ensures Xor(Crc.LowUp8(0x00009752), CrcTables.Crc16Tab(Crc.Byte1(0x00009752) ^ 0x34) as bv32) == 0x0000d789
    ensures Xor(Crc.LowUp8(0x0000d789), CrcTables.Crc16Tab(Crc.Byte1(0x0000d789) ^ 0x35) as bv32) == 0x0000546c
    ensures Xor(Crc.LowUp8(0x0000546c), CrcTables.Crc16Tab(Crc.Byte1(0x0000546c) ^ 0x36) as bv32) == 0x000020e4
    ensures Xor(Crc.LowUp8(0x000020e4), CrcTables.Crc16Tab(Crc.Byte1(0x000020e4) ^ 0x37) as bv32) == 0x000086d6
    ensures Xor(Crc.LowUp8(0x000086d6), CrcTables.Crc16Tab(Crc.Byte1(0x000086d6) ^ 0x38) as bv32) == 0x00009015
    ensures Xor(Crc.LowUp8(0x00009015), CrcTables.Crc16Tab(Crc.Byte1(0x00009015) ^ 0x39) as bv32) == 0x000031c3
  {
    assert Crc.Byte1(0x00000000) ^ 0x31 == 0x31 && CrcTables.Crc16Tab(0x31) == 0x2672;
    assert Crc.Byte1(0x00002672) ^ 0x32 == 0x14 && CrcTables.Crc16Tab(0x14) == 0x52b5;
    assert Crc.Byte1(0x000020b5) ^ 0x33 == 0x13 && CrcTables.Crc16Tab(0x13) == 0x2252;
    assert Crc.Byte1(0x00009752) ^ 0x34 == 0xa3 && CrcTables.Crc16Tab(0xa3) == 0x8589;
    assert Crc.Byte1(0x0000d789) ^ 0x35 == 0xe2 && CrcTables.Crc16Tab(0xe2) == 0xdd6c;
    assert Crc.Byte1(0x0000546c) ^ 0x36 == 0x62 && CrcTables.Crc16Tab(0x62) == 0x4ce4;
    assert Crc.Byte1(0x000020e4) ^ 0x37 == 0x17 && CrcTables.Crc16Tab(0x17) == 0x62d6;
    assert Crc.Byte1(0x000086d6) ^ 0x38 == 0xbe && CrcTables.Crc16Tab(0xbe) == 0x4615;
    assert Crc.Byte1(0x00009015) ^ 0x39 == 0xa9 && CrcTables.Crc16Tab(0xa9) == 0x24c3;
    hide CrcTables.Crc16Tab;
  }

  lemma Crc16OfDigits()
    ensures CrcSpec.Crc16(DIGITS) == 0x31c3
  {
    Crc16OfNothing(DIGITS[..0]);
    hide *;
    Crc16Values();
    Digits();
    Crc16Step(DIGITS, 0, 0x00000000, 0x31, 0x00002672);
    Crc16Step(DIGITS, 1, 0x00002672, 0x32, 0x000020b5);
    Crc16Step(DIGITS, 2, 0x000020b5, 0x33, 0x00009752);
    Crc16Step(DIGITS, 3, 0x00009752, 0x34, 0x0000d789);
    Crc16Step(DIGITS, 4, 0x0000d789, 0x35, 0x0000546c);
    Crc16Step(DIGITS, 5, 0x0000546c, 0x36, 0x000020e4);
    Crc16Step(DIGITS, 6, 0x000020e4, 0x37, 0x000086d6);
    Crc16Step(DIGITS, 7, 0x000086d6, 0x38, 0x00009015);
    Crc16Step(DIGITS, 8, 0x00009015, 0x39, 0x000031c3);
  }

  lemma Crc16OfNothing(key: seq<byte>)
    requires key == []
    ensures CrcSpec.Crc16(key) == 0
  {
  }

  // ----- lookup3 -----

  function AddWords(q: Abc, x: bv32, y: bv32, z: bv32): Abc {
    Abc(Add(q.a, x), Add(q.b, y), Add(q.c, z))
  }

  lemma AddsBlock(q: Abc, s: seq<byte>, x: bv32, y: bv32, z: bv32)
    requires PaddedWord(s, 0) == x && PaddedWord(s, 1) == y && PaddedWord(s, 2) == z
    ensures AddBlock(q, s) == AddWords(q, x, y, z)
  {
  }

  lemma FirstMix()
    ensures Mix(Abc(0x51232e53, 0x4e11322d, 0x3fce247f)) ==
            Abc(0xf859ad7a, 0x04bc57ae, 0x40dddd7e)
  {
    assert MixRound(Abc(0x51232e53, 0x4e11322d, 0x3fce247f), 4) ==
           Abc(0x4e11322d, 0x8ddf56ac, 0xedb74e27);
    assert MixRound(Abc(0x4e11322d, 0x8ddf56ac, 0xedb74e27), 6) ==
           Abc(0x8ddf56ac, 0x7b96a4d3, 0x0d8a6dfd);
    assert MixRound(Abc(0x8ddf56ac, 0x7b96a4d3, 0x0d8a6dfd), 8) ==
           Abc(0x7b96a4d3, 0x892112d0, 0x0a3915a2);
    assert MixRound(Abc(0x7b96a4d3, 0x892112d0, 0x0a3915a2), 16) ==
           Abc(0x892112d0, 0x935a2872, 0x64ff8508);
    assert MixRound(Abc(0x892112d0, 0x935a2872, 0x64ff8508), 19) ==
           Abc(0x935a2872, 0xf859ad7a, 0x0c62aa34);
    assert MixRound(Abc(0x935a2872, 0xf859ad7a, 0x0c62aa34), 4) ==
           Abc(0xf859ad7a, 0x04bc57ae, 0x40dddd7e);
    hide MixRound;
  }

  lemma SecondMix()
    ensures Mix(Abc(0x6b7a11e8, 0x7321ce13, 0xa243569e)) ==
            Abc(0x336aded2, 0x059f2642, 0xbd02ebd5)
  {
    assert MixRound(Abc(0x6b7a11e8, 0x7321ce13, 0xa243569e), 4) ==
           Abc(0x7321ce13, 0x156524b1, 0xed03d2a0);
    assert MixRound(Abc(0x7321ce13, 0x156524b1, 0xed03d2a0), 6) ==
           Abc(0x156524b1, 0x0268f751, 0xc6e95348);
    assert MixRound(Abc(0x156524b1, 0x0268f751, 0xc6e95348), 8) ==
           Abc(0x0268f751, 0xc9524a99, 0xa72899af);
    assert MixRound(Abc(0x0268f751, 0xc9524a99, 0xa72899af), 16) ==
           Abc(0xc9524a99, 0x707ae448, 0xc2effa8a);
    assert MixRound(Abc(0xc9524a99, 0x707ae448, 0xc2effa8a), 19) ==
           Abc(0x707ae448, 0x336aded2, 0xd2344770);
    assert MixRound(Abc(0x707ae448, 0x336aded2, 0xd2344770), 4) ==
           Abc(0x336aded2, 0x059f2642, 0xbd02ebd5);
    hide MixRound;
  }

  lemma ScoreFinal()
    ensures Final(Abc(0x948b5244, 0x059f95a9, 0xbd02ebd5)) ==
            Abc(0x9a837816, 0xce7226e6, 0x17770551)
  {
    assert FinalRound(Abc(0x948b5244, 0x059f95a9, 0xbd02ebd5), 14) ==
           Abc(0x059f95a9, 0xd3333d15, 0x948b5244);
    assert FinalRound(Abc(0x059f95a9, 0xd3333d15, 0x948b5244), 11) ==
           Abc(0xd3333d15, 0xadcfc0b8, 0x059f95a9);
    assert FinalRound(Abc(0xd3333d15, 0xadcfc0b8, 0x059f95a9), 25) ==
           Abc(0xadcfc0b8, 0x36f4b590, 0xd3333d15);
    assert FinalRound(Abc(0xadcfc0b8, 0x36f4b590, 0xd3333d15), 16) ==
           Abc(0x36f4b590, 0x30375191, 0xadcfc0b8);
    assert FinalRound(Abc(0x36f4b590, 0x30375191, 0xadcfc0b8), 4) ==
           Abc(0x30375191, 0x9a837816, 0x36f4b590);
    assert FinalRound(Abc(0x30375191, 0x9a837816, 0x36f4b590), 14) ==
           Abc(0x9a837816, 0xce7226e6, 0x30375191);
    assert FinalRound(Abc(0x9a837816, 0xce7226e6, 0x30375191), 24) ==
           Abc(0xce7226e6, 0x17770551, 0x9a837816);
    hide FinalRound;
  }

  lemma FirstWords(s: seq<byte>)
    requires s == [0x46, 0x6f, 0x75, 0x72, 0x20, 0x73, 0x63, 0x6f, 0x72, 0x65, 0x20, 0x61]
    ensures PaddedWord(s, 0) == 0x72756f46
    ensures PaddedWord(s, 1) == 0x6f637320
    ensures PaddedWord(s, 2) == 0x61206572
  {
  }

  lemma SecondWords(s: seq<byte>)
    requires s == [0x6e, 0x64, 0x20, 0x73, 0x65, 0x76, 0x65, 0x6e, 0x20, 0x79, 0x65, 0x61]
    ensures PaddedWord(s, 0) == 0x7320646e
    ensures PaddedWord(s, 1) == 0x6e657665
    ensures PaddedWord(s, 2) == 0x61657920
  {
  }

  lemma LastWords(s: seq<byte>)
    requires s == [0x72, 0x73, 0x20, 0x61, 0x67, 0x6f]
    ensures PaddedWord(s, 0) == 0x61207372
    ensures PaddedWord(s, 1) == 0x00006f67
    ensures PaddedWord(s, 2) == 0x00000000
  {
  }

  /** "Four score and seven years ago", which lookup3 hashes to 0x17770551 from the initial value 0. */
  const SCORE: seq<byte> :=
    [0x46, 0x6f, 0x75, 0x72, 0x20, 0x73, 0x63, 0x6f, 0x72, 0x65, 0x20, 0x61] +
    [0x6e, 0x64, 0x20, 0x73, 0x65, 0x76, 0x65, 0x6e, 0x20, 0x79, 0x65, 0x61] +
    [0x72, 0x73, 0x20, 0x61, 0x67, 0x6f]

  lemma ScoreBlocks()
    ensures |SCORE| == 30
    ensures SCORE[..12] == [0x46, 0x6f, 0x75, 0x72, 0x20, 0x73, 0x63, 0x6f, 0x72, 0x65, 0x20, 0x61]
    ensures SCORE[12..][..12] == [0x6e, 0x64, 0x20, 0x73, 0x65, 0x76, 0x65, 0x6e, 0x20, 0x79, 0x65, 0x61]
    ensures SCORE[12..][12..] == [0x72, 0x73, 0x20, 0x61, 0x67, 0x6f]
  {
  }

  lemma AbsorbTwoAndLast(q: Abc, key: seq<byte>)
    requires |key| == 30
    ensures Absorb(q, key) ==
            var r := Mix(AddBlock(q, key[..12]));
            var s := Mix(AddBlock(r, key[12..][..12]));
            Final(AddBlock(s, key[12..][12..]))
  {
    hide Mix, Final, AddBlock;
    var r := Mix(AddBlock(q, key[..12]));
    var s := Mix(AddBlock(r, key[12..][..12]));
    assert Absorb(q, key) == Absorb(r, key[12..]);
    assert Absorb(r, key[12..]) == Absorb(s, key[12..][12..]);
  }

  lemma ScoreStart()
    ensures StartFrom(30, 0) == Abc(0xdeadbf0d, 0xdeadbf0d, 0xdeadbf0d)
  {
  }

  lemma ScoreSums()
    ensures AddWords(Abc(0xdeadbf0d, 0xdeadbf0d, 0xdeadbf0d), 0x72756f46, 0x6f637320, 0x61206572) ==
            Abc(0x51232e53, 0x4e11322d, 0x3fce247f)
    ensures AddWords(Abc(0xf859ad7a, 0x04bc57ae, 0x40dddd7e), 0x7320646e, 0x6e657665, 0x61657920) ==
            Abc(0x6b7a11e8, 0x7321ce13, 0xa243569e)
    ensures AddWords(Abc(0x336aded2, 0x059f2642, 0xbd02ebd5), 0x61207372, 0x00006f67, 0x00000000) ==
            Abc(0x948b5244, 0x059f95a9, 0xbd02ebd5)
  {
  }

  lemma JenkinsOfScore()
    ensures Absorb(StartFrom(30, 0), SCORE).c == 0x17770551
  {
    hide *;
    ScoreStart();
    ScoreSums();
    ScoreBlocks();
    AbsorbTwoAndLast(StartFrom(30, 0), SCORE);
    FirstWords(SCORE[..12]);
    SecondWords(SCORE[12..][..12]);
    LastWords(SCORE[12..][12..]);
    AddsBlock(Abc(0xdeadbf0d, 0xdeadbf0d, 0xdeadbf0d), SCORE[..12], 0x72756f46, 0x6f637320, 0x61206572);
    FirstMix();
    AddsBlock(Abc(0xf859ad7a, 0x04bc57ae, 0x40dddd7e), SCORE[12..][..12], 0x7320646e, 0x6e657665, 0x61657920);
    SecondMix();
    AddsBlock(Abc(0x336aded2, 0x059f2642, 0xbd02ebd5), SCORE[12..][12..], 0x61207372, 0x00006f67, 0x00000000);
    ScoreFinal();
  }

  lemma TwelveFinal()
    ensures Final(Abc(0x43112169, 0x4715256d, 0x4b192971)) ==
            Abc(0xb75d2b3c, 0x94ea43df, 0xfb8b49e3)
  {
    assert FinalRound(Abc(0x43112169, 0x4715256d, 0x4b192971), 14) ==
           Abc(0x4715256d, 0xc2b0ba57, 0x43112169);
    assert FinalRound(Abc(0x4715256d, 0xc2b0ba57, 0x43112169), 11) ==
           Abc(0xc2b0ba57, 0xfbcedd29, 0x4715256d);
    assert FinalRound(Abc(0xc2b0ba57, 0xfbcedd29, 0x4715256d), 25) ==
           Abc(0xfbcedd29, 0x68e45a8a, 0xc2b0ba57);
    assert FinalRound(Abc(0xfbcedd29, 0x68e45a8a, 0xc2b0ba57), 16) ==
           Abc(0x68e45a8a, 0x4fca77f9, 0xfbcedd29);
    assert FinalRound(Abc(0x68e45a8a, 0x4fca77f9, 0xfbcedd29), 4) ==
           Abc(0x4fca77f9, 0xb75d2b3c, 0x68e45a8a);
    assert FinalRound(Abc(0x4fca77f9, 0xb75d2b3c, 0x68e45a8a), 14) ==
           Abc(0xb75d2b3c, 0x94ea43df, 0x4fca77f9);
    assert FinalRound(Abc(0xb75d2b3c, 0x94ea43df, 0x4fca77f9), 24) ==
           Abc(0x94ea43df, 0xfb8b49e3, 0xb75d2b3c);
    hide FinalRound;
  }

  lemma TwelveWords(s: seq<byte>)
    requires s == [0x61, 0x62, 0x63, 0x64, 0x65, 0x66, 0x67, 0x68, 0x69, 0x6a, 0x6b, 0x6c]
    ensures PaddedWord(s, 0) == 0x64636261
    ensures PaddedWord(s, 1) == 0x68676665
    ensures PaddedWord(s, 2) == 0x6c6b6a69
  {
  }

  /** The initial value is 13: the hash of the empty key, and of "abcdefghijkl", a key of one whole block. */
  lemma JenkinsFrom13()
    ensures Jenkins([]).c == 0xdeadbefc
    ensures Jenkins([0x61, 0x62, 0x63, 0x64, 0x65, 0x66, 0x67, 0x68, 0x69, 0x6a, 0x6b, 0x6c]).c == 0xfb8b49e3
  {
    var key: seq<byte> := [0x61, 0x62, 0x63, 0x64, 0x65, 0x66, 0x67, 0x68, 0x69, 0x6a, 0x6b, 0x6c];
    assert Start(12) == Abc(0xdeadbf08, 0xdeadbf08, 0xdeadbf08);
    assert AddWords(Abc(0xdeadbf08, 0xdeadbf08, 0xdeadbf08), 0x64636261, 0x68676665, 0x6c6b6a69) ==
           Abc(0x43112169, 0x4715256d, 0x4b192971);
    assert Jenkins([]).c == 0xdeadbefc;
    TwelveWords(key);
    AddsBlock(Abc(0xdeadbf08, 0xdeadbf08, 0xdeadbf08), key, 0x64636261, 0x68676665, 0x6c6b6a69);
    TwelveFinal();
    hide Final, AddBlock, Start;
  }

  // ----- hash_murmur -----

  lemma MurmurStart()
    ensures Murmur.Seed(7) == 0x16c0388e && Murmur.Seed(0) == 0
  {
    Small(7);
    Small(0);
  }

  lemma Small(n: nat)
    requires n == 7 || n == 0
    ensures n % 0x1_0000_0000 == n && n as bv32 == if n == 7 then 7 else 0
  {
  }

  lemma MurmurScramble()
    ensures Murmur.Scramble(0x64636261) == 0xecf5b977
  {
    assert Murmur.Times(0x64636261) == 0xae938b75;
    assert Murmur.Fold24(0xae938b75) == 0xae938bdb;
    assert Murmur.Times(0xae938bdb) == 0xecf5b977;
  }

  lemma MurmurRest()
    ensures Murmur.Times(0x16c0388e) == 0xd74828a6 && Xor(0xd74828a6, 0xecf5b977) == 0x3bbd91d1
    ensures Xor(0x3bbd91d1, 0x00676665) == 0x3bdaf7b4 && Murmur.Times(0x3bdaf7b4) == 0x57d8ffc4
    ensures Murmur.Finish(0x57d8ffc4) == 0xeba746f2 && Murmur.Finish(0) == 0
  {
    assert Murmur.Fold13(0x57d8ffc4) == 0x57da4103;
    assert Murmur.Times(0x57da4103) == 0xeba691bf && Murmur.Fold15(0xeba691bf) == 0xeba746f2;
    assert Murmur.Fold13(0) == 0 && Murmur.Times(0) == 0 && Murmur.Fold15(0) == 0;
  }

  /** One block, and a tail of three bytes: "abcdefg". */
  lemma MurmurAnswers()
    ensures Murmur.Hash([0x61, 0x62, 0x63, 0x64, 0x65, 0x66, 0x67]) == 0xeba746f2 && Murmur.Hash([]) == 0
  {
    var key: seq<byte> := [0x61, 0x62, 0x63, 0x64, 0x65, 0x66, 0x67];
    assert Word(key, 0) == 0x64636261 && key[4..] == [0x65, 0x66, 0x67];
    assert Murmur.TailWord(key[4..]) == 0x00676665;
    hide Murmur.Scramble, Murmur.Times, Murmur.Finish, Murmur.Seed, Murmur.TailWord, Word, Xor;
    MurmurStart();
    MurmurScramble();
    MurmurRest();
    assert Murmur.Absorb(0x16c0388e, key) == Murmur.Absorb(0x3bbd91d1, key[4..]);
    assert Murmur.Absorb(0x3bbd91d1, key[4..]) == 0x57d8ffc4;
    assert Murmur.Absorb(0, []) == 0;
  }

  // ----- FNV and one-at-a-time -----

  /** A char counts as a signed number: from 0x80 on it is 0x100 less. */
  lemma SignExtends(b: byte)
    ensures SignExtend(b) == if b < 0x80 then b as bv32 else (b as bv32) - 0x100
    ensures ByteHashes.SignExtend64(b) == if b < 0x80 then b as bv64 else (b as bv64) - 0x100
  {
  }

  lemma RoundsStep(kind: ByteHashes.Kind, h: bv32, key: seq<byte>, x: nat, b: byte, next: bv32)
    requires x < |key| && key[x] == b && ByteHashes.Round(kind, h, b) == next
    ensures ByteHashes.Rounds(kind, h, key[x..]) == ByteHashes.Rounds(kind, next, key[x + 1..])
  {
    hide ByteHashes.Round;
    assert key[x..][1..] == key[x + 1..];
  }

  /** "foobar", for which the authors of FNV list all four values; the 64-bit ones are cut to their low half. */
  const FOOBAR: seq<byte> := [0x66, 0x6f, 0x6f, 0x62, 0x61, 0x72]

  lemma Fnv1With64OfFoobar()
    ensures ByteHashes.Hash(ByteHashes.Fnv1With64, FOOBAR) == 0xa4dda9c2
  {
    hide ByteHashes.Rounds;
    assert FOOBAR[0..] == FOOBAR;
    RoundsStep(ByteHashes.Fnv1With64, 0x84222325, FOOBAR, 0, 0x66, 0x8601b7b9);
    RoundsStep(ByteHashes.Fnv1With64, 0x8601b7b9, FOOBAR, 1, 0x6f, 0xb4eb2f34);
    RoundsStep(ByteHashes.Fnv1With64, 0xb4eb2f34, FOOBAR, 2, 0x6f, 0x6ba13533);
    RoundsStep(ByteHashes.Fnv1With64, 0x6ba13533, FOOBAR, 3, 0x62, 0xe2ed65cb);
    RoundsStep(ByteHashes.Fnv1With64, 0xe2ed65cb, FOOBAR, 4, 0x61, 0x9963f790);
    RoundsStep(ByteHashes.Fnv1With64, 0x9963f790, FOOBAR, 5, 0x72, 0xa4dda9c2);
    NoRounds(ByteHashes.Fnv1With64, 0xa4dda9c2, FOOBAR[6..]);
  }

  lemma Fnv1aWith64OfFoobar()
    ensures ByteHashes.Hash(ByteHashes.Fnv1aWith64, FOOBAR) == 0xf73967e8
  {
    hide ByteHashes.Rounds;
    assert FOOBAR[0..] == FOOBAR;
    RoundsStep(ByteHashes.Fnv1aWith64, 0x84222325, FOOBAR, 0, 0x66, 0x8601ead9);
    RoundsStep(ByteHashes.Fnv1aWith64, 0x8601ead9, FOOBAR, 1, 0x6f, 0xb541d342);
    RoundsStep(ByteHashes.Fnv1aWith64, 0xb541d342, FOOBAR, 2, 0x6f, 0xfed9d577);
    RoundsStep(ByteHashes.Fnv1aWith64, 0xfed9d577, FOOBAR, 3, 0x62, 0x0c2512af);
    RoundsStep(ByteHashes.Fnv1aWith64, 0x0c2512af, FOOBAR, 4, 0x61, 0xa2fef40a);
    RoundsStep(ByteHashes.Fnv1aWith64, 0xa2fef40a, FOOBAR, 5, 0x72, 0xf73967e8);
    NoRounds(ByteHashes.Fnv1aWith64, 0xf73967e8, FOOBAR[6..]);
  }

  lemma Fnv1With32OfFoobar()
    ensures ByteHashes.Hash(ByteHashes.Fnv1With32, FOOBAR) == 0x31f0b262
  {
    hide ByteHashes.Rounds;
    assert FOOBAR[0..] == FOOBAR;
    RoundsStep(ByteHashes.Fnv1With32, 0x811c9dc5, FOOBAR, 0, 0x66, 0x050c5d79);
    RoundsStep(ByteHashes.Fnv1With32, 0x050c5d79, FOOBAR, 1, 0x6f, 0x6b772514);
    RoundsStep(ByteHashes.Fnv1With32, 0x6b772514, FOOBAR, 2, 0x6f, 0x408f5e13);
    RoundsStep(ByteHashes.Fnv1With32, 0x408f5e13, FOOBAR, 3, 0x62, 0xb4b1178b);
    RoundsStep(ByteHashes.Fnv1With32, 0xb4b1178b, FOOBAR, 4, 0x61, 0xfdc80fb0);
    RoundsStep(ByteHashes.Fnv1With32, 0xfdc80fb0, FOOBAR, 5, 0x72, 0x31f0b262);
    NoRounds(ByteHashes.Fnv1With32, 0x31f0b262, FOOBAR[6..]);
  }

  lemma Fnv1aWith32OfFoobar()
    ensures ByteHashes.Hash(ByteHashes.Fnv1aWith32, FOOBAR) == 0xbf9cf968
  {
    hide ByteHashes.Rounds;
    assert FOOBAR[0..] == FOOBAR;
    RoundsStep(ByteHashes.Fnv1aWith32, 0x811c9dc5, FOOBAR, 0, 0x66, 0xe30c2799);
    RoundsStep(ByteHashes.Fnv1aWith32, 0xe30c2799, FOOBAR, 1, 0x6f, 0x6222e842);
    RoundsStep(ByteHashes.Fnv1aWith32, 0x6222e842, FOOBAR, 2, 0x6f, 0xa9f37ed7);
    RoundsStep(ByteHashes.Fnv1aWith32, 0xa9f37ed7, FOOBAR, 3, 0x62, 0x3f5076ef);
    RoundsStep(ByteHashes.Fnv1aWith32, 0x3f5076ef, FOOBAR, 4, 0x61, 0x39aaa18a);
    RoundsStep(ByteHashes.Fnv1aWith32, 0x39aaa18a, FOOBAR, 5, 0x72, 0xbf9cf968);
    NoRounds(ByteHashes.Fnv1aWith32, 0xbf9cf968, FOOBAR[6..]);
  }

  lemma NoRounds(kind: ByteHashes.Kind, h: bv32, key: seq<byte>)
    requires key == []
    ensures ByteHashes.Rounds(kind, h, key) == h
  {
  }

  /** "a". */
  lemma OneAtATimeOfA()
    ensures ByteHashes.Hash(ByteHashes.OneAtATime, [0x61]) == 0xca2e9442
  {
    var key: seq<byte> := [0x61];
    assert ByteHashes.Round(ByteHashes.OneAtATime, 0, 0x61) == 0x00018270;
    assert ByteHashes.Finish(ByteHashes.OneAtATime, 0x00018270) == 0xca2e9442;
    hide ByteHashes.Rounds, ByteHashes.Round, ByteHashes.Finish;
    assert key[0..] == key;
    RoundsStep(ByteHashes.OneAtATime, 0, key, 0, 0x61, 0x00018270);
    NoRounds(ByteHashes.OneAtATime, 0x00018270, key[1..]);
  }
}
