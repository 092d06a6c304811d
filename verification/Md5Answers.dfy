/** Known answers: the digests that section A.5 of RFC 1321 lists for the empty message and for "abc",
    worked out operation by operation. They hold every constant and the order of the words. */
module Md5Answers {
  import opened Bytes
  import opened Md5Spec

  /** The bytes of A, B, C and D, low-order bytes first, count up and down as in section 3.3. */
  lemma InitialBytes()
    ensures var s := WordBytes(INITIAL.a) + WordBytes(INITIAL.b) + WordBytes(INITIAL.c) + WordBytes(INITIAL.d);
            forall i | 0 <= i < 8 :: s[i] as int == 0x01 + 0x22 * i && s[8 + i] as int == 0xfe - 0x22 * i
  {
    var a, b, c, d := WordBytes(INITIAL.a), WordBytes(INITIAL.b), WordBytes(INITIAL.c), WordBytes(INITIAL.d);
    assert a == [0x01, 0x23, 0x45, 0x67] && b == [0x89, 0xab, 0xcd, 0xef];
    assert c == [0xfe, 0xdc, 0xba, 0x98] && d == [0x76, 0x54, 0x32, 0x10];
    var s := a + b + c + d;
    assert s == [0x01, 0x23, 0x45, 0x67, 0x89, 0xab, 0xcd, 0xef, 0xfe, 0xdc, 0xba, 0x98, 0x76, 0x54, 0x32, 0x10];
  }

  /** A number by its digits to the base 256, the lowest first. */
  function Base256(s: seq<byte>): nat {
    if s == [] then 0 else s[0] as int + 0x100 * Base256(s[1..])
  }

  function Power256(i: nat): nat {
    if i == 0 then 1 else 0x100 * Power256(i - 1)
  }

  /** n without its lowest i digits. */
  function Drop(n: nat, i: nat): nat {
    if i == 0 then n else Drop(n / 0x100, i - 1)
  }

  lemma {:induction false} DigitAt(s: seq<byte>, k: nat, i: nat)
    requires i < |s|
    ensures Drop(Base256(s) + Power256(|s|) * k, i) % 0x100 == s[i] as int
    decreases i
  {
    var n, p := Base256(s[1..]), Power256(|s| - 1);
    Regroup(p, k);
    FirstDigit(s[0], n + p * k);
    if i > 0 {
      DigitAt(s[1..], k, i - 1);
    }
  }

  lemma Regroup(p: nat, k: nat)
    ensures 0x100 * p * k == 0x100 * (p * k)
  {
  }

  lemma FirstDigit(b: byte, m: nat)
    ensures var n := b as int + 0x100 * m; n % 0x100 == b as int && n / 0x100 == m
  {
  }

  lemma Drops(n: nat)
    ensures Drop(n, 0) == n && Drop(n, 1) == n / 0x100 && Drop(n, 2) == n / 0x1_0000 && Drop(n, 3) == n / 0x100_0000
    ensures Drop(n, 4) == n / 0x1_0000_0000 && Drop(n, 5) == n / 0x100_0000_0000
    ensures Drop(n, 6) == n / 0x1_0000_0000_0000 && Drop(n, 7) == n / 0x100_0000_0000_0000
  {
    assert n / 0x1_0000 == n / 0x100 / 0x100;
    assert n / 0x100_0000 == n / 0x1_0000 / 0x100;
    assert n / 0x1_0000_0000 == n / 0x100_0000 / 0x100;
    assert n / 0x100_0000_0000 == n / 0x1_0000_0000 / 0x100;
    assert n / 0x1_0000_0000_0000 == n / 0x100_0000_0000 / 0x100;
    assert n / 0x100_0000_0000_0000 == n / 0x1_0000_0000_0000 / 0x100;
  }

  /** The eight bytes of the length are those digits of it, modulo 2^64. */
  lemma LengthDigits(s: seq<byte>, k: nat)
    requires |s| == 8
    ensures LengthBytes(Base256(s) + 0x1_0000_0000_0000_0000 * k) == s
  {
    assert Power256(8) == 0x1_0000_0000_0000_0000;
    var n := Base256(s) + Power256(8) * k;
    hide *;
    DigitAt(s, k, 0);
    DigitAt(s, k, 1);
    DigitAt(s, k, 2);
    DigitAt(s, k, 3);
    DigitAt(s, k, 4);
    DigitAt(s, k, 5);
    DigitAt(s, k, 6);
    DigitAt(s, k, 7);
    Drops(n);
    LengthBytesAre(n, s);
  }

  lemma ToByteOf(x: int, b: byte)
    requires 0 <= x < 256 && x == b as int
    ensures ToByte(x) == b
  {
  }

  lemma LengthBytesIs(n: nat)
    ensures LengthBytes(n) ==
            [ToByte(n % 256), ToByte(n / 0x100 % 256), ToByte(n / 0x1_0000 % 256), ToByte(n / 0x100_0000 % 256)] +
            [ToByte(n / 0x1_0000_0000 % 256), ToByte(n / 0x100_0000_0000 % 256),
             ToByte(n / 0x1_0000_0000_0000 % 256), ToByte(n / 0x100_0000_0000_0000 % 256)]
  {
  }

  lemma LengthBytesAre(n: nat, s: seq<byte>)
    requires |s| == 8
    requires n % 256 == s[0] as int && n / 0x100 % 256 == s[1] as int
    requires n / 0x1_0000 % 256 == s[2] as int && n / 0x100_0000 % 256 == s[3] as int
    requires n / 0x1_0000_0000 % 256 == s[4] as int && n / 0x100_0000_0000 % 256 == s[5] as int
    requires n / 0x1_0000_0000_0000 % 256 == s[6] as int && n / 0x100_0000_0000_0000 % 256 == s[7] as int
    ensures LengthBytes(n) == s
  {
    hide *;
    LengthBytesIs(n);
    ToByteOf(n % 256, s[0]);
    ToByteOf(n / 0x100 % 256, s[1]);
    ToByteOf(n / 0x1_0000 % 256, s[2]);
    ToByteOf(n / 0x100_0000 % 256, s[3]);
    ToByteOf(n / 0x1_0000_0000 % 256, s[4]);
    ToByteOf(n / 0x100_0000_0000 % 256, s[5]);
    ToByteOf(n / 0x1_0000_0000_0000 % 256, s[6]);
    ToByteOf(n / 0x100_0000_0000_0000 % 256, s[7]);
    assert s == [s[0], s[1], s[2], s[3]] + [s[4], s[5], s[6], s[7]];
  }

  // ----- one operation at a time -----

  /** A block of which only words 0 and 14 can be other than 0. */
  predicate IsBlock(block: seq<byte>, w0: bv32, w14: bv32) {
    |block| == 64 && forall k | 0 <= k < 16 :: Word(block, 4 * k) == if k == 0 then w0 else if k == 14 then w14 else 0
  }

  lemma WordsOf(block: seq<byte>, w0: bv32, w14: bv32)
    requires IsBlock(block, w0, w14)
    ensures |block| == 64 && Word(block, 0) == w0 && Word(block, 56) == w14
    ensures Word(block, 4) == Word(block, 8) == Word(block, 12) == Word(block, 16) == Word(block, 20) == 0
    ensures Word(block, 24) == Word(block, 28) == Word(block, 32) == Word(block, 36) == Word(block, 40) == 0
    ensures Word(block, 44) == Word(block, 48) == Word(block, 52) == Word(block, 60) == 0
  {
    hide Word;
    assert Word(block, 4 * 0) == w0 && Word(block, 4 * 1) == 0 && Word(block, 4 * 2) == 0 && Word(block, 4 * 3) == 0;
    assert Word(block, 4 * 4) == 0 && Word(block, 4 * 5) == 0 && Word(block, 4 * 6) == 0 && Word(block, 4 * 7) == 0;
    assert Word(block, 4 * 8) == 0 && Word(block, 4 * 9) == 0 && Word(block, 4 * 10) == 0 && Word(block, 4 * 11) == 0;
    assert Word(block, 4 * 12) == 0 && Word(block, 4 * 13) == 0 && Word(block, 4 * 14) == w14;
    assert Word(block, 4 * 15) == 0;
  }

  /** Operation i, given the word, the constant and the rotation that it takes. */
  lemma Next(block: seq<byte>, i: nat, a: bv32, b: bv32, c: bv32, d: bv32, x: bv32, t: bv32, s: bv8, r: bv32)
    requires |block| == 64 && Operations(INITIAL, block, i) == Chain(a, b, c, d)
    requires Word(block, 4 * WordIndex(i)) == x && Sine(i) == t && Shift(i) == s
    requires s <= 32 && r == Add(b, Rotl(Add(a, Add(Add(Aux(i, b, c, d), x), t)), s))
    ensures Operations(INITIAL, block, i + 1) == Chain(d, r, b, c)
  {
    hide Aux, Word, WordIndex, Sine, Shift, Add, Rotl;
  }

  lemma Table0()
    ensures WordIndex(0) == 0 && Sine(0) == 0xd76aa478 && Shift(0) == 7
    ensures WordIndex(1) == 1 && Sine(1) == 0xe8c7b756 && Shift(1) == 12
    ensures WordIndex(2) == 2 && Sine(2) == 0x242070db && Shift(2) == 17
    ensures WordIndex(3) == 3 && Sine(3) == 0xc1bdceee && Shift(3) == 22
    ensures WordIndex(4) == 4 && Sine(4) == 0xf57c0faf && Shift(4) == 7
    ensures WordIndex(5) == 5 && Sine(5) == 0x4787c62a && Shift(5) == 12
    ensures WordIndex(6) == 6 && Sine(6) == 0xa8304613 && Shift(6) == 17
    ensures WordIndex(7) == 7 && Sine(7) == 0xfd469501 && Shift(7) == 22
  {
  }

  lemma Table8()
    ensures WordIndex(8) == 8 && Sine(8) == 0x698098d8 && Shift(8) == 7
    ensures WordIndex(9) == 9 && Sine(9) == 0x8b44f7af && Shift(9) == 12
    ensures WordIndex(10) == 10 && Sine(10) == 0xffff5bb1 && Shift(10) == 17
    ensures WordIndex(11) == 11 && Sine(11) == 0x895cd7be && Shift(11) == 22
    ensures WordIndex(12) == 12 && Sine(12) == 0x6b901122 && Shift(12) == 7
    ensures WordIndex(13) == 13 && Sine(13) == 0xfd987193 && Shift(13) == 12
    ensures WordIndex(14) == 14 && Sine(14) == 0xa679438e && Shift(14) == 17
    ensures WordIndex(15) == 15 && Sine(15) == 0x49b40821 && Shift(15) == 22
  {
  }

  lemma Table16()
    ensures WordIndex(16) == 1 && Sine(16) == 0xf61e2562 && Shift(16) == 5
    ensures WordIndex(17) == 6 && Sine(17) == 0xc040b340 && Shift(17) == 9
    ensures WordIndex(18) == 11 && Sine(18) == 0x265e5a51 && Shift(18) == 14
    ensures WordIndex(19) == 0 && Sine(19) == 0xe9b6c7aa && Shift(19) == 20
    ensures WordIndex(20) == 5 && Sine(20) == 0xd62f105d && Shift(20) == 5
    ensures WordIndex(21) == 10 && Sine(21) == 0x02441453 && Shift(21) == 9
    ensures WordIndex(22) == 15 && Sine(22) == 0xd8a1e681 && Shift(22) == 14
    ensures WordIndex(23) == 4 && Sine(23) == 0xe7d3fbc8 && Shift(23) == 20
  {
  }

  lemma Table24()
    ensures WordIndex(24) == 9 && Sine(24) == 0x21e1cde6 && Shift(24) == 5
    ensures WordIndex(25) == 14 && Sine(25) == 0xc33707d6 && Shift(25) == 9
    ensures WordIndex(26) == 3 && Sine(26) == 0xf4d50d87 && Shift(26) == 14
    ensures WordIndex(27) == 8 && Sine(27) == 0x455a14ed && Shift(27) == 20
    ensures WordIndex(28) == 13 && Sine(28) == 0xa9e3e905 && Shift(28) == 5
    ensures WordIndex(29) == 2 && Sine(29) == 0xfcefa3f8 && Shift(29) == 9
    ensures WordIndex(30) == 7 && Sine(30) == 0x676f02d9 && Shift(30) == 14
    ensures WordIndex(31) == 12 && Sine(31) == 0x8d2a4c8a && Shift(31) == 20
  {
  }

  lemma Table32()
    ensures WordIndex(32) == 5 && Sine(32) == 0xfffa3942 && Shift(32) == 4
    ensures WordIndex(33) == 8 && Sine(33) == 0x8771f681 && Shift(33) == 11
    ensures WordIndex(34) == 11 && Sine(34) == 0x6d9d6122 && Shift(34) == 16
    ensures WordIndex(35) == 14 && Sine(35) == 0xfde5380c && Shift(35) == 23
    ensures WordIndex(36) == 1 && Sine(36) == 0xa4beea44 && Shift(36) == 4
    ensures WordIndex(37) == 4 && Sine(37) == 0x4bdecfa9 && Shift(37) == 11
    ensures WordIndex(38) == 7 && Sine(38) == 0xf6bb4b60 && Shift(38) == 16
    ensures WordIndex(39) == 10 && Sine(39) == 0xbebfbc70 && Shift(39) == 23
  {
  }

  lemma Table40()
    ensures WordIndex(40) == 13 && Sine(40) == 0x289b7ec6 && Shift(40) == 4
    ensures WordIndex(41) == 0 && Sine(41) == 0xeaa127fa && Shift(41) == 11
    ensures WordIndex(42) == 3 && Sine(42) == 0xd4ef3085 && Shift(42) == 16
    ensures WordIndex(43) == 6 && Sine(43) == 0x04881d05 && Shift(43) == 23
    ensures WordIndex(44) == 9 && Sine(44) == 0xd9d4d039 && Shift(44) == 4
    ensures WordIndex(45) == 12 && Sine(45) == 0xe6db99e5 && Shift(45) == 11
    ensures WordIndex(46) == 15 && Sine(46) == 0x1fa27cf8 && Shift(46) == 16
    ensures WordIndex(47) == 2 && Sine(47) == 0xc4ac5665 && Shift(47) == 23
  {
  }

  lemma Table48()
    ensures WordIndex(48) == 0 && Sine(48) == 0xf4292244 && Shift(48) == 6
    ensures WordIndex(49) == 7 && Sine(49) == 0x432aff97 && Shift(49) == 10
    ensures WordIndex(50) == 14 && Sine(50) == 0xab9423a7 && Shift(50) == 15
    ensures WordIndex(51) == 5 && Sine(51) == 0xfc93a039 && Shift(51) == 21
    ensures WordIndex(52) == 12 && Sine(52) == 0x655b59c3 && Shift(52) == 6
    ensures WordIndex(53) == 3 && Sine(53) == 0x8f0ccc92 && Shift(53) == 10
    ensures WordIndex(54) == 10 && Sine(54) == 0xffeff47d && Shift(54) == 15
    ensures WordIndex(55) == 1 && Sine(55) == 0x85845dd1 && Shift(55) == 21
  {
  }

  lemma Table56()
    ensures WordIndex(56) == 8 && Sine(56) == 0x6fa87e4f && Shift(56) == 6
    ensures WordIndex(57) == 15 && Sine(57) == 0xfe2ce6e0 && Shift(57) == 10
    ensures WordIndex(58) == 6 && Sine(58) == 0xa3014314 && Shift(58) == 15
    ensures WordIndex(59) == 13 && Sine(59) == 0x4e0811a1 && Shift(59) == 21
    ensures WordIndex(60) == 4 && Sine(60) == 0xf7537e82 && Shift(60) == 6
    ensures WordIndex(61) == 11 && Sine(61) == 0xbd3af235 && Shift(61) == 10
    ensures WordIndex(62) == 2 && Sine(62) == 0x2ad7d2bb && Shift(62) == 15
    ensures WordIndex(63) == 9 && Sine(63) == 0xeb86d391 && Shift(63) == 21
  {
  }

  lemma NoOperation(block: seq<byte>)
    requires |block| == 64
    ensures Operations(INITIAL, block, 0) == Chain(0x67452301, 0xefcdab89, 0x98badcfe, 0x10325476)
  {
  }

  // ----- "" -----

  lemma Empty0(block: seq<byte>)
    requires IsBlock(block, 0x00000080, 0x00000000)
    requires Operations(INITIAL, block, 0) == Chain(0x67452301, 0xefcdab89, 0x98badcfe, 0x10325476)
    ensures Operations(INITIAL, block, 8) == Chain(0x32033344, 0x9bc13ce9, 0xf5b158db, 0x2f35d494)
  {
    hide IsBlock, Operations, Word, WordIndex, Sine, Shift;
    WordsOf(block, 0x00000080, 0x00000000);
    Table0();
    Next(block, 0, 0x67452301, 0xefcdab89, 0x98badcfe, 0x10325476, 0x00000080, 0xd76aa478, 7, 0xa5202774);
    Next(block, 1, 0x10325476, 0xa5202774, 0xefcdab89, 0x98badcfe, 0x00000000, 0xe8c7b756, 12, 0xf59592dd);
    Next(block, 2, 0x98badcfe, 0xf59592dd, 0xa5202774, 0xefcdab89, 0x00000000, 0x242070db, 17, 0xe7f06b23);
    Next(block, 3, 0xefcdab89, 0xe7f06b23, 0xf59592dd, 0xa5202774, 0x00000000, 0xc1bdceee, 22, 0x1b163203);
    Next(block, 4, 0xa5202774, 0x1b163203, 0xe7f06b23, 0xf59592dd, 0x00000000, 0xf57c0faf, 7, 0x32033344);
    Next(block, 5, 0xf59592dd, 0x32033344, 0x1b163203, 0xe7f06b23, 0x00000000, 0x4787c62a, 12, 0x2f35d494);
    Next(block, 6, 0xe7f06b23, 0x2f35d494, 0x32033344, 0x1b163203, 0x00000000, 0xa8304613, 17, 0xf5b158db);
    Next(block, 7, 0x1b163203, 0xf5b158db, 0x2f35d494, 0x32033344, 0x00000000, 0xfd469501, 22, 0x9bc13ce9);
  }

  lemma Empty8(block: seq<byte>)
    requires IsBlock(block, 0x00000080, 0x00000000)
    requires Operations(INITIAL, block, 8) == Chain(0x32033344, 0x9bc13ce9, 0xf5b158db, 0x2f35d494)
    ensures Operations(INITIAL, block, 16) == Chain(0xf56c7cf1, 0xd6819c6a, 0x5aa53f75, 0x374943a7)
  {
    hide IsBlock, Operations, Word, WordIndex, Sine, Shift;
    WordsOf(block, 0x00000080, 0x00000000);
    Table8();
    Next(block, 8, 0x32033344, 0x9bc13ce9, 0xf5b158db, 0x2f35d494, 0x00000000, 0x698098d8, 7, 0x3893b991);
    Next(block, 9, 0x2f35d494, 0x3893b991, 0x9bc13ce9, 0xf5b158db, 0x00000000, 0x8b44f7af, 12, 0xfce4a312);
    Next(block, 10, 0xf5b158db, 0xfce4a312, 0x3893b991, 0x9bc13ce9, 0x00000000, 0xffff5bb1, 17, 0xe1ef0576);
    Next(block, 11, 0x9bc13ce9, 0xe1ef0576, 0xfce4a312, 0x3893b991, 0x00000000, 0x895cd7be, 22, 0x70768a29);
    Next(block, 12, 0x3893b991, 0x70768a29, 0xe1ef0576, 0xfce4a312, 0x00000000, 0x6b901122, 7, 0xf56c7cf1);
    Next(block, 13, 0xfce4a312, 0xf56c7cf1, 0x70768a29, 0xe1ef0576, 0x00000000, 0xfd987193, 12, 0x374943a7);
    Next(block, 14, 0xe1ef0576, 0x374943a7, 0xf56c7cf1, 0x70768a29, 0x00000000, 0xa679438e, 17, 0x5aa53f75);
    Next(block, 15, 0x70768a29, 0x5aa53f75, 0x374943a7, 0xf56c7cf1, 0x00000000, 0x49b40821, 22, 0xd6819c6a);
  }

  lemma Empty16(block: seq<byte>)
    requires IsBlock(block, 0x00000080, 0x00000000)
    requires Operations(INITIAL, block, 16) == Chain(0xf56c7cf1, 0xd6819c6a, 0x5aa53f75, 0x374943a7)
    ensures Operations(INITIAL, block, 24) == Chain(0x3d1e3e6c, 0xe422531a, 0xeb41643e, 0x68b7b3e3)
  {
    hide IsBlock, Operations, Word, WordIndex, Sine, Shift;
    WordsOf(block, 0x00000080, 0x00000000);
    Table16();
    Next(block, 16, 0xf56c7cf1, 0xd6819c6a, 0x5aa53f75, 0x374943a7, 0x00000000, 0xf61e2562, 5, 0x1c7d7513);
    Next(block, 17, 0x374943a7, 0x1c7d7513, 0xd6819c6a, 0x5aa53f75, 0x00000000, 0xc040b340, 9, 0x7bd57a3a);
    Next(block, 18, 0x5aa53f75, 0x7bd57a3a, 0x1c7d7513, 0xd6819c6a, 0x00000000, 0x265e5a51, 14, 0xc095f13a);
    Next(block, 19, 0xd6819c6a, 0xc095f13a, 0x7bd57a3a, 0x1c7d7513, 0x00000080, 0xe9b6c7aa, 20, 0xbd782e17);
    Next(block, 20, 0x1c7d7513, 0xbd782e17, 0xc095f13a, 0x7bd57a3a, 0x00000000, 0xd62f105d, 5, 0x3d1e3e6c);
    Next(block, 21, 0x7bd57a3a, 0x3d1e3e6c, 0xbd782e17, 0xc095f13a, 0x00000000, 0x02441453, 9, 0x68b7b3e3);
    Next(block, 22, 0xc095f13a, 0x68b7b3e3, 0x3d1e3e6c, 0xbd782e17, 0x00000000, 0xd8a1e681, 14, 0xeb41643e);
    Next(block, 23, 0xbd782e17, 0xeb41643e, 0x68b7b3e3, 0x3d1e3e6c, 0x00000000, 0xe7d3fbc8, 20, 0xe422531a);
  }

  lemma Empty24(block: seq<byte>)
    requires IsBlock(block, 0x00000080, 0x00000000)
    requires Operations(INITIAL, block, 24) == Chain(0x3d1e3e6c, 0xe422531a, 0xeb41643e, 0x68b7b3e3)
    ensures Operations(INITIAL, block, 32) == Chain(0x13707036, 0xa2205f1f, 0x1c31c384, 0xae7813db)
  {
    hide IsBlock, Operations, Word, WordIndex, Sine, Shift;
    WordsOf(block, 0x00000080, 0x00000000);
    Table24();
    Next(block, 24, 0x3d1e3e6c, 0xe422531a, 0xeb41643e, 0x68b7b3e3, 0x00000000, 0x21e1cde6, 5, 0x306ec122);
    Next(block, 25, 0x68b7b3e3, 0x306ec122, 0xe422531a, 0xeb41643e, 0x00000000, 0xc33707d6, 9, 0xd28c77c2);
    Next(block, 26, 0xeb41643e, 0xd28c77c2, 0x306ec122, 0xe422531a, 0x00000000, 0xf4d50d87, 14, 0xa3c663da);
    Next(block, 27, 0xe422531a, 0xa3c663da, 0xd28c77c2, 0x306ec122, 0x00000000, 0x455a14ed, 20, 0xa0572807);
    Next(block, 28, 0x306ec122, 0xa0572807, 0xa3c663da, 0xd28c77c2, 0x00000000, 0xa9e3e905, 5, 0x13707036);
    Next(block, 29, 0xd28c77c2, 0x13707036, 0xa0572807, 0xa3c663da, 0x00000000, 0xfcefa3f8, 9, 0xae7813db);
    Next(block, 30, 0xa3c663da, 0xae7813db, 0x13707036, 0xa0572807, 0x00000000, 0x676f02d9, 14, 0x1c31c384);
    Next(block, 31, 0xa0572807, 0x1c31c384, 0xae7813db, 0x13707036, 0x00000000, 0x8d2a4c8a, 20, 0xa2205f1f);
  }

  lemma Empty32(block: seq<byte>)
    requires IsBlock(block, 0x00000080, 0x00000000)
    requires Operations(INITIAL, block, 32) == Chain(0x13707036, 0xa2205f1f, 0x1c31c384, 0xae7813db)
    ensures Operations(INITIAL, block, 40) == Chain(0x5f7a9b2e, 0xc5dc8c15, 0x91ca4cb7, 0xabc34e16)
  {
    hide IsBlock, Operations, Word, WordIndex, Sine, Shift;
    WordsOf(block, 0x00000080, 0x00000000);
    Table32();
    Next(block, 32, 0x13707036, 0xa2205f1f, 0x1c31c384, 0xae7813db, 0x00000000, 0xfffa3942, 4, 0xdf63eaa1);
    Next(block, 33, 0xae7813db, 0xdf63eaa1, 0xa2205f1f, 0x1c31c384, 0x00000000, 0x8771f681, 11, 0xc3689f5b);
    Next(block, 34, 0x1c31c384, 0xc3689f5b, 0xdf63eaa1, 0xa2205f1f, 0x00000000, 0x6d9d6122, 16, 0x12f3e755);
    Next(block, 35, 0xa2205f1f, 0x12f3e755, 0xc3689f5b, 0xdf63eaa1, 0x00000000, 0xfde5380c, 23, 0x004b6669);
    Next(block, 36, 0xdf63eaa1, 0x004b6669, 0x12f3e755, 0xc3689f5b, 0x00000000, 0xa4beea44, 4, 0x5f7a9b2e);
    Next(block, 37, 0xc3689f5b, 0x5f7a9b2e, 0x004b6669, 0x12f3e755, 0x00000000, 0x4bdecfa9, 11, 0xabc34e16);
    Next(block, 38, 0x12f3e755, 0xabc34e16, 0x5f7a9b2e, 0x004b6669, 0x00000000, 0xf6bb4b60, 16, 0x91ca4cb7);
    Next(block, 39, 0x004b6669, 0x91ca4cb7, 0xabc34e16, 0x5f7a9b2e, 0x00000000, 0xbebfbc70, 23, 0xc5dc8c15);
  }

  lemma Empty40(block: seq<byte>)
    requires IsBlock(block, 0x00000080, 0x00000000)
    requires Operations(INITIAL, block, 40) == Chain(0x5f7a9b2e, 0xc5dc8c15, 0x91ca4cb7, 0xabc34e16)
    ensures Operations(INITIAL, block, 48) == Chain(0x3f55edfd, 0xca7d2dbd, 0x68d84ea2, 0x22a31f54)
  {
    hide IsBlock, Operations, Word, WordIndex, Sine, Shift;
    WordsOf(block, 0x00000080, 0x00000000);
    Table40();
    Next(block, 40, 0x5f7a9b2e, 0xc5dc8c15, 0x91ca4cb7, 0xabc34e16, 0x00000000, 0x289b7ec6, 4, 0x4497169d);
    Next(block, 41, 0xabc34e16, 0x4497169d, 0xc5dc8c15, 0x91ca4cb7, 0x00000080, 0xeaa127fa, 11, 0x76fd93d4);
    Next(block, 42, 0x91ca4cb7, 0x76fd93d4, 0x4497169d, 0xc5dc8c15, 0x00000000, 0xd4ef3085, 16, 0xfd95f243);
    Next(block, 43, 0xc5dc8c15, 0xfd95f243, 0x76fd93d4, 0x4497169d, 0x00000000, 0x04881d05, 23, 0x0fe32453);
    Next(block, 44, 0x4497169d, 0x0fe32453, 0xfd95f243, 0x76fd93d4, 0x00000000, 0xd9d4d039, 4, 0x3f55edfd);
    Next(block, 45, 0x76fd93d4, 0x3f55edfd, 0x0fe32453, 0xfd95f243, 0x00000000, 0xe6db99e5, 11, 0x22a31f54);
    Next(block, 46, 0xfd95f243, 0x22a31f54, 0x3f55edfd, 0x0fe32453, 0x00000000, 0x1fa27cf8, 16, 0x68d84ea2);
    Next(block, 47, 0x0fe32453, 0x68d84ea2, 0x22a31f54, 0x3f55edfd, 0x00000000, 0xc4ac5665, 23, 0xca7d2dbd);
  }

  lemma Empty48(block: seq<byte>)
    requires IsBlock(block, 0x00000080, 0x00000000)
    requires Operations(INITIAL, block, 48) == Chain(0x3f55edfd, 0xca7d2dbd, 0x68d84ea2, 0x22a31f54)
    ensures Operations(INITIAL, block, 56) == Chain(0x5625a114, 0x1e77fa61, 0x392ad0d0, 0x3450f42b)
  {
    hide IsBlock, Operations, Word, WordIndex, Sine, Shift;
    WordsOf(block, 0x00000080, 0x00000000);
    Table48();
    Next(block, 48, 0x3f55edfd, 0xca7d2dbd, 0x68d84ea2, 0x22a31f54, 0x00000080, 0xf4292244, 6, 0x93aa2577);
    Next(block, 49, 0x22a31f54, 0x93aa2577, 0xca7d2dbd, 0x68d84ea2, 0x00000000, 0x432aff97, 10, 0x1688dc85);
    Next(block, 50, 0x68d84ea2, 0x1688dc85, 0x93aa2577, 0xca7d2dbd, 0x00000000, 0xab9423a7, 15, 0xcd85b8cb);
    Next(block, 51, 0xca7d2dbd, 0xcd85b8cb, 0x1688dc85, 0x93aa2577, 0x00000000, 0xfc93a039, 21, 0x561e0689);
    Next(block, 52, 0x93aa2577, 0x561e0689, 0xcd85b8cb, 0x1688dc85, 0x00000000, 0x655b59c3, 6, 0x5625a114);
    Next(block, 53, 0x1688dc85, 0x5625a114, 0x561e0689, 0xcd85b8cb, 0x00000000, 0x8f0ccc92, 10, 0x3450f42b);
    Next(block, 54, 0xcd85b8cb, 0x3450f42b, 0x5625a114, 0x561e0689, 0x00000000, 0xffeff47d, 15, 0x392ad0d0);
    Next(block, 55, 0x561e0689, 0x392ad0d0, 0x3450f42b, 0x5625a114, 0x00000000, 0x85845dd1, 21, 0x1e77fa61);
  }

  lemma Empty56(block: seq<byte>)
    requires IsBlock(block, 0x00000080, 0x00000000)
    requires Operations(INITIAL, block, 56) == Chain(0x5625a114, 0x1e77fa61, 0x392ad0d0, 0x3450f42b)
    ensures Operations(INITIAL, block, 64) == Chain(0x7246fad3, 0x14e45506, 0xff4ea3eb, 0x6e10a476)
  {
    hide IsBlock, Operations, Word, WordIndex, Sine, Shift;
    WordsOf(block, 0x00000080, 0x00000000);
    Table56();
    Next(block, 56, 0x5625a114, 0x1e77fa61, 0x392ad0d0, 0x3450f42b, 0x00000000, 0x6fa87e4f, 6, 0x474a9c8c);
    Next(block, 57, 0x3450f42b, 0x474a9c8c, 0x1e77fa61, 0x392ad0d0, 0x00000000, 0xfe2ce6e0, 10, 0xdfce00bc);
    Next(block, 58, 0x392ad0d0, 0xdfce00bc, 0x474a9c8c, 0x1e77fa61, 0x00000000, 0xa3014314, 15, 0x36594b14);
    Next(block, 59, 0x1e77fa61, 0x36594b14, 0xdfce00bc, 0x474a9c8c, 0x00000000, 0x4e0811a1, 21, 0x30130182);
    Next(block, 60, 0x474a9c8c, 0x30130182, 0x36594b14, 0xdfce00bc, 0x00000000, 0xf7537e82, 6, 0x7246fad3);
    Next(block, 61, 0xdfce00bc, 0x7246fad3, 0x30130182, 0x36594b14, 0x00000000, 0xbd3af235, 10, 0x6e10a476);
    Next(block, 62, 0x36594b14, 0x6e10a476, 0x7246fad3, 0x30130182, 0x00000000, 0x2ad7d2bb, 15, 0xff4ea3eb);
    Next(block, 63, 0x30130182, 0xff4ea3eb, 0x6e10a476, 0x7246fad3, 0x00000000, 0xeb86d391, 21, 0x14e45506);
  }

  lemma EmptyAll(block: seq<byte>)
    requires IsBlock(block, 0x00000080, 0x00000000)
    ensures Compress(INITIAL, block) == Chain(0xd98c1dd4, 0x04b2008f, 0x980980e9, 0x7e42f8ec)
  {
    hide IsBlock, Operations;
    WordsOf(block, 0x00000080, 0x00000000);
    NoOperation(block);
    Empty0(block);
    Empty8(block);
    Empty16(block);
    Empty24(block);
    Empty32(block);
    Empty40(block);
    Empty48(block);
    Empty56(block);
  }

  lemma EmptyBytes()
    ensures WordBytes(0xd98c1dd4) == [0xd4, 0x1d, 0x8c, 0xd9] && WordBytes(0x04b2008f) == [0x8f, 0x00, 0xb2, 0x04]
    ensures WordBytes(0x980980e9) == [0xe9, 0x80, 0x09, 0x98] && WordBytes(0x7e42f8ec) == [0xec, 0xf8, 0x42, 0x7e]
  {
  }

  /** MD5 ("") = d41d8cd98f00b204e9800998ecf8427e. */
  lemma DigestOfEmpty()
    ensures Digest([]) ==
            [0xd4, 0x1d, 0x8c, 0xd9, 0x8f, 0x00, 0xb2, 0x04] +
            [0xe9, 0x80, 0x09, 0x98, 0xec, 0xf8, 0x42, 0x7e]
  {
    hide *;
    var m: seq<byte> := [];
    PaddedBlock(m, 0x00000080, 0);
    EmptyAll(Pad(m));
    EmptyBytes();
    DigestOfOneBlock(m);
  }

  // ----- "abc" -----

  lemma Abc0(block: seq<byte>)
    requires IsBlock(block, 0x80636261, 0x00000018)
    requires Operations(INITIAL, block, 0) == Chain(0x67452301, 0xefcdab89, 0x98badcfe, 0x10325476)
    ensures Operations(INITIAL, block, 8) == Chain(0xc73741ef, 0x928d99f6, 0x207dc67b, 0x8bac3051)
  {
    hide IsBlock, Operations, Word, WordIndex, Sine, Shift;
    WordsOf(block, 0x80636261, 0x00000018);
    Table0();
    Next(block, 0, 0x67452301, 0xefcdab89, 0x98badcfe, 0x10325476, 0x80636261, 0xd76aa478, 7, 0xd6d117b4);
    Next(block, 1, 0x10325476, 0xd6d117b4, 0xefcdab89, 0x98badcfe, 0x00000000, 0xe8c7b756, 12, 0x344a8432);
    Next(block, 2, 0x98badcfe, 0x344a8432, 0xd6d117b4, 0xefcdab89, 0x00000000, 0x242070db, 17, 0x2f6fbd72);
    Next(block, 3, 0xefcdab89, 0x2f6fbd72, 0x344a8432, 0xd6d117b4, 0x00000000, 0xc1bdceee, 22, 0x7ad956f2);
    Next(block, 4, 0xd6d117b4, 0x7ad956f2, 0x2f6fbd72, 0x344a8432, 0x00000000, 0xf57c0faf, 7, 0xc73741ef);
    Next(block, 5, 0x344a8432, 0xc73741ef, 0x7ad956f2, 0x2f6fbd72, 0x00000000, 0x4787c62a, 12, 0x8bac3051);
    Next(block, 6, 0x2f6fbd72, 0x8bac3051, 0xc73741ef, 0x7ad956f2, 0x00000000, 0xa8304613, 17, 0x207dc67b);
    Next(block, 7, 0x7ad956f2, 0x207dc67b, 0x8bac3051, 0xc73741ef, 0x00000000, 0xfd469501, 22, 0x928d99f6);
  }

  lemma Abc8(block: seq<byte>)
    requires IsBlock(block, 0x80636261, 0x00000018)
    requires Operations(INITIAL, block, 8) == Chain(0xc73741ef, 0x928d99f6, 0x207dc67b, 0x8bac3051)
    ensures Operations(INITIAL, block, 16) == Chain(0xdda9b9a6, 0x72aff2e0, 0xe396856b, 0xa1051895)
  {
    hide IsBlock, Operations, Word, WordIndex, Sine, Shift;
    WordsOf(block, 0x80636261, 0x00000018);
    Table8();
    Next(block, 8, 0xc73741ef, 0x928d99f6, 0x207dc67b, 0x8bac3051, 0x00000000, 0x698098d8, 7, 0x854b3712);
    Next(block, 9, 0x8bac3051, 0x854b3712, 0x928d99f6, 0x207dc67b, 0x00000000, 0x8b44f7af, 12, 0x74e2f284);
    Next(block, 10, 0x207dc67b, 0x74e2f284, 0x854b3712, 0x928d99f6, 0x00000000, 0xffff5bb1, 17, 0x3020401c);
    Next(block, 11, 0x928d99f6, 0x3020401c, 0x74e2f284, 0x854b3712, 0x00000000, 0x895cd7be, 22, 0x5ed49596);
    Next(block, 12, 0x854b3712, 0x5ed49596, 0x3020401c, 0x74e2f284, 0x00000000, 0x6b901122, 7, 0xdda9b9a6);
    Next(block, 13, 0x74e2f284, 0xdda9b9a6, 0x5ed49596, 0x3020401c, 0x00000000, 0xfd987193, 12, 0xa1051895);
    Next(block, 14, 0x3020401c, 0xa1051895, 0xdda9b9a6, 0x5ed49596, 0x00000018, 0xa679438e, 17, 0xe396856b);
    Next(block, 15, 0x5ed49596, 0xe396856b, 0xa1051895, 0xdda9b9a6, 0x00000000, 0x49b40821, 22, 0x72aff2e0);
  }

  lemma Abc16(block: seq<byte>)
    requires IsBlock(block, 0x80636261, 0x00000018)
    requires Operations(INITIAL, block, 16) == Chain(0xdda9b9a6, 0x72aff2e0, 0xe396856b, 0xa1051895)
    ensures Operations(INITIAL, block, 24) == Chain(0x59a8ffda, 0x47092c07, 0xabfc7920, 0x6d002f1e)
  {
    hide IsBlock, Operations, Word, WordIndex, Sine, Shift;
    WordsOf(block, 0x80636261, 0x00000018);
    Table16();
    Next(block, 16, 0xdda9b9a6, 0x72aff2e0, 0xe396856b, 0xa1051895, 0x00000000, 0xf61e2562, 5, 0x3e9e9126);
    Next(block, 17, 0xa1051895, 0x3e9e9126, 0x72aff2e0, 0xe396856b, 0x00000000, 0xc040b340, 9, 0x4a1d804e);
    Next(block, 18, 0xe396856b, 0x4a1d804e, 0x3e9e9126, 0x72aff2e0, 0x00000000, 0x265e5a51, 14, 0xe25e1652);
    Next(block, 19, 0x72aff2e0, 0xe25e1652, 0x4a1d804e, 0x3e9e9126, 0x80636261, 0xe9b6c7aa, 20, 0xb5b204e4);
    Next(block, 20, 0x3e9e9126, 0xb5b204e4, 0xe25e1652, 0x4a1d804e, 0x00000000, 0xd62f105d, 5, 0x59a8ffda);
    Next(block, 21, 0x4a1d804e, 0x59a8ffda, 0xb5b204e4, 0xe25e1652, 0x00000000, 0x02441453, 9, 0x6d002f1e);
    Next(block, 22, 0xe25e1652, 0x6d002f1e, 0x59a8ffda, 0xb5b204e4, 0x00000000, 0xd8a1e681, 14, 0xabfc7920);
    Next(block, 23, 0xb5b204e4, 0xabfc7920, 0x6d002f1e, 0x59a8ffda, 0x00000000, 0xe7d3fbc8, 20, 0x47092c07);
  }

  lemma Abc24(block: seq<byte>)
    requires IsBlock(block, 0x80636261, 0x00000018)
    requires Operations(INITIAL, block, 24) == Chain(0x59a8ffda, 0x47092c07, 0xabfc7920, 0x6d002f1e)
    ensures Operations(INITIAL, block, 32) == Chain(0x790a77fb, 0x726342d3, 0xa62884aa, 0x9f47e4f8)
  {
    hide IsBlock, Operations, Word, WordIndex, Sine, Shift;
    WordsOf(block, 0x80636261, 0x00000018);
    Table24();
    Next(block, 24, 0x59a8ffda, 0x47092c07, 0xabfc7920, 0x6d002f1e, 0x00000000, 0x21e1cde6, 5, 0xb7f268cf);
    Next(block, 25, 0x6d002f1e, 0xb7f268cf, 0x47092c07, 0xabfc7920, 0x00000018, 0xc33707d6, 9, 0x09388eff);
    Next(block, 26, 0xabfc7920, 0x09388eff, 0xb7f268cf, 0x47092c07, 0x00000000, 0xf4d50d87, 14, 0xfe1623b1);
    Next(block, 27, 0x47092c07, 0xfe1623b1, 0x09388eff, 0xb7f268cf, 0x00000000, 0x455a14ed, 20, 0x786acb8f);
    Next(block, 28, 0xb7f268cf, 0x786acb8f, 0xfe1623b1, 0x09388eff, 0x00000000, 0xa9e3e905, 5, 0x790a77fb);
    Next(block, 29, 0x09388eff, 0x790a77fb, 0x786acb8f, 0xfe1623b1, 0x00000000, 0xfcefa3f8, 9, 0x9f47e4f8);
    Next(block, 30, 0xfe1623b1, 0x9f47e4f8, 0x790a77fb, 0x786acb8f, 0x00000000, 0x676f02d9, 14, 0xa62884aa);
    Next(block, 31, 0x786acb8f, 0xa62884aa, 0x9f47e4f8, 0x790a77fb, 0x00000000, 0x8d2a4c8a, 20, 0x726342d3);
  }

  lemma Abc32(block: seq<byte>)
    requires IsBlock(block, 0x80636261, 0x00000018)
    requires Operations(INITIAL, block, 32) == Chain(0x790a77fb, 0x726342d3, 0xa62884aa, 0x9f47e4f8)
    ensures Operations(INITIAL, block, 40) == Chain(0x21b117b9, 0x5a2f5ea5, 0x3575227e, 0x6e7429d5)
  {
    hide IsBlock, Operations, Word, WordIndex, Sine, Shift;
    WordsOf(block, 0x80636261, 0x00000018);
    Table32();
    Next(block, 32, 0x790a77fb, 0x726342d3, 0xa62884aa, 0x9f47e4f8, 0x00000000, 0xfffa3942, 4, 0xb3707ebf);
    Next(block, 33, 0x9f47e4f8, 0xb3707ebf, 0x726342d3, 0xa62884aa, 0x00000000, 0x8771f681, 11, 0x60127b2e);
    Next(block, 34, 0xa62884aa, 0x60127b2e, 0xb3707ebf, 0x726342d3, 0x00000000, 0x6d9d6122, 16, 0x8d212ff5);
    Next(block, 35, 0x726342d3, 0x8d212ff5, 0x60127b2e, 0xb3707ebf, 0x00000018, 0xfde5380c, 23, 0x3b0875c7);
    Next(block, 36, 0xb3707ebf, 0x3b0875c7, 0x8d212ff5, 0x60127b2e, 0x00000000, 0xa4beea44, 4, 0x21b117b9);
    Next(block, 37, 0x60127b2e, 0x21b117b9, 0x3b0875c7, 0x8d212ff5, 0x00000000, 0x4bdecfa9, 11, 0x6e7429d5);
    Next(block, 38, 0x8d212ff5, 0x6e7429d5, 0x21b117b9, 0x3b0875c7, 0x00000000, 0xf6bb4b60, 16, 0x3575227e);
    Next(block, 39, 0x3b0875c7, 0x3575227e, 0x6e7429d5, 0x21b117b9, 0x00000000, 0xbebfbc70, 23, 0x5a2f5ea5);
  }

  lemma Abc40(block: seq<byte>)
    requires IsBlock(block, 0x80636261, 0x00000018)
    requires Operations(INITIAL, block, 40) == Chain(0x21b117b9, 0x5a2f5ea5, 0x3575227e, 0x6e7429d5)
    ensures Operations(INITIAL, block, 48) == Chain(0x7f2e507b, 0x7beb9700, 0x8fae6399, 0x99d9679d)
  {
    hide IsBlock, Operations, Word, WordIndex, Sine, Shift;
    WordsOf(block, 0x80636261, 0x00000018);
    Table40();
    Next(block, 40, 0x21b117b9, 0x5a2f5ea5, 0x3575227e, 0x6e7429d5, 0x00000000, 0x289b7ec6, 4, 0x11de1779);
    Next(block, 41, 0x6e7429d5, 0x11de1779, 0x5a2f5ea5, 0x3575227e, 0x80636261, 0xeaa127fa, 11, 0xfadcaa38);
    Next(block, 42, 0x3575227e, 0xfadcaa38, 0x11de1779, 0x5a2f5ea5, 0x00000000, 0xd4ef3085, 16, 0x31c465ca);
    Next(block, 43, 0x5a2f5ea5, 0x31c465ca, 0xfadcaa38, 0x11de1779, 0x00000000, 0x04881d05, 23, 0x4c6124f4);
    Next(block, 44, 0x11de1779, 0x4c6124f4, 0x31c465ca, 0xfadcaa38, 0x00000000, 0xd9d4d039, 4, 0x7f2e507b);
    Next(block, 45, 0xfadcaa38, 0x7f2e507b, 0x4c6124f4, 0x31c465ca, 0x00000000, 0xe6db99e5, 11, 0x99d9679d);
    Next(block, 46, 0x31c465ca, 0x99d9679d, 0x7f2e507b, 0x4c6124f4, 0x00000000, 0x1fa27cf8, 16, 0x8fae6399);
    Next(block, 47, 0x4c6124f4, 0x8fae6399, 0x99d9679d, 0x7f2e507b, 0x00000000, 0xc4ac5665, 23, 0x7beb9700);
  }

  lemma Abc48(block: seq<byte>)
    requires IsBlock(block, 0x80636261, 0x00000018)
    requires Operations(INITIAL, block, 48) == Chain(0x7f2e507b, 0x7beb9700, 0x8fae6399, 0x99d9679d)
    ensures Operations(INITIAL, block, 56) == Chain(0x06cc5e8a, 0x3bfa2c27, 0x7d632dd0, 0x5b0d97aa)
  {
    hide IsBlock, Operations, Word, WordIndex, Sine, Shift;
    WordsOf(block, 0x80636261, 0x00000018);
    Table48();
    Next(block, 48, 0x7f2e507b, 0x7beb9700, 0x8fae6399, 0x99d9679d, 0x80636261, 0xf4292244, 6, 0x7b201df8);
    Next(block, 49, 0x99d9679d, 0x7b201df8, 0x7beb9700, 0x8fae6399, 0x00000000, 0x432aff97, 10, 0xf4e8e96e);
    Next(block, 50, 0x8fae6399, 0xf4e8e96e, 0x7b201df8, 0x7beb9700, 0x00000018, 0xab9423a7, 15, 0xb298cefd);
    Next(block, 51, 0x7beb9700, 0xb298cefd, 0xf4e8e96e, 0x7b201df8, 0x00000000, 0xfc93a039, 21, 0x8bf025c4);
    Next(block, 52, 0x7b201df8, 0x8bf025c4, 0xb298cefd, 0xf4e8e96e, 0x00000000, 0x655b59c3, 6, 0x06cc5e8a);
    Next(block, 53, 0xf4e8e96e, 0x06cc5e8a, 0x8bf025c4, 0xb298cefd, 0x00000000, 0x8f0ccc92, 10, 0x5b0d97aa);
    Next(block, 54, 0xb298cefd, 0x5b0d97aa, 0x06cc5e8a, 0x8bf025c4, 0x00000000, 0xffeff47d, 15, 0x7d632dd0);
    Next(block, 55, 0x8bf025c4, 0x7d632dd0, 0x5b0d97aa, 0x06cc5e8a, 0x00000000, 0x85845dd1, 21, 0x3bfa2c27);
  }

  lemma Abc56(block: seq<byte>)
    requires IsBlock(block, 0x80636261, 0x00000018)
    requires Operations(INITIAL, block, 56) == Chain(0x06cc5e8a, 0x3bfa2c27, 0x7d632dd0, 0x5b0d97aa)
    ensures Operations(INITIAL, block, 64) == Chain(0x310ade8f, 0xc08226b3, 0xe484b9d8, 0x624d8cb2)
  {
    hide IsBlock, Operations, Word, WordIndex, Sine, Shift;
    WordsOf(block, 0x80636261, 0x00000018);
    Table56();
    Next(block, 56, 0x06cc5e8a, 0x3bfa2c27, 0x7d632dd0, 0x5b0d97aa, 0x00000000, 0x6fa87e4f, 6, 0x7f81cc35);
    Next(block, 57, 0x5b0d97aa, 0x7f81cc35, 0x3bfa2c27, 0x7d632dd0, 0x00000000, 0xfe2ce6e0, 10, 0x094454ab);
    Next(block, 58, 0x7d632dd0, 0x094454ab, 0x7f81cc35, 0x3bfa2c27, 0x00000000, 0xa3014314, 15, 0x4f9dbe3f);
    Next(block, 59, 0x3bfa2c27, 0x4f9dbe3f, 0x094454ab, 0x7f81cc35, 0x00000000, 0x4e0811a1, 21, 0x7327d604);
    Next(block, 60, 0x7f81cc35, 0x7327d604, 0x4f9dbe3f, 0x094454ab, 0x00000000, 0xf7537e82, 6, 0x310ade8f);
    Next(block, 61, 0x094454ab, 0x310ade8f, 0x7327d604, 0x4f9dbe3f, 0x00000000, 0xbd3af235, 10, 0x624d8cb2);
    Next(block, 62, 0x4f9dbe3f, 0x624d8cb2, 0x310ade8f, 0x7327d604, 0x00000000, 0x2ad7d2bb, 15, 0xe484b9d8);
    Next(block, 63, 0x7327d604, 0xe484b9d8, 0x624d8cb2, 0x310ade8f, 0x00000000, 0xeb86d391, 21, 0xc08226b3);
  }

  lemma AbcAll(block: seq<byte>)
    requires IsBlock(block, 0x80636261, 0x00000018)
    ensures Compress(INITIAL, block) == Chain(0x98500190, 0xb04fd23c, 0x7d3f96d6, 0x727fe128)
  {
    hide IsBlock, Operations;
    WordsOf(block, 0x80636261, 0x00000018);
    NoOperation(block);
    Abc0(block);
    Abc8(block);
    Abc16(block);
    Abc24(block);
    Abc32(block);
    Abc40(block);
    Abc48(block);
    Abc56(block);
  }

  lemma AbcBytes()
    ensures WordBytes(0x98500190) == [0x90, 0x01, 0x50, 0x98] && WordBytes(0xb04fd23c) == [0x3c, 0xd2, 0x4f, 0xb0]
    ensures WordBytes(0x7d3f96d6) == [0xd6, 0x96, 0x3f, 0x7d] && WordBytes(0x727fe128) == [0x28, 0xe1, 0x7f, 0x72]
  {
  }

  /** MD5 ("abc") = 900150983cd24fb0d6963f7d28e17f72. */
  lemma DigestOfAbc()
    ensures Digest([0x61, 0x62, 0x63]) ==
            [0x90, 0x01, 0x50, 0x98, 0x3c, 0xd2, 0x4f, 0xb0] +
            [0xd6, 0x96, 0x3f, 0x7d, 0x28, 0xe1, 0x7f, 0x72]
  {
    hide *;
    var m: seq<byte> := [0x61, 0x62, 0x63];
    PaddedBlock(m, 0x80636261, 24);
    AbcAll(Pad(m));
    AbcBytes();
    DigestOfOneBlock(m);
  }

  // ----- from blocks to digests -----

  lemma DigestOfOneBlock(m: seq<byte>)
    requires |Pad(m)| == 64
    ensures var q := Compress(INITIAL, Pad(m));
            Digest(m) == WordBytes(q.a) + WordBytes(q.b) + (WordBytes(q.c) + WordBytes(q.d))
  {
    hide Compress;
    var p := Pad(m);
    assert p[..64] == p && p[64..] == [];
    assert HashBlocks(INITIAL, p) == Compress(INITIAL, p);
  }

  lemma PaddedBlock(m: seq<byte>, w0: bv32, bits: bv32)
    requires (m == [] && w0 == 0x80 && bits == 0) || (m == [0x61, 0x62, 0x63] && w0 == 0x80636261 && bits == 24)
    ensures |Pad(m)| == 64 && IsBlock(Pad(m), w0, bits)
  {
    var p := Pad(m);
    hide Le32;
    assert LengthBytes(0) == [0, 0, 0, 0, 0, 0, 0, 0];
    assert LengthBytes(24) == [24, 0, 0, 0, 0, 0, 0, 0];
    assert |p| == 64;
    assert forall i | 4 <= i < 64 && i != 56 :: p[i] == 0;
    LittleWords();
  }

  lemma LittleWords()
    ensures Le32(0, 0, 0, 0) == 0 && Le32(24, 0, 0, 0) == 24 && Le32(0x80, 0, 0, 0) == 0x80
    ensures Le32(0x61, 0x62, 0x63, 0x80) == 0x80636261
  {
  }
}
