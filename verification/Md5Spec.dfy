/** The MD5 message digest, as sections 3.1 to 3.5 of RFC 1321 define it: over a whole message,
    operation by operation, with no streaming and no buffering. */
module Md5Spec {
  import opened Bytes

  /** The four-word buffer A, B, C, D. */
  datatype Chain = Chain(a: bv32, b: bv32, c: bv32, d: bv32)

  const INITIAL := Chain(0x67452301, 0xefcdab89, 0x98badcfe, 0x10325476)

  function Rotl(x: bv32, s: bv8): bv32
    requires s <= 32
  {
    (x << s) | (x >> (32 - s))
  }

  // The auxiliary functions of section 3.4.
  function F(x: bv32, y: bv32, z: bv32): bv32 { (x & y) | (!x & z) }
  function G(x: bv32, y: bv32, z: bv32): bv32 { (x & z) | (y & !z) }
  function H(x: bv32, y: bv32, z: bv32): bv32 { x ^ y ^ z }
  function I(x: bv32, y: bv32, z: bv32): bv32 { y ^ (x | !z) }

  function Aux(i: nat, x: bv32, y: bv32, z: bv32): bv32 {
    if i < 16 then F(x, y, z) else if i < 32 then G(x, y, z) else if i < 48 then H(x, y, z) else I(x, y, z)
  }

  /** The message word that operation i takes. */
  function WordIndex(i: nat): (k: nat)
    ensures k < 16
  {
    if i < 16 then i % 16
    else if i < 32 then (5 * i + 1) % 16
    else if i < 48 then (3 * i + 5) % 16
    else 7 * i % 16
  }

  /** Four amounts, taken in turn. */
  function Turn(i: nat, s0: bv8, s1: bv8, s2: bv8, s3: bv8): (s: bv8)
    ensures s0 <= 32 && s1 <= 32 && s2 <= 32 && s3 <= 32 ==> s <= 32
  {
    if i % 4 == 0 then s0 else if i % 4 == 1 then s1 else if i % 4 == 2 then s2 else s3
  }

  /** The rotation that operation i makes. */
  function Shift(i: nat): (s: bv8)
    ensures s <= 32
  {
    if i < 16 then Turn(i, 7, 12, 17, 22)
    else if i < 32 then Turn(i, 5, 9, 14, 20)
    else if i < 48 then Turn(i, 4, 11, 16, 23)
    else Turn(i, 6, 10, 15, 21)
  }

  /** Entry i + 1 of the sine table: the integer part of 4294967296 * abs(sin(i + 1)), i + 1 in radians. */
  function Sine(i: nat): bv32 {
    if i < 16 then Sine1(i) else if i < 32 then Sine2(i - 16) else if i < 48 then Sine3(i - 32) else Sine4(i - 48)
  }

  function Sine1(i: nat): bv32 {
    match i
    case 0 => 0xd76aa478
    case 1 => 0xe8c7b756
    case 2 => 0x242070db
    case 3 => 0xc1bdceee
    case 4 => 0xf57c0faf
    case 5 => 0x4787c62a
    case 6 => 0xa8304613
    case 7 => 0xfd469501
    case 8 => 0x698098d8
    case 9 => 0x8b44f7af
    case 10 => 0xffff5bb1
    case 11 => 0x895cd7be
    case 12 => 0x6b901122
    case 13 => 0xfd987193
    case 14 => 0xa679438e
    case _ => 0x49b40821
  }

  function Sine2(i: nat): bv32 {
    match i
    case 0 => 0xf61e2562
    case 1 => 0xc040b340
    case 2 => 0x265e5a51
    case 3 => 0xe9b6c7aa
    case 4 => 0xd62f105d
    case 5 => 0x02441453
    case 6 => 0xd8a1e681
    case 7 => 0xe7d3fbc8
    case 8 => 0x21e1cde6
    case 9 => 0xc33707d6
    case 10 => 0xf4d50d87
    case 11 => 0x455a14ed
    case 12 => 0xa9e3e905
    case 13 => 0xfcefa3f8
    case 14 => 0x676f02d9
    case _ => 0x8d2a4c8a
  }

  function Sine3(i: nat): bv32 {
    match i
    case 0 => 0xfffa3942
    case 1 => 0x8771f681
    case 2 => 0x6d9d6122
    case 3 => 0xfde5380c
    case 4 => 0xa4beea44
    case 5 => 0x4bdecfa9
    case 6 => 0xf6bb4b60
    case 7 => 0xbebfbc70
    case 8 => 0x289b7ec6
    case 9 => 0xeaa127fa
    case 10 => 0xd4ef3085
    case 11 => 0x04881d05
    case 12 => 0xd9d4d039
    case 13 => 0xe6db99e5
    case 14 => 0x1fa27cf8
    case _ => 0xc4ac5665
  }

  function Sine4(i: nat): bv32 {
    match i
    case 0 => 0xf4292244
    case 1 => 0x432aff97
    case 2 => 0xab9423a7
    case 3 => 0xfc93a039
    case 4 => 0x655b59c3
    case 5 => 0x8f0ccc92
    case 6 => 0xffeff47d
    case 7 => 0x85845dd1
    case 8 => 0x6fa87e4f
    case 9 => 0xfe2ce6e0
    case 10 => 0xa3014314
    case 11 => 0x4e0811a1
    case 12 => 0xf7537e82
    case 13 => 0xbd3af235
    case 14 => 0x2ad7d2bb
    case _ => 0xeb86d391
  }

  /** One operation on a block. The register that changes moves round: after it, what was D plays A. */
  function Operation(q: Chain, block: seq<byte>, i: nat): Chain
    requires |block| == 64
  {
    var sum := Add(q.a, Add(Add(Aux(i, q.b, q.c, q.d), Word(block, 4 * WordIndex(i))), Sine(i)));
    Chain(q.d, Add(q.b, Rotl(sum, Shift(i))), q.b, q.c)
  }

  /** The first n operations on a block. */
  function Operations(q: Chain, block: seq<byte>, n: nat): Chain
    requires |block| == 64
  {
    if n == 0 then q else Operation(Operations(q, block, n - 1), block, n - 1)
  }

  /** Section 3.4 on one block: all 64 operations, added to what the buffer held before. */
  function Compress(q: Chain, block: seq<byte>): Chain
    requires |block| == 64
  {
    var r := Operations(q, block, 64);
    Chain(Add(r.a, q.a), Add(r.b, q.b), Add(r.c, q.c), Add(r.d, q.d))
  }

  /** All blocks of a padded message, in order. */
  function HashBlocks(q: Chain, m: seq<byte>): Chain
    requires |m| % 64 == 0
    decreases |m|
  {
    if m == [] then q else HashBlocks(Compress(q, m[..64]), m[64..])
  }

  function Zeros(n: nat): (s: seq<byte>)
    ensures |s| == n
  {
    seq(n, _ => 0)
  }

  function ToByte(x: int): byte
    requires 0 <= x < 256
  {
    x as byte
  }

  /** Section 3.2: the length in bits modulo 2^64, low-order byte first. */
  function LengthBytes(bits: nat): (s: seq<byte>)
    ensures |s| == 8
  {
    [ToByte(bits % 256),
     ToByte(bits / 0x100 % 256),
     ToByte(bits / 0x1_0000 % 256),
     ToByte(bits / 0x100_0000 % 256),
     ToByte(bits / 0x1_0000_0000 % 256),
     ToByte(bits / 0x100_0000_0000 % 256),
     ToByte(bits / 0x1_0000_0000_0000 % 256),
     ToByte(bits / 0x100_0000_0000_0000 % 256)]
  }

  /** The fewest zero bytes that, after a message of n bytes and the byte 0x80, leave eight to a block. */
  function ZeroCount(n: nat): (z: nat)
    ensures z < 64 && (n + 1 + z + 8) % 64 == 0
  {
    var used := n % 64;
    if used <= 55 then 55 - used else 119 - used
  }

  /** Sections 3.1 and 3.2: a one bit, zero bits up to 448 modulo 512, and the length. */
  function Pad(m: seq<byte>): (p: seq<byte>)
    ensures |p| % 64 == 0
  {
    m + ([0x80] + Zeros(ZeroCount(|m|)) + LengthBytes(8 * |m|))
  }

  /** A word as four bytes, low-order byte first. */
  function WordBytes(w: bv32): (s: seq<byte>)
    ensures |s| == 4
  {
    [(w & 0xff) as byte, ((w >> 8) & 0xff) as byte, ((w >> 16) & 0xff) as byte, ((w >> 24) & 0xff) as byte]
  }

  /** Section 3.5: the message digest. */
  function Digest(m: seq<byte>): (s: seq<byte>)
    ensures |s| == 16
  {
    var q := HashBlocks(INITIAL, Pad(m));
    WordBytes(q.a) + WordBytes(q.b) + WordBytes(q.c) + WordBytes(q.d)
  }

  lemma {:induction false} HashBlocksAppend(q: Chain, m: seq<byte>, n: seq<byte>)
    requires |m| % 64 == 0 && |n| % 64 == 0
    ensures |m + n| % 64 == 0 && HashBlocks(q, m + n) == HashBlocks(HashBlocks(q, m), n)
    decreases |m|
  {
    hide Compress;
    if m == [] {
      assert m + n == n;
    } else {
      HashBlocksAppend(Compress(q, m[..64]), m[64..], n);
      assert (m + n)[..64] == m[..64] && (m + n)[64..] == m[64..] + n;
    }
  }

  /** Writing a word out and reading it back gives the word. */
  lemma WordBytesRoundTrip(w: bv32)
    ensures Word(WordBytes(w), 0) == w
  {
    assert (w & 0xff) | (((w >> 8) & 0xff) << 8) | (((w >> 16) & 0xff) << 16) | (((w >> 24) & 0xff) << 24) == w;
  }
}
