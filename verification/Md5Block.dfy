/** md5.c, the block transformation: four rounds of sixteen unrolled steps on four registers. */
module Md5Block {
  import opened Bytes
  import opened Md5Spec

  // The macros of md5.c: F and G are written without an AND-NOT.
  function MacroF(x: bv32, y: bv32, z: bv32): bv32 { z ^ (x & (y ^ z)) }
  function MacroG(x: bv32, y: bv32, z: bv32): bv32 { y ^ (z & (x ^ y)) }
  function MacroH(x: bv32, y: bv32, z: bv32): bv32 { x ^ y ^ z }
  function MacroI(x: bv32, y: bv32, z: bv32): bv32 { y ^ (x | !z) }

  function Step(f: bv32, a: bv32, b: bv32, x: bv32, t: bv32, s: bv8): bv32
    requires s <= 32
  {
    Add(Rotate(Add(a, Add(Add(f, x), t)), s), b)
  }

  function Rotate(a: bv32, s: bv8): bv32
    requires s <= 32
  {
    (a << s) | ((a & 0xffffffff) >> (32 - s))
  }

  lemma SelectByXor(x: bv32, y: bv32, z: bv32)
    ensures (x & y) | (!x & z) == z ^ (x & (y ^ z))
    ensures (x & z) | (y & !z) == y ^ (z & (x ^ y))
  {
  }

  lemma RotateIsRotl(a: bv32, s: bv8)
    requires s <= 32
    ensures Rotate(a, s) == Rotl(a, s)
  {
    assert a & 0xffffffff == a;
  }

  function Macro(i: nat, x: bv32, y: bv32, z: bv32): bv32 {
    if i < 16 then MacroF(x, y, z)
    else if i < 32 then MacroG(x, y, z)
    else if i < 48 then MacroH(x, y, z)
    else MacroI(x, y, z)
  }

  /** The macros compute the functions of section 3.4. */
  lemma AuxIsMacro(i: nat, x: bv32, y: bv32, z: bv32)
    ensures Aux(i, x, y, z) == Macro(i, x, y, z)
  {
    hide F, G, H, I, MacroF, MacroG, MacroH, MacroI;
    FIsMacro(x, y, z);
    GIsMacro(x, y, z);
    SameMacros(x, y, z);
  }

  lemma FIsMacro(x: bv32, y: bv32, z: bv32)
    ensures F(x, y, z) == MacroF(x, y, z)
  {
    hide G, H, I, MacroG, MacroH, MacroI;
    SelectByXor(x, y, z);
  }

  lemma GIsMacro(x: bv32, y: bv32, z: bv32)
    ensures G(x, y, z) == MacroG(x, y, z)
  {
    hide F, H, I, MacroF, MacroH, MacroI;
    SelectByXor(x, y, z);
  }

  lemma SameMacros(x: bv32, y: bv32, z: bv32)
    ensures H(x, y, z) == MacroH(x, y, z) && I(x, y, z) == MacroI(x, y, z)
  {
  }

  /** The rotation macro computes one operation of the message digest. */
  lemma StepIsOperation(f: bv32, a: bv32, b: bv32, x: bv32, t: bv32, s: bv8)
    requires s <= 32
    ensures Step(f, a, b, x, t, s) == Add(b, Rotl(Add(a, Add(Add(f, x), t)), s))
  {
    hide Rotl, Rotate, Add;
    RotateIsRotl(Add(a, Add(Add(f, x), t)), s);
    AddCommutes(Rotl(Add(a, Add(Add(f, x), t)), s), b);
  }

  lemma OneMore(q0: Chain, block: seq<byte>, i: nat, q: Chain)
    requires |block| == 64 && q == Operations(q0, block, i)
    ensures Operations(q0, block, i + 1) ==
            Chain(q.d, Step(Macro(i, q.b, q.c, q.d), q.a, q.b,
                            Word(block, 4 * WordIndex(i)), Sine(i), Shift(i)), q.b, q.c)
  {
    hide Word, Sine, Shift, WordIndex, Step, Rotl, Aux, Macro, Add;
    AuxIsMacro(i, q.b, q.c, q.d);
    StepIsOperation(Macro(i, q.b, q.c, q.d), q.a, q.b, Word(block, 4 * WordIndex(i)), Sine(i), Shift(i));
  }

  // The message words of rounds 2 to 4, written out.
  function Pick2(j: nat): nat {
    match j
    case 0 => 1 case 1 => 6 case 2 => 11 case 3 => 0
    case 4 => 5 case 5 => 10 case 6 => 15 case 7 => 4
    case 8 => 9 case 9 => 14 case 10 => 3 case 11 => 8
    case 12 => 13 case 13 => 2 case 14 => 7 case _ => 12
  }

  function Pick3(j: nat): nat {
    match j
    case 0 => 5 case 1 => 8 case 2 => 11 case 3 => 14
    case 4 => 1 case 5 => 4 case 6 => 7 case 7 => 10
    case 8 => 13 case 9 => 0 case 10 => 3 case 11 => 6
    case 12 => 9 case 13 => 12 case 14 => 15 case _ => 2
  }

  function Pick4(j: nat): nat {
    match j
    case 0 => 0 case 1 => 7 case 2 => 14 case 3 => 5
    case 4 => 12 case 5 => 3 case 6 => 10 case 7 => 1
    case 8 => 8 case 9 => 15 case 10 => 6 case 11 => 13
    case 12 => 4 case 13 => 11 case 14 => 2 case _ => 9
  }

  lemma PickIsIndex(j: nat)
    requires j < 16
    ensures Pick2(j) == WordIndex(16 + j) && Pick3(j) == WordIndex(32 + j) && Pick4(j) == WordIndex(48 + j)
  {
  }

  lemma OneMore1(q0: Chain, block: seq<byte>, j: nat, q: Chain)
    requires |block| == 64 && q == Operations(q0, block, j) && j < 16
    ensures Operations(q0, block, j + 1) ==
            Chain(q.d, Step(MacroF(q.b, q.c, q.d), q.a, q.b,
                            Word(block, 4 * j), Sine1(j), Turn(j, 7, 12, 17, 22)), q.b, q.c)
  {
    hide Word, Step, Operations, Sine1, MacroF;
    OneMore(q0, block, j, q);
  }

  lemma OneMore2(q0: Chain, block: seq<byte>, j: nat, q: Chain)
    requires |block| == 64 && q == Operations(q0, block, 16 + j) && j < 16
    ensures Operations(q0, block, 17 + j) ==
            Chain(q.d, Step(MacroG(q.b, q.c, q.d), q.a, q.b,
                            Word(block, 4 * Pick2(j)), Sine2(j), Turn(j, 5, 9, 14, 20)), q.b, q.c)
  {
    hide Word, Step, Operations, Sine2, MacroG, WordIndex, Pick2;
    PickIsIndex(j);
    OneMore(q0, block, 16 + j, q);
  }

  lemma OneMore3(q0: Chain, block: seq<byte>, j: nat, q: Chain)
    requires |block| == 64 && q == Operations(q0, block, 32 + j) && j < 16
    ensures Operations(q0, block, 33 + j) ==
            Chain(q.d, Step(MacroH(q.b, q.c, q.d), q.a, q.b,
                            Word(block, 4 * Pick3(j)), Sine3(j), Turn(j, 4, 11, 16, 23)), q.b, q.c)
  {
    hide Word, Step, Operations, Sine3, MacroH, WordIndex, Pick3;
    PickIsIndex(j);
    OneMore(q0, block, 32 + j, q);
  }

  lemma OneMore4(q0: Chain, block: seq<byte>, j: nat, q: Chain)
    requires |block| == 64 && q == Operations(q0, block, 48 + j) && j < 16
    ensures Operations(q0, block, 49 + j) ==
            Chain(q.d, Step(MacroI(q.b, q.c, q.d), q.a, q.b,
                            Word(block, 4 * Pick4(j)), Sine4(j), Turn(j, 6, 10, 15, 21)), q.b, q.c)
  {
    hide Word, Step, Operations, Sine4, MacroI, WordIndex, Pick4;
    PickIsIndex(j);
    OneMore(q0, block, 48 + j, q);
  }

  method Round1(q: Chain, block: seq<byte>, ghost q0: Chain) returns (a: bv32, b: bv32, c: bv32, d: bv32)
    requires |block| == 64 && q == Operations(q0, block, 0)
    ensures Chain(a, b, c, d) == Operations(q0, block, 16)
  {
    hide Step, Word, Operations, MacroF, MacroG, MacroH, MacroI;
    a, b, c, d := q.a, q.b, q.c, q.d;
    OneMore1(q0, block, 0, Chain(a, b, c, d));
    a := Step(MacroF(b, c, d), a, b, Word(block, 0), 0xd76aa478, 7);
    OneMore1(q0, block, 1, Chain(d, a, b, c));
    d := Step(MacroF(a, b, c), d, a, Word(block, 4), 0xe8c7b756, 12);
    OneMore1(q0, block, 2, Chain(c, d, a, b));
    c := Step(MacroF(d, a, b), c, d, Word(block, 8), 0x242070db, 17);
    OneMore1(q0, block, 3, Chain(b, c, d, a));
    b := Step(MacroF(c, d, a), b, c, Word(block, 12), 0xc1bdceee, 22);
    OneMore1(q0, block, 4, Chain(a, b, c, d));
    a := Step(MacroF(b, c, d), a, b, Word(block, 16), 0xf57c0faf, 7);
    OneMore1(q0, block, 5, Chain(d, a, b, c));
    d := Step(MacroF(a, b, c), d, a, Word(block, 20), 0x4787c62a, 12);
    OneMore1(q0, block, 6, Chain(c, d, a, b));
    c := Step(MacroF(d, a, b), c, d, Word(block, 24), 0xa8304613, 17);
    OneMore1(q0, block, 7, Chain(b, c, d, a));
    b := Step(MacroF(c, d, a), b, c, Word(block, 28), 0xfd469501, 22);
    OneMore1(q0, block, 8, Chain(a, b, c, d));
    a := Step(MacroF(b, c, d), a, b, Word(block, 32), 0x698098d8, 7);
    OneMore1(q0, block, 9, Chain(d, a, b, c));
    d := Step(MacroF(a, b, c), d, a, Word(block, 36), 0x8b44f7af, 12);
    OneMore1(q0, block, 10, Chain(c, d, a, b));
    c := Step(MacroF(d, a, b), c, d, Word(block, 40), 0xffff5bb1, 17);
    OneMore1(q0, block, 11, Chain(b, c, d, a));
    b := Step(MacroF(c, d, a), b, c, Word(block, 44), 0x895cd7be, 22);
    OneMore1(q0, block, 12, Chain(a, b, c, d));
    a := Step(MacroF(b, c, d), a, b, Word(block, 48), 0x6b901122, 7);
    OneMore1(q0, block, 13, Chain(d, a, b, c));
    d := Step(MacroF(a, b, c), d, a, Word(block, 52), 0xfd987193, 12);
    OneMore1(q0, block, 14, Chain(c, d, a, b));
    c := Step(MacroF(d, a, b), c, d, Word(block, 56), 0xa679438e, 17);
    OneMore1(q0, block, 15, Chain(b, c, d, a));
    b := Step(MacroF(c, d, a), b, c, Word(block, 60), 0x49b40821, 22);
  }

  method Round2(q: Chain, block: seq<byte>, ghost q0: Chain) returns (a: bv32, b: bv32, c: bv32, d: bv32)
    requires |block| == 64 && q == Operations(q0, block, 16)
    ensures Chain(a, b, c, d) == Operations(q0, block, 32)
  {
    hide Step, Word, Operations, MacroF, MacroG, MacroH, MacroI;
    a, b, c, d := q.a, q.b, q.c, q.d;
    OneMore2(q0, block, 0, Chain(a, b, c, d));
    a := Step(MacroG(b, c, d), a, b, Word(block, 4), 0xf61e2562, 5);
    OneMore2(q0, block, 1, Chain(d, a, b, c));
    d := Step(MacroG(a, b, c), d, a, Word(block, 24), 0xc040b340, 9);
    OneMore2(q0, block, 2, Chain(c, d, a, b));
    c := Step(MacroG(d, a, b), c, d, Word(block, 44), 0x265e5a51, 14);
    OneMore2(q0, block, 3, Chain(b, c, d, a));
    b := Step(MacroG(c, d, a), b, c, Word(block, 0), 0xe9b6c7aa, 20);
    OneMore2(q0, block, 4, Chain(a, b, c, d));
    a := Step(MacroG(b, c, d), a, b, Word(block, 20), 0xd62f105d, 5);
    OneMore2(q0, block, 5, Chain(d, a, b, c));
    d := Step(MacroG(a, b, c), d, a, Word(block, 40), 0x02441453, 9);
    OneMore2(q0, block, 6, Chain(c, d, a, b));
    c := Step(MacroG(d, a, b), c, d, Word(block, 60), 0xd8a1e681, 14);
    OneMore2(q0, block, 7, Chain(b, c, d, a));
    b := Step(MacroG(c, d, a), b, c, Word(block, 16), 0xe7d3fbc8, 20);
    OneMore2(q0, block, 8, Chain(a, b, c, d));
    a := Step(MacroG(b, c, d), a, b, Word(block, 36), 0x21e1cde6, 5);
    OneMore2(q0, block, 9, Chain(d, a, b, c));
    d := Step(MacroG(a, b, c), d, a, Word(block, 56), 0xc33707d6, 9);
    OneMore2(q0, block, 10, Chain(c, d, a, b));
    c := Step(MacroG(d, a, b), c, d, Word(block, 12), 0xf4d50d87, 14);
    OneMore2(q0, block, 11, Chain(b, c, d, a));
    b := Step(MacroG(c, d, a), b, c, Word(block, 32), 0x455a14ed, 20);
    OneMore2(q0, block, 12, Chain(a, b, c, d));
    a := Step(MacroG(b, c, d), a, b, Word(block, 52), 0xa9e3e905, 5);
    OneMore2(q0, block, 13, Chain(d, a, b, c));
    d := Step(MacroG(a, b, c), d, a, Word(block, 8), 0xfcefa3f8, 9);
    OneMore2(q0, block, 14, Chain(c, d, a, b));
    c := Step(MacroG(d, a, b), c, d, Word(block, 28), 0x676f02d9, 14);
    OneMore2(q0, block, 15, Chain(b, c, d, a));
    b := Step(MacroG(c, d, a), b, c, Word(block, 48), 0x8d2a4c8a, 20);
  }

  method Round3(q: Chain, block: seq<byte>, ghost q0: Chain) returns (a: bv32, b: bv32, c: bv32, d: bv32)
    requires |block| == 64 && q == Operations(q0, block, 32)
    ensures Chain(a, b, c, d) == Operations(q0, block, 48)
  {
    hide Step, Word, Operations, MacroF, MacroG, MacroH, MacroI;
    a, b, c, d := q.a, q.b, q.c, q.d;
    OneMore3(q0, block, 0, Chain(a, b, c, d));
    a := Step(MacroH(b, c, d), a, b, Word(block, 20), 0xfffa3942, 4);
    OneMore3(q0, block, 1, Chain(d, a, b, c));
    d := Step(MacroH(a, b, c), d, a, Word(block, 32), 0x8771f681, 11);
    OneMore3(q0, block, 2, Chain(c, d, a, b));
    c := Step(MacroH(d, a, b), c, d, Word(block, 44), 0x6d9d6122, 16);
    OneMore3(q0, block, 3, Chain(b, c, d, a));
    b := Step(MacroH(c, d, a), b, c, Word(block, 56), 0xfde5380c, 23);
    OneMore3(q0, block, 4, Chain(a, b, c, d));
    a := Step(MacroH(b, c, d), a, b, Word(block, 4), 0xa4beea44, 4);
    OneMore3(q0, block, 5, Chain(d, a, b, c));
    d := Step(MacroH(a, b, c), d, a, Word(block, 16), 0x4bdecfa9, 11);
    OneMore3(q0, block, 6, Chain(c, d, a, b));
    c := Step(MacroH(d, a, b), c, d, Word(block, 28), 0xf6bb4b60, 16);
    OneMore3(q0, block, 7, Chain(b, c, d, a));
    b := Step(MacroH(c, d, a), b, c, Word(block, 40), 0xbebfbc70, 23);
    OneMore3(q0, block, 8, Chain(a, b, c, d));
    a := Step(MacroH(b, c, d), a, b, Word(block, 52), 0x289b7ec6, 4);
    OneMore3(q0, block, 9, Chain(d, a, b, c));
    d := Step(MacroH(a, b, c), d, a, Word(block, 0), 0xeaa127fa, 11);
    OneMore3(q0, block, 10, Chain(c, d, a, b));
    c := Step(MacroH(d, a, b), c, d, Word(block, 12), 0xd4ef3085, 16);
    OneMore3(q0, block, 11, Chain(b, c, d, a));
    b := Step(MacroH(c, d, a), b, c, Word(block, 24), 0x04881d05, 23);
    OneMore3(q0, block, 12, Chain(a, b, c, d));
    a := Step(MacroH(b, c, d), a, b, Word(block, 36), 0xd9d4d039, 4);
    OneMore3(q0, block, 13, Chain(d, a, b, c));
    d := Step(MacroH(a, b, c), d, a, Word(block, 48), 0xe6db99e5, 11);
    OneMore3(q0, block, 14, Chain(c, d, a, b));
    c := Step(MacroH(d, a, b), c, d, Word(block, 60), 0x1fa27cf8, 16);
    OneMore3(q0, block, 15, Chain(b, c, d, a));
    b := Step(MacroH(c, d, a), b, c, Word(block, 8), 0xc4ac5665, 23);
  }

  method Round4(q: Chain, block: seq<byte>, ghost q0: Chain) returns (a: bv32, b: bv32, c: bv32, d: bv32)
    requires |block| == 64 && q == Operations(q0, block, 48)
    ensures Chain(a, b, c, d) == Operations(q0, block, 64)
  {
    hide Step, Word, Operations, MacroF, MacroG, MacroH, MacroI;
    a, b, c, d := q.a, q.b, q.c, q.d;
    OneMore4(q0, block, 0, Chain(a, b, c, d));
    a := Step(MacroI(b, c, d), a, b, Word(block, 0), 0xf4292244, 6);
    OneMore4(q0, block, 1, Chain(d, a, b, c));
    d := Step(MacroI(a, b, c), d, a, Word(block, 28), 0x432aff97, 10);
    OneMore4(q0, block, 2, Chain(c, d, a, b));
    c := Step(MacroI(d, a, b), c, d, Word(block, 56), 0xab9423a7, 15);
    OneMore4(q0, block, 3, Chain(b, c, d, a));
    b := Step(MacroI(c, d, a), b, c, Word(block, 20), 0xfc93a039, 21);
    OneMore4(q0, block, 4, Chain(a, b, c, d));
    a := Step(MacroI(b, c, d), a, b, Word(block, 48), 0x655b59c3, 6);
    OneMore4(q0, block, 5, Chain(d, a, b, c));
    d := Step(MacroI(a, b, c), d, a, Word(block, 12), 0x8f0ccc92, 10);
    OneMore4(q0, block, 6, Chain(c, d, a, b));
    c := Step(MacroI(d, a, b), c, d, Word(block, 40), 0xffeff47d, 15);
    OneMore4(q0, block, 7, Chain(b, c, d, a));
    b := Step(MacroI(c, d, a), b, c, Word(block, 4), 0x85845dd1, 21);
    OneMore4(q0, block, 8, Chain(a, b, c, d));
    a := Step(MacroI(b, c, d), a, b, Word(block, 32), 0x6fa87e4f, 6);
    OneMore4(q0, block, 9, Chain(d, a, b, c));
    d := Step(MacroI(a, b, c), d, a, Word(block, 60), 0xfe2ce6e0, 10);
    OneMore4(q0, block, 10, Chain(c, d, a, b));
    c := Step(MacroI(d, a, b), c, d, Word(block, 24), 0xa3014314, 15);
    OneMore4(q0, block, 11, Chain(b, c, d, a));
    b := Step(MacroI(c, d, a), b, c, Word(block, 52), 0x4e0811a1, 21);
    OneMore4(q0, block, 12, Chain(a, b, c, d));
    a := Step(MacroI(b, c, d), a, b, Word(block, 16), 0xf7537e82, 6);
    OneMore4(q0, block, 13, Chain(d, a, b, c));
    d := Step(MacroI(a, b, c), d, a, Word(block, 44), 0xbd3af235, 10);
    OneMore4(q0, block, 14, Chain(c, d, a, b));
    c := Step(MacroI(d, a, b), c, d, Word(block, 8), 0x2ad7d2bb, 15);
    OneMore4(q0, block, 15, Chain(b, c, d, a));
    b := Step(MacroI(c, d, a), b, c, Word(block, 36), 0xeb86d391, 21);
  }

  /** One turn of the loop of body: the four rounds and the addition of what was saved before them. */
  method Transform(q: Chain, block: seq<byte>) returns (r: Chain)
    requires |block| == 64
    ensures r == Compress(q, block)
  {
    var a, b, c, d := Round1(q, block, q);
    a, b, c, d := Round2(Chain(a, b, c, d), block, q);
    a, b, c, d := Round3(Chain(a, b, c, d), block, q);
    a, b, c, d := Round4(Chain(a, b, c, d), block, q);
    r := Chain(Add(a, q.a), Add(b, q.b), Add(c, q.c), Add(d, q.d));
  }
}
