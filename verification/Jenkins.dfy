/** hashkit.c: hash_jenkins, which reads an aligned key in words, a half-aligned key in half-words
    and any other key in bytes. */
module Jenkins {
  import opened Bytes
  import opened JenkinsSpec

  /** The macro mix. */
  method MixMacro(q: Abc) returns (r: Abc)
    ensures r == Mix(q)
  {
    hide Add, Sub, Xor, Rot;
    var a, b, c := q.a, q.b, q.c;
    a := Sub(a, c);
    a := Xor(a, Rot(c, 4));
    c := Add(c, b);
    b := Sub(b, a);
    b := Xor(b, Rot(a, 6));
    a := Add(a, c);
    c := Sub(c, b);
    c := Xor(c, Rot(b, 8));
    b := Add(b, a);
    a := Sub(a, c);
    a := Xor(a, Rot(c, 16));
    c := Add(c, b);
    b := Sub(b, a);
    b := Xor(b, Rot(a, 19));
    a := Add(a, c);
    c := Sub(c, b);
    c := Xor(c, Rot(b, 4));
    b := Add(b, a);
    r := Abc(a, b, c);
  }

  /** The macro final. */
  method FinalMacro(q: Abc) returns (r: Abc)
    ensures r == Final(q)
  {
    hide Add, Sub, Xor, Rot;
    var a, b, c := q.a, q.b, q.c;
    c := Xor(c, b);
    c := Sub(c, Rot(b, 14));
    a := Xor(a, c);
    a := Sub(a, Rot(c, 11));
    b := Xor(b, a);
    b := Sub(b, Rot(a, 25));
    c := Xor(c, b);
    c := Sub(c, Rot(b, 16));
    a := Xor(a, c);
    a := Sub(a, Rot(c, 4));
    b := Xor(b, a);
    b := Sub(b, Rot(a, 14));
    c := Xor(c, b);
    c := Sub(c, Rot(b, 24));
    r := Abc(a, b, c);
  }

  // ----- sums of bytes and half-words are words -----

  function Le16(b0: byte, b1: byte): bv32 {
    (b0 as bv32) | ((b1 as bv32) << 8)
  }

  /** A 16-bit read. */
  function HalfWord(s: seq<byte>, at: nat): bv32
    requires at + 2 <= |s|
  {
    Le16(s[at], s[at + 1])
  }

  function Up8(b: byte): bv32 {
    (b as bv32) << 8
  }

  function Up16(x: bv32): bv32 {
    x << 16
  }

  function Up24(b: byte): bv32 {
    (b as bv32) << 24
  }

  function Mask(x: bv32, m: bv32): bv32 {
    x & m
  }

  function Widen(b: byte): bv32 {
    b as bv32
  }

  lemma AddZero(x: bv32)
    ensures Add(x, 0) == x
  {
  }

  lemma SumHalves(b0: byte, b1: byte, b2: byte, b3: byte)
    ensures Add(Le16(b0, b1), Up16(Le16(b2, b3))) == Le32(b0, b1, b2, b3)
  {
  }

  lemma SumHalfAndByte(b0: byte, b1: byte, b2: byte)
    ensures Add(Up16(Widen(b2)), Le16(b0, b1)) == Le32(b0, b1, b2, 0)
  {
  }

  lemma OneByte(b0: byte)
    ensures Widen(b0) == Le32(b0, 0, 0, 0)
  {
  }

  lemma OneHalf(b0: byte, b1: byte)
    ensures Le16(b0, b1) == Le32(b0, b1, 0, 0)
  {
  }

  lemma SumTop(b2: byte, b3: byte)
    ensures Add(Up16(Widen(b2)), Up24(b3)) == Le32(0, 0, b2, b3)
  {
  }

  lemma SumThree(b1: byte, b2: byte, b3: byte)
    ensures Add(Up8(b1), Le32(0, 0, b2, b3)) == Le32(0, b1, b2, b3)
  {
  }

  lemma SumFour(b0: byte, b1: byte, b2: byte, b3: byte)
    ensures Add(Widen(b0), Le32(0, b1, b2, b3)) == Le32(b0, b1, b2, b3)
  {
  }

  /** Four bytes added from the lowest up. */
  lemma SumUp(x: bv32, b0: byte, b1: byte, b2: byte, b3: byte)
    ensures Add(Add(Add(Add(x, Widen(b0)), Up8(b1)), Up16(Widen(b2))), Up24(b3)) == Add(x, Le32(b0, b1, b2, b3))
  {
    hide Add, Up8, Up16, Up24, Le32, Widen;
    AddAssociates(Add(Add(x, Widen(b0)), Up8(b1)), Up16(Widen(b2)), Up24(b3));
    SumTop(b2, b3);
    AddAssociates(Add(x, Widen(b0)), Up8(b1), Le32(0, 0, b2, b3));
    SumThree(b1, b2, b3);
    AddAssociates(x, Widen(b0), Le32(0, b1, b2, b3));
    SumFour(b0, b1, b2, b3);
  }

  /** Four bytes added from the highest down. */
  lemma SumDown(x: bv32, b0: byte, b1: byte, b2: byte, b3: byte)
    ensures Add(Add(Add(Add(x, Up24(b3)), Up16(Widen(b2))), Up8(b1)), Widen(b0)) == Add(x, Le32(b0, b1, b2, b3))
  {
    hide Add, Up8, Up16, Up24, Le32, Widen;
    AddAssociates(x, Up24(b3), Up16(Widen(b2)));
    AddCommutes(Up24(b3), Up16(Widen(b2)));
    SumTop(b2, b3);
    AddAssociates(x, Le32(0, 0, b2, b3), Up8(b1));
    AddCommutes(Le32(0, 0, b2, b3), Up8(b1));
    SumThree(b1, b2, b3);
    AddAssociates(x, Le32(0, b1, b2, b3), Widen(b0));
    AddCommutes(Le32(0, b1, b2, b3), Widen(b0));
    SumFour(b0, b1, b2, b3);
  }

  lemma NoBytes()
    ensures Up8(0) == 0 && Up16(0) == 0 && Up24(0) == 0 && Widen(0) == 0 && Le32(0, 0, 0, 0) == 0
  {
  }

  // ----- the last block, read in words -----

  /** The word at 4 * i of the last n bytes, cut off where they end: a word read and a mask. */
  function MaskedWord(mem: seq<byte>, off: nat, n: nat, i: nat): bv32
    requires n > 4 * i ==> off + 4 * i + 4 <= |mem|
  {
    if n <= 4 * i then 0
    else if n == 4 * i + 1 then Mask(Word(mem, off + 4 * i), 0xff)
    else if n == 4 * i + 2 then Mask(Word(mem, off + 4 * i), 0xffff)
    else if n == 4 * i + 3 then Mask(Word(mem, off + 4 * i), 0xffffff)
    else Word(mem, off + 4 * i)
  }

  lemma MaskOne(b0: byte, b1: byte, b2: byte, b3: byte)
    ensures Mask(Le32(b0, b1, b2, b3), 0xff) == Le32(b0, 0, 0, 0)
  {
  }

  lemma MaskTwo(b0: byte, b1: byte, b2: byte, b3: byte)
    ensures Mask(Le32(b0, b1, b2, b3), 0xffff) == Le32(b0, b1, 0, 0)
  {
  }

  lemma MaskThree(b0: byte, b1: byte, b2: byte, b3: byte)
    ensures Mask(Le32(b0, b1, b2, b3), 0xffffff) == Le32(b0, b1, b2, 0)
  {
  }

  /** Whatever follows the key in the last word read, the mask takes it out. */
  lemma MaskedIsPadded(mem: seq<byte>, off: nat, n: nat, i: nat)
    requires off + n <= |mem|
    requires n > 4 * i ==> off + 4 * i + 4 <= |mem|
    ensures MaskedWord(mem, off, n, i) == PaddedWord(mem[off..off + n], i)
  {
    hide Le32, Mask;
    if n <= 4 * i {
      NoBytes();
    } else {
      var at := off + 4 * i;
      MaskOne(mem[at], mem[at + 1], mem[at + 2], mem[at + 3]);
      MaskTwo(mem[at], mem[at + 1], mem[at + 2], mem[at + 3]);
      MaskThree(mem[at], mem[at + 1], mem[at + 2], mem[at + 3]);
    }
  }

  method LastWords(q: Abc, mem: seq<byte>, off: nat, n: nat) returns (r: Abc)
    requires 1 <= n <= 12 && off + 4 * ((n + 3) / 4) <= |mem|
    ensures r == AddBlock(q, mem[off..off + n])
  {
    hide Add, Word, PaddedWord, Mask;
    var a, b, c := q.a, q.b, q.c;
    MaskedIsPadded(mem, off, n, 0);
    MaskedIsPadded(mem, off, n, 1);
    MaskedIsPadded(mem, off, n, 2);
    AddZero(b);
    AddZero(c);
    match n {
      case 12 =>
        c := Add(c, Word(mem, off + 8));
        b := Add(b, Word(mem, off + 4));
        a := Add(a, Word(mem, off));
      case 11 =>
        c := Add(c, Mask(Word(mem, off + 8), 0xffffff));
        b := Add(b, Word(mem, off + 4));
        a := Add(a, Word(mem, off));
      case 10 =>
        c := Add(c, Mask(Word(mem, off + 8), 0xffff));
        b := Add(b, Word(mem, off + 4));
        a := Add(a, Word(mem, off));
      case 9 =>
        c := Add(c, Mask(Word(mem, off + 8), 0xff));
        b := Add(b, Word(mem, off + 4));
        a := Add(a, Word(mem, off));
      case 8 =>
        b := Add(b, Word(mem, off + 4));
        a := Add(a, Word(mem, off));
      case 7 =>
        b := Add(b, Mask(Word(mem, off + 4), 0xffffff));
        a := Add(a, Word(mem, off));
      case 6 =>
        b := Add(b, Mask(Word(mem, off + 4), 0xffff));
        a := Add(a, Word(mem, off));
      case 5 =>
        b := Add(b, Mask(Word(mem, off + 4), 0xff));
        a := Add(a, Word(mem, off));
      case 4 =>
        a := Add(a, Word(mem, off));
      case 3 =>
        a := Add(a, Mask(Word(mem, off), 0xffffff));
      case 2 =>
        a := Add(a, Mask(Word(mem, off), 0xffff));
      case _ =>
        a := Add(a, Mask(Word(mem, off), 0xff));
    }
    r := Abc(a, b, c);
  }

  // ----- the last block, read in half-words -----

  lemma HalfWordIs(k: seq<byte>, i: nat)
    requires 4 * i + 4 <= |k|
    ensures Add(HalfWord(k, 4 * i), Up16(HalfWord(k, 4 * i + 2))) == PaddedWord(k, i)
  {
    hide Add, Up16, Le16, Le32, Widen;
    SumHalves(k[4 * i], k[4 * i + 1], k[4 * i + 2], k[4 * i + 3]);
  }

  lemma HalfWordEnds(x: bv32, k: seq<byte>, i: nat)
    requires 4 * i < |k|
    ensures |k| == 4 * i + 3 ==> Add(Add(x, Up16(Widen(k[4 * i + 2]))), HalfWord(k, 4 * i)) == Add(x, PaddedWord(k, i))
    ensures |k| == 4 * i + 2 ==> HalfWord(k, 4 * i) == PaddedWord(k, i)
    ensures |k| == 4 * i + 1 ==> Widen(k[4 * i]) == PaddedWord(k, i)
  {
    hide Add, Up16, Le16, Le32, Widen;
    if |k| == 4 * i + 3 {
      SumHalfAndByte(k[4 * i], k[4 * i + 1], k[4 * i + 2]);
      AddAssociates(x, Up16(Widen(k[4 * i + 2])), HalfWord(k, 4 * i));
    } else if |k| == 4 * i + 2 {
      OneHalf(k[4 * i], k[4 * i + 1]);
    } else if |k| == 4 * i + 1 {
      OneByte(k[4 * i]);
    }
  }

  lemma NoWord(x: bv32, k: seq<byte>, i: nat)
    requires |k| <= 4 * i
    ensures Add(x, PaddedWord(k, i)) == x
  {
    hide Add, Le32;
    NoBytes();
    AddZero(x);
  }

  /** k is the last block: its bytes and nothing after them. */
  method LastHalfWords(q: Abc, k: seq<byte>) returns (r: Abc)
    requires 1 <= |k| <= 12
    ensures r == AddBlock(q, k)
  {
    hide Add, PaddedWord, HalfWord, Up16, Widen;
    var a, b, c := q.a, q.b, q.c;
    if |k| <= 4 { NoWord(b, k, 1); }
    if |k| <= 8 { NoWord(c, k, 2); }
    if |k| >= 4 { HalfWordIs(k, 0); }
    if |k| >= 8 { HalfWordIs(k, 1); }
    if |k| >= 12 { HalfWordIs(k, 2); }
    if |k| < 4 { HalfWordEnds(a, k, 0); }
    if 4 < |k| < 8 { HalfWordEnds(b, k, 1); }
    if 8 < |k| < 12 { HalfWordEnds(c, k, 2); }
    match |k| {
      case 12 =>
        c := Add(c, Add(HalfWord(k, 8), Up16(HalfWord(k, 10))));
        b := Add(b, Add(HalfWord(k, 4), Up16(HalfWord(k, 6))));
        a := Add(a, Add(HalfWord(k, 0), Up16(HalfWord(k, 2))));
      case 11 =>
        c := Add(c, Up16(Widen(k[10])));
        c := Add(c, HalfWord(k, 8));
        b := Add(b, Add(HalfWord(k, 4), Up16(HalfWord(k, 6))));
        a := Add(a, Add(HalfWord(k, 0), Up16(HalfWord(k, 2))));
      case 10 =>
        c := Add(c, HalfWord(k, 8));
        b := Add(b, Add(HalfWord(k, 4), Up16(HalfWord(k, 6))));
        a := Add(a, Add(HalfWord(k, 0), Up16(HalfWord(k, 2))));
      case 9 =>
        c := Add(c, Widen(k[8]));
        b := Add(b, Add(HalfWord(k, 4), Up16(HalfWord(k, 6))));
        a := Add(a, Add(HalfWord(k, 0), Up16(HalfWord(k, 2))));
      case 8 =>
        b := Add(b, Add(HalfWord(k, 4), Up16(HalfWord(k, 6))));
        a := Add(a, Add(HalfWord(k, 0), Up16(HalfWord(k, 2))));
      case 7 =>
        b := Add(b, Up16(Widen(k[6])));
        b := Add(b, HalfWord(k, 4));
        a := Add(a, Add(HalfWord(k, 0), Up16(HalfWord(k, 2))));
      case 6 =>
        b := Add(b, HalfWord(k, 4));
        a := Add(a, Add(HalfWord(k, 0), Up16(HalfWord(k, 2))));
      case 5 =>
        b := Add(b, Widen(k[4]));
        a := Add(a, Add(HalfWord(k, 0), Up16(HalfWord(k, 2))));
      case 4 =>
        a := Add(a, Add(HalfWord(k, 0), Up16(HalfWord(k, 2))));
      case 3 =>
        a := Add(a, Up16(Widen(k[2])));
        a := Add(a, HalfWord(k, 0));
      case 2 =>
        a := Add(a, HalfWord(k, 0));
      case _ =>
        a := Add(a, Widen(k[0]));
    }
    r := Abc(a, b, c);
  }

  // ----- the last block, read in bytes -----

  /** A third of the switch that falls through: of the four bytes at i, those that the block has. */
  method FallThroughFrom(x: bv32, k: seq<byte>, i: nat) returns (y: bv32)
    ensures y == FallThrough(x, k, i)
  {
    y := x;
    if |k| >= i + 4 {
      y := Add(y, Up24(k[i + 3]));
    }
    if |k| >= i + 3 {
      y := Add(y, Up16(Widen(k[i + 2])));
    }
    if |k| >= i + 2 {
      y := Add(y, Up8(k[i + 1]));
    }
    if |k| >= i + 1 {
      y := Add(y, Widen(k[i]));
    }
  }

  /** The switch falls through from the case of the block's length to case 1. */
  method LastBytes(q: Abc, k: seq<byte>) returns (r: Abc)
    requires 1 <= |k| <= 12
    ensures r == AddBlock(q, k)
  {
    var c := FallThroughFrom(q.c, k, 8);
    var b := FallThroughFrom(q.b, k, 4);
    var a := FallThroughFrom(q.a, k, 0);
    r := Abc(a, b, c);
    SumsDown(q, k);
  }

  /** The bytes of a word added from the highest down, as far as the block has them. */
  function FallThrough(x: bv32, k: seq<byte>, i: nat): bv32 {
    var x3 := if |k| > i + 3 then Add(x, Up24(k[i + 3])) else x;
    var x2 := if |k| > i + 2 then Add(x3, Up16(Widen(k[i + 2]))) else x3;
    var x1 := if |k| > i + 1 then Add(x2, Up8(k[i + 1])) else x2;
    if |k| > i then Add(x1, Widen(k[i])) else x1
  }

  lemma FallThroughIs(x: bv32, k: seq<byte>, i: nat)
    ensures FallThrough(x, k, 4 * i) == Add(x, PaddedWord(k, i))
  {
    hide Add, Le32, Up8, Up16, Up24, Widen;
    NoBytes();
    AddZero(x);
    var b3, b2, b1 := ByteAt(k, 4 * i + 3), ByteAt(k, 4 * i + 2), ByteAt(k, 4 * i + 1);
    AddZero(Add(x, Up24(b3)));
    AddZero(Add(Add(x, Up24(b3)), Up16(Widen(b2))));
    AddZero(Add(Add(Add(x, Up24(b3)), Up16(Widen(b2))), Up8(b1)));
    SumDown(x, ByteAt(k, 4 * i), b1, b2, b3);
  }

  lemma SumsDown(q: Abc, k: seq<byte>)
    ensures AddBlock(q, k) == Abc(FallThrough(q.a, k, 0), FallThrough(q.b, k, 4), FallThrough(q.c, k, 8))
  {
    hide Add, PaddedWord, FallThrough;
    FallThroughIs(q.a, k, 0);
    FallThroughIs(q.b, k, 1);
    FallThroughIs(q.c, k, 2);
  }

  // ----- a whole block, in the three ways -----

  method WholeWords(q: Abc, k: seq<byte>) returns (r: Abc)
    requires |k| == 12
    ensures r == AddBlock(q, k)
  {
    hide Add, Le32;
    r := Abc(Add(q.a, Word(k, 0)), Add(q.b, Word(k, 4)), Add(q.c, Word(k, 8)));
  }

  method WholeHalfWords(q: Abc, k: seq<byte>) returns (r: Abc)
    requires |k| == 12
    ensures r == AddBlock(q, k)
  {
    hide Add, PaddedWord, HalfWord, Up16;
    HalfWordIs(k, 0);
    HalfWordIs(k, 1);
    HalfWordIs(k, 2);
    r := Abc(Add(q.a, Add(HalfWord(k, 0), Up16(HalfWord(k, 2)))),
             Add(q.b, Add(HalfWord(k, 4), Up16(HalfWord(k, 6)))),
             Add(q.c, Add(HalfWord(k, 8), Up16(HalfWord(k, 10)))));
  }

  method WholeBytes(q: Abc, k: seq<byte>) returns (r: Abc)
    requires |k| == 12
    ensures r == AddBlock(q, k)
  {
    hide Add, Le32, Up8, Up16, Up24, Widen;
    var a := FourBytes(q.a, k[0], k[1], k[2], k[3]);
    var b := FourBytes(q.b, k[4], k[5], k[6], k[7]);
    var c := FourBytes(q.c, k[8], k[9], k[10], k[11]);
    r := Abc(a, b, c);
  }

  method FourBytes(x: bv32, b0: byte, b1: byte, b2: byte, b3: byte) returns (y: bv32)
    ensures y == Add(x, Le32(b0, b1, b2, b3))
  {
    hide Add, Le32, Up8, Up16, Up24, Widen;
    y := Add(x, Widen(b0));
    y := Add(y, Up8(b1));
    y := Add(y, Up16(Widen(b2)));
    y := Add(y, Up24(b3));
    SumUp(x, b0, b1, b2, b3);
  }

  // ----- the hash -----

  lemma AbsorbBlock(q: Abc, key: seq<byte>, off: nat)
    requires off + 12 < |key|
    ensures Absorb(q, key[off..]) == Absorb(Mix(AddBlock(q, key[off..off + 12])), key[off + 12..])
  {
    hide Mix, AddBlock, Final;
    assert key[off..][..12] == key[off..off + 12] && key[off..][12..] == key[off + 12..];
  }

  lemma AbsorbLast(q: Abc, key: seq<byte>, off: nat)
    requires off <= |key| <= off + 12
    ensures Absorb(q, key[off..]) == if off == |key| then q else Final(AddBlock(q, key[off..]))
  {
  }

  /** mem is the memory from the key on, at the given address; the key is its first `length` bytes.
      A key on a word boundary may be read up to the end of its last word. However the key lies in
      memory, and whatever follows it, the hash is that of the key. */
  method HashJenkins(mem: seq<byte>, length: nat, address: nat) returns (h: bv32)
    requires |mem| >= if address % 4 == 0 then 4 * ((length + 3) / 4) else length
    ensures h == Jenkins(mem[..length]).c
  {
    hide AddBlock, Absorb, Mix, Final, Word, Start;
    var key := mem[..length];
    var q := Start(length);
    var off, left := 0, length;
    assert key[0..] == key;
    if address % 4 == 0 {
      while left > 12
        invariant off + left == length && Absorb(q, key[off..]) == Jenkins(key)
        invariant off % 4 == 0 && (length > 0 ==> left > 0)
      {
        AbsorbBlock(q, key, off);
        assert mem[off..off + 12] == key[off..off + 12];
        var r := WholeWords(q, mem[off..off + 12]);
        q := MixMacro(r);
        off, left := off + 12, left - 12;
      }
      AbsorbLast(q, key, off);
      if left == 0 {
        return q.c;
      }
      assert mem[off..off + left] == key[off..];
      q := LastWords(q, mem, off, left);
    } else if address % 2 == 0 {
      while left > 12
        invariant off + left == length && Absorb(q, key[off..]) == Jenkins(key)
        invariant length > 0 ==> left > 0
      {
        AbsorbBlock(q, key, off);
        var r := WholeHalfWords(q, key[off..off + 12]);
        q := MixMacro(r);
        off, left := off + 12, left - 12;
      }
      AbsorbLast(q, key, off);
      if left == 0 {
        return q.c;
      }
      q := LastHalfWords(q, key[off..]);
    } else {
      while left > 12
        invariant off + left == length && Absorb(q, key[off..]) == Jenkins(key)
        invariant length > 0 ==> left > 0
      {
        AbsorbBlock(q, key, off);
        var r := WholeBytes(q, key[off..off + 12]);
        q := MixMacro(r);
        off, left := off + 12, left - 12;
      }
      AbsorbLast(q, key, off);
      if left == 0 {
        return q.c;
      }
      q := LastBytes(q, key[off..]);
    }
    q := FinalMacro(q);
    h := q.c;
  }
}
