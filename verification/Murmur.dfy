/** hashkit.c: hash_murmur, and what it never confuses. */
module Murmur {
  import opened Bytes

  /** Multiplication by the constant m, modulo 2^32. */
  function Times(x: bv32): bv32 {
    x * 0x5bd1e995
  }

  function Divide(x: bv32): bv32 {
    x * 0xe59b19bd
  }

  function Fold24(x: bv32): bv32 {
    x ^ (x >> 24)
  }

  function Fold13(x: bv32): bv32 {
    x ^ (x >> 13)
  }

  function Unfold13(x: bv32): bv32 {
    x ^ (x >> 13) ^ (x >> 26)
  }

  function Fold15(x: bv32): bv32 {
    x ^ (x >> 15)
  }

  function Unfold15(x: bv32): bv32 {
    x ^ (x >> 15) ^ (x >> 30)
  }

  /** What is done to a block before it meets the state. */
  function Scramble(k: bv32): bv32 {
    Times(Fold24(Times(k)))
  }

  function Block(h: bv32, k: bv32): bv32 {
    Xor(Times(h), Scramble(k))
  }

  /** The last one to three bytes as a word. */
  function TailWord(s: seq<byte>): bv32
    requires |s| < 4
  {
    Le32(if |s| > 0 then s[0] else 0, if |s| > 1 then s[1] else 0, if |s| > 2 then s[2] else 0, 0)
  }

  function Absorb(h: bv32, key: seq<byte>): bv32
    decreases |key|
  {
    if key == [] then h
    else if |key| < 4 then Times(Xor(h, TailWord(key)))
    else Absorb(Block(h, Word(key, 0)), key[4..])
  }

  function Finish(h: bv32): bv32 {
    Fold15(Times(Fold13(h)))
  }

  function Seed(length: nat): bv32 {
    var n := (length % 0x1_0000_0000) as bv32;
    (0xdeadbeef * n) ^ n
  }

  function Hash(key: seq<byte>): bv32 {
    Finish(Absorb(Seed(|key|), key))
  }

  // ----- every step can be undone -----

  lemma TimesIs(x: bv32)
    ensures Times(x) == x * 0x5bd1e995
    ensures Divide(x * 0x5bd1e995) == x
  {
  }

  /** 0xe59b19bd is the inverse of the multiplier modulo 2^32. */
  lemma DivideTimes(x: bv32)
    ensures Divide(Times(x)) == x
  {
    hide Times, Divide;
    TimesIs(x);
  }

  lemma FoldIs(x: bv32)
    ensures Fold24(x) == x ^ (x >> 24) && Fold13(x) == x ^ (x >> 13) && Fold15(x) == x ^ (x >> 15)
  {
  }

  lemma Refold24(x: bv32)
    ensures Fold24(x ^ (x >> 24)) == x
  {
  }

  lemma Refold13(x: bv32)
    ensures Unfold13(x ^ (x >> 13)) == x
  {
  }

  lemma Refold15(x: bv32)
    ensures Unfold15(x ^ (x >> 15)) == x
  {
  }

  lemma UnfoldFold(x: bv32)
    ensures Fold24(Fold24(x)) == x && Unfold13(Fold13(x)) == x && Unfold15(Fold15(x)) == x
  {
    hide Fold24, Fold13, Fold15, Unfold13, Unfold15;
    FoldIs(x);
    Refold24(x);
    Refold13(x);
    Refold15(x);
  }

  lemma ScrambleInjective(k: bv32, l: bv32)
    requires Scramble(k) == Scramble(l)
    ensures k == l
  {
    hide Times, Divide, Fold24, Fold13, Fold15, Unfold13, Unfold15;
    DivideTimes(Fold24(Times(k)));
    DivideTimes(Fold24(Times(l)));
    UnfoldFold(Times(k));
    UnfoldFold(Times(l));
    DivideTimes(k);
    DivideTimes(l);
  }

  lemma FinishInjective(g: bv32, h: bv32)
    requires Finish(g) == Finish(h)
    ensures g == h
  {
    hide Times, Divide, Fold24, Fold13, Fold15, Unfold13, Unfold15;
    UnfoldFold(Times(Fold13(g)));
    UnfoldFold(Times(Fold13(h)));
    DivideTimes(Fold13(g));
    DivideTimes(Fold13(h));
    UnfoldFold(g);
    UnfoldFold(h);
  }

  /** A block step loses neither the state nor the block. */
  lemma BlockInjective(g: bv32, h: bv32, k: bv32, l: bv32)
    ensures Block(g, k) == Block(h, k) ==> g == h
    ensures Block(h, k) == Block(h, l) ==> k == l
  {
    hide Xor, Times, Divide, Scramble;
    XorInjective(Times(g), Times(h), Scramble(k));
    XorInjective(Scramble(k), Scramble(l), Times(h));
    DivideTimes(g);
    DivideTimes(h);
    if Scramble(k) == Scramble(l) {
      ScrambleInjective(k, l);
    }
  }

  lemma TimesInjective(x: bv32, y: bv32)
    requires Times(x) == Times(y)
    ensures x == y
  {
    hide Times, Divide;
    DivideTimes(x);
    DivideTimes(y);
  }

  lemma TailIs(h: bv32, s: seq<byte>)
    requires |s| < 4 && s != []
    ensures Absorb(h, s) == Times(Xor(h, TailWord(s)))
  {
    hide Xor, Times, TailWord, Block, Word;
  }

  /** Nor does the tail step. */
  lemma TailInjective(g: bv32, h: bv32, s: seq<byte>, t: seq<byte>)
    requires |s| == |t| < 4 && s != []
    ensures Absorb(g, s) == Absorb(h, s) ==> g == h
    ensures Absorb(h, s) == Absorb(h, t) ==> s == t
  {
    hide Absorb;
    if Absorb(g, s) == Absorb(h, s) {
      TailKeepsState(g, h, s);
    }
    if Absorb(h, s) == Absorb(h, t) {
      TailKeepsData(h, s, t);
    }
  }

  lemma TailKeepsState(g: bv32, h: bv32, s: seq<byte>)
    requires |s| < 4 && s != [] && Absorb(g, s) == Absorb(h, s)
    ensures g == h
  {
    hide *;
    TailIs(g, s);
    TailIs(h, s);
    TimesInjective(Xor(g, TailWord(s)), Xor(h, TailWord(s)));
    XorInjective(g, h, TailWord(s));
  }

  lemma TailKeepsData(h: bv32, s: seq<byte>, t: seq<byte>)
    requires |s| == |t| < 4 && s != [] && Absorb(h, s) == Absorb(h, t)
    ensures s == t
  {
    hide *;
    TailIs(h, s);
    TailIs(h, t);
    TimesInjective(Xor(h, TailWord(s)), Xor(h, TailWord(t)));
    XorInjective(TailWord(s), TailWord(t), h);
    TailWordInjective(s, t);
  }

  lemma TailWordInjective(s: seq<byte>, t: seq<byte>)
    requires |s| == |t| < 4 && TailWord(s) == TailWord(t)
    ensures s == t
  {
    hide Le32;
    var s0, s1, s2 := if |s| > 0 then s[0] else 0, if |s| > 1 then s[1] else 0, if |s| > 2 then s[2] else 0;
    var t0, t1, t2 := if |t| > 0 then t[0] else 0, if |t| > 1 then t[1] else 0, if |t| > 2 then t[2] else 0;
    Le32Injective(s0, s1, s2, 0, t0, t1, t2, 0);
  }

  lemma WordInjective(u: seq<byte>, v: seq<byte>)
    requires |u| == |v| == 4 && Word(u, 0) == Word(v, 0)
    ensures u == v
  {
    hide Le32;
    Le32Injective(u[0], u[1], u[2], u[3], v[0], v[1], v[2], v[3]);
  }

  /** The same rest of a key takes different states to different states. */
  lemma {:induction false} AbsorbInjective(g: bv32, h: bv32, key: seq<byte>)
    requires Absorb(g, key) == Absorb(h, key)
    ensures g == h
    decreases |key|
  {
    if key == [] {
    } else if |key| < 4 {
      TailInjective(g, h, key, key);
    } else {
      hide Block, Word;
      AbsorbInjective(Block(g, Word(key, 0)), Block(h, Word(key, 0)), key[4..]);
      BlockInjective(g, h, Word(key, 0), 0);
    }
  }

  /** One 4-byte block or the tail decides about the state. */
  lemma {:induction false} OneBlockMatters(h: bv32, p: seq<byte>, u: seq<byte>, v: seq<byte>, s: seq<byte>)
    requires |p| % 4 == 0 && |u| == |v| <= 4 && u != v
    requires |u| == 4 || s == []
    ensures Absorb(h, p + u + s) != Absorb(h, p + v + s)
    decreases |p|
  {
    if p != [] {
      hide Block, Word;
      Peel(p, u, s);
      Peel(p, v, s);
      OneBlockMatters(Block(h, Word(p, 0)), p[4..], u, v, s);
    } else if |u| < 4 {
      assert p + u + s == u && p + v + s == v;
      TailInjective(h, h, u, v);
    } else {
      hide Block;
      assert (p + u + s)[4..] == s && (p + v + s)[4..] == s;
      assert (p + u + s)[..4] == u && (p + v + s)[..4] == v;
      if Absorb(h, p + u + s) == Absorb(h, p + v + s) {
        AbsorbInjective(Block(h, Word(u, 0)), Block(h, Word(v, 0)), s);
        BlockInjective(h, h, Word(u, 0), Word(v, 0));
        WordInjective(u, v);
      }
    }
  }

  lemma Peel(p: seq<byte>, u: seq<byte>, s: seq<byte>)
    requires |p| % 4 == 0 && p != []
    ensures var k := p + u + s; k[4..] == p[4..] + u + s && Word(k, 0) == Word(p, 0)
  {
    hide Le32;
  }

  /** Keys of one length that differ in one 4-byte block only, or in the tail only, never collide. */
  lemma NoCollisionInOneBlock(p: seq<byte>, u: seq<byte>, v: seq<byte>, s: seq<byte>)
    requires |p| % 4 == 0 && |u| == |v| <= 4 && u != v
    requires |u| == 4 || s == []
    ensures Hash(p + u + s) != Hash(p + v + s)
  {
    hide Absorb, Finish;
    var h := Seed(|p + u + s|);
    OneBlockMatters(h, p, u, v, s);
    if Hash(p + u + s) == Hash(p + v + s) {
      FinishInjective(Absorb(h, p + u + s), Absorb(h, p + v + s));
    }
  }

  // ----- the function itself -----

  function Up(b: byte, n: bv8): bv32
    requires n <= 24
  {
    (b as bv32) << n
  }

  lemma TailByBytes(h: bv32, b0: byte, b1: byte, b2: byte)
    ensures Xor(Xor(Xor(h, Up(b2, 16)), Up(b1, 8)), Up(b0, 0)) == Xor(h, Le32(b0, b1, b2, 0))
    ensures Up(0, 16) == 0 && Up(0, 8) == 0
  {
    hide Xor, Up, Le32;
    UpBytes(b0, b1, b2);
    XorAssociates(Xor(h, Up(b2, 16)), Up(b1, 8), Up(b0, 0));
    XorAssociates(h, Up(b2, 16), Le32(b0, b1, 0, 0));
  }

  lemma UpBytes(b0: byte, b1: byte, b2: byte)
    ensures Xor(Up(b1, 8), Up(b0, 0)) == Le32(b0, b1, 0, 0)
    ensures Xor(Up(b2, 16), Le32(b0, b1, 0, 0)) == Le32(b0, b1, b2, 0)
    ensures Up(0, 16) == 0 && Up(0, 8) == 0
  {
  }

  lemma XorZero(x: bv32)
    ensures Xor(x, 0) == x
  {
  }

  /** The switch that falls through: the last bytes, the highest first. */
  method Tail(h0: bv32, s: seq<byte>) returns (h: bv32)
    requires |s| < 4
    ensures h == Absorb(h0, s)
  {
    hide Xor, Up, Le32, Times;
    h := h0;
    TailByBytes(h0, if |s| > 0 then s[0] else 0, if |s| > 1 then s[1] else 0, if |s| > 2 then s[2] else 0);
    XorZero(h0);
    if |s| >= 3 {
      h := Xor(h, Up(s[2], 16));
    }
    XorZero(h);
    if |s| >= 2 {
      h := Xor(h, Up(s[1], 8));
    }
    if |s| >= 1 {
      h := Xor(h, Up(s[0], 0));
      h := Times(h);
    }
  }

  method HashMurmur(key: seq<byte>) returns (h: bv32)
    ensures h == Hash(key)
  {
    hide Xor, Times, Fold24, Fold13, Fold15, Word;
    h := Seed(|key|);
    var data, length := 0, |key|;
    assert key[0..] == key;
    while length >= 4
      invariant 0 <= data && 0 <= length && data + length == |key|
      invariant Absorb(h, key[data..]) == Absorb(Seed(|key|), key)
    {
      var k := Word(key, data);
      assert Word(key[data..], 0) == k by { WordAt(key, data); }
      assert key[data..][4..] == key[data + 4..];
      k := Times(k);
      k := Fold24(k);
      k := Times(k);
      h := Times(h);
      h := Xor(h, k);
      data, length := data + 4, length - 4;
    }
    h := Tail(h, key[data..]);
    h := Fold13(h);
    h := Times(h);
    h := Fold15(h);
  }

  lemma WordAt(key: seq<byte>, data: nat)
    requires data + 4 <= |key|
    ensures Word(key[data..], 0) == Word(key, data)
  {
    hide Le32;
  }
}
