/** The lookup3 hash as a plain function of a byte string, one zero-padded 12-byte block at a time,
    and its mixing steps as permutations of the three-word state. */
module JenkinsSpec {
  import opened Bytes

  datatype Abc = Abc(a: bv32, b: bv32, c: bv32)

  function Rot(x: bv32, k: bv8): bv32
    requires k <= 32
  {
    (x << k) | (x >> (32 - k))
  }

  /** A third of a turn of mix. The roles of the words move round: what was b plays a next. */
  function MixRound(q: Abc, k: bv8): Abc
    requires k <= 32
  {
    Abc(q.b, Add(q.c, q.b), Xor(Sub(q.a, q.c), Rot(q.c, k)))
  }

  function UnmixRound(q: Abc, k: bv8): Abc
    requires k <= 32
  {
    var c := Sub(q.b, q.a);
    Abc(Add(Xor(q.c, Rot(c, k)), c), q.a, c)
  }

  function Mix(q: Abc): Abc {
    MixRound(MixRound(MixRound(MixRound(MixRound(MixRound(q, 4), 6), 8), 16), 19), 4)
  }

  function Unmix(q: Abc): Abc {
    UnmixRound(UnmixRound(UnmixRound(UnmixRound(UnmixRound(UnmixRound(q, 4), 19), 16), 8), 6), 4)
  }

  /** One of the seven steps of final; the roles move round here as well. */
  function FinalRound(q: Abc, k: bv8): Abc
    requires k <= 32
  {
    Abc(q.b, Sub(Xor(q.c, q.b), Rot(q.b, k)), q.a)
  }

  function UnfinalRound(q: Abc, k: bv8): Abc
    requires k <= 32
  {
    Abc(q.c, q.a, Xor(Add(q.b, Rot(q.a, k)), q.a))
  }

  function FinalRounds(q: Abc): Abc {
    FinalRound(FinalRound(FinalRound(FinalRound(FinalRound(FinalRound(FinalRound(q, 14), 11), 25), 16), 4), 14), 24)
  }

  function UnfinalRounds(q: Abc): Abc {
    var r := UnfinalRound(UnfinalRound(UnfinalRound(q, 24), 14), 4);
    UnfinalRound(UnfinalRound(UnfinalRound(UnfinalRound(r, 16), 25), 11), 14)
  }

  /** Seven steps leave the roles moved round by one. */
  function Final(q: Abc): Abc {
    var r := FinalRounds(q);
    Abc(r.c, r.a, r.b)
  }

  function Unfinal(q: Abc): Abc {
    UnfinalRounds(Abc(q.b, q.c, q.a))
  }

  /** The word at 4 * i of a string of at most twelve bytes, extended with zeros. */
  function PaddedWord(s: seq<byte>, i: nat): bv32 {
    Le32(ByteAt(s, 4 * i), ByteAt(s, 4 * i + 1), ByteAt(s, 4 * i + 2), ByteAt(s, 4 * i + 3))
  }

  function ByteAt(s: seq<byte>, i: nat): byte {
    if i < |s| then s[i] else 0
  }

  function AddBlock(q: Abc, s: seq<byte>): Abc {
    Abc(Add(q.a, PaddedWord(s, 0)), Add(q.b, PaddedWord(s, 1)), Add(q.c, PaddedWord(s, 2)))
  }

  function Absorb(q: Abc, key: seq<byte>): Abc
    decreases |key|
  {
    if key == [] then q
    else if |key| <= 12 then Final(AddBlock(q, key))
    else Absorb(Mix(AddBlock(q, key[..12])), key[12..])
  }

  /** The first state, from the length and an initial value. */
  function StartFrom(length: nat, initval: bv32): Abc {
    var x := 0xdeadbeef + ((length % 0x1_0000_0000) as bv32) + initval;
    Abc(x, x, x)
  }

  const INITVAL: bv32 := 13

  function Start(length: nat): Abc {
    StartFrom(length, INITVAL)
  }

  /** The state from which the hash is read off: its word c is the hash. */
  function Jenkins(key: seq<byte>): Abc {
    Absorb(Start(|key|), key)
  }

  // ----- mix and final are permutations -----

  lemma MixRoundInverse(q: Abc, k: bv8)
    requires k <= 32
    ensures UnmixRound(MixRound(q, k), k) == q && MixRound(UnmixRound(q, k), k) == q
  {
    hide Add, Sub, Xor, Rot;
    AddCancels(q.c, q.b);
    XorCancels(Sub(q.a, q.c), Rot(q.c, k));
    SubCancels(q.a, q.c);
    var c := Sub(q.b, q.a);
    SubCancels(q.b, q.a);
    AddCancels(Xor(q.c, Rot(c, k)), c);
    XorCancels(q.c, Rot(c, k));
  }

  /** mix loses nothing: running its steps backwards recovers the state, and conversely. */
  lemma MixInverse(q: Abc)
    ensures Unmix(Mix(q)) == q && Mix(Unmix(q)) == q
  {
    hide MixRound, UnmixRound;
    var m1 := MixRound(q, 4);
    var m2 := MixRound(m1, 6);
    var m3 := MixRound(m2, 8);
    var m4 := MixRound(m3, 16);
    var m5 := MixRound(m4, 19);
    MixRoundInverse(m5, 4);
    MixRoundInverse(m4, 19);
    MixRoundInverse(m3, 16);
    MixRoundInverse(m2, 8);
    MixRoundInverse(m1, 6);
    MixRoundInverse(q, 4);
    var u1 := UnmixRound(q, 4);
    var u2 := UnmixRound(u1, 19);
    var u3 := UnmixRound(u2, 16);
    var u4 := UnmixRound(u3, 8);
    var u5 := UnmixRound(u4, 6);
    MixRoundInverse(u5, 4);
    MixRoundInverse(u4, 6);
    MixRoundInverse(u3, 8);
    MixRoundInverse(u2, 16);
    MixRoundInverse(u1, 19);
  }

  lemma FinalRoundInverse(q: Abc, k: bv8)
    requires k <= 32
    ensures UnfinalRound(FinalRound(q, k), k) == q && FinalRound(UnfinalRound(q, k), k) == q
  {
    hide Add, Sub, Xor, Rot;
    SubCancels(Xor(q.c, q.b), Rot(q.b, k));
    XorCancels(q.c, q.b);
    XorCancels(Add(q.b, Rot(q.a, k)), q.a);
    AddCancels(q.b, Rot(q.a, k));
  }

  lemma FinalRoundsInverse(q: Abc)
    ensures UnfinalRounds(FinalRounds(q)) == q && FinalRounds(UnfinalRounds(q)) == q
  {
    hide FinalRound, UnfinalRound;
    var f1 := FinalRound(q, 14);
    var f2 := FinalRound(f1, 11);
    var f3 := FinalRound(f2, 25);
    var f4 := FinalRound(f3, 16);
    var f5 := FinalRound(f4, 4);
    var f6 := FinalRound(f5, 14);
    FinalRoundInverse(f6, 24);
    FinalRoundInverse(f5, 14);
    FinalRoundInverse(f4, 4);
    FinalRoundInverse(f3, 16);
    FinalRoundInverse(f2, 25);
    FinalRoundInverse(f1, 11);
    FinalRoundInverse(q, 14);
    var u1 := UnfinalRound(q, 24);
    var u2 := UnfinalRound(u1, 14);
    var u3 := UnfinalRound(u2, 4);
    var u4 := UnfinalRound(u3, 16);
    var u5 := UnfinalRound(u4, 25);
    var u6 := UnfinalRound(u5, 11);
    FinalRoundInverse(u6, 14);
    FinalRoundInverse(u5, 11);
    FinalRoundInverse(u4, 25);
    FinalRoundInverse(u3, 16);
    FinalRoundInverse(u2, 4);
    FinalRoundInverse(u1, 14);
    FinalRoundInverse(q, 24);
  }

  /** final loses nothing either. */
  lemma FinalInverse(q: Abc)
    ensures Unfinal(Final(q)) == q && Final(Unfinal(q)) == q
  {
    hide FinalRounds, UnfinalRounds;
    FinalRoundsInverse(q);
    FinalRoundsInverse(Abc(q.b, q.c, q.a));
  }

  // ----- what the state remembers -----

  lemma AddBlockInjective(p: Abc, q: Abc, s: seq<byte>)
    requires AddBlock(p, s) == AddBlock(q, s)
    ensures p == q
  {
    hide Add, PaddedWord;
    AddInjective(p.a, q.a, PaddedWord(s, 0));
    AddInjective(p.b, q.b, PaddedWord(s, 1));
    AddInjective(p.c, q.c, PaddedWord(s, 2));
  }

  /** The same rest of a key takes different states to different states. */
  lemma {:induction false} AbsorbInjective(p: Abc, q: Abc, key: seq<byte>)
    requires Absorb(p, key) == Absorb(q, key)
    ensures p == q
    decreases |key|
  {
    hide Mix, Final, Unmix, Unfinal, AddBlock;
    if key == [] {
    } else if |key| <= 12 {
      FinalInverse(AddBlock(p, key));
      FinalInverse(AddBlock(q, key));
      AddBlockInjective(p, q, key);
    } else {
      var p', q' := AddBlock(p, key[..12]), AddBlock(q, key[..12]);
      AbsorbInjective(Mix(p'), Mix(q'), key[12..]);
      MixInverse(p');
      MixInverse(q');
      AddBlockInjective(p, q, key[..12]);
    }
  }

  lemma PaddedWordInjective(u: seq<byte>, v: seq<byte>, i: nat)
    requires PaddedWord(u, i) == PaddedWord(v, i)
    ensures forall j | 4 * i <= j < 4 * i + 4 :: ByteAt(u, j) == ByteAt(v, j)
  {
    hide Le32, ByteAt;
    Le32Injective(ByteAt(u, 4 * i), ByteAt(u, 4 * i + 1), ByteAt(u, 4 * i + 2), ByteAt(u, 4 * i + 3),
                  ByteAt(v, 4 * i), ByteAt(v, 4 * i + 1), ByteAt(v, 4 * i + 2), ByteAt(v, 4 * i + 3));
  }

  lemma BlockInjective(q: Abc, u: seq<byte>, v: seq<byte>)
    requires |u| == |v| <= 12 && AddBlock(q, u) == AddBlock(q, v)
    ensures u == v
  {
    hide Add, PaddedWord;
    AddInjective(PaddedWord(u, 0), PaddedWord(v, 0), q.a);
    AddInjective(PaddedWord(u, 1), PaddedWord(v, 1), q.b);
    AddInjective(PaddedWord(u, 2), PaddedWord(v, 2), q.c);
    PaddedWordInjective(u, v, 0);
    PaddedWordInjective(u, v, 1);
    PaddedWordInjective(u, v, 2);
    forall j | 0 <= j < |u| ensures u[j] == v[j] {
      assert ByteAt(u, j) == ByteAt(v, j);
    }
  }

  /** Keys of one length that differ in one block only, whole or last, reach different states. */
  lemma {:induction false} OneBlockMatters(q: Abc, p: seq<byte>, u: seq<byte>, v: seq<byte>, s: seq<byte>)
    requires |p| % 12 == 0 && |u| == |v| <= 12 && u != v
    requires |u| == 12 || s == []
    ensures Absorb(q, p + u + s) != Absorb(q, p + v + s)
    decreases |p|
  {
    hide Mix, Final, Unmix, Unfinal, AddBlock;
    if p != [] {
      Peel(p, u, s);
      Peel(p, v, s);
      OneBlockMatters(Mix(AddBlock(q, p[..12])), p[12..], u, v, s);
    } else {
      assert p + u + s == u + s && p + v + s == v + s;
      if s == [] {
        assert u + s == u && v + s == v;
        OneBlockMattersLast(q, u, v);
      } else {
        assert (u + s)[..12] == u && (v + s)[..12] == v && (u + s)[12..] == s && (v + s)[12..] == s;
        OneBlockMattersFirst(q, u, v, s);
      }
    }
  }

  lemma Peel(p: seq<byte>, u: seq<byte>, s: seq<byte>)
    requires |p| % 12 == 0 && p != []
    ensures var k := p + u + s; k[..12] == p[..12] && k[12..] == p[12..] + u + s
  {
  }

  lemma OneBlockMattersLast(q: Abc, u: seq<byte>, v: seq<byte>)
    requires |u| == |v| <= 12 && u != v
    ensures Absorb(q, u) != Absorb(q, v)
  {
    hide Final, Unfinal, AddBlock;
    if Absorb(q, u) == Absorb(q, v) {
      FinalInverse(AddBlock(q, u));
      FinalInverse(AddBlock(q, v));
      BlockInjective(q, u, v);
    }
  }

  lemma OneBlockMattersFirst(q: Abc, u: seq<byte>, v: seq<byte>, s: seq<byte>)
    requires |u| == |v| == 12 && u != v
    ensures Absorb(Mix(AddBlock(q, u)), s) != Absorb(Mix(AddBlock(q, v)), s)
  {
    hide Mix, Unmix, AddBlock, Absorb;
    var p, r := AddBlock(q, u), AddBlock(q, v);
    if Absorb(Mix(p), s) == Absorb(Mix(r), s) {
      AbsorbInjective(Mix(p), Mix(r), s);
      MixInverse(p);
      MixInverse(r);
      BlockInjective(q, u, v);
    }
  }
}
