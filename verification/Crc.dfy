/** hashkit.c: the table-driven checks, against the bit-at-a-time ones. */
module Crc {
  import opened Bytes
  import opened CrcSpec
  import opened CrcTables

  function LowByte(x: bv32): byte {
    (x & 0xff) as byte
  }

  function Drop8(x: bv32): bv32 {
    x >> 8
  }

  // ----- the table -----

  /** Every entry of the table is eight shifts of its index. */
  lemma Crc32TabIsShifts(i: byte)
    ensures Crc32Tab(i) == Shifts(i as bv32, 8)
  {
    EightShifts(i as bv32);
    if i < 128 {
      if i < 64 {
        if i < 32 { Rows0(i); } else { Rows2(i); }
      } else {
        if i < 96 { Rows4(i); } else { Rows6(i); }
      }
    } else {
      if i < 192 {
        if i < 160 { Rows8(i); } else { Rows10(i); }
      } else {
        if i < 224 { Rows12(i); } else { Rows14(i); }
      }
    }
  }

  function Shift8(c: bv32): bv32 {
    Shift(Shift(Shift(Shift(Shift(Shift(Shift(Shift(c))))))))
  }

  lemma EightShifts(c: bv32)
    ensures Shifts(c, 8) == Shift8(c)
  {
    hide Shift;
    assert Shifts(c, 8) == Shifts(Shift(Shift(c)), 6);
  }

  lemma Rows0(i: byte)
    requires i < 32
    ensures Crc32Tab(i) == Shift8(i as bv32)
  {
  }

  lemma Rows2(i: byte)
    requires 32 <= i < 64
    ensures Crc32Tab(i) == Shift8(i as bv32)
  {
  }

  lemma Rows4(i: byte)
    requires 64 <= i < 96
    ensures Crc32Tab(i) == Shift8(i as bv32)
  {
  }

  lemma Rows6(i: byte)
    requires 96 <= i < 128
    ensures Crc32Tab(i) == Shift8(i as bv32)
  {
  }

  lemma Rows8(i: byte)
    requires 128 <= i < 160
    ensures Crc32Tab(i) == Shift8(i as bv32)
  {
  }

  lemma Rows10(i: byte)
    requires 160 <= i < 192
    ensures Crc32Tab(i) == Shift8(i as bv32)
  {
  }

  lemma Rows12(i: byte)
    requires 192 <= i < 224
    ensures Crc32Tab(i) == Shift8(i as bv32)
  {
  }

  lemma Rows14(i: byte)
    requires 224 <= i
    ensures Crc32Tab(i) == Shift8(i as bv32)
  {
  }

  lemma LowAndHigh(x: bv32)
    ensures x == Xor(LowByte(x) as bv32, x & 0xffffff00)
  {
  }

  lemma HighIsClear(x: bv32)
    ensures Clear(x & 0xffffff00, 8)
  {
    assert Below(8) == 0xff;
    HighIsClearRaw(x);
  }

  lemma HighIsClearRaw(x: bv32)
    ensures (x & 0xffffff00) & 0xff == 0
  {
  }

  lemma EightHalves(c: bv32)
    ensures Halves(c, 8) == Half(Half(Half(Half(Half(Half(Half(Half(c))))))))
  {
    hide Half;
    var c2 := Half(Half(c));
    var c4 := Half(Half(c2));
    assert Halves(c, 8) == Halves(c2, 6);
    assert Halves(c2, 6) == Halves(c4, 4);
    var c6 := Half(Half(c4));
    assert Halves(c4, 4) == Halves(c6, 2);
    assert Halves(Half(c6), 1) == Half(Half(c6));
  }

  lemma HalvesOfHigh(x: bv32)
    ensures Half(Half(Half(Half(Half(Half(Half(Half(x & 0xffffff00)))))))) == Drop8(x)
  {
  }

  /** One look-up does the work of eight shifts. */
  lemma TableStep(x: bv32)
    ensures Xor(Crc32Tab(LowByte(x)), Drop8(x)) == Shifts(x, 8)
  {
    hide Xor, LowByte, Shifts, Crc32Tab, Clear, Drop8, Halves, Half;
    var high := x & 0xffffff00;
    LowAndHigh(x);
    ShiftsXor(LowByte(x) as bv32, high, 8);
    Crc32TabIsShifts(LowByte(x));
    HighIsClear(x);
    ShiftsOfClear(high, 8);
    EightHalves(high);
    HalvesOfHigh(x);
  }

  lemma IndexByte(crc: bv32, b: byte)
    ensures LowByte(Xor(crc, SignExtend(b))) == LowByte(Xor(crc, b as bv32))
  {
  }

  lemma DropByte(crc: bv32, b: byte)
    ensures Drop8(Xor(crc, b as bv32)) == Drop8(crc)
  {
  }

  /** The register after one more byte. */
  lemma OneByte(crc: bv32, b: byte)
    ensures Xor(Crc32Tab(LowByte(Xor(crc, SignExtend(b)))), Drop8(crc)) == Register(crc, BitsOfByte(b))
    ensures Xor(Crc32Tab(LowByte(Xor(crc, b as bv32))), Drop8(crc)) == Register(crc, BitsOfByte(b))
  {
    hide Xor, LowByte, Crc32Tab, Register, Shifts, SignExtend, Drop8;
    IndexByte(crc, b);
    DropByte(crc, b);
    TableStep(Xor(crc, b as bv32));
    RegisterByte(crc, b);
  }

  lemma RegisterRest(c: bv32, key: seq<byte>, x: nat)
    requires x < |key|
    ensures Register(c, BitsOf(key[x..])) == Register(Register(c, BitsOfByte(key[x])), BitsOf(key[x + 1..]))
  {
    hide Register;
    assert key[x..][1..] == key[x + 1..];
    RegisterAppend(c, BitsOfByte(key[x]), BitsOf(key[x + 1..]));
  }

  // ----- the hash functions -----

  /** hash_crc32a is the CRC-32 of the key. */
  method HashCrc32a(key: seq<byte>) returns (r: bv32)
    ensures r == Crc32(key)
  {
    hide Crc32Tab, LowByte, Xor, Register, Drop8, Not;
    var crc: bv32 := 0xffffffff;
    var p, left := 0, |key|;
    while left > 0
      invariant 0 <= p <= |key| && left == |key| - p
      invariant Register(crc, BitsOf(key[p..])) == Register(0xffffffff, BitsOf(key))
    {
      OneByte(crc, key[p]);
      RegisterRest(crc, key, p);
      crc := Xor(Crc32Tab(LowByte(Xor(crc, key[p] as bv32))), Drop8(crc));
      p := p + 1;
      left := left - 1;
    }
    RegisterNothing(crc, key[p..]);
    r := Xor(crc, 0xffffffff);
    Complement(crc);
  }

  lemma RegisterNothing(c: bv32, s: seq<byte>)
    requires s == []
    ensures Register(c, BitsOf(s)) == c
  {
  }

  lemma Complement(c: bv32)
    ensures Xor(c, 0xffffffff) == Not(c)
  {
  }

  function Bits16To30(c: bv32): bv32 {
    (c >> 16) & 0x7fff
  }

  /** hash_crc32 is bits 16 to 30 of the same value, although it reads the key as signed chars. */
  method HashCrc32(key: seq<byte>) returns (r: bv32)
    ensures r == Bits16To30(Crc32(key))
  {
    hide Crc32Tab, LowByte, Xor, Register, SignExtend, Drop8, Bits16To30, Not;
    var crc: bv32 := 0xffffffff;
    for x := 0 to |key|
      invariant Register(crc, BitsOf(key[x..])) == Register(0xffffffff, BitsOf(key))
    {
      OneByte(crc, key[x]);
      RegisterRest(crc, key, x);
      XorCommutes(Drop8(crc), Crc32Tab(LowByte(Xor(crc, SignExtend(key[x])))));
      crc := Xor(Drop8(crc), Crc32Tab(LowByte(Xor(crc, SignExtend(key[x])))));
    }
    RegisterNothing(crc, key[|key|..]);
    r := Bits16To30(Not(crc));
  }

  // ----- hash_crc16 -----

  lemma Crc16TabIsShifts(i: byte)
    ensures Crc16Tab(i) as bv32 == Shifts16(AtTop(i), 8)
  {
    EightShifts16(AtTop(i));
    if i < 128 {
      if i < 64 {
        if i < 32 { Part0(i); } else { Part1(i); }
      } else {
        if i < 96 { Part2(i); } else { Part3(i); }
      }
    } else {
      if i < 192 {
        if i < 160 { Part4(i); } else { Part5(i); }
      } else {
        if i < 224 { Part6(i); } else { Part7(i); }
      }
    }
  }

  function Shift16x8(c: bv32): bv32 {
    Shift16(Shift16(Shift16(Shift16(Shift16(Shift16(Shift16(Shift16(c))))))))
  }

  lemma EightShifts16(c: bv32)
    ensures Shifts16(c, 8) == Shift16x8(c)
  {
    hide Shift16;
    assert Shifts16(c, 8) == Shifts16(Shift16(Shift16(c)), 6);
  }

  lemma Part0(i: byte)
    requires i < 32
    ensures Crc16Tab(i) as bv32 == Shift16x8(AtTop(i))
  {
  }

  lemma Part1(i: byte)
    requires 32 <= i < 64
    ensures Crc16Tab(i) as bv32 == Shift16x8(AtTop(i))
  {
  }

  lemma Part2(i: byte)
    requires 64 <= i < 96
    ensures Crc16Tab(i) as bv32 == Shift16x8(AtTop(i))
  {
  }

  lemma Part3(i: byte)
    requires 96 <= i < 128
    ensures Crc16Tab(i) as bv32 == Shift16x8(AtTop(i))
  {
  }

  lemma Part4(i: byte)
    requires 128 <= i < 160
    ensures Crc16Tab(i) as bv32 == Shift16x8(AtTop(i))
  {
  }

  lemma Part5(i: byte)
    requires 160 <= i < 192
    ensures Crc16Tab(i) as bv32 == Shift16x8(AtTop(i))
  {
  }

  lemma Part6(i: byte)
    requires 192 <= i < 224
    ensures Crc16Tab(i) as bv32 == Shift16x8(AtTop(i))
  {
  }

  lemma Part7(i: byte)
    requires 224 <= i
    ensures Crc16Tab(i) as bv32 == Shift16x8(AtTop(i))
  {
  }

  lemma SmallShifts16(lo: bv32)
    requires lo <= 0xff
    ensures Shift16x8(lo) == lo << 8
  {
  }

  function Up8(c: bv32): bv32 {
    c << 8
  }

  function LowUp8(c: bv32): bv32 {
    (c & 0xff) << 8
  }

  function Byte1(c: bv32): byte {
    ((c >> 8) & 0xff) as byte
  }

  lemma SplitAtTop(c: bv32, b: byte)
    requires c <= 0xffff
    ensures Xor(c, AtTop(b)) == Xor(c & 0xff, AtTop(Byte1(c) ^ b))
  {
  }

  /** One look-up does the work of eight shifts of the 16-bit register. */
  lemma TableStep16(c: bv32, b: byte)
    requires c <= 0xffff
    ensures Shifts16(Xor(c, AtTop(b)), 8) == Xor(LowUp8(c), Crc16Tab(Byte1(c) ^ b) as bv32)
  {
    hide Xor, Shifts16, Crc16Tab, AtTop, Shift16x8;
    SplitAtTop(c, b);
    Shifts16Xor(c & 0xff, AtTop(Byte1(c) ^ b), 8);
    Crc16TabIsShifts(Byte1(c) ^ b);
    EightShifts16(c & 0xff);
    SmallShifts16(c & 0xff);
  }

  /** The accumulator of hash_crc16: a register, and above it what has been pushed out of the
      registers one and two bytes earlier. */
  function Wide(c0: bv32, c1: bv32, c2: bv32): bv32 {
    c0 | ((c1 >> 8) << 16) | ((c2 >> 8) << 24)
  }

  lemma WideStep(c0: bv32, c1: bv32, c2: bv32, t: bv32)
    requires c0 <= 0xffff && c1 <= 0xffff && c2 <= 0xffff && t <= 0xffff
    ensures Up8(Wide(c0, c1, c2)) ^ t == Wide(LowUp8(c0) ^ t, c0, c1)
  {
  }

  lemma WideByte(c0: bv32, c1: bv32, c2: bv32)
    requires c0 <= 0xffff
    ensures LowByte(Drop8(Wide(c0, c1, c2))) == Byte1(c0)
  {
  }

  lemma SignedByte(x: bv32, b: byte)
    ensures LowByte(Xor(x, SignExtend(b))) == LowByte(x) ^ b
  {
  }

  lemma TabFits(i: byte)
    ensures Crc16Tab(i) as bv32 <= 0xffff
  {
  }

  lemma StaysSmall(c: bv32, t: bv32)
    requires t <= 0xffff
    ensures Xor(LowUp8(c), t) <= 0xffff
  {
  }

  function Low16(c: bv32): bv32 {
    c & 0xffff
  }

  function Byte2(c: bv32): bv32 {
    (c >> 16) & 0xff
  }

  function Byte3(c: bv32): bv32 {
    c >> 24
  }

  /** The CRC of the key without its last `back` bytes, or 0 if it has fewer. */
  function Earlier(key: seq<byte>, back: nat): bv32 {
    if back <= |key| then Crc16(key[..|key| - back]) else 0
  }

  lemma {:induction false} Crc16Fits(key: seq<byte>)
    ensures Crc16(key) <= 0xffff
  {
    if key != [] {
      hide Xor, Shifts16, Crc16Tab, AtTop, Byte1;
      var c, b := Crc16(key[..|key| - 1]), key[|key| - 1];
      Crc16Fits(key[..|key| - 1]);
      TableStep16(c, b);
      TabFits(Byte1(c) ^ b);
      StaysSmall(c, Crc16Tab(Byte1(c) ^ b) as bv32);
    }
  }

  lemma EarlierNext(key: seq<byte>, b: byte, back: nat)
    ensures Earlier(key + [b], back + 1) == Earlier(key, back)
  {
    if back <= |key| {
      assert (key + [b])[..|key + [b]| - (back + 1)] == key[..|key| - back];
    }
  }

  lemma EarlierFits(key: seq<byte>, back: nat)
    ensures Earlier(key, back) <= 0xffff
    ensures Earlier(key, 0) == Crc16(key)
  {
    if back <= |key| {
      Crc16Fits(key[..|key| - back]);
    }
    assert key[..|key|] == key;
  }

  lemma Crc16Next(key: seq<byte>, b: byte)
    ensures Crc16(key + [b]) == Shifts16(Xor(Crc16(key), AtTop(b)), 8)
  {
    hide Xor, Shifts16, AtTop;
    assert (key + [b])[..|key|] == key;
  }

  /** One round of the loop of hash_crc16. */
  lemma WideRound(key: seq<byte>, b: byte)
    ensures var w := Wide(Crc16(key), Earlier(key, 1), Earlier(key, 2));
            Xor(Up8(w), Crc16Tab(LowByte(Xor(Drop8(w), SignExtend(b)))) as bv32) ==
            Wide(Crc16(key + [b]), Earlier(key + [b], 1), Earlier(key + [b], 2))
  {
    hide *;
    var c0, c1, c2 := Crc16(key), Earlier(key, 1), Earlier(key, 2);
    EarlierNext(key, b, 0);
    EarlierNext(key, b, 1);
    EarlierFits(key, 0);
    EarlierFits(key, 1);
    EarlierFits(key, 2);
    Crc16Next(key, b);
    WideByte(c0, c1, c2);
    SignedByte(Drop8(Wide(c0, c1, c2)), b);
    TableStep16(c0, b);
    TabFits(Byte1(c0) ^ b);
    WideStepXor(c0, c1, c2, Crc16Tab(Byte1(c0) ^ b) as bv32);
  }

  lemma WideStepXor(c0: bv32, c1: bv32, c2: bv32, t: bv32)
    requires c0 <= 0xffff && c1 <= 0xffff && c2 <= 0xffff && t <= 0xffff
    ensures Xor(Up8(Wide(c0, c1, c2)), t) == Wide(Xor(LowUp8(c0), t), c0, c1)
  {
    WideStep(c0, c1, c2, t);
  }

  /** hash_crc16 never masks its accumulator: its low half is the CRC of the key, and its high half
      keeps the high bytes of the CRCs of the key without its last and its last two bytes. */
  method HashCrc16(key: seq<byte>) returns (crc: bv32)
    ensures crc == Wide(Crc16(key), Earlier(key, 1), Earlier(key, 2))
    ensures Low16(crc) == Crc16(key)
    ensures Byte2(crc) == Drop8(Earlier(key, 1)) && Byte3(crc) == Drop8(Earlier(key, 2))
  {
    hide *;
    crc := 0;
    WideStart(key[..0]);
    for x := 0 to |key|
      invariant crc == Wide(Crc16(key[..x]), Earlier(key[..x], 1), Earlier(key[..x], 2))
    {
      WideRound(key[..x], key[x]);
      assert key[..x + 1] == key[..x] + [key[x]];
      crc := Xor(Up8(crc), Crc16Tab(LowByte(Xor(Drop8(crc), SignExtend(key[x])))) as bv32);
    }
    assert key[..|key|] == key;
    EarlierFits(key, 0);
    EarlierFits(key, 1);
    EarlierFits(key, 2);
    WideParts(Crc16(key), Earlier(key, 1), Earlier(key, 2));
  }

  lemma WideStart(key: seq<byte>)
    requires key == []
    ensures Wide(Crc16(key), Earlier(key, 1), Earlier(key, 2)) == 0
  {
  }

  lemma WideParts(c0: bv32, c1: bv32, c2: bv32)
    requires c0 <= 0xffff && c1 <= 0xffff && c2 <= 0xffff
    ensures var w := Wide(c0, c1, c2); Low16(w) == c0 && Byte2(w) == Drop8(c1) && Byte3(w) == Drop8(c2)
  {
  }
}
