/** hashkit.c: the hashes that take one byte at a time, one-at-a-time and the four of the FNV family. */
module ByteHashes {
  import opened Bytes

  datatype Kind = OneAtATime | Fnv1With64 | Fnv1aWith64 | Fnv1With32 | Fnv1aWith32

  function SignExtend64(b: byte): bv64 {
    if b & 0x80 != 0 then (b as bv64) | 0xffffffff_ffffff00 else b as bv64
  }

  // The multipliers: the 32-bit prime, the low half of the 64-bit prime, and 64-bit products.
  function TimesPrime32(x: bv32): bv32 { x * 16777619 }
  function TimesLowPrime64(x: bv32): bv32 { x * 0x1b3 }
  function TimesPrime64(x: bv64): bv64 { x * 0x100000001b3 }
  function Xor64(x: bv64, y: bv64): bv64 { x ^ y }

  // The shifts of one-at-a-time.
  function AddShift10(x: bv32): bv32 { x + (x << 10) }
  function AddShift3(x: bv32): bv32 { x + (x << 3) }
  function AddShift15(x: bv32): bv32 { x + (x << 15) }
  function XorShift6(x: bv32): bv32 { x ^ (x >> 6) }
  function XorShift11(x: bv32): bv32 { x ^ (x >> 11) }
  function Unxor6(x: bv32): bv32 { x ^ (x >> 6) ^ (x >> 12) ^ (x >> 18) ^ (x >> 24) ^ (x >> 30) }
  function Unxor11(x: bv32): bv32 { x ^ (x >> 11) ^ (x >> 22) }

  function Initial(kind: Kind): bv32 {
    match kind
    case OneAtATime => 0
    case Fnv1With64 | Fnv1aWith64 => 0x84222325
    case Fnv1With32 | Fnv1aWith32 => 2166136261
  }

  /** One round. For the kinds with a 64-bit state this is what happens to the low half of it. */
  function Round(kind: Kind, h: bv32, b: byte): bv32 {
    var val := SignExtend(b);
    match kind
    case OneAtATime => XorShift6(AddShift10(Add(h, val)))
    case Fnv1With64 => Xor(TimesLowPrime64(h), val)
    case Fnv1aWith64 => TimesLowPrime64(Xor(h, val))
    case Fnv1With32 => Xor(TimesPrime32(h), val)
    case Fnv1aWith32 => TimesPrime32(Xor(h, val))
  }

  function Rounds(kind: Kind, h: bv32, key: seq<byte>): bv32
    decreases |key|
  {
    if key == [] then h else Rounds(kind, Round(kind, h, key[0]), key[1..])
  }

  function Finish(kind: Kind, h: bv32): bv32 {
    if kind.OneAtATime? then AddShift15(XorShift11(AddShift3(h))) else h
  }

  function Hash(kind: Kind, key: seq<byte>): bv32 {
    Finish(kind, Rounds(kind, Initial(kind), key))
  }

  // ----- every step can be undone -----

  // Inverses modulo 2^32 of the odd factors; adding a multiple of 2^k is multiplying by an odd number.
  function UndoTimesPrime32(x: bv32): bv32 { x * 0x359c449b }
  function UndoTimesLowPrime64(x: bv32): bv32 { x * 0xaff6957b }
  function UndoAddShift10(x: bv32): bv32 { x * 0xc00ffc01 }
  function UndoAddShift3(x: bv32): bv32 { x * 0x38e38e39 }
  function UndoAddShift15(x: bv32): bv32 { x * 0x3fff8001 }

  lemma TimesPrime32Is(x: bv32)
    ensures TimesPrime32(x) == x * 16777619
  {
  }

  lemma UndoTimesPrime32Raw(x: bv32)
    ensures UndoTimesPrime32(x * 16777619) == x
  {
  }

  lemma UndoTimesPrime32Of(x: bv32)
    ensures UndoTimesPrime32(TimesPrime32(x)) == x
  {
    hide TimesPrime32, UndoTimesPrime32;
    TimesPrime32Is(x);
    UndoTimesPrime32Raw(x);
  }

  lemma TimesLowPrime64Is(x: bv32)
    ensures TimesLowPrime64(x) == x * 0x1b3
  {
  }

  lemma UndoTimesLowPrime64Raw(x: bv32)
    ensures UndoTimesLowPrime64(x * 0x1b3) == x
  {
  }

  lemma UndoTimesLowPrime64Of(x: bv32)
    ensures UndoTimesLowPrime64(TimesLowPrime64(x)) == x
  {
    hide TimesLowPrime64, UndoTimesLowPrime64;
    TimesLowPrime64Is(x);
    UndoTimesLowPrime64Raw(x);
  }

  lemma AddShift10Is(x: bv32)
    ensures AddShift10(x) == x * 1025
  {
  }

  lemma UndoAddShift10Raw(x: bv32)
    ensures UndoAddShift10(x * 1025) == x
  {
  }

  lemma UndoAddShift10Of(x: bv32)
    ensures UndoAddShift10(AddShift10(x)) == x
  {
    hide AddShift10, UndoAddShift10;
    AddShift10Is(x);
    UndoAddShift10Raw(x);
  }

  lemma AddShift3Is(x: bv32)
    ensures AddShift3(x) == x * 9
  {
  }

  lemma UndoAddShift3Raw(x: bv32)
    ensures UndoAddShift3(x * 9) == x
  {
  }

  lemma UndoAddShift3Of(x: bv32)
    ensures UndoAddShift3(AddShift3(x)) == x
  {
    hide AddShift3, UndoAddShift3;
    AddShift3Is(x);
    UndoAddShift3Raw(x);
  }

  lemma AddShift15Is(x: bv32)
    ensures AddShift15(x) == x * 32769
  {
  }

  lemma UndoAddShift15Raw(x: bv32)
    ensures UndoAddShift15(x * 32769) == x
  {
  }

  lemma UndoAddShift15Of(x: bv32)
    ensures UndoAddShift15(AddShift15(x)) == x
  {
    hide AddShift15, UndoAddShift15;
    AddShift15Is(x);
    UndoAddShift15Raw(x);
  }

  lemma XorShiftIs(x: bv32)
    ensures XorShift6(x) == x ^ (x >> 6) && XorShift11(x) == x ^ (x >> 11)
  {
  }

  lemma UnxorRaw6(x: bv32)
    ensures Unxor6(x ^ (x >> 6)) == x
  {
  }

  lemma UnxorRaw11(x: bv32)
    ensures Unxor11(x ^ (x >> 11)) == x
  {
  }

  lemma UnxorXor(x: bv32)
    ensures Unxor6(XorShift6(x)) == x && Unxor11(XorShift11(x)) == x
  {
    hide XorShift6, XorShift11, Unxor6, Unxor11;
    XorShiftIs(x);
    UnxorRaw6(x);
    UnxorRaw11(x);
  }

  lemma StirInjective(x: bv32, y: bv32)
    requires XorShift6(AddShift10(x)) == XorShift6(AddShift10(y))
    ensures x == y
  {
    hide XorShift6, AddShift10, Unxor6, Unxor11, XorShift11, UndoAddShift10;
    UnxorXor(AddShift10(x));
    UnxorXor(AddShift10(y));
    UndoAddShift10Of(x);
    UndoAddShift10Of(y);
  }

  lemma FinishInjective(kind: Kind, g: bv32, h: bv32)
    requires Finish(kind, g) == Finish(kind, h)
    ensures g == h
  {
    if kind.OneAtATime? {
      hide XorShift6, XorShift11, AddShift3, AddShift15, Unxor6, Unxor11, UndoAddShift3, UndoAddShift15;
      UndoAddShift15Of(XorShift11(AddShift3(g)));
      UndoAddShift15Of(XorShift11(AddShift3(h)));
      UnxorXor(AddShift3(g));
      UnxorXor(AddShift3(h));
      UndoAddShift3Of(g);
      UndoAddShift3Of(h);
    }
  }

  lemma SignExtendInjective(b: byte, c: byte)
    requires SignExtend(b) == SignExtend(c)
    ensures b == c
  {
  }

  /** A round loses neither the state nor the byte. */
  lemma RoundInjective(kind: Kind, g: bv32, h: bv32, b: byte, c: byte)
    ensures Round(kind, g, b) == Round(kind, h, b) ==> g == h
    ensures Round(kind, h, b) == Round(kind, h, c) ==> b == c
  {
    hide Add, Xor, TimesPrime32, TimesLowPrime64, SignExtend, XorShift6, AddShift10;
    if Round(kind, g, b) == Round(kind, h, b) {
      UndoRound(kind, g, h, b, b);
    }
    if Round(kind, h, b) == Round(kind, h, c) {
      UndoRound(kind, h, h, b, c);
    }
  }

  lemma TimesInjective(x: bv32, y: bv32)
    ensures TimesPrime32(x) == TimesPrime32(y) ==> x == y
    ensures TimesLowPrime64(x) == TimesLowPrime64(y) ==> x == y
  {
    hide TimesPrime32, TimesLowPrime64, UndoTimesPrime32, UndoTimesLowPrime64;
    UndoTimesPrime32Of(x);
    UndoTimesPrime32Of(y);
    UndoTimesLowPrime64Of(x);
    UndoTimesLowPrime64Of(y);
  }

  lemma UndoRound(kind: Kind, g: bv32, h: bv32, b: byte, c: byte)
    requires Round(kind, g, b) == Round(kind, h, c)
    ensures b == c ==> g == h
    ensures g == h ==> b == c
  {
    hide Add, Xor, TimesPrime32, TimesLowPrime64, SignExtend, XorShift6, AddShift10;
    var v, w := SignExtend(b), SignExtend(c);
    if v == w { SignExtendInjective(b, c); }
    match kind {
      case OneAtATime =>
        StirInjective(Add(g, v), Add(h, w));
        AddInjective(g, h, v);
        AddInjective(v, w, g);
      case Fnv1With64 =>
        XorInjective(TimesLowPrime64(g), TimesLowPrime64(h), v);
        XorInjective(v, w, TimesLowPrime64(g));
        TimesInjective(g, h);
      case Fnv1aWith64 =>
        TimesInjective(Xor(g, v), Xor(h, w));
        XorInjective(g, h, v);
        XorInjective(v, w, g);
      case Fnv1With32 =>
        XorInjective(TimesPrime32(g), TimesPrime32(h), v);
        XorInjective(v, w, TimesPrime32(g));
        TimesInjective(g, h);
      case Fnv1aWith32 =>
        TimesInjective(Xor(g, v), Xor(h, w));
        XorInjective(g, h, v);
        XorInjective(v, w, g);
    }
  }

  lemma {:induction false} RoundsInjective(kind: Kind, g: bv32, h: bv32, key: seq<byte>)
    requires Rounds(kind, g, key) == Rounds(kind, h, key)
    ensures g == h
    decreases |key|
  {
    hide Round;
    if key != [] {
      RoundsInjective(kind, Round(kind, g, key[0]), Round(kind, h, key[0]), key[1..]);
      RoundInjective(kind, g, h, key[0], key[0]);
    }
  }

  lemma {:induction false} RoundsAppend(kind: Kind, h: bv32, s: seq<byte>, t: seq<byte>)
    ensures Rounds(kind, h, s + t) == Rounds(kind, Rounds(kind, h, s), t)
    decreases |s|
  {
    hide Round;
    if s == [] {
      assert s + t == t;
    } else {
      RoundsAppend(kind, Round(kind, h, s[0]), s[1..], t);
      assert (s + t)[1..] == s[1..] + t;
    }
  }

  /** Keys that differ in exactly one byte never collide, whichever of the five hashes it is. */
  lemma OneByteMatters(kind: Kind, p: seq<byte>, b: byte, c: byte, s: seq<byte>)
    requires b != c
    ensures Hash(kind, p + [b] + s) != Hash(kind, p + [c] + s)
  {
    hide Rounds, Round, Finish;
    var h := Rounds(kind, Initial(kind), p);
    RoundsOfOne(kind, Initial(kind), p, b, s);
    RoundsOfOne(kind, Initial(kind), p, c, s);
    if Hash(kind, p + [b] + s) == Hash(kind, p + [c] + s) {
      FinishInjective(kind, Rounds(kind, Round(kind, h, b), s), Rounds(kind, Round(kind, h, c), s));
      RoundsInjective(kind, Round(kind, h, b), Round(kind, h, c), s);
      RoundInjective(kind, h, h, b, c);
    }
  }

  lemma RoundsOfOne(kind: Kind, h: bv32, p: seq<byte>, b: byte, s: seq<byte>)
    ensures Rounds(kind, h, p + [b] + s) == Rounds(kind, Round(kind, Rounds(kind, h, p), b), s)
  {
    hide Round;
    RoundsAppend(kind, h, p + [b], s);
    RoundsAppend(kind, h, p, [b]);
  }

  // ----- 64-bit states -----

  function Low32(x: bv64): bv32 {
    (x & 0xffffffff) as bv32
  }

  /** The recurrences of the 64-bit variants on the whole state. */
  function Rounds64(multiplyFirst: bool, h: bv64, key: seq<byte>): bv64
    decreases |key|
  {
    if key == [] then h
    else if multiplyFirst then Rounds64(true, Xor64(TimesPrime64(h), SignExtend64(key[0])), key[1..])
    else Rounds64(false, TimesPrime64(Xor64(h, SignExtend64(key[0]))), key[1..])
  }

  lemma Low32OfProduct(x: bv64)
    ensures Low32(x * 0x100000001b3) == TimesLowPrime64((x & 0xffffffff) as bv32)
  {
  }

  lemma TimesPrime64Is(x: bv64)
    ensures TimesPrime64(x) == x * 0x100000001b3
    ensures Low32(x) == (x & 0xffffffff) as bv32
  {
  }

  lemma Low32Times(x: bv64)
    ensures Low32(TimesPrime64(x)) == TimesLowPrime64(Low32(x))
  {
    hide Low32, TimesPrime64, TimesLowPrime64;
    Low32OfProduct(x);
    TimesPrime64Is(x);
  }

  lemma Low32Xor(x: bv64, y: bv64)
    ensures Low32(Xor64(x, y)) == Xor(Low32(x), Low32(y))
  {
  }

  lemma Low32SignExtend(b: byte)
    ensures Low32(SignExtend64(b)) == SignExtend(b)
  {
  }

  /** The low half of the 64-bit recurrence runs on its own, by the 32-bit one. */
  lemma {:induction false} Low32Rounds(multiplyFirst: bool, h: bv64, key: seq<byte>)
    ensures Low32(Rounds64(multiplyFirst, h, key)) ==
            Rounds(if multiplyFirst then Fnv1With64 else Fnv1aWith64, Low32(h), key)
    decreases |key|
  {
    hide Low32, TimesPrime64, TimesLowPrime64, Xor, Xor64, SignExtend, SignExtend64;
    if key != [] {
      var val := SignExtend64(key[0]);
      Low32SignExtend(key[0]);
      if multiplyFirst {
        Low32Times(h);
        Low32Xor(TimesPrime64(h), val);
        Low32Rounds(true, Xor64(TimesPrime64(h), val), key[1..]);
      } else {
        Low32Xor(h, val);
        Low32Times(Xor64(h, val));
        Low32Rounds(false, TimesPrime64(Xor64(h, val)), key[1..]);
      }
    }
  }

  const FNV_64_INIT: bv64 := 0xcbf29ce484222325

  lemma LowInit()
    ensures Low32(FNV_64_INIT) == Initial(Fnv1With64) == Initial(Fnv1aWith64)
  {
  }

  // ----- the functions themselves -----

  method HashOneAtATime(key: seq<byte>) returns (value: bv32)
    ensures value == Hash(OneAtATime, key)
  {
    hide Add, SignExtend, AddShift10, AddShift3, AddShift15, XorShift6, XorShift11;
    value := 0;
    assert key[0..] == key;
    for x := 0 to |key|
      invariant Rounds(OneAtATime, value, key[x..]) == Rounds(OneAtATime, 0, key)
    {
      assert key[x..][1..] == key[x + 1..];
      value := Add(value, SignExtend(key[x]));
      value := AddShift10(value);
      value := XorShift6(value);
    }
    value := AddShift3(value);
    value := XorShift11(value);
    value := AddShift15(value);
  }

  /** hash_fnv1_64 keeps a 64-bit state and returns its low half. */
  method HashFnv1With64(key: seq<byte>) returns (r: bv32)
    ensures r == Low32(Rounds64(true, FNV_64_INIT, key))
    ensures r == Hash(Fnv1With64, key)
  {
    hide TimesPrime64, Xor64, SignExtend64, Low32, Round;
    var hash := FNV_64_INIT;
    assert key[0..] == key;
    for x := 0 to |key|
      invariant Rounds64(true, hash, key[x..]) == Rounds64(true, FNV_64_INIT, key)
    {
      assert key[x..][1..] == key[x + 1..];
      hash := TimesPrime64(hash);
      hash := Xor64(hash, SignExtend64(key[x]));
    }
    r := Low32(hash);
    Low32Rounds(true, FNV_64_INIT, key);
    LowInit();
  }

  /** hash_fnv1a_64 keeps only 32 bits, and still returns the low half of the 64-bit recurrence. */
  method HashFnv1aWith64(key: seq<byte>) returns (hash: bv32)
    ensures hash == Low32(Rounds64(false, FNV_64_INIT, key))
    ensures hash == Hash(Fnv1aWith64, key)
  {
    hide TimesLowPrime64, Xor, SignExtend, Low32;
    hash := 0x84222325;
    assert key[0..] == key;
    for x := 0 to |key|
      invariant Rounds(Fnv1aWith64, hash, key[x..]) == Rounds(Fnv1aWith64, 0x84222325, key)
    {
      assert key[x..][1..] == key[x + 1..];
      hash := Xor(hash, SignExtend(key[x]));
      hash := TimesLowPrime64(hash);
    }
    Low32Rounds(false, FNV_64_INIT, key);
    LowInit();
  }

  method HashFnv1With32(key: seq<byte>) returns (hash: bv32)
    ensures hash == Hash(Fnv1With32, key)
  {
    hide TimesPrime32, Xor, SignExtend;
    hash := 2166136261;
    assert key[0..] == key;
    for x := 0 to |key|
      invariant Rounds(Fnv1With32, hash, key[x..]) == Rounds(Fnv1With32, 2166136261, key)
    {
      assert key[x..][1..] == key[x + 1..];
      hash := TimesPrime32(hash);
      hash := Xor(hash, SignExtend(key[x]));
    }
  }

  method HashFnv1aWith32(key: seq<byte>) returns (hash: bv32)
    ensures hash == Hash(Fnv1aWith32, key)
  {
    hide TimesPrime32, Xor, SignExtend;
    hash := 2166136261;
    assert key[0..] == key;
    for x := 0 to |key|
      invariant Rounds(Fnv1aWith32, hash, key[x..]) == Rounds(Fnv1aWith32, 2166136261, key)
    {
      assert key[x..][1..] == key[x + 1..];
      hash := Xor(hash, SignExtend(key[x]));
      hash := TimesPrime32(hash);
    }
  }
}
