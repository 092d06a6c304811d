/** Cyclic redundancy checks one bit at a time, with no tables. */
module CrcSpec {
  import opened Bytes

  // ----- CRC-32: section 8 of RFC 1952, reflected, polynomial 0xedb88320 -----

  function Half(c: bv32): bv32 {
    c >> 1
  }

  predicate Odd(c: bv32) {
    c & 1 != 0
  }

  /** One step of the shift register, once the message bit has been added to its lowest bit. */
  function Shift(c: bv32): bv32 {
    if Odd(c) then Xor(0xedb88320, Half(c)) else Half(c)
  }

  function Shifts(c: bv32, n: nat): bv32
    decreases n
  {
    if n == 0 then c else Shifts(Shift(c), n - 1)
  }

  function BitWord(bit: bool): bv32 {
    if bit then 1 else 0
  }

  /** The register after a sequence of message bits. */
  function Register(c: bv32, bits: seq<bool>): bv32
    decreases |bits|
  {
    if bits == [] then c else Register(Shift(Xor(c, BitWord(bits[0]))), bits[1..])
  }

  /** The bits of a byte in the order in which they are sent, the lowest first. */
  function BitsOfByte(b: byte): (bits: seq<bool>)
    ensures |bits| == 8
  {
    [b & 0x01 != 0, b & 0x02 != 0, b & 0x04 != 0, b & 0x08 != 0,
     b & 0x10 != 0, b & 0x20 != 0, b & 0x40 != 0, b & 0x80 != 0]
  }

  function BitsOf(key: seq<byte>): (bits: seq<bool>)
    ensures |bits| == 8 * |key|
  {
    if key == [] then [] else BitsOfByte(key[0]) + BitsOf(key[1..])
  }

  function Crc32(key: seq<byte>): bv32 {
    Not(Register(0xffffffff, BitsOf(key)))
  }

  // ----- the register as a whole: linear, reversible -----

  lemma HalfXor(x: bv32, y: bv32)
    ensures Half(Xor(x, y)) == Xor(Half(x), Half(y))
  {
    HalfXorRaw(x, y);
  }

  lemma HalfXorRaw(x: bv32, y: bv32)
    ensures (x ^ y) >> 1 == (x >> 1) ^ (y >> 1)
  {
  }

  lemma OddXor(x: bv32, y: bv32)
    ensures Odd(Xor(x, y)) <==> Odd(x) != Odd(y)
  {
    OddXorRaw(x, y);
  }

  lemma OddXorRaw(x: bv32, y: bv32)
    ensures (x ^ y) & 1 == (x & 1) ^ (y & 1)
  {
  }

  /** Adding p on two conditions is adding it on exactly one of them. */
  lemma XorCases(p: bv32, a: bv32, b: bv32, onA: bool, onB: bool)
    ensures Xor(if onA then Xor(p, a) else a, if onB then Xor(p, b) else b) ==
            if onA != onB then Xor(p, Xor(a, b)) else Xor(a, b)
  {
    hide Xor;
    XorAssociates(p, a, b);
    XorCommutes(p, b);
    XorAssociates(a, b, p);
    XorCommutes(p, Xor(a, b));
    XorCommutes(p, a);
    XorAssociates(Xor(a, p), p, b);
    XorCancels(a, p);
  }

  lemma ShiftXor(x: bv32, y: bv32)
    ensures Shift(Xor(x, y)) == Xor(Shift(x), Shift(y))
  {
    hide Xor, Half, Odd;
    HalfXor(x, y);
    OddXor(x, y);
    XorCases(0xedb88320, Half(x), Half(y), Odd(x), Odd(y));
  }

  lemma {:induction false} ShiftsXor(x: bv32, y: bv32, n: nat)
    ensures Shifts(Xor(x, y), n) == Xor(Shifts(x, n), Shifts(y, n))
    decreases n
  {
    if n > 0 {
      hide Shift, Xor;
      ShiftXor(x, y);
      ShiftsXor(Shift(x), Shift(y), n - 1);
    }
  }

  predicate High(c: bv32) {
    c & 0x80000000 != 0
  }

  function Double(c: bv32): bv32 {
    c << 1
  }

  /** A bit below the bits of a word. */
  function Put(p: bv32, w: bv32): bv32 {
    (p << 1) | w
  }

  function Unshift(c: bv32): bv32 {
    if High(c) then Put(Xor(0xedb88320, c), 1) else Double(c)
  }

  lemma HalfIsLow(c: bv32)
    ensures !High(Half(c))
  {
  }

  lemma PolynomialIsHigh(c: bv32)
    ensures High(Xor(0xedb88320, Half(c)))
  {
  }

  lemma PutHalf(c: bv32)
    requires Odd(c)
    ensures Put(Half(c), 1) == c
  {
  }

  lemma DoubleHalf(c: bv32)
    requires !Odd(c)
    ensures Double(Half(c)) == c
  {
  }

  /** A shift loses nothing: the highest bit tells whether the polynomial was added. */
  lemma UnshiftShift(c: bv32)
    ensures Unshift(Shift(c)) == c
  {
    hide Xor, Half, Odd, High, Double, Put;
    HalfIsLow(c);
    PolynomialIsHigh(c);
    if Odd(c) {
      PutHalf(c);
    } else {
      DoubleHalf(c);
    }
    XorCommutes(0xedb88320, Half(c));
    XorCancels(Half(c), 0xedb88320);
    XorCommutes(0xedb88320, Xor(Half(c), 0xedb88320));
  }

  lemma {:induction false} ShiftsInjective(x: bv32, y: bv32, n: nat)
    requires Shifts(x, n) == Shifts(y, n)
    ensures x == y
    decreases n
  {
    hide Shift, Unshift;
    if n > 0 {
      ShiftsInjective(Shift(x), Shift(y), n - 1);
      UnshiftShift(x);
      UnshiftShift(y);
    }
  }

  /** The same bits take different registers to different registers. */
  lemma {:induction false} RegisterInjective(x: bv32, y: bv32, bits: seq<bool>)
    requires Register(x, bits) == Register(y, bits)
    ensures x == y
    decreases |bits|
  {
    hide Shift, Unshift, Xor;
    if bits != [] {
      var w := BitWord(bits[0]);
      RegisterInjective(Shift(Xor(x, w)), Shift(Xor(y, w)), bits[1..]);
      UnshiftShift(Xor(x, w));
      UnshiftShift(Xor(y, w));
      XorInjective(x, y, w);
    }
  }

  lemma {:induction false} RegisterAppend(c: bv32, s: seq<bool>, t: seq<bool>)
    ensures Register(c, s + t) == Register(Register(c, s), t)
    decreases |s|
  {
    hide Shift, Xor;
    if s == [] {
      assert s + t == t;
    } else {
      RegisterAppend(Shift(Xor(c, BitWord(s[0]))), s[1..], t);
      assert (s + t)[1..] == s[1..] + t;
    }
  }

  // ----- up to 32 bits at once -----

  /** Up to 32 bits as a word, the first in the lowest place. */
  function Pack(bits: seq<bool>): bv32 {
    if bits == [] then 0 else Put(Pack(bits[1..]), BitWord(bits[0]))
  }

  /** The lowest n places. */
  function Below(n: nat): bv32 {
    if n == 0 then 0 else Put(Below(n - 1), 1)
  }

  /** All bits of p are bits of m. */
  predicate Within(p: bv32, m: bv32) {
    p & !m == 0
  }

  lemma WithinStep(p: bv32, m: bv32, w: bv32)
    requires Within(p, m) && w <= 1
    ensures Within(Put(p, w), Put(m, 1))
  {
  }

  lemma WithinTransitive(p: bv32, m: bv32, k: bv32)
    requires Within(p, m) && Within(m, k)
    ensures Within(p, k)
  {
  }

  lemma {:induction false} PackBelow(bits: seq<bool>)
    ensures Within(Pack(bits), Below(|bits|))
  {
    if bits != [] {
      hide Within, Put;
      PackBelow(bits[1..]);
      WithinStep(Pack(bits[1..]), Below(|bits| - 1), BitWord(bits[0]));
    }
  }

  lemma {:induction false} BelowMonotone(n: nat, m: nat)
    requires n <= m
    ensures Within(Below(n), Below(m))
  {
    if n > 0 {
      hide Within, Put;
      BelowMonotone(n - 1, m - 1);
      WithinStep(Below(n - 1), Below(m - 1), 1);
    }
  }

  lemma Below31()
    ensures Below(31) == 0x7fffffff
  {
    assert Below(8) == 0xff;
    assert Below(16) == 0xffff;
    assert Below(24) == 0xffffff;
  }

  lemma PackFits(bits: seq<bool>)
    requires |bits| < 32
    ensures !High(Pack(bits))
  {
    PackBelow(bits);
    BelowMonotone(|bits|, 31);
    WithinTransitive(Pack(bits), Below(|bits|), Below(31));
    Below31();
    WithinLow(Pack(bits));
  }

  lemma WithinLow(p: bv32)
    ensures Within(p, 0x7fffffff) ==> !High(p)
  {
  }

  lemma XorPut(c: bv32, p: bv32, w: bv32)
    requires w <= 1
    ensures Xor(c, Put(p, w)) == Xor(Xor(c, w), Double(p))
  {
    XorPutRaw(c, p, w);
  }

  lemma XorPutRaw(c: bv32, p: bv32, w: bv32)
    requires w <= 1
    ensures c ^ ((p << 1) | w) == (c ^ w) ^ (p << 1)
  {
  }

  lemma DoubleIsEven(p: bv32)
    ensures !Odd(Double(p))
  {
  }

  lemma HalfDouble(p: bv32)
    requires !High(p)
    ensures Half(Double(p)) == p
  {
  }

  lemma HalfPut(p: bv32, w: bv32)
    requires w <= 1 && !High(p)
    ensures Half(Put(p, w)) == p
  {
  }

  lemma OddPut(p: bv32, w: bv32)
    requires w <= 1
    ensures Odd(Put(p, w)) <==> w == 1
  {
  }

  /** Feeding up to 32 bits one at a time is adding them all at once and then shifting. */
  lemma {:induction false} RegisterIsShifts(c: bv32, bits: seq<bool>)
    requires |bits| <= 32
    ensures Register(c, bits) == Shifts(Xor(c, Pack(bits)), |bits|)
    decreases |bits|
  {
    if bits == [] {
      assert c ^ 0 == c;
    } else {
      hide Xor, Half, Odd, Put, Double, High;
      var w, p := BitWord(bits[0]), Pack(bits[1..]);
      PackFits(bits[1..]);
      XorPut(c, p, w);
      DoubleIsEven(p);
      HalfDouble(p);
      ShiftXor(Xor(c, w), Double(p));
      RegisterIsShifts(Shift(Xor(c, w)), bits[1..]);
    }
  }

  lemma {:induction false} PackInjective(s: seq<bool>, t: seq<bool>)
    requires |s| == |t| <= 32 && Pack(s) == Pack(t)
    ensures s == t
  {
    if s != [] {
      hide Half, Odd, Put, High;
      PackFits(s[1..]);
      PackFits(t[1..]);
      HalfPut(Pack(s[1..]), BitWord(s[0]));
      HalfPut(Pack(t[1..]), BitWord(t[0]));
      OddPut(Pack(s[1..]), BitWord(s[0]));
      OddPut(Pack(t[1..]), BitWord(t[0]));
      PackInjective(s[1..], t[1..]);
      assert s == [s[0]] + s[1..] && t == [t[0]] + t[1..];
    }
  }

  /** Two messages that differ, and only within 32 consecutive bits, leave different registers. */
  lemma BurstDetected(c: bv32, before: seq<bool>, s: seq<bool>, t: seq<bool>, after: seq<bool>)
    requires |s| == |t| <= 32 && s != t
    ensures Register(c, before + s + after) != Register(c, before + t + after)
  {
    hide Xor, Register, Shifts;
    RegisterAppend(c, before, s);
    RegisterAppend(c, before, t);
    RegisterAppend(c, before + s, after);
    RegisterAppend(c, before + t, after);
    if Register(c, before + s + after) == Register(c, before + t + after) {
      var r := Register(c, before);
      RegisterInjective(Register(r, s), Register(r, t), after);
      RegisterIsShifts(r, s);
      RegisterIsShifts(r, t);
      ShiftsInjective(Xor(r, Pack(s)), Xor(r, Pack(t)), |s|);
      XorInjective(Pack(s), Pack(t), r);
      PackInjective(s, t);
    }
  }

  lemma NotInjective(x: bv32, y: bv32)
    requires Not(x) == Not(y)
    ensures x == y
  {
    assert !(!x) == x && !(!y) == y;
  }

  /** Two keys whose bits differ, and only within 32 consecutive places, have different CRCs. */
  lemma Crc32DetectsBursts(k: seq<byte>, l: seq<byte>, before: seq<bool>, s: seq<bool>, t: seq<bool>, after: seq<bool>)
    requires BitsOf(k) == before + s + after && BitsOf(l) == before + t + after
    requires |s| == |t| <= 32 && s != t
    ensures Crc32(k) != Crc32(l)
  {
    hide Register, BitsOf, Not;
    BurstDetected(0xffffffff, before, s, t, after);
    if Crc32(k) == Crc32(l) {
      NotInjective(Register(0xffffffff, BitsOf(k)), Register(0xffffffff, BitsOf(l)));
    }
  }

  lemma BitsOfFirst(k: seq<byte>)
    ensures k == [] ==> BitsOf(k) == []
    ensures k != [] ==> BitsOf(k) == BitsOfByte(k[0]) + BitsOf(k[1..])
  {
  }

  lemma {:induction false} BitsOfAppend(k: seq<byte>, l: seq<byte>)
    ensures BitsOf(k + l) == BitsOf(k) + BitsOf(l)
  {
    hide BitsOf, BitsOfByte;
    BitsOfFirst(k);
    if k == [] {
      assert k + l == l;
    } else {
      BitsOfFirst(k + l);
      assert (k + l)[0] == k[0] && (k + l)[1..] == k[1..] + l;
      BitsOfAppend(k[1..], l);
      Associates(BitsOfByte(k[0]), BitsOf(k[1..]), BitsOf(l));
    }
  }

  lemma Associates(a: seq<bool>, b: seq<bool>, c: seq<bool>)
    ensures a + (b + c) == (a + b) + c
  {
  }

  lemma {:induction false} BitsOfInjective(k: seq<byte>, l: seq<byte>)
    requires |k| == |l| && BitsOf(k) == BitsOf(l)
    ensures k == l
  {
    if k != [] {
      hide BitsOfByte;
      assert BitsOf(k)[..8] == BitsOfByte(k[0]) && BitsOf(l)[..8] == BitsOfByte(l[0]);
      assert BitsOf(k)[8..] == BitsOf(k[1..]) && BitsOf(l)[8..] == BitsOf(l[1..]);
      PackByte(k[0]);
      PackByte(l[0]);
      WidenInjective(k[0], l[0]);
      BitsOfInjective(k[1..], l[1..]);
      assert k == [k[0]] + k[1..] && l == [l[0]] + l[1..];
    }
  }

  lemma WidenInjective(a: byte, b: byte)
    requires a as bv32 == b as bv32
    ensures a == b
  {
  }

  /** In particular, a change within four consecutive bytes never goes unnoticed. */
  lemma Crc32DetectsFourBytes(before: seq<byte>, v: seq<byte>, w: seq<byte>, after: seq<byte>)
    requires |v| == |w| <= 4 && v != w
    ensures Crc32(before + v + after) != Crc32(before + w + after)
  {
    BitsOfAppend(before + v, after);
    BitsOfAppend(before, v);
    BitsOfAppend(before + w, after);
    BitsOfAppend(before, w);
    if BitsOf(v) == BitsOf(w) {
      BitsOfInjective(v, w);
    }
    Crc32DetectsBursts(before + v + after, before + w + after, BitsOf(before), BitsOf(v), BitsOf(w), BitsOf(after));
  }

  // ----- whole bytes -----

  lemma PackStep(bits: seq<bool>, k: nat, p: bv32)
    requires k < |bits| && Pack(bits[k + 1..]) == p
    ensures Pack(bits[k..]) == Put(p, BitWord(bits[k]))
  {
    assert bits[k..][1..] == bits[k + 1..];
  }

  /** A word with four more bits below it. */
  function Put4(p: bv32, b0: bool, b1: bool, b2: bool, b3: bool): bv32 {
    Put(Put(Put(Put(p, BitWord(b3)), BitWord(b2)), BitWord(b1)), BitWord(b0))
  }

  lemma PackFour(bits: seq<bool>, k: nat)
    requires k + 4 <= |bits|
    ensures Pack(bits[k..]) == Put4(Pack(bits[k + 4..]), bits[k], bits[k + 1], bits[k + 2], bits[k + 3])
  {
    hide Put, BitWord, Pack;
    PackStep(bits, k + 3, Pack(bits[k + 4..]));
    PackStep(bits, k + 2, Pack(bits[k + 3..]));
    PackStep(bits, k + 1, Pack(bits[k + 2..]));
    PackStep(bits, k, Pack(bits[k + 1..]));
  }

  lemma PackByte(b: byte)
    ensures Pack(BitsOfByte(b)) == b as bv32
  {
    hide Put4, Pack;
    var s := BitsOfByte(b);
    PackNothing(s[8..]);
    PackFour(s, 4);
    PackFour(s, 0);
    assert s[0..] == s;
    PutBits(b);
  }

  lemma PackNothing(bits: seq<bool>)
    requires bits == []
    ensures Pack(bits) == 0
  {
  }

  lemma PutBits(b: byte)
    ensures Put4(Put4(0, b & 0x10 != 0, b & 0x20 != 0, b & 0x40 != 0, b & 0x80 != 0),
                 b & 0x01 != 0, b & 0x02 != 0, b & 0x04 != 0, b & 0x08 != 0) == b as bv32
  {
  }

  /** A byte at a time: add it to the low end of the register and shift eight times. */
  lemma RegisterByte(c: bv32, b: byte)
    ensures Register(c, BitsOfByte(b)) == Shifts(Xor(c, b as bv32), 8)
  {
    hide Register, Shifts, BitsOfByte, Xor;
    RegisterIsShifts(c, BitsOfByte(b));
    PackByte(b);
  }

  /** The last n places of c are clear. */
  predicate Clear(c: bv32, n: nat) {
    c & Below(n) == 0
  }

  lemma ClearHalf(c: bv32, n: nat)
    requires n > 0 && Clear(c, n)
    ensures !Odd(c) && Clear(Half(c), n - 1)
  {
    hide Odd, Half, Put;
    EvenIfClear(c, Below(n - 1));
    HalfIfClear(c, Below(n - 1));
  }

  lemma EvenIfClear(c: bv32, m: bv32)
    requires c & Put(m, 1) == 0
    ensures !Odd(c)
  {
  }

  lemma HalfIfClear(c: bv32, m: bv32)
    requires c & Put(m, 1) == 0
    ensures Half(c) & m == 0
  {
    HalfIfClearRaw(c, m);
  }

  lemma HalfIfClearRaw(c: bv32, m: bv32)
    ensures ((c >> 1) & m) << 1 == c & (m << 1)
    ensures ((c >> 1) & m) & 0x80000000 == 0
  {
  }

  function Halves(c: bv32, n: nat): bv32 {
    if n == 0 then c else Halves(Half(c), n - 1)
  }

  lemma {:induction false} ShiftsOfClear(c: bv32, n: nat)
    requires Clear(c, n)
    ensures Shifts(c, n) == Halves(c, n)
    decreases n
  {
    if n > 0 {
      hide Half, Odd, Xor, Clear;
      ClearHalf(c, n);
      ShiftsOfClear(Half(c), n - 1);
    }
  }

  // ----- CRC-16, polynomial 0x1021, highest bit first, initial value 0: a 16-bit register in a word -----

  function Up16(c: bv32): bv32 {
    (c << 1) & 0xffff
  }

  predicate Top16(c: bv32) {
    c & 0x8000 != 0
  }

  function Shift16(c: bv32): bv32 {
    if Top16(c) then Xor(0x1021, Up16(c)) else Up16(c)
  }

  function Shifts16(c: bv32, n: nat): bv32
    decreases n
  {
    if n == 0 then c else Shifts16(Shift16(c), n - 1)
  }

  /** A byte on top of the register's sixteen bits. */
  function AtTop(b: byte): bv32 {
    (b as bv32) << 8
  }

  function Crc16(key: seq<byte>): bv32 {
    if key == [] then 0
    else Shifts16(Xor(Crc16(key[..|key| - 1]), AtTop(key[|key| - 1])), 8)
  }

  lemma Up16Xor(x: bv32, y: bv32)
    ensures Up16(Xor(x, y)) == Xor(Up16(x), Up16(y))
  {
    Up16XorRaw(x, y);
  }

  lemma Up16XorRaw(x: bv32, y: bv32)
    ensures ((x ^ y) << 1) & 0xffff == ((x << 1) & 0xffff) ^ ((y << 1) & 0xffff)
  {
  }

  lemma Top16Xor(x: bv32, y: bv32)
    ensures Top16(Xor(x, y)) <==> Top16(x) != Top16(y)
  {
  }

  lemma Shift16Xor(x: bv32, y: bv32)
    ensures Shift16(Xor(x, y)) == Xor(Shift16(x), Shift16(y))
  {
    hide Xor, Up16, Top16;
    Up16Xor(x, y);
    Top16Xor(x, y);
    XorCases(0x1021, Up16(x), Up16(y), Top16(x), Top16(y));
  }

  lemma {:induction false} Shifts16Xor(x: bv32, y: bv32, n: nat)
    ensures Shifts16(Xor(x, y), n) == Xor(Shifts16(x, n), Shifts16(y, n))
    decreases n
  {
    if n > 0 {
      hide Xor, Shift16;
      Shift16Xor(x, y);
      Shifts16Xor(Shift16(x), Shift16(y), n - 1);
    }
  }
}
