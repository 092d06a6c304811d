/** Bytes and the 32-bit little-endian words made of them. */
module Bytes {

  type byte = bv8

  /** The low-order byte comes first. */
  function Le32(b0: byte, b1: byte, b2: byte, b3: byte): bv32 {
    (b0 as bv32) | ((b1 as bv32) << 8) | ((b2 as bv32) << 16) | ((b3 as bv32) << 24)
  }

  /** The 32-bit word at byte offset `at`. */
  function Word(s: seq<byte>, at: nat): bv32
    requires at + 4 <= |s|
  {
    Le32(s[at], s[at + 1], s[at + 2], s[at + 3])
  }

  /** A char is signed: widening it copies its highest bit. */
  function SignExtend(b: byte): bv32 {
    if b & 0x80 != 0 then (b as bv32) | 0xffffff00 else b as bv32
  }

  lemma Le32Injective(a0: byte, a1: byte, a2: byte, a3: byte, b0: byte, b1: byte, b2: byte, b3: byte)
    requires Le32(a0, a1, a2, a3) == Le32(b0, b1, b2, b3)
    ensures a0 == b0 && a1 == b1 && a2 == b2 && a3 == b3
  {
    hide Le32;
    Le32Bytes(a0, a1, a2, a3);
    Le32Bytes(b0, b1, b2, b3);
  }

  lemma Le32Bytes(b0: byte, b1: byte, b2: byte, b3: byte)
    ensures (Le32(b0, b1, b2, b3) & 0xff) as byte == b0
    ensures ((Le32(b0, b1, b2, b3) >> 8) & 0xff) as byte == b1
    ensures ((Le32(b0, b1, b2, b3) >> 16) & 0xff) as byte == b2
    ensures ((Le32(b0, b1, b2, b3) >> 24) & 0xff) as byte == b3
  {
  }

  // Word operations under names. Proofs about long chains of them hide the operations and use the
  // laws below, one application at a time.

  /** Addition modulo 2^32. */
  function Add(x: bv32, y: bv32): bv32 {
    x + y
  }

  function Sub(x: bv32, y: bv32): bv32 {
    x - y
  }

  function Xor(x: bv32, y: bv32): bv32 {
    x ^ y
  }

  function Not(x: bv32): bv32 {
    !x
  }

  lemma AddIs(x: bv32, y: bv32)
    ensures Add(x, y) == x + y
  {
  }

  lemma SubIs(x: bv32, y: bv32)
    ensures Sub(x, y) == x - y
  {
  }

  lemma XorIs(x: bv32, y: bv32)
    ensures Xor(x, y) == x ^ y
  {
  }

  lemma AddCommutes(x: bv32, y: bv32)
    ensures Add(x, y) == Add(y, x)
  {
  }

  lemma AddOfSum(x: bv32, y: bv32, z: bv32)
    ensures Add(x + y, z) == Add(x, y + z)
  {
  }

  lemma AddAssociates(x: bv32, y: bv32, z: bv32)
    ensures Add(Add(x, y), z) == Add(x, Add(y, z))
  {
    hide Add;
    AddOfSum(x, y, z);
    AddIs(x, y);
    AddIs(y, z);
  }

  lemma AddOfDifference(x: bv32, y: bv32)
    ensures Add(x - y, y) == x
  {
  }

  lemma SubOfSum(x: bv32, y: bv32)
    ensures Sub(x + y, y) == x
  {
  }

  lemma SubCancels(x: bv32, y: bv32)
    ensures Add(Sub(x, y), y) == x
  {
    hide Add, Sub;
    SubIs(x, y);
    AddOfDifference(x, y);
  }

  lemma AddCancels(x: bv32, y: bv32)
    ensures Sub(Add(x, y), y) == x
  {
    hide Add, Sub;
    AddIs(x, y);
    SubOfSum(x, y);
  }

  lemma XorCommutes(x: bv32, y: bv32)
    ensures Xor(x, y) == Xor(y, x)
  {
  }

  lemma XorOfXor(x: bv32, y: bv32, z: bv32)
    ensures Xor(x ^ y, z) == Xor(x, y ^ z)
    ensures Xor(x ^ y, y) == x
  {
  }

  lemma XorAssociates(x: bv32, y: bv32, z: bv32)
    ensures Xor(Xor(x, y), z) == Xor(x, Xor(y, z))
  {
    hide Xor;
    XorOfXor(x, y, z);
    XorIs(x, y);
    XorIs(y, z);
  }

  lemma XorCancels(x: bv32, y: bv32)
    ensures Xor(Xor(x, y), y) == x
  {
    hide Xor;
    XorOfXor(x, y, y);
    XorIs(x, y);
  }

  lemma XorInjective(x: bv32, y: bv32, w: bv32)
    ensures Xor(x, w) == Xor(y, w) ==> x == y
    ensures Xor(w, x) == Xor(w, y) ==> x == y
  {
    hide Xor;
    XorCancels(x, w);
    XorCancels(y, w);
    XorCommutes(x, w);
    XorCommutes(y, w);
  }

  lemma AddInjective(x: bv32, y: bv32, w: bv32)
    ensures Add(x, w) == Add(y, w) ==> x == y
    ensures Add(w, x) == Add(w, y) ==> x == y
  {
    hide Add, Sub;
    AddCancels(x, w);
    AddCancels(y, w);
    AddCommutes(x, w);
    AddCommutes(y, w);
  }
}
