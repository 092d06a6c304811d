/** md5.c: the streaming context, its partial block and its split byte counter. */
module Md5 {
  import opened Bytes
  import opened Md5Spec
  import opened Md5Block

  type uint32 = x: int | 0 <= x < 0x1_0000_0000

  /** The bytes of a message that fill whole blocks, and those after them. */
  function Whole(m: seq<byte>): (w: seq<byte>)
    ensures |w| % 64 == 0
  {
    m[..|m| - |m| % 64]
  }

  function Rest(m: seq<byte>): (r: seq<byte>)
    ensures |r| == |m| % 64
  {
    m[|m| - |m| % 64..]
  }

  lemma Split(m: seq<byte>)
    ensures Whole(m) + Rest(m) == m
  {
  }

  lemma SplitIsUnique(m: seq<byte>, w: seq<byte>, r: seq<byte>)
    requires m == w + r && |w| % 64 == 0 && |r| < 64
    ensures Whole(m) == w && Rest(m) == r
  {
    assert |m| % 64 == |r|;
  }

  /** What the counter says about n bytes. */
  ghost predicate Counts(lo: int, hi: int, n: nat) {
    && 0 <= lo < 0x2000_0000 && 0 <= hi < 0x1_0000_0000
    && hi * 0x2000_0000 + lo == n % 0x2000_0000_0000_0000
  }

  lemma LowBits(lo: int, hi: int, n: nat)
    requires Counts(lo, hi, n)
    ensures lo % 64 == n % 64
  {
    var k := n / 0x2000_0000_0000_0000;
    assert n == 64 * (k * 0x80_0000_0000_0000 + hi * 0x80_0000) + lo;
  }

  /** The carry of the split counter: the low part wraps exactly if it becomes smaller. */
  lemma CountsMore(lo: int, hi: int, lo': int, hi': int, n: nat, size: nat)
    requires Counts(lo, hi, n) && size < 0x1_0000_0000_0000_0000
    requires lo' == (lo + size) % 0x1_0000_0000_0000_0000 % 0x2000_0000
    requires hi' == ((if lo' < lo then (hi + 1) % 0x1_0000_0000 else hi) + size / 0x2000_0000) % 0x1_0000_0000
    ensures Counts(lo', hi', n + size)
  {
    var h := hi + (if lo' < lo then 1 else 0) + size / 0x2000_0000;
    LowWraps(lo, size);
    CarryWraps(hi, lo' < lo, size / 0x2000_0000);
    JoinWraps(lo', h);
    SumWraps(n, hi * 0x2000_0000 + lo, size);
  }

  lemma CarryWraps(hi: nat, carry: bool, q: nat)
    ensures ((if carry then (hi + 1) % 0x1_0000_0000 else hi) + q) % 0x1_0000_0000
         == (hi + (if carry then 1 else 0) + q) % 0x1_0000_0000
  {
  }

  lemma SumWraps(n: nat, m: nat, size: nat)
    requires m == n % 0x2000_0000_0000_0000
    ensures (n + size) % 0x2000_0000_0000_0000 == (m + size) % 0x2000_0000_0000_0000
  {
  }

  lemma LowWraps(lo: nat, size: nat)
    requires lo < 0x2000_0000
    ensures var lo' := (lo + size) % 0x1_0000_0000_0000_0000 % 0x2000_0000;
            lo' == lo + size % 0x2000_0000 - (if lo' < lo then 0x2000_0000 else 0)
  {
    assert (lo + size) % 0x1_0000_0000_0000_0000 % 0x2000_0000 == (lo + size) % 0x2000_0000;
  }

  lemma JoinWraps(l: nat, h: nat)
    requires l < 0x2000_0000
    ensures (h * 0x2000_0000 + l) % 0x2000_0000_0000_0000 == h % 0x1_0000_0000 * 0x2000_0000 + l
  {
    assert h == h / 0x1_0000_0000 * 0x1_0000_0000 + h % 0x1_0000_0000;
  }

  lemma PadInParts(m: seq<byte>, w: seq<byte>, t: seq<byte>)
    requires w + t == m + ([0x80] + Zeros(ZeroCount(|m|)))
    ensures w + (t + LengthBytes(8 * |m|)) == Pad(m)
  {
    hide LengthBytes, Zeros, ZeroCount;
    assert w + (t + LengthBytes(8 * |m|)) == (w + t) + LengthBytes(8 * |m|);
  }

  lemma ZerosAdd(m: nat, n: nat)
    ensures Zeros(m) + Zeros(n) == Zeros(m + n)
  {
  }

  lemma Div8(l: nat, m: nat)
    ensures (l + 0x100 * m) / 0x100 == l / 0x100 + m && (l + 0x100 * m) % 0x100 == l % 0x100
  {
  }

  lemma Div16(l: nat, m: nat)
    ensures (l + 0x1_0000 * m) / 0x1_0000 == l / 0x1_0000 + m
  {
  }

  lemma Div24(l: nat, m: nat)
    ensures (l + 0x100_0000 * m) / 0x100_0000 == l / 0x100_0000 + m
  {
  }

  lemma LowBytes(l: nat, y: nat)
    ensures var x := l + 0x1_0000_0000 * y;
            && x % 256 == l % 256
            && x / 0x100 % 256 == l / 0x100 % 256
            && x / 0x1_0000 % 256 == l / 0x1_0000 % 256
            && x / 0x100_0000 % 256 == l / 0x100_0000 % 256
  {
    Div8(l, 0x100_0000 * y);
    Div8(l / 0x100, 0x1_0000 * y);
    Div16(l, 0x1_0000 * y);
    Div8(l / 0x1_0000, 0x100 * y);
    Div24(l, 0x100 * y);
    Div8(l / 0x100_0000, y);
  }

  lemma HighBytes(l: nat, y: nat)
    requires l < 0x1_0000_0000
    ensures var x := l + 0x1_0000_0000 * y;
            && x / 0x1_0000_0000 == y
            && x / 0x100_0000_0000 == y / 0x100
            && x / 0x1_0000_0000_0000 == y / 0x1_0000
            && x / 0x100_0000_0000_0000 == y / 0x100_0000
  {
  }

  lemma LengthHalves(l: nat, y: nat)
    requires l < 0x1_0000_0000
    ensures LengthBytes(l + 0x1_0000_0000 * y) == HalfBytes(l) + HalfBytes(y)
  {
    LowBytes(l, y);
    HighBytes(l, y);
  }

  lemma HalfWraps(l: nat, y: nat)
    ensures HalfBytes(l + 0x1_0000_0000 * y) == HalfBytes(l)
  {
    LowBytes(l, y);
  }

  /** The bit count, cut to eight bytes, is the two halves of the counter, the low one times 8. */
  lemma LengthOfCounter(lo: int, hi: int, n: nat)
    requires Counts(lo, hi, n)
    ensures LengthBytes(8 * n) == HalfBytes(lo * 8 % 0x1_0000_0000) + HalfBytes(hi)
  {
    hide LengthBytes, HalfBytes;
    var k := n / 0x2000_0000_0000_0000;
    assert 8 * n == lo * 8 + 0x1_0000_0000 * (hi + 0x1_0000_0000 * k);
    LengthHalves(lo * 8, hi + 0x1_0000_0000 * k);
    HalfWraps(hi, k);
  }

  /** The four stores that put one half of the counter into the buffer. */
  function HalfBytes(x: nat): (s: seq<byte>)
    ensures |s| == 4
  {
    [ToByte(x % 256), ToByte(x / 0x100 % 256), ToByte(x / 0x1_0000 % 256), ToByte(x / 0x100_0000 % 256)]
  }

  lemma BlockAt(q: Chain, data: seq<byte>, ptr: nat)
    requires ptr < |data| && |data| % 64 == 0 && ptr % 64 == 0
    ensures HashBlocks(q, data[ptr..]) == HashBlocks(Compress(q, data[ptr..ptr + 64]), data[ptr + 64..])
  {
    assert data[ptr..][..64] == data[ptr..ptr + 64] && data[ptr..][64..] == data[ptr + 64..];
  }

  lemma EmptyHash(m: seq<byte>)
    requires m == []
    ensures forall q :: HashBlocks(q, m) == q
  {
  }

  /** memcpy into a buffer. */
  method CopyInto(buffer: array<byte>, at: nat, src: seq<byte>)
    requires at + |src| <= buffer.Length
    modifies buffer
    ensures buffer[..] == old(buffer[..at]) + src + old(buffer[at + |src|..])
  {
    forall i | 0 <= i < |src| {
      buffer[at + i] := src[i];
    }
  }

  class Context {
    var lo: uint32
    var hi: uint32
    var a: bv32
    var b: bv32
    var c: bv32
    var d: bv32
    const buffer: array<byte>

    ghost var message: seq<byte>  // all the bytes so far, in however many pieces they came

    ghost predicate Valid()
      reads this, buffer
    {
      && Counts(lo, hi, |message|)
      && Buffered(Whole(message), Rest(message))
    }

    /** The blocks w have gone into the registers, and the bytes r wait in the buffer. */
    ghost predicate Buffered(w: seq<byte>, r: seq<byte>)
      reads this, buffer
    {
      && buffer.Length == 64 && |w| % 64 == 0 && |r| < 64
      && Registers() == HashBlocks(INITIAL, w)
      && buffer[..|r|] == r
    }

    ghost function Registers(): Chain
      reads this
    {
      Chain(a, b, c, d)
    }

    constructor ()
      ensures Valid() && message == [] && fresh(buffer)
    {
      a, b, c, d := 0x67452301, 0xefcdab89, 0x98badcfe, 0x10325476;
      lo, hi := 0, 0;
      buffer := new byte[64];
      message := [];
    }

    /** The loop of body runs at least once: it is only called on one or more whole blocks. */
    method Body(data: seq<byte>)
      requires |data| > 0 && |data| % 64 == 0
      modifies `a, `b, `c, `d
      ensures Registers() == HashBlocks(old(Registers()), data)
    {
      hide HashBlocks, Compress;
      var ptr := 0;
      EmptyHash(data[|data|..]);
      while ptr < |data|
        invariant 0 <= ptr <= |data| && ptr % 64 == 0
        invariant HashBlocks(Registers(), data[ptr..]) == HashBlocks(old(Registers()), data)
      {
        BlockAt(Registers(), data, ptr);
        var r := Transform(Chain(a, b, c, d), data[ptr..ptr + 64]);
        a, b, c, d := r.a, r.b, r.c, r.d;
        ptr := ptr + 64;
      }
    }

    method Count(size: nat, ghost n: nat)
      requires Counts(lo, hi, n) && size < 0x1_0000_0000_0000_0000
      modifies `lo, `hi
      ensures Counts(lo, hi, n + size)
    {
      var saved_lo := lo;
      lo := (saved_lo + size) % 0x1_0000_0000_0000_0000 % 0x2000_0000;
      if lo < saved_lo {
        hi := (hi + 1) % 0x1_0000_0000;
      }
      hi := (hi + size / 0x2000_0000) % 0x1_0000_0000;
      CountsMore(saved_lo, old(hi), lo, hi, n, size);
    }

    /** The buffering of update: fill up and process the partial block, process the whole blocks of
        what remains, and keep the leftover. */
    method Absorb(used: nat, data: seq<byte>, ghost w: seq<byte>, ghost r: seq<byte>)
      returns (ghost w': seq<byte>, ghost r': seq<byte>)
      requires Buffered(w, r) && used == |r|
      modifies `a, `b, `c, `d, buffer
      ensures Buffered(w', r') && w' + r' == w + r + data
    {
      hide HashBlocks, Counts;
      var rest := data;
      w' := w;
      if used != 0 {
        var free := 64 - used;
        if |data| < free {
          CopyInto(buffer, used, data);
          r' := r + data;
          assert buffer[..|r'|] == r';
          assert w + r + data == w + (r + data);
          return;
        }
        CopyInto(buffer, used, data[..free]);
        assert buffer[..] == r + data[..free];
        rest := data[free..];
        Body(buffer[..]);
        w' := w + (r + data[..free]);
        HashBlocksAppend(INITIAL, w, r + data[..free]);
      }
      assert w' + rest == w + r + data;
      w', r' := AbsorbBlocks(rest, w');
    }

    method AbsorbBlocks(data: seq<byte>, ghost w: seq<byte>) returns (ghost w': seq<byte>, ghost r': seq<byte>)
      requires Buffered(w, [])
      modifies `a, `b, `c, `d, buffer
      ensures Buffered(w', r') && w' + r' == w + data
    {
      hide HashBlocks;
      var blocks := |data| - |data| % 64;
      w', r' := w + data[..blocks], data[blocks..];
      assert w' + r' == w + (data[..blocks] + data[blocks..]);
      assert data[..blocks] + data[blocks..] == data;
      if |data| >= 64 {
        Body(data[..blocks]);
        HashBlocksAppend(INITIAL, w, data[..blocks]);
      } else {
        assert w' == w;
      }
      CopyInto(buffer, 0, data[blocks..]);
      assert buffer[..|r'|] == r';
    }

    /** Any number of bytes, however they meet the block boundaries. */
    method Update(data: seq<byte>)
      requires Valid() && |data| < 0x1_0000_0000_0000_0000
      modifies this, buffer
      ensures Valid() && message == old(message) + data
    {
      hide HashBlocks, Counts, Whole, Rest;
      var used := lo % 64;
      LowBits(lo, hi, |message|);
      Split(message);
      Count(|data|, |message|);
      ghost var w, r := Absorb(used, data, Whole(message), Rest(message));
      message := message + data;
      SplitIsUnique(message, w, r);
    }

    /** Final's padding: the byte 0x80 and zeros, closing a block first if it has no room for the length. */
    method PadOut() returns (ghost w: seq<byte>, ghost t: seq<byte>)
      requires Valid()
      modifies `a, `b, `c, `d, buffer
      ensures |w| % 64 == 0 && Registers() == HashBlocks(INITIAL, w)
      ensures |t| == 56 && buffer[..56] == t
      ensures w + t == message + ([0x80] + Zeros(ZeroCount(|message|)))
    {
      hide HashBlocks, Counts, Whole, Rest;
      LowBits(lo, hi, |message|);
      Split(message);
      var used := lo % 64;
      w, t := Whole(message), Rest(message) + [0x80];
      buffer[used] := 0x80;
      used := used + 1;
      assert buffer[..used] == t;
      assert w + t == message + [0x80];
      var free := 64 - used;
      ghost var extra := 0;
      if free < 8 {
        extra := free;
        w := CloseBlock(used, w, t);
        t := [];
        used := 0;
        free := 64;
      }
      CopyInto(buffer, used, Zeros(free - 8));
      t := t + Zeros(free - 8);
      assert buffer[..56] == t;
      ZerosAdd(extra, free - 8);
      assert extra + (free - 8) == ZeroCount(|message|);
    }

    method CloseBlock(used: nat, ghost w: seq<byte>, ghost t: seq<byte>) returns (ghost w': seq<byte>)
      requires buffer.Length == 64 && |w| % 64 == 0 && Registers() == HashBlocks(INITIAL, w)
      requires used == |t| <= 64 && buffer[..used] == t
      modifies `a, `b, `c, `d, buffer
      ensures |w'| % 64 == 0 && Registers() == HashBlocks(INITIAL, w')
      ensures w' == w + t + Zeros(64 - used)
    {
      hide HashBlocks;
      CopyInto(buffer, used, Zeros(64 - used));
      assert buffer[..] == t + Zeros(64 - used);
      Body(buffer[..]);
      HashBlocksAppend(INITIAL, w, t + Zeros(64 - used));
      w' := w + (t + Zeros(64 - used));
    }

    /** The eight bytes that the two halves of the counter make are the bit count modulo 2^64. */
    method StoreLength()
      requires Counts(lo, hi, |message|) && buffer.Length == 64
      modifies `lo, buffer
      ensures buffer[..] == old(buffer[..56]) + LengthBytes(8 * |message|)
    {
      hide LengthBytes, HalfBytes;
      LengthOfCounter(lo, hi, |message|);
      lo := lo * 8 % 0x1_0000_0000;
      CopyInto(buffer, 56, HalfBytes(lo));
      CopyInto(buffer, 60, HalfBytes(hi));
    }

    /** Writes the digest of everything the context has been fed, and wipes the context. */
    method Final(result: array<byte>)
      requires Valid() && result.Length >= 16 && result != buffer
      modifies this, buffer, result
      ensures result[..16] == Digest(old(message)) && result[16..] == old(result[16..])
      ensures lo == hi == 0 && Registers() == Chain(0, 0, 0, 0) && buffer[..] == Zeros(64)
    {
      hide HashBlocks, Counts, LengthBytes, Pad, Zeros, ZeroCount, WordBytes;
      ghost var w, t := PadOut();
      StoreLength();
      assert buffer[..] == t + LengthBytes(8 * |message|);
      HashBlocksAppend(INITIAL, w, buffer[..]);
      PadInParts(message, w, t);
      Body(buffer[..]);
      CopyInto(result, 0, WordBytes(a) + WordBytes(b) + WordBytes(c) + WordBytes(d));
      lo, hi, a, b, c, d := 0, 0, 0, 0, 0, 0;
      CopyInto(buffer, 0, Zeros(64));
    }
  }

  function Concat(pieces: seq<seq<byte>>): seq<byte> {
    if pieces == [] then [] else pieces[0] + Concat(pieces[1..])
  }

  /** A message handed over in any number of pieces: the digest depends on the pieces only through
      their concatenation. */
  method DigestOfPieces(pieces: seq<seq<byte>>, result: array<byte>)
    requires result.Length >= 16 && forall p <- pieces :: |p| < 0x1_0000_0000_0000_0000
    modifies result
    ensures result[..16] == Digest(Concat(pieces))
  {
    hide Context.Valid, Digest;
    var ctx := new Context();
    for i := 0 to |pieces|
      invariant ctx.Valid() && fresh(ctx) && fresh(ctx.buffer)
      invariant ctx.message + Concat(pieces[i..]) == Concat(pieces)
    {
      ctx.Update(pieces[i]);
    }
    assert ctx.message == Concat(pieces);
    ctx.Final(result);
  }

  /** md5_signature. */
  method Signature(key: seq<byte>, result: array<byte>)
    requires result.Length >= 16 && |key| < 0x1_0000_0000_0000_0000
    modifies result
    ensures result[..16] == Digest(key)
  {
    var ctx := new Context();
    ctx.Update(key);
    assert ctx.message == key;
    ctx.Final(result);
  }

  /** hash_md5: the first word of the digest. */
  method HashMd5(key: seq<byte>) returns (h: bv32)
    requires |key| < 0x1_0000_0000_0000_0000
    ensures h == Word(Digest(key), 0)
  {
    var results := new byte[16];
    Signature(key, results);
    h := Le32(results[0], results[1], results[2], results[3]);
    assert results[0] == results[..16][0] && results[1] == results[..16][1];
    assert results[2] == results[..16][2] && results[3] == results[..16][3];
  }
}
