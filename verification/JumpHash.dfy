/** hashkit.c: hash_jump_consistent. The walk of a key visits a strictly increasing sequence of
    bucket numbers that does not depend on how many buckets there are; the hash is the last of them
    that is still a bucket. */
module JumpHash {

  type uint64 = x: int | 0 <= x < 0x1_0000_0000_0000_0000

  /** The length of a jump, from bucket b on the draw k: computed in doubles by the program, and
      used here only through its leading at least one bucket further. */
  type Leap = f: (nat, nat) -> nat | forall b: nat, k: nat :: f(b, k) > b witness (b: nat, k: nat) => b + 1

  /** The jump without rounding: the integer part of (b + 1) * 2^31 / k, for a draw k of 1 to 2^31. */
  function ExactLeap(b: nat, k: nat): (j: nat)
    ensures j > b
    ensures b < 0x7fff_ffff && 1 <= k <= 0x8000_0000 ==> j < 0x4000_0000_0000_0000
  {
    if 1 <= k <= 0x8000_0000 then
      LeapIsForward(b, k);
      (b + 1) * 0x8000_0000 / k
    else b + 1
  }

  lemma LeapIsForward(b: nat, k: nat)
    requires 1 <= k <= 0x8000_0000
    ensures (b + 1) * 0x8000_0000 / k > b
    ensures b < 0x7fff_ffff ==> (b + 1) * 0x8000_0000 / k < 0x4000_0000_0000_0000
  {
    MultiplyGrows(b + 1, k, 0x8000_0000);
    QuotientBounds((b + 1) * 0x8000_0000, k, b + 1);
  }

  lemma MultiplyGrows(x: nat, k: nat, l: nat)
    requires k <= l
    ensures x * k <= x * l
  {
  }

  lemma QuotientBounds(n: nat, k: nat, x: nat)
    requires k >= 1 && x * k <= n
    ensures x <= n / k <= n
  {
    var q := n / k;
    assert n < q * k + k;
    if q < x {
      MultiplyGrows(k, q + 1, x);
    }
    MultiplyGrows(q, 1, k);
  }

  /** The jump leads to n or beyond exactly if n is at most the quotient. */
  lemma LeapIsQuotient(b: nat, k: nat, n: nat)
    requires 1 <= k <= 0x8000_0000
    ensures ExactLeap(b, k) >= n <==> n * k <= (b + 1) * 0x8000_0000
  {
    var x, q := (b + 1) * 0x8000_0000, ExactLeap(b, k);
    DivisionLeaves(x, k);
    if n <= q {
      MultiplyGrows(k, n, q);
    } else {
      MultiplyGrows(k, q + 1, n);
    }
  }

  lemma DivisionLeaves(x: nat, k: nat)
    requires k >= 1
    ensures x / k * k <= x < (x / k + 1) * k
  {
  }

  function UpTo(m: nat): (s: set<nat>)
    ensures forall k :: k in s <==> 1 <= k <= m
  {
    if m == 0 then {} else UpTo(m - 1) + {m}
  }

  lemma {:induction false} SizeUpTo(m: nat)
    ensures |UpTo(m)| == m
  {
    if m > 0 {
      var s := UpTo(m - 1);
      assert UpTo(m) == s + {m} && m !in s;
      hide UpTo;
      SizeUpTo(m - 1);
    }
  }

  /** The draws on which a jump from b leads to n or beyond. */
  ghost function DrawsBeyond(b: nat, n: nat): set<nat> {
    set k | k in UpTo(0x8000_0000) && ExactLeap(b, k) >= n
  }

  /** They are the part (b + 1) / n of the 2^31 draws, rounded down to whole draws. That is the chance with
      which a key that comes to bucket b stays there among n, and what makes all n equally full. */
  lemma DrawsBeyondCount(b: nat, n: nat)
    requires n > b
    ensures |DrawsBeyond(b, n)| == (b + 1) * 0x8000_0000 / n
  {
    var x := (b + 1) * 0x8000_0000;
    var m := x / n;
    DivisionLeaves(x, n);
    MultiplyGrows(0x8000_0000, b + 1, n);
    QuotientAtMost(x, n);
    forall k ensures k in DrawsBeyond(b, n) <==> k in UpTo(m) {
      if 1 <= k <= 0x8000_0000 {
        LeapIsQuotient(b, k, n);
        AtMostQuotient(x, n, k);
      }
    }
    assert DrawsBeyond(b, n) == UpTo(m);
    SizeUpTo(m);
  }

  lemma AtMostQuotient(x: nat, n: nat, k: nat)
    requires n >= 1
    ensures n * k <= x <==> k <= x / n
  {
    DivisionLeaves(x, n);
    if k <= x / n {
      MultiplyGrows(n, k, x / n);
    } else {
      MultiplyGrows(n, x / n + 1, k);
    }
  }

  lemma QuotientAtMost(x: nat, n: nat)
    requires n >= 1 && x <= n * 0x8000_0000
    ensures x / n <= 0x8000_0000
  {
    AtMostQuotient(x, n, 0x8000_0001);
  }

  /** The exact jump as a leap. */
  const EXACT: Leap := (b: nat, k: nat) => ExactLeap(b, k)

  function NextKey(key: uint64): uint64 {
    (key * 2862933555777941757 + 1) % 0x1_0000_0000_0000_0000
  }

  function Draw(key: uint64): (k: nat)
    ensures 1 <= k <= 0x8000_0000
  {
    key / 0x2_0000_0000 + 1
  }

  function KeyAt(key: uint64, i: nat): uint64 {
    if i == 0 then key else NextKey(KeyAt(key, i - 1))
  }

  /** What is drawn at each jump of a walk. The laws of the walk hold for any draws. */
  type Draws = nat -> nat

  /** The draws of a key. */
  function DrawsOf(key: uint64): Draws {
    (i: nat) => Draw(KeyAt(key, i))
  }

  /** The i-th bucket number of the walk. */
  function Visit(f: Leap, draws: Draws, i: nat): nat {
    if i == 0 then 0 else f(Visit(f, draws, i - 1), draws(i))
  }

  /** r is the last visited number that is one of n buckets. */
  ghost predicate IsBucket(f: Leap, draws: Draws, n: int, r: nat) {
    exists i: nat :: r == Visit(f, draws, i) && r < n <= Visit(f, draws, i + 1)
  }

  lemma VisitForward(f: Leap, draws: Draws, i: nat)
    ensures Visit(f, draws, i) < Visit(f, draws, i + 1)
  {
  }

  lemma {:induction false} VisitsIncrease(f: Leap, draws: Draws, i: nat, j: nat)
    requires i < j
    ensures Visit(f, draws, i) < Visit(f, draws, j)
  {
    hide Visit;
    if i + 1 < j {
      VisitsIncrease(f, draws, i, j - 1);
    }
    VisitForward(f, draws, j - 1);
  }

  /** There is exactly one such number. */
  lemma BucketIsUnique(f: Leap, draws: Draws, n: int, r: nat, s: nat)
    requires IsBucket(f, draws, n, r) && IsBucket(f, draws, n, s)
    ensures r == s
  {
    MinimalMovement(f, draws, n, n, r, s);
  }

  /** With more buckets a key stays where it was, or goes to one of the new buckets. */
  lemma MinimalMovement(f: Leap, draws: Draws, n: int, m: int, r: nat, s: nat)
    requires n <= m && IsBucket(f, draws, n, r) && IsBucket(f, draws, m, s)
    ensures r <= s
    ensures s < n ==> s == r
  {
    hide Visit;
    var i: nat :| r == Visit(f, draws, i) && r < n <= Visit(f, draws, i + 1);
    var j: nat :| s == Visit(f, draws, j) && s < m <= Visit(f, draws, j + 1);
    if j < i {
      if j + 1 < i {
        VisitsIncrease(f, draws, j + 1, i);
      }
    } else if i < j {
      VisitsIncrease(f, draws, i, j);
      if i + 1 < j {
        VisitsIncrease(f, draws, i + 1, j);
      }
    }
  }

  /** There is such a number: the walk cannot stay below n for ever. */
  lemma {:induction false} BucketExists(f: Leap, draws: Draws, n: nat, i: nat)
    requires Visit(f, draws, i) < n
    ensures exists r: nat :: IsBucket(f, draws, n, r)
    decreases n - Visit(f, draws, i)
  {
    VisitForward(f, draws, i);
    if Visit(f, draws, i + 1) < n {
      BucketExists(f, draws, n, i + 1);
    } else {
      assert IsBucket(f, draws, n, Visit(f, draws, i));
    }
  }

  /** The bucket of a key among n. */
  ghost function Bucket(f: Leap, draws: Draws, n: nat): (r: nat)
    requires n >= 1
    ensures r < n && IsBucket(f, draws, n, r)
  {
    BucketExists(f, draws, n, 0);
    var r: nat :| IsBucket(f, draws, n, r);
    r
  }

  /** So growing from n to m buckets moves a key to one of the buckets from n on, or not at all. */
  lemma GrowingMovesToNewBuckets(f: Leap, draws: Draws, n: nat, m: nat)
    requires 1 <= n <= m
    ensures Bucket(f, draws, m) < n ==> Bucket(f, draws, m) == Bucket(f, draws, n)
    ensures Bucket(f, draws, n) <= Bucket(f, draws, m)
  {
    MinimalMovement(f, draws, n, m, Bucket(f, draws, n), Bucket(f, draws, m));
  }

  /** One more bucket takes keys only from their old places to itself. */
  lemma OneMoreBucket(f: Leap, draws: Draws, n: int, r: nat, s: nat)
    requires IsBucket(f, draws, n, r) && IsBucket(f, draws, n + 1, s)
    ensures s == r || s == n
  {
    MinimalMovement(f, draws, n, n + 1, r, s);
    var j: nat :| s == Visit(f, draws, j) && s < n + 1 <= Visit(f, draws, j + 1);
  }

  /** A leap that is the quotient, up to one part in 2^51 and the fraction cut off. The division and the
      multiplication in doubles are each exact up to one part in 2^53. */
  ghost predicate IsNear(f: Leap) {
    forall b: nat, k: nat | 1 <= k <= 0x8000_0000 ::
      && f(b, k) * k * 0x8_0000_0000_0000 <= (b + 1) * 0x8000_0000 * 0x8_0000_0000_0001
      && (b + 1) * 0x8000_0000 * 0x7_ffff_ffff_ffff <= (f(b, k) + 1) * k * 0x8_0000_0000_0000
  }

  lemma OneStepIsNotNear(f: Leap)
    requires f(0, 1) == 1
    ensures !IsNear(f)
  {
  }

  lemma ExactIsNear()
    ensures IsNear(EXACT)
  {
    forall b: nat, k: nat | 1 <= k <= 0x8000_0000
      ensures EXACT(b, k) * k * 0x8_0000_0000_0000 <= (b + 1) * 0x8000_0000 * 0x8_0000_0000_0001
      ensures (b + 1) * 0x8000_0000 * 0x7_ffff_ffff_ffff <= (EXACT(b, k) + 1) * k * 0x8_0000_0000_0000
    {
      DivisionLeaves((b + 1) * 0x8000_0000, k);
    }
  }

  /** Then no number the walk computes for a 32-bit count of buckets reaches 2^62. */
  lemma VisitsFit(f: Leap, draws: Draws, n: int, i: nat)
    requires IsNear(f) && 1 <= draws(i + 1) <= 0x8000_0000
    requires n <= 0x7fff_ffff && Visit(f, draws, i) < n
    ensures Visit(f, draws, i + 1) < 0x4000_0000_0000_0000
  {
    LeapFits(f, Visit(f, draws, i), draws(i + 1));
  }

  lemma LeapFits(f: Leap, b: nat, k: nat)
    requires IsNear(f) && b < 0x7fff_ffff && 1 <= k <= 0x8000_0000
    ensures f(b, k) < 0x4000_0000_0000_0000
  {
    assert f(b, k) * k * 0x8_0000_0000_0000 <= (b + 1) * 0x8000_0000 * 0x8_0000_0000_0001;
    MultiplyGrows(f(b, k), 1, k);
  }

  /** The walk of a key, jump by jump. */
  lemma NextVisit(f: Leap, key: uint64, i: nat)
    ensures KeyAt(key, 0) == key && Visit(f, DrawsOf(key), 0) == 0
    ensures KeyAt(key, i + 1) == NextKey(KeyAt(key, i))
    ensures Visit(f, DrawsOf(key), i + 1) == f(Visit(f, DrawsOf(key), i), Draw(NextKey(KeyAt(key, i))))
  {
    hide NextKey, Draw;
  }

  /** For at least one bucket the hash is the key's bucket; for none or fewer it is 1. */
  method HashJumpConsistent(f: Leap, key: uint64, numBuckets: int) returns (value: int)
    ensures numBuckets >= 1 ==> 0 <= value < numBuckets && value == Bucket(f, DrawsOf(key), numBuckets)
    ensures numBuckets <= 0 ==> value == 1
  {
    hide Visit, KeyAt, NextKey, Draw, DrawsOf;
    var b, j, k := -1, 0, key;
    ghost var i: nat, draws := 0, DrawsOf(key);
    NextVisit(f, key, 0);
    while j < numBuckets
      invariant j == Visit(f, draws, i) && k == KeyAt(key, i)
      invariant b == if i == 0 then -1 else Visit(f, draws, i - 1)
      invariant i > 0 ==> b < numBuckets
      decreases numBuckets - j
    {
      NextVisit(f, key, i);
      b := j;
      k := NextKey(k);
      j := f(b, Draw(k));
      i := i + 1;
    }
    value := if b < 0 then -b - 1 + 1 else b;
    if numBuckets >= 1 {
      assert IsBucket(f, draws, numBuckets, value) by {
        assert Visit(f, draws, (i - 1) + 1) == j;
      }
      BucketIsUnique(f, draws, numBuckets, value, Bucket(f, draws, numBuckets));
    }
  }

  // ----- known answers -----

  lemma ThreeKeys()
    ensures var key := 10863919174838991;
            && NextKey(key) == 15338245430585482900 && NextKey(15338245430585482900) == 5933173489119344709
            && NextKey(5933173489119344709) == 8788550385278913586
    ensures Draw(15338245430585482900) == 1785606779 && Draw(5933173489119344709) == 690712302
    ensures Draw(8788550385278913586) == 1023121922
    ensures ExactLeap(0, 1785606779) == 1 && ExactLeap(1, 690712302) == 6 && ExactLeap(6, 1023121922) == 14
  {
  }

  /** A key that jumps to 1, to 6 and to 14 is in bucket 6 of 11. */
  lemma KnownBucket()
    ensures Bucket(EXACT, DrawsOf(10863919174838991), 11) == 6
  {
    var key: uint64 := 10863919174838991;
    hide NextKey, Draw, ExactLeap, KeyAt, Visit, DrawsOf;
    ThreeKeys();
    NextVisit(EXACT, key, 0);
    NextVisit(EXACT, key, 1);
    NextVisit(EXACT, key, 2);
    assert Visit(EXACT, DrawsOf(key), 2) == 6 && Visit(EXACT, DrawsOf(key), 2 + 1) == 14;
    BucketIsUnique(EXACT, DrawsOf(key), 11, 6, Bucket(EXACT, DrawsOf(key), 11));
  }

  lemma FirstBucket()
    ensures Bucket(EXACT, DrawsOf(0), 10) == 0
  {
    hide KeyAt, Visit, DrawsOf;
    NextVisit(EXACT, 0, 0);
    assert NextKey(0) == 1 && Draw(1) == 1 && ExactLeap(0, 1) == 0x8000_0000;
    assert Visit(EXACT, DrawsOf(0), 0 + 1) == 0x8000_0000;
    BucketIsUnique(EXACT, DrawsOf(0), 10, 0, Bucket(EXACT, DrawsOf(0), 10));
  }
}
