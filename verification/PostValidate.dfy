/** conf.c: the defaults and the checks for duplicates after parsing. qsort may leave pools that
    compare equal in any order, so every result here holds for any outcome of sorting. */
module PostValidate {
  import opened ArrayStack
  import opened ParserSpec
  import opened Text

  const DEFAULT_TIMEOUT := -1
  const DEFAULT_LISTEN_BACKLOG := 512
  const DEFAULT_PORT := 5432

  function Defaults(p: Pool): Pool {
    p.(timeout := if p.timeout == UNSET then DEFAULT_TIMEOUT else p.timeout,
    backlog := if p.backlog == UNSET then DEFAULT_LISTEN_BACKLOG else p.backlog,
    port := if p.port == UNSET then DEFAULT_PORT else p.port)
  }

  function AllDefaults(s: seq<Pool>): (r: seq<Pool>)
    ensures |r| == |s|
  {
    seq(|s|, i requires 0 <= i < |s| => Defaults(s[i]))
  }

  function NameCmp(p: Pool, q: Pool): int {
    StringCompare(p.name, q.name)
  }

  function AddrCmp(p: Pool, q: Pool): int {
    StringCompare(p.addr, q.addr)
  }

  /** What qsort promises: the same elements, in order. */
  ghost predicate Sorts(t: seq<Pool>, s: seq<Pool>, cmp: (Pool, Pool) -> int) {
    multiset(t) == multiset(s) && Ordered(t, cmp)
  }

  ghost predicate Ordered(t: seq<Pool>, cmp: (Pool, Pool) -> int) {
    forall i, j | 0 <= i < j < |t| :: cmp(t[i], t[j]) <= 0
  }

  predicate SameListen(p: Pool, q: Pool) {
    AddrCmp(p, q) == 0 && p.port == q.port
  }

  predicate SameName(p: Pool, q: Pool) {
    NameCmp(p, q) == 0
  }

  /** What the two loops look at: neighbours only. */
  ghost predicate Apart(s: seq<Pool>, same: (Pool, Pool) -> bool) {
    forall i | 0 <= i < |s| - 1 :: !same(s[i], s[i + 1])
  }

  /** What they are for: all pairs. */
  ghost predicate Distinct(s: seq<Pool>, same: (Pool, Pool) -> bool) {
    forall i, j | 0 <= i < j < |s| :: !same(s[i], s[j])
  }

  // ----- sorting keeps what does not depend on the order -----

  function Without(s: seq<Pool>, k: nat): seq<Pool>
    requires k < |s|
  {
    s[..k] + s[k + 1..]
  }

  lemma WithoutTakesOne(s: seq<Pool>, k: nat)
    requires k < |s|
    ensures multiset(Without(s, k)) == multiset(s) - multiset{s[k]}
  {
    assert s == s[..k] + [s[k]] + s[k + 1..];
  }

  lemma FindIn(x: Pool, t: seq<Pool>) returns (k: nat)
    requires x in multiset(t)
    ensures k < |t| && t[k] == x
  {
    k :| k < |t| && t[k] == x;
  }

  ghost predicate Symmetric(same: (Pool, Pool) -> bool) {
    forall p, q :: same(p, q) <==> same(q, p)
  }

  ghost predicate Meets(x: Pool, s: seq<Pool>, same: (Pool, Pool) -> bool) {
    exists i | 0 <= i < |s| :: same(x, s[i])
  }

  lemma MeetsPermuted(x: Pool, s: seq<Pool>, t: seq<Pool>, same: (Pool, Pool) -> bool)
    requires multiset(s) == multiset(t) && Meets(x, s, same)
    ensures Meets(x, t, same)
  {
    var i :| 0 <= i < |s| && same(x, s[i]);
    assert s[i] in multiset(s);
    var k := FindIn(s[i], t);
  }

  lemma WithoutAt(s: seq<Pool>, k: nat, i: nat)
    requires k < |s| && i < |s| - 1
    ensures Without(s, k)[i] == if i < k then s[i] else s[i + 1]
  {
  }

  lemma DistinctTakenOut(s: seq<Pool>, k: nat, same: (Pool, Pool) -> bool)
    requires k < |s| && Symmetric(same) && Distinct(s, same)
    ensures Distinct(Without(s, k), same) && !Meets(s[k], Without(s, k), same)
  {
    var r := Without(s, k);
    forall i | 0 <= i < |r| ensures !same(s[k], r[i]) {
      WithoutAt(s, k, i);
    }
    forall i, j | 0 <= i < j < |r| ensures !same(r[i], r[j]) {
      WithoutAt(s, k, i);
      WithoutAt(s, k, j);
    }
  }

  lemma DistinctPutIn(s: seq<Pool>, k: nat, same: (Pool, Pool) -> bool)
    requires k < |s| && Symmetric(same)
    requires Distinct(Without(s, k), same) && !Meets(s[k], Without(s, k), same)
    ensures Distinct(s, same)
  {
    var r := Without(s, k);
    forall i, j | 0 <= i < j < |s| ensures !same(s[i], s[j]) {
      if i != k { WithoutAt(s, k, if i < k then i else i - 1); }
      if j != k { WithoutAt(s, k, if j < k then j else j - 1); }
      if i == k {
        assert !same(s[k], r[j - 1]);
      } else if j == k {
        assert !same(s[k], r[i]);
      } else {
        assert !same(r[if i < k then i else i - 1], r[if j < k then j else j - 1]);
      }
    }
  }

  /** Any two arrangements of the same pools have the same duplicates. */
  lemma {:induction false} DistinctPermuted(s: seq<Pool>, t: seq<Pool>, same: (Pool, Pool) -> bool)
    requires multiset(s) == multiset(t) && Symmetric(same)
    ensures Distinct(s, same) <==> Distinct(t, same)
    decreases |s|
  {
    if s == [] {
      assert |multiset(t)| == 0;
    } else {
      var x := s[0];
      assert x in multiset(s);
      var k := FindIn(x, t);
      WithoutTakesOne(s, 0);
      WithoutTakesOne(t, k);
      var r, u := Without(s, 0), Without(t, k);
      DistinctPermuted(r, u, same);
      if Distinct(s, same) {
        DistinctTakenOut(s, 0, same);
        if Meets(x, u, same) {
          MeetsPermuted(x, u, r, same);
        }
        DistinctPutIn(t, k, same);
      }
      if Distinct(t, same) {
        DistinctTakenOut(t, k, same);
        if Meets(x, r, same) {
          MeetsPermuted(x, r, u, same);
        }
        DistinctPutIn(s, 0, same);
      }
    }
  }

  function Count(s: seq<Pool>, f: Pool -> bool): nat {
    if s == [] then 0 else (if f(s[0]) then 1 else 0) + Count(s[1..], f)
  }

  lemma {:induction false} CountAppend(s: seq<Pool>, t: seq<Pool>, f: Pool -> bool)
    ensures Count(s + t, f) == Count(s, f) + Count(t, f)
    decreases |s|
  {
    if s == [] {
      assert s + t == t;
    } else {
      assert (s + t)[1..] == s[1..] + t;
      CountAppend(s[1..], t, f);
    }
  }

  lemma CountWithout(s: seq<Pool>, k: nat, f: Pool -> bool)
    requires k < |s|
    ensures Count(s, f) == Count(Without(s, k), f) + (if f(s[k]) then 1 else 0)
  {
    assert s == s[..k] + s[k..] && s[k..][1..] == s[k + 1..];
    CountAppend(s[..k], s[k..], f);
    CountAppend(s[..k], s[k + 1..], f);
  }

  lemma {:induction false} CountPermuted(s: seq<Pool>, t: seq<Pool>, f: Pool -> bool)
    requires multiset(s) == multiset(t)
    ensures Count(s, f) == Count(t, f)
    decreases |s|
  {
    if s == [] {
      assert |multiset(t)| == 0;
    } else {
      var x := s[0];
      assert x in multiset(s);
      var k := FindIn(x, t);
      WithoutTakesOne(s, 0);
      WithoutTakesOne(t, k);
      CountWithout(s, 0, f);
      CountWithout(t, k, f);
      CountPermuted(Without(s, 0), Without(t, k), f);
    }
  }

  lemma {:induction false} CountNone(s: seq<Pool>, f: Pool -> bool)
    ensures Count(s, f) == 0 <==> forall i | 0 <= i < |s| :: !f(s[i])
  {
    if s != [] {
      CountNone(s[1..], f);
      assert forall i | 0 < i < |s| :: s[i] == s[1..][i - 1];
    }
  }

  lemma {:induction false} CountAll(s: seq<Pool>, f: Pool -> bool)
    ensures Count(s, f) <= |s|
    ensures Count(s, f) == |s| <==> forall i | 0 <= i < |s| :: f(s[i])
  {
    if s != [] {
      CountAll(s[1..], f);
      assert forall i | 0 < i < |s| :: s[i] == s[1..][i - 1];
    }
  }

  lemma CountTwo(s: seq<Pool>, f: Pool -> bool, i: nat, j: nat)
    requires i < j < |s| && f(s[i]) && f(s[j])
    ensures Count(s, f) >= 2
  {
    CountWithout(s, j, f);
    CountWithout(Without(s, j), i, f);
  }

  // ----- the pools can be sorted -----

  ghost predicate IsOrder(cmp: (Pool, Pool) -> int) {
    && (forall p, q :: cmp(p, q) <= 0 || cmp(q, p) <= 0)
    && (forall p, q, r :: cmp(p, q) <= 0 && cmp(q, r) <= 0 ==> cmp(p, r) <= 0)
  }

  function InsertSorted(p: Pool, s: seq<Pool>, cmp: (Pool, Pool) -> int): seq<Pool> {
    if s == [] || cmp(p, s[0]) <= 0 then [p] + s else [s[0]] + InsertSorted(p, s[1..], cmp)
  }

  /** One of the outcomes that qsort may have. */
  function Sorted(s: seq<Pool>, cmp: (Pool, Pool) -> int): seq<Pool> {
    if s == [] then [] else InsertSorted(s[0], Sorted(s[1..], cmp), cmp)
  }

  lemma {:induction false} InsertKeepsOrder(p: Pool, s: seq<Pool>, cmp: (Pool, Pool) -> int)
    requires IsOrder(cmp) && Ordered(s, cmp)
    ensures Sorts(InsertSorted(p, s, cmp), [p] + s, cmp)
  {
    hide IsOrder, Ordered;
    if s == [] || cmp(p, s[0]) <= 0 {
      OrderedBelow(p, s, cmp);
    } else {
      OneBeforeTheOther(p, s[0], cmp);
      TailOrdered(s, cmp);
      var rest := InsertSorted(p, s[1..], cmp);
      InsertKeepsOrder(p, s[1..], cmp);
      FirstThenSorted(s[0], p, s[1..], rest, cmp);
      FirstMovesBack(s, p, rest);
    }
  }

  lemma FirstMovesBack(s: seq<Pool>, p: Pool, rest: seq<Pool>)
    requires s != [] && multiset(rest) == multiset([p] + s[1..])
    ensures multiset([s[0]] + rest) == multiset([p] + s)
  {
    assert s == [s[0]] + s[1..];
    assert multiset([p] + s) == multiset([p]) + (multiset([s[0]]) + multiset(s[1..]));
  }

  lemma OneBeforeTheOther(p: Pool, q: Pool, cmp: (Pool, Pool) -> int)
    requires IsOrder(cmp)
    ensures cmp(p, q) <= 0 || cmp(q, p) <= 0
  {
  }

  lemma TailOrdered(s: seq<Pool>, cmp: (Pool, Pool) -> int)
    requires Ordered(s, cmp) && s != []
    ensures Ordered(s[1..], cmp) && forall i | 0 <= i < |s[1..]| :: cmp(s[0], s[1..][i]) <= 0
  {
    assert forall i | 0 <= i < |s[1..]| :: s[1..][i] == s[i + 1];
  }

  lemma OrderedBelow(p: Pool, s: seq<Pool>, cmp: (Pool, Pool) -> int)
    requires IsOrder(cmp) && Ordered(s, cmp) && (s == [] || cmp(p, s[0]) <= 0)
    ensures Ordered([p] + s, cmp)
  {
    var t := [p] + s;
    forall i, j | 0 <= i < j < |t| ensures cmp(t[i], t[j]) <= 0 {
      assert t[j] == s[j - 1];
      if i > 0 {
        assert t[i] == s[i - 1];
      } else if j > 1 {
        assert cmp(s[0], s[j - 1]) <= 0;
        assert cmp(p, s[0]) <= 0 && cmp(s[0], s[j - 1]) <= 0 ==> cmp(p, s[j - 1]) <= 0;
      }
    }
  }

  lemma FirstThenSorted(x: Pool, p: Pool, s: seq<Pool>, t: seq<Pool>, cmp: (Pool, Pool) -> int)
    requires Sorts(t, [p] + s, cmp) && cmp(x, p) <= 0
    requires forall i | 0 <= i < |s| :: cmp(x, s[i]) <= 0
    ensures Ordered([x] + t, cmp)
  {
    forall j | 0 <= j < |t| ensures cmp(x, t[j]) <= 0 {
      MemberOf(t[j], t, [p] + s);
    }
    var u := [x] + t;
    forall i, j | 0 <= i < j < |u| ensures cmp(u[i], u[j]) <= 0 {
      assert u[j] == t[j - 1];
      assert i > 0 ==> u[i] == t[i - 1];
    }
  }

  lemma {:induction false} SortedSorts(s: seq<Pool>, cmp: (Pool, Pool) -> int)
    requires IsOrder(cmp)
    ensures Sorts(Sorted(s, cmp), s, cmp)
  {
    if s != [] {
      SortedSorts(s[1..], cmp);
      InsertKeepsOrder(s[0], Sorted(s[1..], cmp), cmp);
      assert s == [s[0]] + s[1..];
    }
  }

  /** The two comparisons are orders, so that any pools can be sorted by them. */
  lemma BothAreOrders()
    ensures IsOrder(AddrCmp) && IsOrder(NameCmp)
  {
    forall p: Pool, q: Pool
      ensures AddrCmp(p, q) <= 0 || AddrCmp(q, p) <= 0
      ensures NameCmp(p, q) <= 0 || NameCmp(q, p) <= 0
    {
      CompareFlip(p.addr, q.addr);
      CompareFlip(p.name, q.name);
    }
    forall p: Pool, q: Pool, r: Pool
      ensures AddrCmp(p, q) <= 0 && AddrCmp(q, r) <= 0 ==> AddrCmp(p, r) <= 0
      ensures NameCmp(p, q) <= 0 && NameCmp(q, r) <= 0 ==> NameCmp(p, r) <= 0
    {
      if AddrCmp(p, q) <= 0 && AddrCmp(q, r) <= 0 { CompareTransitive(p.addr, q.addr, r.addr); }
      if NameCmp(p, q) <= 0 && NameCmp(q, r) <= 0 { CompareTransitive(p.name, q.name, r.name); }
    }
  }

  // ----- names -----

  lemma SameNameSymmetric()
    ensures Symmetric(SameName)
  {
    forall p, q ensures SameName(p, q) <==> SameName(q, p) {
      CompareFlip(p.name, q.name);
    }
  }

  lemma SameListenSymmetric()
    ensures Symmetric(SameListen)
  {
    forall p, q ensures SameListen(p, q) <==> SameListen(q, p) {
      CompareFlip(p.addr, q.addr);
    }
  }

  lemma CompareFlip(s: string, t: string)
    ensures StringCompare(s, t) == -StringCompare(t, s)
  {
    if |s| == |t| {
      StrncmpFlip(s, t);
    }
  }

  /** In any outcome of the sort, no two neighbours with the same name means no two pools with it. */
  lemma NamesDecided(s: seq<Pool>, byName: seq<Pool>)
    requires Sorts(byName, s, NameCmp)
    ensures Apart(byName, SameName) <==> Distinct(s, SameName)
  {
    SameNameSymmetric();
    DistinctPermuted(s, byName, SameName);
    if Apart(byName, SameName) {
      forall i, j | 0 <= i < j < |byName| ensures !SameName(byName[i], byName[j]) {
        assert !SameName(byName[i], byName[i + 1]);
        if i + 1 < j {
          assert NameCmp(byName[i], byName[i + 1]) <= 0 && NameCmp(byName[i + 1], byName[j]) <= 0;
          CompareTransitive(byName[i].name, byName[i + 1].name, byName[j].name);
        }
      }
    }
  }

  /** Without NUL in them, names are the same exactly if they are equal. */
  lemma DistinctNamesAreUnequal(s: seq<Pool>)
    requires forall i | 0 <= i < |s| :: NoNul(s[i].name)
    ensures Distinct(s, SameName) <==> forall i, j | 0 <= i < j < |s| :: s[i].name != s[j].name
  {
    forall i, j | 0 <= i < j < |s| ensures SameName(s[i], s[j]) <==> s[i].name == s[j].name {
      CompareZero(s[i].name, s[j].name);
    }
  }

  ghost predicate InOrderOfNames(s: seq<Pool>) {
    forall i, j | 0 <= i < j < |s| :: Precedes(s[i].name, s[j].name)
  }

  /** Sorted by name, pools of different names without NUL come in strict order: shorter names first,
      and names of one length by the first character that differs. */
  lemma SortedByName(s: seq<Pool>)
    requires Ordered(s, NameCmp) && Distinct(s, SameName) && forall i | 0 <= i < |s| :: NoNul(s[i].name)
    ensures InOrderOfNames(s)
  {
    forall i, j | 0 <= i < j < |s| ensures Precedes(s[i].name, s[j].name) {
      assert NameCmp(s[i], s[j]) <= 0 && !SameName(s[i], s[j]);
      CompareIsOrder(s[i].name, s[j].name);
    }
  }

  // ----- addresses and ports -----

  /** Without NUL in the addresses, two pools listen at the same place exactly if address and port are equal. */
  lemma SameListenIsEqual(p: Pool, q: Pool)
    requires NoNul(p.addr) || NoNul(q.addr)
    ensures SameListen(p, q) <==> p.addr == q.addr && p.port == q.port
  {
    CompareZero(p.addr, q.addr);
  }

  function AtAddr(p: Pool): Pool -> bool {
    (q: Pool) => AddrCmp(p, q) == 0
  }

  function ListensAt(p: Pool): Pool -> bool {
    (q: Pool) => SameListen(p, q)
  }

  /** No port is taken by more than half (rounded up) of the pools with its address: only beyond that
      must two of them be neighbours. */
  predicate Spread(s: seq<Pool>) {
    forall i | 0 <= i < |s| :: 2 * Count(s, ListensAt(s[i])) <= Count(s, AtAddr(s[i])) + 1
  }

  /** Pools without a duplicate always pass: the check refuses nothing it should accept. */
  lemma DistinctPasses(s: seq<Pool>, byAddr: seq<Pool>)
    requires Sorts(byAddr, s, AddrCmp) && Distinct(s, SameListen)
    ensures Apart(byAddr, SameListen)
  {
    SameListenSymmetric();
    DistinctPermuted(s, byAddr, SameListen);
  }

  /** Once the address has changed, it does not come back. */
  lemma AddrGone(s: seq<Pool>, p: Pool)
    requires Ordered(s, AddrCmp) && |s| >= 2 && AddrCmp(p, s[0]) == 0 && AddrCmp(p, s[1]) != 0
    ensures Count(s[1..], AtAddr(p)) == 0 && Count(s[1..], ListensAt(p)) == 0
  {
    forall i | 0 <= i < |s[1..]| ensures AddrCmp(p, s[1..][i]) != 0 {
      var a, b, c := s[0].addr, s[1].addr, s[i + 1].addr;
      CompareFlip(p.addr, a);
      if i == 0 {
      } else {
        assert AddrCmp(s[0], s[1]) <= 0 && AddrCmp(s[1], s[i + 1]) <= 0;
        CompareTransitive(p.addr, a, b);
        CompareTransitive(p.addr, b, c);
      }
    }
    CountNone(s[1..], AtAddr(p));
    CountNone(s[1..], ListensAt(p));
  }

  lemma {:induction false} PassedCounts(s: seq<Pool>, p: Pool)
    requires Ordered(s, AddrCmp) && Apart(s, SameListen)
    ensures 2 * Count(s, ListensAt(p)) <= Count(s, AtAddr(p)) + 1
    ensures s != [] && AddrCmp(p, s[0]) == 0 && p.port != s[0].port ==>
              2 * Count(s, ListensAt(p)) <= Count(s, AtAddr(p))
    decreases |s|
  {
    if s != [] {
      var r := s[1..];
      assert forall i | 0 <= i < |r| :: r[i] == s[i + 1];
      PassedCounts(r, p);
      if SameListen(p, s[0]) && r != [] {
        if AddrCmp(p, r[0]) == 0 {
          SameAddrTransitive(p, s[0], r[0]);
          assert !SameListen(s[0], s[0 + 1]);
        } else {
          AddrGone(s, p);
        }
      }
    }
  }

  lemma SameAddrTransitive(p: Pool, q: Pool, r: Pool)
    requires AddrCmp(p, q) == 0
    ensures AddrCmp(p, r) == 0 <==> AddrCmp(q, r) == 0
  {
    CompareFlip(p.addr, q.addr);
    if AddrCmp(q, r) == 0 {
      CompareTransitive(p.addr, q.addr, r.addr);
      CompareFlip(p.addr, r.addr);
      CompareFlip(q.addr, r.addr);
      CompareTransitive(r.addr, q.addr, p.addr);
    }
    if AddrCmp(p, r) == 0 {
      CompareTransitive(q.addr, p.addr, r.addr);
      CompareFlip(p.addr, r.addr);
      CompareFlip(q.addr, r.addr);
      CompareTransitive(r.addr, p.addr, q.addr);
    }
  }

  // ----- when a duplicate can pass -----

  lemma TwoPorts(s: seq<Pool>, p: Pool, q: Pool)
    requires !SameListen(p, q)
    ensures Count(s, ListensAt(p)) + Count(s, ListensAt(q)) <= |s|
  {
    if s != [] {
      TwoPorts(s[1..], p, q);
      if SameListen(p, s[0]) && SameListen(q, s[0]) {
        SameListenMeets(p, s[0], q);
        CompareFlip(q.addr, s[0].addr);
      }
    }
  }

  lemma SameListenMeets(p: Pool, x: Pool, q: Pool)
    requires SameListen(p, x)
    ensures SameListen(p, q) <==> SameListen(x, q)
    ensures SameListen(q, p) <==> SameListen(q, x)
  {
    SameAddrTransitive(p, x, q);
    CompareFlip(p.addr, q.addr);
    CompareFlip(x.addr, q.addr);
  }

  /** Same listen, same count. */
  lemma {:induction false} CountSame(s: seq<Pool>, p: Pool, q: Pool)
    requires SameListen(p, q)
    ensures Count(s, ListensAt(p)) == Count(s, ListensAt(q))
  {
    if s != [] {
      SameListenMeets(p, q, s[0]);
      CountSame(s[1..], p, q);
    }
  }

  lemma {:induction false} CountSameAddr(s: seq<Pool>, p: Pool, q: Pool)
    requires AddrCmp(p, q) == 0
    ensures Count(s, AtAddr(p)) == Count(s, AtAddr(q))
  {
    if s != [] {
      SameAddrTransitive(p, q, s[0]);
      CountSameAddr(s[1..], p, q);
    }
  }

  lemma SpreadAt(s: seq<Pool>, p: Pool)
    requires Spread(s)
    ensures 2 * Count(s, ListensAt(p)) <= Count(s, AtAddr(p)) + 1
  {
    if i :| 0 <= i < |s| && SameListen(p, s[i]) {
      CountSame(s, p, s[i]);
      CountSameAddr(s, p, s[i]);
    } else {
      CountNone(s, ListensAt(p));
    }
  }

  /** At most one pool more than half can be put apart; after a neighbour of the same port, half. */
  ghost predicate Room(s: seq<Pool>, last: Pool, bounded: bool) {
    && (forall p :: 2 * Count(s, ListensAt(p)) <= |s| + 1)
    && (bounded ==> 2 * Count(s, ListensAt(last)) <= |s|)
  }

  predicate Follows(x: Pool, last: Pool, bounded: bool) {
    !bounded || !SameListen(last, x)
  }

  /** The next pool: one whose port is taken by half of them or more, if there is one that may follow. */
  lemma NextPool(s: seq<Pool>, last: Pool, bounded: bool) returns (k: nat)
    requires s != [] && Room(s, last, bounded)
    ensures k < |s| && Follows(s[k], last, bounded)
    ensures 2 * Count(s, ListensAt(s[k])) >= |s| ||
            forall i | 0 <= i < |s| && Follows(s[i], last, bounded) :: 2 * Count(s, ListensAt(s[i])) < |s|
  {
    if i :| 0 <= i < |s| && Follows(s[i], last, bounded) && 2 * Count(s, ListensAt(s[i])) >= |s| {
      k := i;
    } else {
      CountAll(s, ListensAt(last));
      k :| k < |s| && Follows(s[k], last, bounded);
    }
  }

  lemma RoomLeft(s: seq<Pool>, last: Pool, bounded: bool, k: nat)
    requires Room(s, last, bounded) && k < |s| && Follows(s[k], last, bounded)
    requires 2 * Count(s, ListensAt(s[k])) >= |s| ||
             forall i | 0 <= i < |s| && Follows(s[i], last, bounded) :: 2 * Count(s, ListensAt(s[i])) < |s|
    ensures Room(Without(s, k), s[k], true)
  {
    var x, r := s[k], Without(s, k);
    CompareFlip(x.addr, x.addr);
    CountWithout(s, k, ListensAt(x));
    forall p ensures 2 * Count(r, ListensAt(p)) <= |r| + 1 {
      RoomLeftAt(s, last, bounded, k, p);
    }
  }

  lemma RoomLeftAt(s: seq<Pool>, last: Pool, bounded: bool, k: nat, p: Pool)
    requires Room(s, last, bounded) && k < |s| && Follows(s[k], last, bounded)
    requires 2 * Count(s, ListensAt(s[k])) >= |s| ||
             forall i | 0 <= i < |s| && Follows(s[i], last, bounded) :: 2 * Count(s, ListensAt(s[i])) < |s|
    ensures 2 * Count(Without(s, k), ListensAt(p)) <= |s|
  {
    CountWithout(s, k, ListensAt(p));
    var x := s[k];
    if SameListen(p, x) {
    } else if 2 * Count(s, ListensAt(x)) >= |s| {
      TwoPorts(s, p, x);
    } else if bounded && SameListen(last, p) {
      CountSame(s, last, p);
    } else if i :| 0 <= i < |s| && SameListen(p, s[i]) {
      CountSame(s, p, s[i]);
      SameListenMeets(p, s[i], last);
    } else {
      CountNone(s, ListensAt(p));
    }
  }

  /** Pools of one address, with no port taken by more than half of them (rounded up), can be put in an
      order without equal neighbours. */
  lemma {:induction false} Arrange(s: seq<Pool>, last: Pool, bounded: bool) returns (t: seq<Pool>)
    requires Room(s, last, bounded)
    ensures multiset(t) == multiset(s) && Apart(t, SameListen)
    ensures t != [] ==> Follows(t[0], last, bounded)
    decreases |s|
  {
    assert Apart([], SameListen);
    hide Room, Apart, SameListen, Count;
    if s == [] {
      t := [];
    } else {
      var k := NextPool(s, last, bounded);
      RoomLeft(s, last, bounded, k);
      WithoutTakesOne(s, k);
      var rest := Arrange(Without(s, k), s[k], true);
      t := [s[k]] + rest;
      PutBack(s, k, rest);
    }
  }

  lemma PutBack(s: seq<Pool>, k: nat, rest: seq<Pool>)
    requires k < |s| && multiset(rest) == multiset(s) - multiset{s[k]} && Apart(rest, SameListen)
    requires rest != [] ==> !SameListen(s[k], rest[0])
    ensures multiset([s[k]] + rest) == multiset(s) && Apart([s[k]] + rest, SameListen)
  {
    var t := [s[k]] + rest;
    assert s[k] in multiset(s);
    forall i | 0 <= i < |t| - 1 ensures !SameListen(t[i], t[i + 1]) {
      assert t[i + 1] == rest[i];
      if i > 0 {
        assert t[i] == rest[i - 1];
      }
    }
  }

  lemma FirstBlock(s: seq<Pool>) returns (m: nat)
    requires s != [] && Ordered(s, AddrCmp)
    ensures 1 <= m <= |s|
    ensures forall i | 0 <= i < m :: AddrCmp(s[0], s[i]) == 0
    ensures forall i | m <= i < |s| :: AddrCmp(s[0], s[i]) != 0
  {
    CompareFlip(s[0].addr, s[0].addr);
    m := 1;
    while m < |s| && AddrCmp(s[0], s[m]) == 0
      invariant 1 <= m <= |s|
      invariant forall i | 0 <= i < m :: AddrCmp(s[0], s[i]) == 0
    {
      m := m + 1;
    }
    forall i | m <= i < |s| ensures AddrCmp(s[0], s[i]) != 0 {
      if i != m {
        assert AddrCmp(s[0], s[m]) <= 0 && AddrCmp(s[m], s[i]) <= 0;
        CompareTransitive(s[0].addr, s[m].addr, s[i].addr);
      }
    }
  }

  lemma BlockCounts(b: seq<Pool>, r: seq<Pool>, x: Pool, p: Pool)
    requires forall i | 0 <= i < |b| :: AddrCmp(x, b[i]) == 0
    requires forall i | 0 <= i < |r| :: AddrCmp(x, r[i]) != 0
    requires 2 * Count(b + r, ListensAt(p)) <= Count(b + r, AtAddr(p)) + 1
    ensures 2 * Count(b, ListensAt(p)) <= |b| + 1
    ensures 2 * Count(r, ListensAt(p)) <= Count(r, AtAddr(p)) + 1
  {
    CountAppend(b, r, ListensAt(p));
    CountAppend(b, r, AtAddr(p));
    CompareFlip(x.addr, p.addr);
    if AddrCmp(p, x) == 0 {
      forall q ensures AddrCmp(p, q) == 0 <==> AddrCmp(x, q) == 0 {
        SameAddrTransitive(p, x, q);
      }
      CountNone(r, AtAddr(p));
      CountNone(r, ListensAt(p));
      CountAll(b, AtAddr(p));
    } else {
      forall i | 0 <= i < |b| ensures AddrCmp(p, b[i]) != 0 {
        SameAddrTransitive(x, b[i], p);
        CompareFlip(p.addr, b[i].addr);
      }
      CountNone(b, AtAddr(p));
      CountNone(b, ListensAt(p));
    }
  }

  lemma MemberOf(x: Pool, s: seq<Pool>, t: seq<Pool>)
    requires multiset(s) == multiset(t) && x in s
    ensures x in t
  {
    assert x in multiset(s);
  }

  /** Blocks of different addresses, each in any order, are in order together. */
  lemma BlocksOrdered(b: seq<Pool>, r: seq<Pool>, x: Pool, tb: seq<Pool>, tr: seq<Pool>)
    requires multiset(tb) == multiset(b) && multiset(tr) == multiset(r)
    requires Ordered(b + r, AddrCmp) && Ordered(tr, AddrCmp)
    requires forall i | 0 <= i < |b| :: AddrCmp(x, b[i]) == 0
    ensures Ordered(tb + tr, AddrCmp)
  {
    var t := tb + tr;
    forall i, j | 0 <= i < j < |t| ensures AddrCmp(t[i], t[j]) <= 0 {
      if i < |tb| {
        assert t[i] == tb[i];
        MemberOf(tb[i], tb, b);
        var k :| 0 <= k < |b| && b[k] == tb[i];
        if j < |tb| {
          assert t[j] == tb[j];
          MemberOf(tb[j], tb, b);
          var l :| 0 <= l < |b| && b[l] == tb[j];
          SameAddrTransitive(x, b[k], b[l]);
        } else {
          var y := tr[j - |tb|];
          assert t[j] == y;
          MemberOf(y, tr, r);
          var l :| 0 <= l < |r| && r[l] == y;
          assert (b + r)[k] == b[k] && (b + r)[|b| + l] == y;
        }
      } else {
        assert t[i] == tr[i - |tb|] && t[j] == tr[j - |tb|];
      }
    }
  }

  lemma BlocksApart(b: seq<Pool>, r: seq<Pool>, x: Pool, tb: seq<Pool>, tr: seq<Pool>)
    requires multiset(tb) == multiset(b) && multiset(tr) == multiset(r)
    requires Apart(tb, SameListen) && Apart(tr, SameListen)
    requires forall i | 0 <= i < |b| :: AddrCmp(x, b[i]) == 0
    requires forall i | 0 <= i < |r| :: AddrCmp(x, r[i]) != 0
    ensures Apart(tb + tr, SameListen)
  {
    var t := tb + tr;
    forall i | 0 <= i < |t| - 1 ensures !SameListen(t[i], t[i + 1]) {
      if i < |tb| - 1 {
        assert t[i] == tb[i] && t[i + 1] == tb[i + 1];
      } else if i == |tb| - 1 {
        MemberOf(tb[i], tb, b);
        MemberOf(tr[0], tr, r);
        assert t[i] == tb[i] && t[i + 1] == tr[0];
        SameAddrTransitive(x, tb[i], tr[0]);
      } else {
        assert t[i] == tr[i - |tb|] && t[i + 1] == tr[i + 1 - |tb|];
      }
    }
  }

  /** Then some outcome of the sort passes the check. */
  lemma {:induction false} SpreadOut(s: seq<Pool>) returns (t: seq<Pool>)
    requires Ordered(s, AddrCmp) && Spread(s)
    ensures Sorts(t, s, AddrCmp) && Apart(t, SameListen)
    decreases |s|
  {
    if s == [] {
      t := [];
    } else {
      var m := FirstBlock(s);
      var b, r := s[..m], s[m..];
      assert s == b + r;
      forall p
        ensures 2 * Count(b, ListensAt(p)) <= |b| + 1
        ensures 2 * Count(r, ListensAt(p)) <= Count(r, AtAddr(p)) + 1
      {
        SpreadAt(s, p);
        BlockCounts(b, r, s[0], p);
      }
      var tb := Arrange(b, s[0], false);
      assert Ordered(r, AddrCmp) by {
        assert forall i | 0 <= i < |r| :: r[i] == s[m + i];
      }
      var tr := SpreadOut(r);
      BlocksOrdered(b, r, s[0], tb, tr);
      BlocksApart(b, r, s[0], tb, tr);
      t := tb + tr;
    }
  }

  ghost predicate SomeOrderPasses(s: seq<Pool>) {
    exists t: seq<Pool> :: Sorts(t, s, AddrCmp) && Apart(t, SameListen)
  }

  /** The check on addresses and ports can be passed exactly if no port is too frequent at its address;
      whether there are duplicates does not matter. */
  lemma PassesIffSpread(s: seq<Pool>)
    ensures SomeOrderPasses(s) <==> Spread(s)
  {
    var sorted := Sorted(s, AddrCmp);
    BothAreOrders();
    SortedSorts(s, AddrCmp);
    if t: seq<Pool> :| Sorts(t, s, AddrCmp) && Apart(t, SameListen) {
      forall i | 0 <= i < |s| ensures 2 * Count(s, ListensAt(s[i])) <= Count(s, AtAddr(s[i])) + 1 {
        var p := s[i];
        PassedCounts(t, p);
        CountPermuted(s, t, ListensAt(p));
        CountPermuted(s, t, AtAddr(p));
      }
    }
    if Spread(s) {
      forall i | 0 <= i < |sorted|
        ensures 2 * Count(sorted, ListensAt(sorted[i])) <= Count(sorted, AtAddr(sorted[i])) + 1
      {
        var p := sorted[i];
        SpreadAt(s, p);
        CountPermuted(s, sorted, ListensAt(p));
        CountPermuted(s, sorted, AtAddr(p));
      }
      var t := SpreadOut(sorted);
    }
  }

  /** So the check is right about these pools, whatever the sort does, if and only if they have no
      duplicate or a port is too frequent at its address. */
  lemma RightIff(s: seq<Pool>)
    ensures (forall t: seq<Pool> | Sorts(t, s, AddrCmp) :: Apart(t, SameListen) <==> Distinct(s, SameListen))
       <==> Distinct(s, SameListen) || !Spread(s)
  {
    PassesIffSpread(s);
    if Distinct(s, SameListen) {
      forall t: seq<Pool> | Sorts(t, s, AddrCmp) ensures Apart(t, SameListen) {
        DistinctPasses(s, t);
      }
    }
  }

  /** With at most two pools at any address the check is right. */
  lemma RightForPairs(s: seq<Pool>, byAddr: seq<Pool>)
    requires Sorts(byAddr, s, AddrCmp) && forall p :: Count(s, AtAddr(p)) <= 2
    ensures Apart(byAddr, SameListen) <==> Distinct(s, SameListen)
  {
    if Distinct(s, SameListen) {
      DistinctPasses(s, byAddr);
    }
    if Apart(byAddr, SameListen) {
      assert SomeOrderPasses(s);
      PassesIffSpread(s);
      forall i, j | 0 <= i < j < |s| ensures !SameListen(s[i], s[j]) {
        assert 2 * Count(s, ListensAt(s[i])) <= Count(s, AtAddr(s[i])) + 1;
        if SameListen(s[i], s[j]) {
          CompareFlip(s[i].addr, s[i].addr);
          CountTwo(s, ListensAt(s[i]), i, j);
        }
      }
    }
  }

  /** With three it can be wrong: the first and the last of these listen at the same address and port. */
  lemma DuplicateCanPass(p: Pool, q: Pool)
    requires p.addr == q.addr && p.port != q.port
    ensures Sorts([p, q, p], [p, q, p], AddrCmp) && Apart([p, q, p], SameListen) && !Distinct([p, q, p], SameListen)
  {
    CompareFlip(p.addr, p.addr);
    var s := [p, q, p];
    assert SameListen(s[0], s[2]);
  }

  // ----- the methods -----

  /** conf_validate_pool, on the pool in the given slot. */
  method ValidatePool(pool: GrowArray<Pool>, slot: nat) returns (status: int)
    requires pool.Valid() && slot < pool.nelem && pool.Contents()[slot].name != ""
    modifies pool.elem
    ensures status == 0 && pool.Contents() == old(pool.Contents())[slot := Defaults(old(pool.Contents())[slot])]
  {
    var cp := pool.Get(slot);
    if cp.timeout == UNSET {
      cp := cp.(timeout := DEFAULT_TIMEOUT);
    }
    if cp.backlog == UNSET {
      cp := cp.(backlog := DEFAULT_LISTEN_BACKLOG);
    }
    if cp.port == UNSET {
      cp := cp.(port := DEFAULT_PORT);
    }
    pool.Write(slot, cp);
    status := 0;
  }

  method ValidatePools(pool: GrowArray<Pool>)
    requires pool.Valid() && forall i | 0 <= i < pool.nelem :: pool.Contents()[i].name != ""
    modifies pool.elem
    ensures pool.Contents() == AllDefaults(old(pool.Contents()))
  {
    hide Defaults;
    ghost var given := AllDefaults(pool.Contents());
    for i := 0 to pool.nelem
      invariant pool.Contents()[..i] == given[..i] && pool.Contents()[i..] == old(pool.Contents())[i..]
    {
      assert pool.Contents()[i] == old(pool.Contents())[i..][0];
      var _ := ValidatePool(pool, i);
    }
    assert pool.Contents() == given;
  }

  /** array_sort with an order: qsort leaves some outcome that sorts. */
  method Sort(pool: GrowArray<Pool>, ghost cmp: (Pool, Pool) -> int, outcome: seq<Pool>)
    requires pool.Valid() && Sorts(outcome, pool.Contents(), cmp)
    modifies pool.elem
    ensures pool.Contents() == outcome
  {
    assert |outcome| == |multiset(outcome)| == pool.nelem;
    for i := 0 to pool.nelem
      invariant pool.Valid() && pool.Contents()[..i] == outcome[..i]
    {
      pool.Write(i, outcome[i]);
    }
  }

  method ListenCheck(pool: GrowArray<Pool>) returns (valid: bool)
    requires pool.Valid() && pool.nelem > 0
    ensures valid <==> Apart(pool.Contents(), SameListen)
  {
    for i := 0 to pool.nelem - 1
      invariant forall k | 0 <= k < i :: !SameListen(pool.Contents()[k], pool.Contents()[k + 1])
    {
      var p1 := pool.Get(i);
      var p2 := pool.Get(i + 1);
      if StringCompare(p1.addr, p2.addr) == 0 && p1.port == p2.port {
        assert SameListen(pool.Contents()[i], pool.Contents()[i + 1]);
        return false;
      }
    }
    return true;
  }

  method NameCheck(pool: GrowArray<Pool>) returns (valid: bool)
    requires pool.Valid() && pool.nelem > 0
    ensures valid <==> Apart(pool.Contents(), SameName)
  {
    for i := 0 to pool.nelem - 1
      invariant forall k | 0 <= k < i :: !SameName(pool.Contents()[k], pool.Contents()[k + 1])
    {
      var p1 := pool.Get(i);
      var p2 := pool.Get(i + 1);
      if StringCompare(p1.name, p2.name) == 0 {
        assert SameName(pool.Contents()[i], pool.Contents()[i + 1]);
        return false;
      }
    }
    return true;
  }

  /** conf_post_validate, for any outcomes of its two sorts. It succeeds if and only if there are pools,
      no two of them have the same name, and no two neighbours in the first outcome listen at the same
      address and port; then all pools are there, with their defaults, ordered by name. */
  method PostValidate(pool: GrowArray<Pool>, byAddr: seq<Pool>, byName: seq<Pool>) returns (status: int)
    requires pool.Valid() && forall i | 0 <= i < pool.nelem :: pool.Contents()[i].name != ""
    requires Sorts(byAddr, AllDefaults(pool.Contents()), AddrCmp) && Sorts(byName, byAddr, NameCmp)
    modifies pool.elem
    ensures pool.Valid() && (status == 0 || status == -1)
    ensures var given := AllDefaults(old(pool.Contents()));
            && (status == 0 <==> given != [] && Distinct(given, SameName) && Apart(byAddr, SameListen))
            && (Distinct(given, SameListen) ==> (status == 0 <==> given != [] && Distinct(given, SameName)))
            && multiset(pool.Contents()) == multiset(given)
            && (status == 0 ==> Sorts(pool.Contents(), given, NameCmp))
    ensures status == 0 && (forall i | 0 <= i < pool.nelem :: NoNul(pool.Contents()[i].name)) ==>
              InOrderOfNames(pool.Contents())
  {
    hide Ordered, Distinct, Apart, AllDefaults, SameListen, SameName, AddrCmp, NameCmp;
    ghost var given := AllDefaults(pool.Contents());
    if Distinct(given, SameListen) {
      DistinctPasses(given, byAddr);
    }
    NamesDecided(given, byName);
    if pool.nelem == 0 {
      return -1;
    }
    ValidatePools(pool);
    Sort(pool, AddrCmp, byAddr);
    var valid := ListenCheck(pool);
    if !valid {
      return -1;
    }
    Sort(pool, NameCmp, byName);
    valid := NameCheck(pool);
    if !valid {
      return -1;
    }
    SameNameSymmetric();
    DistinctPermuted(given, pool.Contents(), SameName);
    if forall i | 0 <= i < pool.nelem :: NoNul(pool.Contents()[i].name) {
      SortedByName(pool.Contents());
    }
    return 0;
  }
}
