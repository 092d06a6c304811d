/** Nodes of the skip list and the geometry of their links, as facts about the level-0 order.
    Keys, levels and link arrays never change once a node exists; only array elements do. */
module SkipListLinks {
  import opened SkipListSpec

  /** struct skip_listnode. Sentinels use it too: a head of level max_level - 1, and a tail
      of level -1 that has no links at all. */
  class Node {
    const key: Key
    const ptr: Ptr
    const level: int
    const next: array<Node?>

    constructor (level: int, ptr: Ptr, key: Key)
      requires level >= -1
      ensures this.level == level && this.ptr == ptr && this.key == key
      ensures fresh(next) && next.Length == level + 1
    {
      this.level := level;
      this.ptr := ptr;
      this.key := key;
      next := new Node?[level + 1](_ => null);
    }
  }

  /** The entries of a level-0 order, which has a sentinel at each end. */
  function EntriesOf(full: seq<Node>): (s: seq<Entry>)
    requires |full| >= 2
    ensures |s| == |full| - 2
    ensures forall i | 0 <= i < |s| :: s[i] == Entry(full[i + 1].key, full[i + 1].ptr)
  {
    seq(|full| - 2, i requires 0 <= i < |full| - 2 => Entry(full[i + 1].key, full[i + 1].ptr))
  }

  /** The first position after p that is on the level-i chain; the last position is on every chain. */
  ghost function Succ(full: seq<Node>, p: nat, i: int): (q: nat)
    requires p + 1 < |full|
    ensures p < q < |full|
    ensures q == |full| - 1 || full[q].level >= i
    ensures forall r | p < r < q :: full[r].level < i
    decreases |full| - p
  {
    if p + 2 == |full| || full[p + 1].level >= i then p + 1 else Succ(full, p + 1, i)
  }

  /** What never depends on the links: sentinels at both ends, levels within bounds,
      one link array of the right size per node. */
  ghost predicate Shape(full: seq<Node>, maxLevel: int) {
    && |full| >= 2
    && full[0].level == maxLevel - 1
    && full[|full| - 1].level == -1
    && (forall p | 0 < p < |full| - 1 :: 0 <= full[p].level < maxLevel)
    && (forall p | 0 <= p < |full| :: full[p].next.Length == full[p].level + 1)
    && (forall p, q | 0 <= p < q < |full| :: full[p].next != full[q].next)
  }

  ghost function Arrays(full: seq<Node>): set<array<Node?>> {
    set n | n in full :: n.next
  }

  /** Every level-i link of a node goes to the next node, in level-0 order, of level i or more. */
  ghost predicate Linked(full: seq<Node>)
    requires |full| >= 2 && forall p | 0 <= p < |full| :: full[p].next.Length == full[p].level + 1
    reads Arrays(full)
  {
    forall p, i | 0 <= p < |full| - 1 && 0 <= i <= full[p].level ::
      full[p].next[i] == full[Succ(full, p, i)]
  }

  /** The level-0 order with x put in at position `at`. */
  ghost function With(full: seq<Node>, at: nat, x: Node): (s: seq<Node>)
    requires at <= |full|
    ensures |s| == |full| + 1 && s[at] == x
    ensures forall r | 0 <= r < at :: s[r] == full[r]
    ensures forall r | at < r < |s| :: s[r] == full[r - 1]
  {
    full[..at] + [x] + full[at..]
  }

  /** Where the level-i link of the node at p leads when the levels below hi run through x at `at`. */
  ghost function Goal(full: seq<Node>, at: nat, x: Node, hi: int, p: nat, i: int): Node
    requires p + 1 < |full|
  {
    if i < hi && p < at <= Succ(full, p, i) then x else full[Succ(full, p, i)]
  }

  /** Half-way through linking x: the levels below hi run through x, the others pass it by. */
  ghost predicate LinkedVia(full: seq<Node>, at: nat, x: Node, hi: int)
    requires |full| >= 2 && forall p | 0 <= p < |full| :: full[p].next.Length == full[p].level + 1
    requires 0 < at < |full| && hi <= x.next.Length
    reads Arrays(full), x.next
  {
    && (forall p, i | 0 <= p < |full| - 1 && 0 <= i <= full[p].level ::
          full[p].next[i] == Goal(full, at, x, hi, p, i))
    && (forall i | 0 <= i < hi :: x.next[i] == full[Succ(full, at - 1, i)])
  }

  /** Linking one more level changes the goal of one link only. */
  lemma GoalStep(full: seq<Node>, at: nat, x: Node, n: Node?, p: nat, i: int, q: nat, j: int)
    requires 0 <= i && Before(full, n, p, at, i) && q < |full| - 1 && 0 <= j <= full[q].level
    ensures Goal(full, at, x, i + 1, q, j) == if q == p && j == i then x else Goal(full, at, x, i, q, j)
  {
    SuccAcross(full, p, at, i);
    if j == i && q < at <= Succ(full, q, j) {
      AcrossIsUnique(full, p, q, at, i);
    }
  }

  /** Position `at` separates the larger keys from the others. */
  ghost predicate Splits(full: seq<Node>, at: nat, key: Key) {
    && 0 < at < |full|
    && forall p | 0 < p < |full| - 1 :: full[p].key > key <==> p < at
  }

  /** The link of a node, read off the level-0 order. */
  lemma LinkOf(full: seq<Node>, maxLevel: int, p: nat, i: int)
    requires Shape(full, maxLevel) && Linked(full) && p < |full| - 1 && 0 <= i <= full[p].level
    ensures full[p].next.Length > i
    ensures full[p].next[i] == full[Succ(full, p, i)]
    ensures full[p].next[i] == full[|full| - 1] <==> Succ(full, p, i) == |full| - 1
  {
  }

  /** The level-0 order after p, filtered to the nodes of level i or more. */
  ghost function Taller(full: seq<Node>, p: nat, i: int): seq<Node>
    requires p + 1 < |full|
    decreases |full| - p
  {
    if p + 2 == |full| then []
    else (if full[p + 1].level >= i then [full[p + 1]] else []) + Taller(full, p + 1, i)
  }

  /** Following next[i] from n visits exactly the nodes c and then the tail. */
  ghost predicate Chained(n: Node, tail: Node, i: nat, c: seq<Node>)
    reads n.next, Arrays(c)
    decreases |c|
  {
    i < n.next.Length &&
    if c == [] then n.next[i] == tail
    else c[0] in c && n.next[i] == c[0] && Chained(c[0], tail, i, c[1..])
  }

  lemma {:induction false} TallerFromSucc(full: seq<Node>, p: nat, i: int)
    requires p + 1 < |full|
    ensures var q := Succ(full, p, i);
            Taller(full, p, i) == if q == |full| - 1 then [] else [full[q]] + Taller(full, q, i)
    decreases |full| - p
  {
    if p + 2 < |full| && full[p + 1].level < i {
      TallerFromSucc(full, p + 1, i);
    }
  }

  /** The level-i chain is exactly the level-0 chain filtered to the nodes of level i or more. */
  lemma {:induction false} ChainIsFilter(full: seq<Node>, maxLevel: int, p: nat, i: nat)
    requires Shape(full, maxLevel) && Linked(full) && p < |full| - 1 && i <= full[p].level
    ensures Chained(full[p], full[|full| - 1], i, Taller(full, p, i))
    decreases |full| - p
  {
    var q := Succ(full, p, i);
    LinkOf(full, maxLevel, p, i);
    TallerFromSucc(full, p, i);
    if q < |full| - 1 {
      ChainIsFilter(full, maxLevel, q, i);
      assert Taller(full, p, i)[1..] == Taller(full, q, i);
    }
  }

  /** On level 0 every node leads to the next one. */
  ghost predicate InOrder(full: seq<Node>)
    reads Arrays(full)
  {
    forall p | 0 <= p < |full| - 1 :: full[p] in full && full[p].next.Length > 0 && full[p].next[0] == full[p + 1]
  }

  lemma LevelZero(full: seq<Node>, maxLevel: int)
    requires Shape(full, maxLevel) && Linked(full) && maxLevel >= 1
    ensures InOrder(full)
    ensures forall p | 0 < p < |full| :: full[p] != full[0] && full[p].next != full[0].next
    ensures forall p, q | 0 <= p < q < |full| :: full[p] != full[q]
  {
    forall p | 0 <= p < |full| - 1 ensures full[p].next.Length > 0 && full[p].next[0] == full[p + 1] {
      assert Succ(full, p, 0) == p + 1;
    }
  }

  /** The loop of destroy: unlink and free the first node until only the sentinels are left. */
  method FreeAll(head: Node, tail: Node, ghost full: seq<Node>) returns (ghost freed: seq<Node>)
    requires |full| >= 2 && head == full[0] && tail == full[|full| - 1]
    requires InOrder(full)
    requires forall p | 0 < p < |full| :: full[p] != head && full[p].next != head.next
    requires forall p | 0 <= p < |full| - 1 :: full[p] != tail
    modifies head.next
    ensures freed == full[1..|full| - 1]
  {
    freed := [];
    while head.next[0] != tail
      invariant |freed| < |full| - 1 && freed == full[1..|freed| + 1]
      invariant head.next[0] == full[|freed| + 1]
      invariant forall p | 0 < p < |full| - 1 :: full[p].next[0] == full[p + 1]
      decreases |full| - |freed|
    {
      var cur := head.next[0];
      head.next[0] := cur.next[0];
      assert full[1..|freed| + 2] == full[1..|freed| + 1] + [full[|freed| + 1]];
      freed := freed + [cur];
    }
  }

  lemma FreedOnce(full: seq<Node>, freed: seq<Node>)
    requires |full| >= 2 && freed == full[1..|full| - 1] + [full[0], full[|full| - 1]]
    requires forall p, q | 0 <= p < q < |full| :: full[p] != full[q]
    ensures forall i, j | 0 <= i < j < |freed| :: freed[i] != freed[j]
  {
    forall i | 0 <= i < |freed|
      ensures freed[i] == full[if i < |full| - 2 then i + 1 else if i == |full| - 2 then 0 else i] {}
  }

  /** The descent along one level that find and remove share: stop before the tail or before the
      first key that is not larger. */
  method Walk(start: Node, tail: Node, i: int, key: Key,
              ghost full: seq<Node>, ghost maxLevel: int, ghost from: nat, ghost at: nat)
    returns (cur: Node, ghost p: nat)
    requires Shape(full, maxLevel) && Linked(full) && Splits(full, at, key) && tail == full[|full| - 1]
    requires from < at && full[from] == start && 0 <= i <= start.level
    ensures p < at <= Succ(full, p, i) && full[p] == cur && cur.level >= i
    ensures Linked(full)
  {
    cur, p := start, from;
    LinkOf(full, maxLevel, p, i);
    while cur.next[i] != tail && cur.next[i].key > key
      invariant p < at && full[p] == cur && cur.level >= i
      invariant cur.next.Length > i
      invariant cur.next[i] == full[Succ(full, p, i)]
      invariant cur.next[i] == tail <==> Succ(full, p, i) == |full| - 1
      decreases |full| - p
    {
      p := Succ(full, p, i);
      cur := cur.next[i];
      LinkOf(full, maxLevel, p, i);
    }
  }

  /** n is the node at p, and its level-i link leads across position `at`. */
  ghost predicate Before(full: seq<Node>, n: Node?, p: nat, at: nat, i: int) {
    p < at < |full| && n == full[p] && full[p].level >= i && at <= Succ(full, p, i)
  }

  /** The node of the key that the level-i link of p leads to, if that is where it leads. */
  ghost function KeyedSucc(full: seq<Node>, p: nat, i: int, key: Key): (n: Node?)
    requires p + 1 < |full|
  {
    var q := Succ(full, p, i);
    if q < |full| - 1 && full[q].key == key then full[q] else null
  }

  /** Missing the key on level 0 is missing it altogether. */
  lemma MissesAll(full: seq<Node>, maxLevel: int, p: nat, at: nat, key: Key)
    requires Shape(full, maxLevel) && p < at < |full| && at <= Succ(full, p, 0)
    requires KeyedSucc(full, p, 0, key) == null
    ensures at == |full| - 1 || full[at].key != key
  {
    assert full[p + 1].level >= 0 || p + 1 == |full| - 1;
    assert Succ(full, p, 0) == p + 1;
  }

  /** From level `low` up, the recorded nodes are the last ones before position `at`. */
  ghost predicate AllBefore(full: seq<Node>, update: seq<Node?>, pos: seq<nat>, at: nat, low: int) {
    |pos| == |update| && forall j | 0 <= j < |update| && low <= j :: Before(full, update[j], pos[j], at, j)
  }

  /** What insert's walk along level i runs into: a node, or the tail, whose key stops it. */
  ghost predicate Stops(full: seq<Node>, at: nat, i: int, key: Key)
    requires 0 < at < |full|
  {
    full[Succ(full, at - 1, i)].key <= key
  }

  lemma StopsBelow(full: seq<Node>, at: nat, i: int, j: int, key: Key)
    requires Splits(full, at, key) && Stops(full, at, j, key) && i <= j
    ensures Stops(full, at, i, key)
  {
  }

  lemma StopsAtOnce(full: seq<Node>, p: nat, at: nat, i: int, key: Key)
    requires Splits(full, at, key) && p < at && full[Succ(full, p, i)].key < key
    ensures at <= Succ(full, p, i) && Stops(full, at, i, key)
  {
    SuccAcross(full, p, at, i);
  }

  /** The descent of insert along one level: unlike Walk it compares keys without asking first
      whether the next node is the tail, so it may walk onto the tail. */
  method InsertWalk(start: Node, tail: Node, i: int, key: Key,
                    ghost full: seq<Node>, ghost maxLevel: int, ghost from: nat, ghost at: nat)
    returns (cur: Node, ghost p: nat)
    requires Shape(full, maxLevel) && Linked(full) && Splits(full, at, key) && tail == full[|full| - 1]
    requires from < at && full[from] == start && 0 <= i <= start.level
    ensures Stops(full, at, i, key) ==> Before(full, cur, p, at, i)
    ensures !Stops(full, at, i, key) ==> cur == tail
    ensures Linked(full)
  {
    cur, p := start, from;
    LinkOf(full, maxLevel, p, i);
    while cur != tail && cur.next[i].key > key
      invariant p < |full| && full[p] == cur
      invariant p == |full| - 1 ==> !Stops(full, at, i, key)
      invariant p < |full| - 1 ==> p < at && cur != tail && cur.level >= i && cur.next.Length > i
      invariant p < |full| - 1 ==> cur.next[i] == full[Succ(full, p, i)]
      decreases |full| - p
    {
      ghost var q := Succ(full, p, i);
      if at <= q {
        SuccAcross(full, p, at, i);
      }
      p := q;
      cur := cur.next[i];
      if p < |full| - 1 {
        LinkOf(full, maxLevel, p, i);
      }
    }
    if p < |full| - 1 {
      SuccAcross(full, p, at, i);
    }
  }

  /** Links across a position all end in the same place, whatever node they start from. */
  lemma SuccAcross(full: seq<Node>, p: nat, at: nat, i: int)
    requires p < at < |full| && at <= Succ(full, p, i)
    ensures Succ(full, p, i) == Succ(full, at - 1, i)
  {
  }

  /** At most one node of a level has its link across a given position. */
  lemma AcrossIsUnique(full: seq<Node>, p: nat, q: nat, at: nat, i: int)
    requires p < at < |full| && at <= Succ(full, p, i) && full[p].level >= i
    requires q < at && at <= Succ(full, q, i) && full[q].level >= i
    ensures p == q
  {
  }

  lemma SuccIs(full: seq<Node>, p: nat, i: int, q: nat)
    requires p < q < |full| && (q == |full| - 1 || full[q].level >= i)
    requires forall r | p < r < q :: full[r].level < i
    ensures Succ(full, p, i) == q
  {
  }

  /** Where the links of the old nodes lead once x is in the order. */
  lemma SuccWith(full: seq<Node>, at: nat, x: Node, p: nat, i: int)
    requires 0 < at < |full| && p + 1 < |full|
    ensures var q, full' := Succ(full, p, i), With(full, at, x);
            full'[Succ(full', if p < at then p else p + 1, i)] ==
            if i <= x.level && p < at <= q then x else full[q]
  {
    var q, full' := Succ(full, p, i), With(full, at, x);
    if p >= at {
      SuccIs(full', p + 1, i, q + 1);
    } else if q < at {
      SuccIs(full', p, i, q);
    } else if i <= x.level {
      SuccIs(full', p, i, at);
    } else {
      SuccIs(full', p, i, q + 1);
    }
  }

  /** Where the links of x itself lead. */
  lemma SuccOfNew(full: seq<Node>, at: nat, x: Node, i: int)
    requires 0 < at < |full|
    ensures var full' := With(full, at, x);
            full'[Succ(full', at, i)] == full[Succ(full, at - 1, i)]
  {
    SuccIs(With(full, at, x), at, i, Succ(full, at - 1, i) + 1);
  }

  lemma ArraysWith(full: seq<Node>, at: nat, x: Node)
    requires at <= |full|
    ensures Arrays(With(full, at, x)) == Arrays(full) + {x.next}
  {
    var full' := With(full, at, x);
    forall n | n in full ensures n in full' {
      var r :| 0 <= r < |full| && full[r] == n;
      assert full'[if r < at then r else r + 1] == n;
    }
    assert full'[at] == x;
  }

  lemma ShapeWith(full: seq<Node>, at: nat, x: Node, maxLevel: int)
    requires Shape(full, maxLevel) && 0 < at < |full|
    requires 0 <= x.level < maxLevel && x.next.Length == x.level + 1
    requires x.next !in Arrays(full)
    ensures Shape(With(full, at, x), maxLevel)
  {
    var full' := With(full, at, x);
    forall p, q | 0 <= p < q < |full'| ensures full'[p].next != full'[q].next {
      assert forall r | 0 <= r < |full| :: full[r] in full;
    }
  }

  lemma EntriesWith(full: seq<Node>, at: nat, x: Node)
    requires 0 < at < |full|
    ensures var s := EntriesOf(full);
            EntriesOf(With(full, at, x)) == s[..at - 1] + [Entry(x.key, x.ptr)] + s[at - 1..]
  {
  }

  /** Once every level of x is linked, the whole list is linked with x in it. */
  lemma LinkedWith(full: seq<Node>, at: nat, x: Node, maxLevel: int)
    requires 0 < at < |full| && Shape(full, maxLevel) && Shape(With(full, at, x), maxLevel)
    requires LinkedVia(full, at, x, x.level + 1)
    ensures Linked(With(full, at, x))
  {
    var full' := With(full, at, x);
    forall p', i | 0 <= p' < |full'| - 1 && 0 <= i <= full'[p'].level
      ensures full'[p'].next[i] == full'[Succ(full', p', i)]
    {
      if p' == at {
        SuccOfNew(full, at, x, i);
      } else {
        SuccWith(full, at, x, if p' < at then p' else p' - 1, i);
      }
    }
  }

  lemma DistinctArrays(full: seq<Node>, maxLevel: int, p: nat)
    requires Shape(full, maxLevel) && p < |full|
    ensures forall q | 0 <= q < |full| && q != p :: full[q].next != full[p].next
  {
  }

  /** All that linking x in achieves. */
  lemma Inserted(full: seq<Node>, at: nat, x: Node, maxLevel: int)
    requires Shape(full, maxLevel) && Descending(EntriesOf(full)) && at == Rank(EntriesOf(full), x.key) + 1
    requires 0 <= x.level < maxLevel && x.next.Length == x.level + 1 && x.next !in Arrays(full)
    requires LinkedVia(full, at, x, x.level + 1)
    ensures var full' := With(full, at, x);
            && Shape(full', maxLevel) && Linked(full')
            && Arrays(full') == Arrays(full) + {x.next}
            && EntriesOf(full') == InsertEntry(EntriesOf(full), Entry(x.key, x.ptr))
            && Descending(EntriesOf(full'))
  {
    ShapeWith(full, at, x, maxLevel);
    LinkedWith(full, at, x, maxLevel);
    ArraysWith(full, at, x);
    EntriesWith(full, at, x);
    InsertAtRank(EntriesOf(full), Entry(x.key, x.ptr));
    InsertKeepsOrder(EntriesOf(full), Entry(x.key, x.ptr));
  }

  /** The first of the two assignments that link x on level i: x takes over the link of its predecessor. */
  method TakeLink(x: Node, pred: Node, i: int,
                  ghost full: seq<Node>, ghost maxLevel: int, ghost p: nat, ghost at: nat)
    requires Shape(full, maxLevel) && 0 < at < |full| && x.next !in Arrays(full)
    requires 0 <= i < x.next.Length
    requires Before(full, pred, p, at, i) && LinkedVia(full, at, x, i)
    modifies x.next
    ensures LinkedVia(full, at, x, i) && x.next[i] == full[Succ(full, at - 1, i)]
  {
    SuccAcross(full, p, at, i);
    assert forall q | 0 <= q < |full| :: full[q] in full && full[q].next != x.next;
    x.next[i] := pred.next[i];
  }

  /** The second: the predecessor now leads to x. */
  method GiveLink(x: Node, pred: Node, i: int,
                  ghost full: seq<Node>, ghost maxLevel: int, ghost p: nat, ghost at: nat)
    requires Shape(full, maxLevel) && 0 < at < |full| && x.next !in Arrays(full)
    requires 0 <= i < x.next.Length && x.next[i] == full[Succ(full, at - 1, i)]
    requires Before(full, pred, p, at, i) && LinkedVia(full, at, x, i)
    modifies pred.next
    ensures LinkedVia(full, at, x, i + 1)
  {
    assert pred in full;
    DistinctArrays(full, maxLevel, p);
    hide Goal, Arrays, Succ, Shape;
    pred.next[i] := x;
    forall q, j | 0 <= q < |full| - 1 && 0 <= j <= full[q].level
      ensures full[q].next[j] == Goal(full, at, x, i + 1, q, j)
    {
      GoalStep(full, at, x, pred, p, i, q, j);
      assert full[q] in full;
      assert full[q].next[j] == if q == p && j == i then x else old(full[q].next[j]);
      assert old(full[q].next[j]) == Goal(full, at, x, i, q, j);
    }
  }

  /** Links x into all of its levels. */
  method Link(x: Node, update: seq<Node?>,
              ghost full: seq<Node>, ghost maxLevel: int, ghost pos: seq<nat>, ghost at: nat)
    requires Shape(full, maxLevel) && Linked(full) && 0 < at < |full| && x.next !in Arrays(full)
    requires 0 <= x.level < maxLevel == |update| && x.next.Length == x.level + 1
    requires AllBefore(full, update, pos, at, 0)
    modifies Arrays(full), x.next
    ensures LinkedVia(full, at, x, x.level + 1)
  {
    for i := 0 to x.level + 1
      invariant LinkedVia(full, at, x, i)
    {
      assert full[pos[i]] in full;
      TakeLink(x, update[i], i, full, maxLevel, pos[i], at);
      GiveLink(x, update[i], i, full, maxLevel, pos[i], at);
    }
  }

  /** Links x in, which makes a well-linked list of the order with x in it. */
  method LinkIn(x: Node, update: seq<Node?>,
                ghost full: seq<Node>, ghost maxLevel: int, ghost pos: seq<nat>, ghost at: nat)
    requires Shape(full, maxLevel) && Linked(full) && Descending(EntriesOf(full))
    requires at == Rank(EntriesOf(full), x.key) + 1
    requires 0 <= x.level < maxLevel == |update| && x.next.Length == x.level + 1 && x.next !in Arrays(full)
    requires AllBefore(full, update, pos, at, 0)
    modifies Arrays(full), x.next
    ensures var full' := With(full, at, x);
            && Shape(full', maxLevel) && Linked(full')
            && Arrays(full') == Arrays(full) + {x.next}
            && EntriesOf(full') == InsertEntry(EntriesOf(full), Entry(x.key, x.ptr))
            && Descending(EntriesOf(full'))
  {
    Link(x, update, full, maxLevel, pos, at);
    Inserted(full, at, x, maxLevel);
  }
}
