/** What remove does to the links of a skip list, also when its key is repeated. */
module SkipListUnlink {
  import opened SkipListSpec
  import opened SkipListLinks

  // ----- the order without a node -----

  /** The level-0 order without the node at position `at`. */
  ghost function Without(full: seq<Node>, at: nat): (s: seq<Node>)
    requires at < |full|
    ensures |s| == |full| - 1
    ensures With(s, at, full[at]) == full
    ensures 0 < at < |full| - 1 ==> s[0] == full[0] && s[|s| - 1] == full[|full| - 1]
  {
    full[..at] + full[at + 1..]
  }

  /** The order remove is to leave behind. */
  ghost function AfterRemove(full: seq<Node>, at: nat, key: Key): seq<Node>
    requires 0 < at < |full|
  {
    if at < |full| - 1 && full[at].key == key then Without(full, at) else full
  }

  lemma ShapeWithout(full: seq<Node>, at: nat, x: Node, maxLevel: int)
    requires 0 < at < |full| && Shape(With(full, at, x), maxLevel) && |full| >= 2
    ensures Shape(full, maxLevel)
    ensures 0 <= x.level < maxLevel && x.next.Length == x.level + 1
    ensures x.next !in Arrays(full)
  {
    var full' := With(full, at, x);
    forall r | 0 <= r < |full| ensures full[r] == full'[if r < at then r else r + 1] {}
  }

  lemma ArraysWithout(full: seq<Node>, at: nat, maxLevel: int)
    requires Shape(full, maxLevel) && 0 < at < |full| - 1
    ensures var rest := Without(full, at);
            && Shape(rest, maxLevel) && full[at] !in rest && full[at].next !in Arrays(rest)
            && Arrays(full) == Arrays(rest) + {full[at].next}
  {
    var rest := Without(full, at);
    ShapeWithout(rest, at, full[at], maxLevel);
    ArraysWith(rest, at, full[at]);
  }

  lemma EntriesWithout(full: seq<Node>, at: nat, key: Key)
    requires |full| >= 2 && at == Rank(EntriesOf(full), key) + 1 < |full| - 1 && full[at].key == key
    ensures EntriesOf(Without(full, at)) == RemoveEntry(EntriesOf(full), key)
  {
    EntriesWith(Without(full, at), at, full[at]);
    CutOut(EntriesOf(full), EntriesOf(Without(full, at)), at - 1, Entry(full[at].key, full[at].ptr));
    RemoveAtRank(EntriesOf(full), key);
  }

  lemma CutOut(s: seq<Entry>, t: seq<Entry>, r: nat, e: Entry)
    requires r <= |t| && s == t[..r] + [e] + t[r..]
    ensures t == s[..r] + s[r + 1..] && s[r] == e
  {
  }

  lemma StaysIn(full: seq<Node>, at: nat, t: nat)
    requires at < t < |full|
    ensures full[t] in Without(full, at)
  {
    assert Without(full, at)[t - 1] == full[t];
  }

  /** All about the order that remove is to leave behind, apart from the links. */
  lemma RemovalOf(full: seq<Node>, maxLevel: int, at: nat, key: Key)
    requires Shape(full, maxLevel) && Descending(EntriesOf(full))
    requires at == Rank(EntriesOf(full), key) + 1
    ensures var rest := AfterRemove(full, at, key);
            && |rest| >= 2 && rest[0] == full[0] && rest[|rest| - 1] == full[|full| - 1]
            && Shape(rest, maxLevel) && Arrays(rest) <= Arrays(full)
            && EntriesOf(rest) == RemoveEntry(EntriesOf(full), key) && Descending(EntriesOf(rest))
    ensures if HasKey(EntriesOf(full), key)
            then at < |full| - 1 && full[at].key == key && full[at] !in AfterRemove(full, at, key)
            else AfterRemove(full, at, key) == full && forall q | 0 < q < |full| - 1 :: full[q].key != key
  {
    hide Without, Shape, Descending;
    HasKeyAtRank(EntriesOf(full), key);
    RemoveKeepsOrder(EntriesOf(full), key);
    if HasKey(EntriesOf(full), key) {
      ArraysWithout(full, at, maxLevel);
      EntriesWithout(full, at, key);
    } else {
      NoKeyNoNode(full, at, key);
      RemoveAtRank(EntriesOf(full), key);
    }
  }

  lemma NoKeyNoNode(full: seq<Node>, at: nat, key: Key)
    requires |full| >= 2 && !HasKey(EntriesOf(full), key)
    ensures forall q | 0 < q < |full| - 1 :: full[q].key != key
  {
    forall q | 0 < q < |full| - 1 ensures full[q].key != key {
      assert EntriesOf(full)[q - 1].key == full[q].key;
    }
  }

  // ----- the two loops of remove -----

  /** What remove's search records on one level: the node in front of the key, or nothing. */
  ghost predicate Recorded(full: seq<Node>, n: Node?, p: nat, at: nat, i: int, key: Key) {
    && p < at < |full| && full[p].level >= i && at <= Succ(full, p, i)
    && n == if KeyedSucc(full, p, i, key) != null then full[p] else null
  }

  ghost predicate AllRecorded(full: seq<Node>, update: seq<Node?>, pos: seq<nat>, at: nat, key: Key, low: int) {
    |pos| == |update| && forall j | 0 <= j < |update| && low <= j :: Recorded(full, update[j], pos[j], at, j, key)
  }

  /** What the level-i search of remove finds: the next node of level i, if it has the key. */
  ghost function Found(full: seq<Node>, at: nat, i: int, key: Key): Node?
    requires 0 < at < |full|
  {
    KeyedSucc(full, at - 1, i, key)
  }

  /** The node remove frees: the one found on the highest level on which any is found. */
  ghost function Freed(full: seq<Node>, at: nat, key: Key, levels: nat): Node?
    requires 0 < at < |full|
  {
    if levels == 0 then null
    else if Found(full, at, levels - 1, key) != null then Found(full, at, levels - 1, key)
    else Freed(full, at, key, levels - 1)
  }

  lemma NothingFreedYet(full: seq<Node>, at: nat, key: Key)
    requires 0 < at < |full|
    ensures Freed(full, at, key, 0) == null
  {
  }

  lemma FoundNext(full: seq<Node>, p: nat, at: nat, i: nat, key: Key)
    requires p < at < |full| && at <= Succ(full, p, i)
    ensures var n, q := KeyedSucc(full, p, i, key), Succ(full, p, i);
            && Freed(full, at, key, i + 1) == (if n == null then Freed(full, at, key, i) else n)
            && (n != null ==> 0 < q < |full| - 1 && n == full[q] && n.key == key)
  {
    SuccAcross(full, p, at, i);
  }

  /** Where the level-i link of the node at p leads once the levels below n have been through the
      second loop: past the node of the key that it led to, on each level past that level's own. */
  ghost function Skip(full: seq<Node>, at: nat, key: Key, n: int, p: nat, i: int): Node
    requires p + 1 < |full|
  {
    var q := Succ(full, p, i);
    if i < n && p < at <= q < |full| - 1 && full[q].key == key then full[Succ(full, q, i)] else full[q]
  }

  ghost predicate Skipped(full: seq<Node>, at: nat, key: Key, n: int)
    requires |full| >= 2 && forall p | 0 <= p < |full| :: full[p].next.Length == full[p].level + 1
    reads Arrays(full)
  {
    forall p, i | 0 <= p < |full| - 1 && 0 <= i <= full[p].level :: full[p].next[i] == Skip(full, at, key, n, p, i)
  }

  /** One more level changes at most one link. */
  lemma SkipStep(full: seq<Node>, n: Node?, p: nat, at: nat, i: int, key: Key, r: nat, j: int)
    requires Recorded(full, n, p, at, i, key) && r < |full| - 1 && 0 <= j <= full[r].level
    ensures Skip(full, at, key, i + 1, r, j) ==
            if r == p && j == i && n != null then full[Succ(full, Succ(full, p, i), i)]
            else Skip(full, at, key, i, r, j)
  {
    if j == i && r < at <= Succ(full, r, j) {
      AcrossIsUnique(full, p, r, at, i);
    }
  }

  lemma NothingSkippedYet(full: seq<Node>, at: nat, key: Key)
    requires |full| >= 2 && forall p | 0 <= p < |full| :: full[p].next.Length == full[p].level + 1
    requires Linked(full)
    ensures Skipped(full, at, key, 0)
  {
  }

  lemma NothingToSkip(full: seq<Node>, p: nat, at: nat, i: int, key: Key)
    requires Recorded(full, null, p, at, i, key)
    requires |full| >= 2 && forall p | 0 <= p < |full| :: full[p].next.Length == full[p].level + 1
    requires Skipped(full, at, key, i)
    ensures Skipped(full, at, key, i + 1) && Found(full, at, i, key) == null
  {
    SuccAcross(full, p, at, i);
    forall r, j | 0 <= r < |full| - 1 && 0 <= j <= full[r].level
      ensures full[r].next[j] == Skip(full, at, key, i + 1, r, j)
    {
      SkipStep(full, null, p, at, i, key, r, j);
    }
  }

  /** The two assignments on a level on which a node has been recorded. */
  method UnlinkLevel(pred: Node, i: int, ghost full: seq<Node>, ghost maxLevel: int,
                     ghost p: nat, ghost at: nat, ghost key: Key)
    returns (temp: Node)
    requires Shape(full, maxLevel) && 0 <= i && Recorded(full, pred, p, at, i, key)
    requires Skipped(full, at, key, i)
    modifies pred.next
    ensures temp == Found(full, at, i, key) && Skipped(full, at, key, i + 1)
  {
    ghost var q := Succ(full, p, i);
    SuccAcross(full, p, at, i);
    assert full[q] in full && pred in full;
    DistinctArrays(full, maxLevel, p);
    assert pred.next[i] == Skip(full, at, key, i, p, i) == full[q];
    temp := pred.next[i];
    assert temp.next[i] == Skip(full, at, key, i, q, i) == full[Succ(full, q, i)];
    hide Skip, Arrays, Succ;
    pred.next[i] := temp.next[i];
    forall r, j | 0 <= r < |full| - 1 && 0 <= j <= full[r].level
      ensures full[r].next[j] == Skip(full, at, key, i + 1, r, j)
    {
      SkipStep(full, pred, p, at, i, key, r, j);
      assert full[r] in full;
      assert full[r].next[j] == if r == p && j == i then full[Succ(full, q, i)] else old(full[r].next[j]);
      assert old(full[r].next[j]) == Skip(full, at, key, i, r, j);
    }
  }

  /** Remove's second loop, whatever the keys: every level skips the node found on it, and the node
      that is freed is the one found last. */
  method UnlinkAll(update: seq<Node?>, ghost full: seq<Node>, ghost maxLevel: int, ghost pos: seq<nat>,
                   ghost at: nat, ghost key: Key)
    returns (temp: Node?)
    requires Shape(full, maxLevel) && Linked(full) && 0 < at < |full|
    requires AllRecorded(full, update, pos, at, key, 0)
    modifies Arrays(full)
    ensures Skipped(full, at, key, |update|) && temp == Freed(full, at, key, |update|)
  {
    hide Skipped, Linked, Skip, Found;
    temp := null;
    NothingSkippedYet(full, at, key);
    for i := 0 to |update|
      invariant Skipped(full, at, key, i) && temp == Freed(full, at, key, i)
    {
      assert Recorded(full, update[i], pos[i], at, i, key);
      if update[i] != null {
        assert full[pos[i]] in full;
        temp := UnlinkLevel(update[i], i, full, maxLevel, pos[i], at, key);
      } else {
        NothingToSkip(full, pos[i], at, i, key);
      }
    }
  }

  // ----- when that takes one node out -----

  /** The first node of the key is on every level that any node of the key is on. */
  ghost predicate FirstIsTallest(full: seq<Node>, at: nat, key: Key) {
    forall q | 0 < at < q < |full| - 1 && full[at].key == full[q].key == key :: full[q].level <= full[at].level
  }

  /** On its own levels, and no others, the tallest first node of the key is what remove finds. */
  lemma HitIffOnLevel(full: seq<Node>, maxLevel: int, at: nat, p: nat, i: int, key: Key)
    requires Shape(full, maxLevel) && 0 < at < |full| - 1 && full[at].key == key
    requires FirstIsTallest(full, at, key) && p < at <= Succ(full, p, i)
    ensures KeyedSucc(full, p, i, key) == if i <= full[at].level then full[at] else null
    ensures i <= full[at].level ==> Succ(full, p, i) == at
  {
    SuccAcross(full, p, at, i);
  }

  /** Then skipping on all levels is linking the order without that node. */
  lemma SkippedIsLinked(full: seq<Node>, maxLevel: int, at: nat, key: Key)
    requires Shape(full, maxLevel) && 0 < at < |full| - 1 && full[at].key == key
    requires FirstIsTallest(full, at, key) && Skipped(full, at, key, maxLevel)
    requires Shape(Without(full, at), maxLevel)
    ensures Linked(Without(full, at))
  {
    var rest := Without(full, at);
    forall p, i | 0 <= p < |rest| - 1 && 0 <= i <= rest[p].level
      ensures rest[p].next[i] == rest[Succ(rest, p, i)]
    {
      SkipIsWithout(full, maxLevel, at, key, p, i);
    }
  }

  lemma SkipIsWithout(full: seq<Node>, maxLevel: int, at: nat, key: Key, p: nat, i: int)
    requires Shape(full, maxLevel) && 0 < at < |full| - 1 && full[at].key == key
    requires FirstIsTallest(full, at, key) && p < |full| - 2 && 0 <= i < maxLevel
    ensures var rest := Without(full, at);
            var p' := if p < at then p else p + 1;
            rest[p] == full[p'] && Skip(full, at, key, maxLevel, p', i) == rest[Succ(rest, p, i)]
  {
    var rest, x := Without(full, at), full[at];
    var p' := if p < at then p else p + 1;
    assert With(rest, at, x)[p'] == full[p'];
    SuccWith(rest, at, x, p, i);
    if p < at <= Succ(full, p, i) {
      HitIffOnLevel(full, maxLevel, at, p, i, key);
      SuccAcrossWithout(full, at, p, i);
    }
    if i <= x.level && p < at <= Succ(rest, p, i) {
      SuccOfNew(rest, at, x, i);
      SuccAcross(rest, p, at, i);
    }
  }

  lemma SuccAcrossWithout(full: seq<Node>, at: nat, p: nat, i: int)
    requires p < at < |full| - 1 && at <= Succ(full, p, i)
    ensures at <= Succ(Without(full, at), p, i)
  {
  }

  /** Without a node of the key nothing is found, skipped or freed. */
  lemma {:induction false} NothingFound(full: seq<Node>, at: nat, key: Key, levels: nat)
    requires 0 < at < |full| && forall q | 0 < q < |full| - 1 :: full[q].key != key
    ensures Freed(full, at, key, levels) == null
    decreases levels
  {
    if levels > 0 {
      NothingFound(full, at, key, levels - 1);
    }
  }

  lemma NothingSkipped(full: seq<Node>, at: nat, key: Key, levels: nat)
    requires |full| >= 2 && forall p | 0 <= p < |full| :: full[p].next.Length == full[p].level + 1
    requires forall q | 0 < q < |full| - 1 :: full[q].key != key
    requires Skipped(full, at, key, levels)
    ensures Linked(full)
  {
    forall p, i | 0 <= p < |full| - 1 && 0 <= i <= full[p].level ensures full[p].next[i] == full[Succ(full, p, i)] {
      assert full[p].next[i] == Skip(full, at, key, levels, p, i);
    }
  }

  /** With one, something is found on level 0 at least. */
  lemma {:induction false} SomethingFreed(full: seq<Node>, maxLevel: int, at: nat, key: Key, levels: nat)
    requires Shape(full, maxLevel) && 0 < at < |full| - 1 && full[at].key == key && levels > 0
    ensures Freed(full, at, key, levels) != null
  {
    if levels > 1 {
      SomethingFreed(full, maxLevel, at, key, levels - 1);
    } else {
      assert Succ(full, at - 1, 0) == at;
    }
  }

  /** Whatever the levels, level 0 is the order without the first node of the key. */
  lemma LevelZeroAfter(full: seq<Node>, maxLevel: int, at: nat, key: Key)
    requires Shape(full, maxLevel) && 0 < at < |full| && maxLevel >= 1 && Skipped(full, at, key, maxLevel)
    requires AfterRemove(full, at, key) == full ==> forall q | 0 < q < |full| - 1 :: full[q].key != key
    ensures InOrder(AfterRemove(full, at, key))
  {
    hide Skip;
    var rest := AfterRemove(full, at, key);
    forall p | 0 <= p < |rest| - 1 ensures rest[p].next.Length > 0 && rest[p].next[0] == rest[p + 1] {
      var p' := if |rest| == |full| || p < at then p else p + 1;
      SkipOnZero(full, maxLevel, at, key, p');
      NextAfter(full, at, key, p);
      assert full[p'].next[0] == Skip(full, at, key, maxLevel, p', 0);
    }
  }

  lemma SkipOnZero(full: seq<Node>, maxLevel: int, at: nat, key: Key, p: nat)
    requires Shape(full, maxLevel) && 0 < at < |full| && maxLevel >= 1 && p < |full| - 1
    ensures Skip(full, at, key, maxLevel, p, 0) ==
            if p + 1 == at < |full| - 1 && full[at].key == key then full[p + 2] else full[p + 1]
  {
    assert Succ(full, p, 0) == p + 1;
    if p + 1 == at < |full| - 1 {
      assert Succ(full, at, 0) == at + 1;
    }
  }

  lemma NextAfter(full: seq<Node>, at: nat, key: Key, p: nat)
    requires 0 < at < |full| && p + 1 < |AfterRemove(full, at, key)|
    ensures var rest := AfterRemove(full, at, key);
            var p' := if |rest| == |full| || p < at then p else p + 1;
            && rest[p] == full[p']
            && rest[p + 1] == if p' + 1 == at < |full| - 1 && full[at].key == key then full[p' + 2] else full[p' + 1]
  {
  }

  lemma {:induction false} FreedIfTallest(full: seq<Node>, maxLevel: int, at: nat, key: Key, levels: nat)
    requires Shape(full, maxLevel) && 0 < at < |full| - 1 && full[at].key == key
    requires FirstIsTallest(full, at, key) && levels > 0
    ensures Freed(full, at, key, levels) == full[at]
  {
    HitIffOnLevel(full, maxLevel, at, at - 1, levels - 1, key);
    if levels > 1 {
      FreedIfTallest(full, maxLevel, at, key, levels - 1);
    }
  }

  lemma {:induction false} FreedIfTaller(full: seq<Node>, at: nat, q: nat, key: Key, levels: nat)
    returns (t: nat)
    requires 0 < at < q < |full| - 1 && 0 <= full[at].level < full[q].level < levels
    requires Found(full, at, full[q].level, key) != null
    ensures at < t < |full| - 1 && full[t] == Freed(full, at, key, levels)
  {
    if Found(full, at, levels - 1, key) != null {
      t := Succ(full, at - 1, levels - 1);
    } else {
      t := FreedIfTaller(full, at, q, key, levels - 1);
    }
  }

  lemma TallerIsHit(full: seq<Node>, at: nat, q: nat, i: int, key: Key)
    requires 0 < at < q < |full| - 1 && Descending(EntriesOf(full))
    requires full[at].key == full[q].key == key && full[at].level < i <= full[q].level
    ensures KeyedSucc(full, at - 1, i, key) != null
  {
    var t := Succ(full, at - 1, i);
    assert at < t <= q;
    DescendingAt(EntriesOf(full), at - 1, t - 1);
    DescendingAt(EntriesOf(full), t - 1, q - 1);
  }

  /** Remove frees the node it takes out of level 0 exactly if that node is as tall as any other
      of its key. Otherwise it frees a node to which level 0 still leads. */
  lemma FreedIffTallest(full: seq<Node>, maxLevel: int, at: nat, key: Key)
    requires Shape(full, maxLevel) && Descending(EntriesOf(full))
    requires at == Rank(EntriesOf(full), key) + 1 < |full| - 1 && full[at].key == key
    ensures FirstIsTallest(full, at, key) <==> Freed(full, at, key, maxLevel) == full[at]
    ensures !FirstIsTallest(full, at, key) ==> Freed(full, at, key, maxLevel) in Without(full, at)
  {
    if FirstIsTallest(full, at, key) {
      FreedIfTallest(full, maxLevel, at, key, maxLevel);
    } else {
      var q :| at < q < |full| - 1 && full[q].key == key && full[q].level > full[at].level;
      TallerIsHit(full, at, q, full[q].level, key);
      var t := FreedIfTaller(full, at, q, key, maxLevel);
      StaysIn(full, at, t);
    }
  }

  /** If it is not, the list without that node lacks a link: on the top level of a taller node of the
      key such a node has been skipped as well. */
  lemma SkippedIsNotLinked(full: seq<Node>, maxLevel: int, at: nat, key: Key, q: nat, p: nat)
    requires Shape(full, maxLevel) && Descending(EntriesOf(full))
    requires 0 < at < q < |full| - 1 && full[at].key == full[q].key == key && full[q].level > full[at].level
    requires Shape(Without(full, at), maxLevel)
    requires p < at <= Succ(full, p, full[q].level) && full[p].level >= full[q].level
    requires Skipped(full, at, key, maxLevel)
    ensures !Linked(Without(full, at))
  {
    var rest, i := Without(full, at), full[q].level;
    var s := Succ(full, p, i);
    TallerIsHit(full, at, q, i, key);
    SuccAcross(full, p, at, i);
    SuccWith(rest, at, full[at], p, i);
    assert full[p].next[i] == Skip(full, at, key, maxLevel, p, i) == full[Succ(full, s, i)];
    DistinctArrays(full, maxLevel, s);
    assert rest[p] == full[p] && rest[p].next[i] != rest[Succ(rest, p, i)];
  }

  /** A taller node of the key, and the node in front of the key on that one's top level. */
  lemma TallerNode(full: seq<Node>, maxLevel: int, update: seq<Node?>, pos: seq<nat>, at: nat, key: Key)
    returns (q: nat, p: nat)
    requires Shape(full, maxLevel) && 0 < at < |full| - 1 && !FirstIsTallest(full, at, key)
    requires AllRecorded(full, update, pos, at, key, 0) && |update| == maxLevel
    ensures at < q < |full| - 1 && full[q].key == key && full[q].level > full[at].level
    ensures p < at <= Succ(full, p, full[q].level) && full[p].level >= full[q].level
  {
    q :| at < q < |full| - 1 && full[at].key == full[q].key == key && full[q].level > full[at].level;
    var i := full[q].level;
    assert Recorded(full, update[i], pos[i], at, i, key);
    p := pos[i];
  }

  /** Remove's second loop on any list. Level 0 loses the first node of the key, if there is one. If
      that node is as tall as any other of the key, it is the node freed and all levels lose it;
      otherwise the node freed is another, to which level 0 still leads. */
  method UnlinkOut(update: seq<Node?>, ghost full: seq<Node>, ghost maxLevel: int, ghost pos: seq<nat>,
                   ghost at: nat, ghost key: Key)
    returns (temp: Node?)
    requires Shape(full, maxLevel) && Linked(full) && Descending(EntriesOf(full))
    requires at == Rank(EntriesOf(full), key) + 1
    requires AllRecorded(full, update, pos, at, key, 0) && |update| == maxLevel
    modifies Arrays(full)
    ensures Skipped(full, at, key, maxLevel) && temp == Freed(full, at, key, maxLevel)
    ensures temp != null <==> HasKey(EntriesOf(full), key)
    ensures var rest := AfterRemove(full, at, key);
            && Shape(rest, maxLevel)
            && (maxLevel >= 1 ==> InOrder(rest))
            && (FirstIsTallest(full, at, key) <==> Linked(rest))
            && (FirstIsTallest(full, at, key) && temp != null ==> temp == full[at] && temp !in rest)
            && (!FirstIsTallest(full, at, key) ==> temp in rest && temp != full[at])
  {
    hide Skipped, Freed, Without, Descending, AllRecorded, InOrder;
    RemovalOf(full, maxLevel, at, key);
    temp := UnlinkAll(update, full, maxLevel, pos, at, key);
    if maxLevel >= 1 {
      AfterwardsOnZero(full, maxLevel, at, key);
    }
    if HasKey(EntriesOf(full), key) {
      SomethingFreed(full, maxLevel, at, key, maxLevel);
      FreedIffTallest(full, maxLevel, at, key);
      if FirstIsTallest(full, at, key) {
        SkippedIsLinked(full, maxLevel, at, key);
      } else {
        ghost var q, p := TallerNode(full, maxLevel, update, pos, at, key);
        SkippedIsNotLinked(full, maxLevel, at, key, q, p);
      }
    } else {
      NothingFound(full, at, key, maxLevel);
      NothingSkipped(full, at, key, maxLevel);
    }
  }

  lemma AfterwardsOnZero(full: seq<Node>, maxLevel: int, at: nat, key: Key)
    requires Shape(full, maxLevel) && Descending(EntriesOf(full)) && maxLevel >= 1
    requires at == Rank(EntriesOf(full), key) + 1 && Skipped(full, at, key, maxLevel)
    ensures InOrder(AfterRemove(full, at, key))
  {
    RemovalOf(full, maxLevel, at, key);
    LevelZeroAfter(full, maxLevel, at, key);
  }
}
