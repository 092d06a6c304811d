/** skip_list.c: the list itself, as an object whose link arrays are rewired in place. */
module SkipList {
  import opened SkipListSpec
  import opened SkipListLinks
  import opened SkipListUnlink

  const SKIP_LIST_MAX_LEVEL := 8

  /** What `rand() % 2` yields, call by call. */
  type Flips = nat -> bool

  /** The level is the number of ones in front of the first zero, but below maxLevel. */
  predicate IsLevel(flips: Flips, maxLevel: int, level: int) {
    && 0 <= level && (level < maxLevel || level == 0)
    && (forall j | 0 <= j < level :: flips(j))
    && (level < maxLevel - 1 ==> !flips(level))
  }

  method RandomLevel(maxLevel: int, flips: Flips) returns (level: int)
    ensures IsLevel(flips, maxLevel, level)
  {
    level := 0;
    while flips(level) && level < maxLevel - 1
      invariant 0 <= level && (level < maxLevel || level == 0)
      invariant forall j | 0 <= j < level :: flips(j)
      decreases maxLevel - level
    {
      level := level + 1;
    }
  }

  function HeadsUpTo(level: nat): Flips {
    (j: nat) => j < level
  }

  /** Any level in 0..maxLevel-1 can come out, and the flips decide which. */
  lemma EveryLevel(maxLevel: int, level: nat)
    requires level < maxLevel
    ensures IsLevel(HeadsUpTo(level), maxLevel, level)
  {
  }

  lemma OneLevel(flips: Flips, maxLevel: int, level: int, other: int)
    requires IsLevel(flips, maxLevel, level) && IsLevel(flips, maxLevel, other)
    ensures level == other
  {
  }

  class SkipList {
    const maxLevel: int
    const head: Node
    const tail: Node
    ghost var full: seq<Node>  // the level-0 chain, sentinels included

    ghost predicate Wired()
      reads this, Arrays(full)
    {
      && 0 <= maxLevel <= SKIP_LIST_MAX_LEVEL
      && Shape(full, maxLevel)
      && head == full[0] && tail == full[|full| - 1]
      && Linked(full)
    }

    ghost predicate Valid()
      reads this, Arrays(full)
    {
      Wired() && Descending(EntriesOf(full))
    }

    ghost function Entries(): seq<Entry>
      requires |full| >= 2
      reads this
    {
      EntriesOf(full)
    }

    /** The tail is allocated but its key is never set, so any value may be found there. */
    constructor (levels: int, tailKey: Key)
      ensures Valid() && Entries() == [] && fresh(Arrays(full))
      ensures maxLevel == if levels < 0 then 1 else if levels > 8 then 8 else levels
      ensures tail.key == tailKey
    {
      var bounded := if levels < 0 then 1 else levels;
      bounded := if bounded > SKIP_LIST_MAX_LEVEL then SKIP_LIST_MAX_LEVEL else bounded;
      var h := new Node(bounded - 1, NULL, 0);
      var t := new Node(-1, NULL, tailKey);
      for i := 0 to bounded
        modifies h.next
        invariant forall j | 0 <= j < i :: h.next[j] == t
      {
        h.next[i] := t;
      }
      maxLevel := bounded;
      head := h;
      tail := t;
      full := [h, t];
    }

    /** The position at which the entries stop being larger than the key. */
    ghost function At(key: Key): (at: nat)
      requires |full| >= 2
      reads this
      ensures 0 < at < |full|
    {
      Rank(EntriesOf(full), key) + 1
    }

    lemma EntriesSplit(key: Key)
      requires |full| >= 2 && Descending(EntriesOf(full))
      ensures Splits(full, At(key), key)
      ensures HasKey(EntriesOf(full), key) <==> At(key) < |full| - 1 && full[At(key)].key == key
    {
      forall p | 0 < p < |full| - 1 ensures full[p].key > key <==> p < At(key) {
        assert EntriesOf(full)[p - 1].key == full[p].key;
        if p >= At(key) {
          DescendingAt(EntriesOf(full), At(key) - 1, p - 1);
        }
      }
      HasKeyAtRank(EntriesOf(full), key);
    }

    // ----- find -----

    /** One level of the descent: where it ends, and the node of the key it ends in front of, if any. */
    method SearchLevel(start: Node, i: int, key: Key, ghost from: nat, ghost at: nat)
      returns (cur: Node, hit: Node?, ghost p: nat)
      requires Wired() && Splits(full, at, key)
      requires from < at && full[from] == start && 0 <= i <= start.level
      ensures Before(full, cur, p, at, i)
      ensures hit == KeyedSucc(full, p, i, key)
      ensures Wired()
    {
      cur, p, hit := start, from, null;
      LinkOf(full, maxLevel, p, i);
      if cur.next[i] != tail {
        cur, p := Walk(cur, tail, i, key, full, maxLevel, p, at);
        LinkOf(full, maxLevel, p, i);
        if cur.next[i] != tail && cur.next[i].key == key {
          hit := cur.next[i];
        }
      }
    }

    /** The first node of the key on the highest level that has one, or null. */
    method FindNode(key: Key, ghost at: nat) returns (n: Node?, ghost q: nat)
      requires Wired() && Splits(full, at, key)
      ensures n == null ==> at == |full| - 1 || full[at].key != key
      ensures n != null ==> 0 < q < |full| - 1 && n == full[q] && n.key == key
      ensures n == Freed(full, at, key, maxLevel)
    {
      hide Linked, Freed, KeyedSucc, EntriesOf, Succ;
      var cur := head;
      ghost var p := 0;
      n, q := null, 0;
      var i := maxLevel - 1;
      while i >= 0
        invariant Wired() && -1 <= i < maxLevel && n == null
        invariant i == maxLevel - 1 ==> cur == head && p == 0
        invariant i < maxLevel - 1 ==> Before(full, cur, p, at, i + 1)
        invariant i < maxLevel - 1 ==> KeyedSucc(full, p, i + 1, key) == null
        invariant Freed(full, at, key, maxLevel) == Freed(full, at, key, i + 1)
      {
        cur, n, p := SearchLevel(cur, i, key, p, at);
        FoundNext(full, p, at, i, key);
        if n != null {
          q := Succ(full, p, i);
          return;
        }
        i := i - 1;
      }
      NothingFreedYet(full, at, key);
      if maxLevel > 0 {
        MissesAll(full, maxLevel, p, at, key);
      }
    }

    /** Finds an entry of the key exactly if there is one. If there are several, it finds the one of
        the node that remove would free; that is the first of them, and so the one inserted last, if
        its node is as tall as the others'. */
    method Find(key: Key) returns (ptr: Ptr)
      requires Valid()
      ensures HasKey(Entries(), key) ==> Entry(key, ptr) in Entries()
      ensures !HasKey(Entries(), key) ==> ptr == NULL
      ensures var n := Freed(full, At(key), key, maxLevel); ptr == if n == null then NULL else n.ptr
      ensures HasKey(Entries(), key) && FirstIsTallest(full, At(key), key) ==>
                ptr == Entries()[Rank(Entries(), key)].ptr
    {
      EntriesSplit(key);
      var n, q := FindNode(key, At(key));
      if n == null {
        ptr := NULL;
      } else {
        ptr := n.ptr;
        assert Entries()[q - 1] == Entry(key, ptr);
        FreedIffTallest(full, maxLevel, At(key), key);
      }
    }

    // ----- insert -----

    /** The insert search stops short of the tail exactly if this holds: the search compares the
        key with the tail's, and on the top level nothing else may stop it. */
    ghost predicate SearchStops(key: Key)
      reads this
    {
      tail.key <= key || exists p | 0 < p < |full| - 1 :: full[p].level == maxLevel - 1 && full[p].key <= key
    }

    /** On an empty list only the tail's key can stop the search. */
    lemma EmptyNeedsTail(key: Key)
      requires full == [head, tail]
      ensures SearchStops(key) <==> tail.key <= key
    {
    }

    lemma SearchStopsOnTop(key: Key, at: nat)
      requires Shape(full, maxLevel) && tail == full[|full| - 1] && Splits(full, at, key)
      ensures SearchStops(key) <==> Stops(full, at, maxLevel - 1, key)
    {
    }

    /** One level of insert's descent. */
    method InsertLevel(start: Node, i: int, key: Key, ghost from: nat, ghost at: nat)
      returns (cur: Node, ghost p: nat)
      requires Wired() && Splits(full, at, key)
      requires start == tail || (from < at && full[from] == start && 0 <= i <= start.level)
      ensures start != tail && Stops(full, at, i, key) ==> Before(full, cur, p, at, i)
      ensures start == tail || !Stops(full, at, i, key) ==> cur == tail
      ensures Wired()
    {
      cur, p := start, from;
      if cur == tail {
        return;
      }
      LinkOf(full, maxLevel, p, i);
      if cur.next[i].key < key {
        StopsAtOnce(full, p, at, i, key);
      } else {
        cur, p := InsertWalk(cur, tail, i, key, full, maxLevel, p, at);
      }
    }

    /** The search of insert: per level, the last node before position `at`.
        If the search does not stop short of the tail, every level records the tail. */
    method InsertSearch(key: Key, ghost at: nat) returns (update: seq<Node?>, ghost pos: seq<nat>)
      requires Wired() && Splits(full, at, key)
      ensures |update| == |pos| == maxLevel
      ensures SearchStops(key) ==> AllBefore(full, update, pos, at, 0)
      ensures !SearchStops(key) ==> forall j | 0 <= j < maxLevel :: update[j] == tail
      ensures Wired()
    {
      hide SearchStops, Linked, Succ;
      var cur := head;
      ghost var p, stops := 0, SearchStops(key);
      SearchStopsOnTop(key, at);
      update, pos := seq(maxLevel, _ => null), seq(maxLevel, _ => 0);
      var i := maxLevel - 1;
      while i >= 0
        invariant Wired() && -1 <= i < maxLevel && |update| == |pos| == maxLevel && 0 <= p
        invariant i == maxLevel - 1 ==> p == 0 && cur == head
        invariant stops && i < maxLevel - 1 ==> Before(full, cur, p, at, i + 1)
        invariant stops ==> AllBefore(full, update, pos, at, i + 1)
        invariant !stops && i < maxLevel - 1 ==> cur == tail
        invariant !stops ==> forall j | i < j < maxLevel :: update[j] == tail
      {
        if stops {
          StopsBelow(full, at, i, maxLevel - 1, key);
        }
        cur, p := InsertLevel(cur, i, key, p, at);
        update, pos := update[i := cur], pos[i := p];
        i := i - 1;
      }
    }

    /** Puts a node that is not in the list yet where its key belongs, on all of its levels. */
    method InsertNode(x: Node)
      requires Valid() && SearchStops(x.key)
      requires 0 <= x.level < maxLevel && x.next.Length == x.level + 1 && x.next !in Arrays(full)
      modifies this, Arrays(full), x.next
      ensures Valid() && Arrays(full) == old(Arrays(full)) + {x.next}
      ensures full == With(old(full), old(At(x.key)), x)
      ensures Entries() == InsertEntry(old(Entries()), Entry(x.key, x.ptr))
    {
      hide Shape, Linked, Descending, InsertEntry;
      ghost var before, at := full, At(x.key);
      EntriesSplit(x.key);
      var update, pos := InsertSearch(x.key, at);
      full := With(before, at, x);
      LinkIn(x, update, before, maxLevel, pos, at);
    }

    /** Every insert, whatever the flips, adds exactly its entry, in order, in one new node of the level
        that they decide, and keeps the list wired. */
    method Insert(ptr: Ptr, key: Key, flips: Flips) returns (rc: int)
      requires Valid() && maxLevel >= 1 && SearchStops(key)
      modifies this, Arrays(full)
      ensures rc == 0 && Valid() && fresh(Arrays(full) - old(Arrays(full)))
      ensures Entries() == InsertEntry(old(Entries()), Entry(key, ptr))
      ensures var at := old(At(key));
              && at < |full| && full == With(old(full), at, full[at])
              && fresh(full[at]) && IsLevel(flips, maxLevel, full[at].level)
    {
      var level := RandomLevel(maxLevel, flips);
      var x := new Node(level, ptr, key);
      InsertNode(x);
      rc := 0;
    }

    // ----- remove -----

    /** The search of remove: per level, the node in front of the key, or nothing. */
    method RemoveSearch(key: Key, ghost at: nat) returns (update: seq<Node?>, ghost pos: seq<nat>)
      requires Wired() && Splits(full, at, key)
      ensures |update| == maxLevel && AllRecorded(full, update, pos, at, key, 0)
      ensures Wired()
    {
      var cur := head;
      ghost var p := 0;
      update, pos := seq(maxLevel, _ => null), seq(maxLevel, _ => 0);
      var i := maxLevel - 1;
      while i >= 0
        invariant Wired() && -1 <= i < maxLevel && |update| == maxLevel
        invariant Before(full, cur, p, at, i + 1) || (i == maxLevel - 1 && cur == head && p == 0)
        invariant AllRecorded(full, update, pos, at, key, i + 1)
      {
        var hit;
        cur, hit, p := SearchLevel(cur, i, key, p, at);
        update, pos := update[i := if hit != null then cur else null], pos[i := p];
        i := i - 1;
      }
    }

    /** Level 0 loses the first entry of the key, if there is one; without one the list stays as it
        is. In general each level skips the node found on it, and the node freed is the one found on
        the highest level. If the first node of the key is as tall as any other of it, that is one
        and the same node, and the list stays well linked; otherwise level 0 still leads to the node
        freed. */
    method Remove(key: Key) returns (rc: int, ghost freed: Node?)
      requires Valid()
      modifies this, Arrays(full)
      ensures rc == if HasKey(old(Entries()), key) then 0 else -1
      ensures full == AfterRemove(old(full), old(At(key)), key) && Arrays(full) <= old(Arrays(full))
      ensures Entries() == RemoveEntry(old(Entries()), key)
      ensures Shape(full, maxLevel) && head == full[0] && tail == full[|full| - 1]
      ensures maxLevel >= 1 ==> InOrder(full)
      ensures Skipped(old(full), old(At(key)), key, maxLevel)
      ensures freed == Freed(old(full), old(At(key)), key, maxLevel) && (freed != null <==> rc == 0)
      ensures Valid() <==> old(FirstIsTallest(full, At(key), key))
      ensures Valid() ==> freed !in full && (freed != null ==> freed == old(full[At(key)]))
      ensures !old(FirstIsTallest(full, At(key), key)) ==> freed in full
    {
      hide AfterRemove, Skipped, Descending, FirstIsTallest, Freed, AllRecorded, Splits, InOrder, Shape, Linked,
        HasKey, RemoveEntry;
      ghost var before, at := full, At(key);
      EntriesSplit(key);
      RemovalOf(full, maxLevel, at, key);
      var update, pos := RemoveSearch(key, at);
      full := AfterRemove(before, at, key);
      var temp := UnlinkOut(update, before, maxLevel, pos, at, key);
      freed := temp;
      rc := if temp == null then -1 else 0;
    }

    // ----- destroy -----

    /** Frees every node on level 0, each exactly once and in order, and then the two sentinels. */
    method Destroy() returns (ghost freed: seq<Node>)
      requires Valid() && maxLevel >= 1
      modifies head.next
      ensures freed == old(full[1..|full| - 1]) + [head, tail]
      ensures forall i, j | 0 <= i < j < |freed| :: freed[i] != freed[j]
    {
      LevelZero(full, maxLevel);
      freed := FreeAll(head, tail, full);
      freed := freed + [head, tail];
      FreedOnce(full, freed);
    }

    // ----- whole runs -----

    /** A key that occurs at most once, whatever the other keys do, meets the condition of remove. */
    lemma OnceIsTallest(key: Key)
      requires |full| >= 2 && AtMostOnce(EntriesOf(full), key)
      ensures FirstIsTallest(full, At(key), key)
    {
      var at, s := At(key), EntriesOf(full);
      forall q | at < q < |full| - 1 && full[q].key == key ensures full[at].key != key {
        assert s[q - 1].key == key && s[at - 1].key == full[at].key;
      }
    }

    /** One insert of a new key or one remove, on a list of distinct keys. */
    method Step(op: Op)
      requires Valid() && maxLevel >= 1 && (op.Insert? ==> tail.key <= op.key)
      requires DistinctKeys(Entries()) && (op.Insert? ==> !HasKey(Entries(), op.key))
      modifies this, Arrays(full)
      ensures Valid() && fresh(Arrays(full) - old(Arrays(full)))
      ensures Entries() == Apply(old(Entries()), op) && DistinctKeys(Entries())
    {
      match op {
        case Insert(key, ptr) =>
          InsertKeepsDistinct(Entries(), Entry(key, ptr));
          var flips: Flips := *;
          var _ := Insert(ptr, key, flips);
        case Remove(key) =>
          OnceIsTallest(key);
          RemoveKeepsDistinct(Entries(), key);
          var _, _ := Remove(key);
      }
    }

    /** After any run of inserts of new keys and removes, at whatever levels the inserts drew, a
        search agrees with the finite map that the run describes. */
    method Replay(ops: seq<Op>, key: Key) returns (ptr: Ptr)
      requires Valid() && maxLevel >= 1 && (forall op <- ops :: op.Insert? ==> tail.key <= op.key)
      requires DistinctKeys(Entries()) && Fresh(MapOf(Entries()), ops)
      modifies this, Arrays(full)
      ensures Valid() && Entries() == Run(old(Entries()), ops)
      ensures var m := RunMap(MapOf(old(Entries())), ops); ptr == if key in m then m[key] else NULL
      decreases |ops|
    {
      if ops == [] {
        ptr := Find(key);
        MapOfHasKey(Entries(), key);
        MapOfEntry(Entries(), Entry(key, ptr));
      } else {
        MapOfHasKey(Entries(), ops[0].key);
        ApplyIsMapApply(Entries(), ops[0]);
        Step(ops[0]);
        ptr := Replay(ops[1..], key);
      }
    }
  }

  // ----- where the conditions are not met -----

  method OneOfOneKey() returns (list: SkipList, x: Node)
    ensures list.Valid() && fresh(list) && fresh(Arrays(list.full)) && list.tail.key == 0
    ensures list.maxLevel == 2 && list.full == [list.head, x, list.tail]
    ensures x.key == 5 && x.level == 1
  {
    hide InsertEntry, Descending, Shape, Linked;
    list := new SkipList(2, 0);
    assert list.full == [list.head, list.tail];
    x := new Node(1, NULL, 5);
    list.InsertNode(x);
    assert list.full == [list.head, x, list.tail];
  }

  /** Two nodes of the key 5 on a list of two levels, the taller one in second place. */
  method TwoOfOneKey() returns (list: SkipList, y: Node, x: Node)
    ensures list.Valid() && fresh(list) && fresh(Arrays(list.full))
    ensures list.maxLevel == 2 && list.full == [list.head, y, x, list.tail]
    ensures y.key == x.key == 5 && y.level == 0 && x.level == 1
  {
    hide InsertEntry, Descending, Shape, Linked;
    list, x := OneOfOneKey();
    y := new Node(0, NULL, 5);
    assert list.At(5) == 1;
    list.InsertNode(y);
    assert list.full == [list.head, y, x, list.tail];
  }

  lemma TallerIsFreed(head: Node, y: Node, x: Node, tail: Node)
    requires y.key == x.key == 5 && y.level == 0 && x.level == 1
    ensures var full := [head, y, x, tail];
            && !FirstIsTallest(full, 1, 5) && Freed(full, 1, 5, 2) == x
            && Rank(EntriesOf(full), 5) == 0 && AfterRemove(full, 1, 5) == [head, x, tail]
  {
    var full := [head, y, x, tail];
    assert full[2].level > full[1].level;
    assert Succ(full, 0, 1) == 2;
  }

  /** Remove frees one of them to which the list still leads. */
  method RemoveCanDangle() returns (list: SkipList, ghost freed: Node?)
    ensures freed != null && list.head.next.Length > 0 && list.head.next[0] == freed
  {
    hide Freed, Rank, RemoveEntry, AfterRemove, FirstIsTallest, Skipped, Descending, Linked;
    var y, x, rc;
    list, y, x := TwoOfOneKey();
    TallerIsFreed(list.head, y, x, list.tail);
    assert list.At(5) == 1;
    rc, freed := list.Remove(5);
    assert list.full == [list.head, x, list.tail];
    assert freed == x && list.full[0].next[0] == list.full[1];
  }

  /** With a larger key in the tail an insert into an empty list does not stop in front of it. */
  method InsertCanMissTheEnd() returns (list: SkipList)
    ensures list.Valid() && list.Entries() == [] && !list.SearchStops(0)
  {
    list := new SkipList(1, 1);
    list.EmptyNeedsTail(0);
  }
}
