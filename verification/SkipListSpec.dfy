/** What a skip list means to its caller: a sequence of entries in descending key order,
    and, when no key is repeated, a finite map. Nothing here knows about levels or links. */
module SkipListSpec {

  type Key = k: int | 0 <= k < 0x1_0000_0000  // uint32_t
  type Ptr = nat                              // void *, as an address
  const NULL: Ptr := 0

  datatype Entry = Entry(key: Key, ptr: Ptr)

  datatype Op = Insert(key: Key, ptr: Ptr) | Remove(key: Key)

  ghost predicate Descending(s: seq<Entry>) {
    |s| < 2 || (s[0].key >= s[1].key && Descending(s[1..]))
  }

  predicate HasKey(s: seq<Entry>, key: Key) {
    exists i | 0 <= i < |s| :: s[i].key == key
  }

  /** No two entries have this key. */
  predicate AtMostOnce(s: seq<Entry>, key: Key) {
    forall i, j | 0 <= i < j < |s| :: s[i].key != key || s[j].key != key
  }

  ghost predicate DistinctKeys(s: seq<Entry>) {
    forall i, j | 0 <= i < j < |s| :: s[i].key != s[j].key
  }

  /** The number of leading entries whose key is larger than `key`. */
  function Rank(s: seq<Entry>, key: Key): (r: nat)
    ensures r <= |s|
    ensures forall i | 0 <= i < r :: s[i].key > key
    ensures r < |s| ==> s[r].key <= key
  {
    if s == [] || s[0].key <= key then 0 else 1 + Rank(s[1..], key)
  }

  function InsertEntry(s: seq<Entry>, e: Entry): seq<Entry> {
    if s == [] || s[0].key <= e.key then [e] + s else [s[0]] + InsertEntry(s[1..], e)
  }

  function RemoveEntry(s: seq<Entry>, key: Key): seq<Entry> {
    if s == [] || s[0].key < key then s
    else if s[0].key == key then s[1..]
    else [s[0]] + RemoveEntry(s[1..], key)
  }

  function Apply(s: seq<Entry>, op: Op): seq<Entry> {
    match op
    case Insert(key, ptr) => InsertEntry(s, Entry(key, ptr))
    case Remove(key) => RemoveEntry(s, key)
  }

  function Run(s: seq<Entry>, ops: seq<Op>): seq<Entry>
    decreases |ops|
  {
    if ops == [] then s else Run(Apply(s, ops[0]), ops[1..])
  }

  /** The entries as a finite map; where a key is repeated the first entry counts. */
  function MapOf(s: seq<Entry>): map<Key, Ptr> {
    if s == [] then map[] else MapOf(s[1..])[s[0].key := s[0].ptr]
  }

  function ApplyMap(m: map<Key, Ptr>, op: Op): map<Key, Ptr> {
    match op
    case Insert(key, ptr) => m[key := ptr]
    case Remove(key) => m - {key}
  }

  function RunMap(m: map<Key, Ptr>, ops: seq<Op>): map<Key, Ptr>
    decreases |ops|
  {
    if ops == [] then m else RunMap(ApplyMap(m, ops[0]), ops[1..])
  }

  /** Every insert of the run meets a key that is not there yet. */
  predicate Fresh(m: map<Key, Ptr>, ops: seq<Op>)
    decreases |ops|
  {
    ops == [] ||
    ((ops[0].Insert? ==> ops[0].key !in m) && Fresh(ApplyMap(m, ops[0]), ops[1..]))
  }

  // ----- one operation -----

  lemma {:induction false} InsertAtRank(s: seq<Entry>, e: Entry)
    ensures var r := Rank(s, e.key); InsertEntry(s, e) == s[..r] + [e] + s[r..]
  {
    if s != [] && s[0].key > e.key {
      InsertAtRank(s[1..], e);
    }
  }

  lemma {:induction false} RemoveAtRank(s: seq<Entry>, key: Key)
    ensures var r := Rank(s, key);
            RemoveEntry(s, key) == if r < |s| && s[r].key == key then s[..r] + s[r + 1..] else s
  {
    if s != [] && s[0].key > key {
      var t, r := s[1..], Rank(s, key);
      assert r == 1 + Rank(t, key) && RemoveEntry(s, key) == [s[0]] + RemoveEntry(t, key);
      RemoveAtRank(t, key);
      hide Rank, RemoveEntry;
      if r < |s| {
        CutBehindFirst(s, r);
      }
    }
  }

  lemma CutBehindFirst(s: seq<Entry>, r: nat)
    requires 0 < r < |s|
    ensures [s[0]] + (s[1..][..r - 1] + s[1..][r..]) == s[..r] + s[r + 1..]
    ensures s[1..][r - 1] == s[r]
  {
  }

  /** Inserting keeps the order and adds exactly one entry, whatever was there before. */
  lemma {:induction false} InsertKeepsOrder(s: seq<Entry>, e: Entry)
    requires Descending(s)
    ensures Descending(InsertEntry(s, e))
  {
    if s == [] || s[0].key <= e.key {
      assert ([e] + s)[1..] == s;
    } else {
      InsertKeepsOrder(s[1..], e);
      assert InsertEntry(s, e)[1..] == InsertEntry(s[1..], e);
    }
  }

  lemma InsertAddsOne(s: seq<Entry>, e: Entry)
    ensures multiset(InsertEntry(s, e)) == multiset(s) + multiset{e}
  {
    hide InsertEntry, Rank;
    var r := Rank(s, e.key);
    InsertAtRank(s, e);
    assert s == s[..r] + s[r..];
  }

  lemma {:induction false} DescendingAt(s: seq<Entry>, i: nat, j: nat)
    requires Descending(s) && i <= j < |s|
    ensures s[i].key >= s[j].key
  {
    if i > 0 {
      DescendingAt(s[1..], i - 1, j - 1);
    } else if j > 0 {
      DescendingAt(s[1..], 0, j - 1);
    }
  }

  /** Where the key is, if it is there at all. */
  lemma HasKeyAtRank(s: seq<Entry>, key: Key)
    requires Descending(s)
    ensures var r := Rank(s, key); HasKey(s, key) <==> r < |s| && s[r].key == key
  {
    var r := Rank(s, key);
    if HasKey(s, key) {
      var i :| 0 <= i < |s| && s[i].key == key;
      DescendingAt(s, r, i);
    }
  }

  lemma {:induction false} RemoveKeepsOrder(s: seq<Entry>, key: Key)
    requires Descending(s)
    ensures Descending(RemoveEntry(s, key))
  {
    if s != [] && s[0].key > key {
      RemoveKeepsOrder(s[1..], key);
      assert RemoveEntry(s, key)[1..] == RemoveEntry(s[1..], key);
    }
  }

  /** Removing takes out the first entry of the key, if there is one, and nothing else. */
  lemma RemoveTakesOne(s: seq<Entry>, key: Key)
    requires Descending(s)
    ensures var r := Rank(s, key);
            if HasKey(s, key) then r < |s| && multiset(s) == multiset(RemoveEntry(s, key)) + multiset{s[r]}
            else RemoveEntry(s, key) == s
  {
    hide RemoveEntry, Rank, HasKey, Descending;
    var r := Rank(s, key);
    HasKeyAtRank(s, key);
    RemoveAtRank(s, key);
    if HasKey(s, key) {
      WithoutOne(s, r);
    }
  }

  lemma WithoutOne(s: seq<Entry>, r: nat)
    requires r < |s|
    ensures multiset(s) == multiset(s[..r] + s[r + 1..]) + multiset{s[r]}
  {
    assert s == s[..r] + [s[r]] + s[r + 1..];
  }

  lemma RemoveKeepsDistinct(s: seq<Entry>, key: Key)
    requires DistinctKeys(s)
    ensures DistinctKeys(RemoveEntry(s, key))
  {
    RemoveAtRank(s, key);
  }

  lemma {:induction false} MapOfHasKey(s: seq<Entry>, key: Key)
    ensures key in MapOf(s) <==> HasKey(s, key)
  {
    if s != [] {
      MapOfHasKey(s[1..], key);
      assert HasKey(s, key) <==> s[0].key == key || HasKey(s[1..], key) by {
        if HasKey(s, key) && s[0].key != key {
          var i :| 0 <= i < |s| && s[i].key == key;
          assert s[1..][i - 1].key == key;
        }
      }
    }
  }

  lemma {:induction false} MapOfAt(s: seq<Entry>, i: nat)
    requires DistinctKeys(s) && i < |s|
    ensures s[i].key in MapOf(s) && MapOf(s)[s[i].key] == s[i].ptr
  {
    if i > 0 {
      MapOfAt(s[1..], i - 1);
    }
  }

  lemma MapOfEntry(s: seq<Entry>, e: Entry)
    requires DistinctKeys(s)
    ensures e in s ==> e.key in MapOf(s) && MapOf(s)[e.key] == e.ptr
  {
    if e in s {
      var i :| 0 <= i < |s| && s[i] == e;
      MapOfAt(s, i);
    }
  }

  lemma InsertKeepsDistinct(s: seq<Entry>, e: Entry)
    requires DistinctKeys(s) && !HasKey(s, e.key)
    ensures DistinctKeys(InsertEntry(s, e))
  {
    InsertAtRank(s, e);
  }

  /** An insert of a new key is exactly a map update. */
  lemma {:induction false} InsertIsMapUpdate(s: seq<Entry>, e: Entry)
    requires !HasKey(s, e.key)
    ensures MapOf(InsertEntry(s, e)) == MapOf(s)[e.key := e.ptr]
  {
    if s == [] || s[0].key <= e.key {
      assert ([e] + s)[1..] == s;
    } else {
      InsertIsMapUpdate(s[1..], e);
      assert InsertEntry(s, e)[1..] == InsertEntry(s[1..], e);
    }
  }

  lemma AbsentFromTail(s: seq<Entry>, key: Key)
    requires Descending(s) && DistinctKeys(s) && s != [] && s[0].key <= key
    ensures !HasKey(s[1..], key)
  {
    if HasKey(s[1..], key) {
      var i :| 0 <= i < |s[1..]| && s[1..][i].key == key;
      DescendingAt(s, 0, i + 1);
    }
  }

  /** On distinct keys a remove is exactly a removal from the map. */
  lemma {:induction false} RemoveIsMapRemove(s: seq<Entry>, key: Key)
    requires Descending(s) && DistinctKeys(s)
    ensures MapOf(RemoveEntry(s, key)) == MapOf(s) - {key}
  {
    if s == [] {
    } else if s[0].key <= key {
      AbsentFromTail(s, key);
      MapOfHasKey(s[1..], key);
    } else {
      RemoveIsMapRemove(s[1..], key);
      assert RemoveEntry(s, key)[1..] == RemoveEntry(s[1..], key);
    }
  }

  /** One operation on distinct keys acts on the entries as it does on the map. */
  lemma ApplyIsMapApply(s: seq<Entry>, op: Op)
    requires Descending(s) && DistinctKeys(s) && (op.Insert? ==> !HasKey(s, op.key))
    ensures Descending(Apply(s, op)) && DistinctKeys(Apply(s, op))
    ensures MapOf(Apply(s, op)) == ApplyMap(MapOf(s), op)
  {
    match op
    case Insert(key, ptr) =>
      InsertKeepsOrder(s, Entry(key, ptr));
      InsertKeepsDistinct(s, Entry(key, ptr));
      InsertIsMapUpdate(s, Entry(key, ptr));
    case Remove(key) =>
      RemoveKeepsOrder(s, key);
      RemoveKeepsDistinct(s, key);
      RemoveIsMapRemove(s, key);
  }

  // ----- whole runs -----

  /** Over any run of inserts of new keys and removes, the entry sequence follows the map. */
  lemma {:induction false} RunIsMapRun(s: seq<Entry>, ops: seq<Op>)
    requires Descending(s) && DistinctKeys(s) && Fresh(MapOf(s), ops)
    ensures Descending(Run(s, ops)) && DistinctKeys(Run(s, ops))
    ensures MapOf(Run(s, ops)) == RunMap(MapOf(s), ops)
    decreases |ops|
  {
    if ops != [] {
      MapOfHasKey(s, ops[0].key);
      ApplyIsMapApply(s, ops[0]);
      RunIsMapRun(Apply(s, ops[0]), ops[1..]);
    }
  }
}
