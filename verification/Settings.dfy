/** When a document is read without error, and what its pools then hold, said without any order of
    reading: every known key at most once, every number a number, no scalar empty or with a NUL in it. */
module Settings {
  import opened Yaml
  import opened Text
  import opened ParserSpec
  import Validator

  datatype Assignment = Assignment(key: string, value: string)

  /** All values that a mapping gives to its keys, in order. */
  function Assignments(pairs: seq<Pair>): seq<Assignment>
    requires Validator.AllSettings(pairs)
    decreases |pairs|
  {
    if pairs == [] then [] else
    assert Validator.IsSetting(pairs[0]);
    AssignmentsOf(pairs[0]) + Assignments(pairs[1..])
  }

  function AssignmentsOf(setting: Pair): seq<Assignment>
    requires Validator.IsSetting(setting)
  {
    match setting.value
    case ScalarNode(v) => [Assignment(setting.key.value, v)]
    case SequenceNode(items) => ForKey(setting.key.value, items)
  }

  function ForKey(key: string, items: seq<Node>): seq<Assignment>
    requires Validator.AllScalars(items)
    decreases |items|
  {
    if items == [] then [] else [Assignment(key, items[0].value)] + ForKey(key, items[1..])
  }

  function FoldAssignments(p: Pool, a: seq<Assignment>): Result<Pool>
    decreases |a|
  {
    if a == [] then Ok(p) else
    match SetChecked(p, a[0].key, a[0].value)
    case Ok(q) => FoldAssignments(q, a[1..])
    case Err(r) => Err(r)
  }

  // ----- the condition -----

  predicate IsKnown(key: string) {
    IsStringKey(key) || IsNumKey(key)
  }

  /** The command table names seven keys, five of them for numbers. */
  lemma CommandTable(key: string)
    ensures IsKnown(key) <==> key in ["addr", "port", "timeout", "workers", "backlog", "datadir", "max_slots"]
    ensures IsNumKey(key) <==> key in ["port", "timeout", "workers", "backlog", "max_slots"]
    ensures IsStringKey(key) <==> key in ["addr", "datadir"]
  {
  }

  /** The field of a key has not been set. */
  predicate IsFree(p: Pool, key: string) {
    if IsStringKey(key) then StringField(p, key) == "" else NumField(p, key) == UNSET
  }

  /** A value that its key can take. */
  predicate IsProper(a: Assignment) {
    IsText(a.value) && (IsNumKey(a.key) ==> Fits(a.value) && Number(a.value) >= 0)
  }

  /** No known key is given a value twice, or given one although its field is set already. */
  predicate Clean(p: Pool, a: seq<Assignment>) {
    && (forall i | 0 <= i < |a| :: IsProper(a[i]))
    && (forall i | 0 <= i < |a| :: IsKnown(a[i].key) ==> IsFree(p, a[i].key))
    && (forall i, j | 0 <= i < j < |a| :: IsKnown(a[i].key) ==> a[i].key != a[j].key)
  }

  /** The field holds the value. */
  predicate Holds(p: Pool, a: Assignment) {
    if IsStringKey(a.key) then StringField(p, a.key) == a.value else NumField(p, a.key) == Number(a.value)
  }

  /** A number field holds the value that its key was given, or is as before if it was given none. */
  predicate NumberBecomes(a: seq<Assignment>, key: string, before: int, after: int) {
    && (forall i | 0 <= i < |a| :: a[i].key == key ==> after == Number(a[i].value))
    && ((forall i | 0 <= i < |a| :: a[i].key != key) ==> after == before)
  }

  predicate StringBecomes(a: seq<Assignment>, key: string, before: string, after: string) {
    && (forall i | 0 <= i < |a| :: a[i].key == key ==> after == a[i].value)
    && ((forall i | 0 <= i < |a| :: a[i].key != key) ==> after == before)
  }

  /** The command table, field by field. */
  predicate Becomes(p: Pool, a: seq<Assignment>, q: Pool) {
    && q.name == p.name
    && StringBecomes(a, "addr", p.addr, q.addr)
    && NumberBecomes(a, "port", p.port, q.port)
    && NumberBecomes(a, "timeout", p.timeout, q.timeout)
    && NumberBecomes(a, "workers", p.workers, q.workers)
    && NumberBecomes(a, "backlog", p.backlog, q.backlog)
    && StringBecomes(a, "datadir", p.datadir, q.datadir)
    && NumberBecomes(a, "max_slots", p.maxSlots, q.maxSlots)
  }

  predicate SameField(p: Pool, q: Pool, key: string) {
    if IsStringKey(key) then StringField(p, key) == StringField(q, key) else NumField(p, key) == NumField(q, key)
  }

  lemma SetSets(p: Pool, a: Assignment)
    ensures SetChecked(p, a.key, a.value).Ok? <==> IsProper(a) && (IsKnown(a.key) ==> IsFree(p, a.key))
    ensures SetChecked(p, a.key, a.value).Ok? ==>
              var q := SetChecked(p, a.key, a.value).value;
              && q.name == p.name
              && (IsKnown(a.key) ==> Holds(q, a) && !IsFree(q, a.key))
  {
  }

  lemma SetKeepsOthers(p: Pool, a: Assignment, key: string)
    requires IsKnown(key) && key != a.key && SetChecked(p, a.key, a.value).Ok?
    ensures SameField(SetChecked(p, a.key, a.value).value, p, key)
  {
  }

  lemma CleanTail(p: Pool, q: Pool, a: seq<Assignment>)
    requires a != [] && IsProper(a[0]) && (IsKnown(a[0].key) ==> IsFree(p, a[0].key) && !IsFree(q, a[0].key))
    requires forall key | IsKnown(key) && key != a[0].key :: IsFree(q, key) <==> IsFree(p, key)
    ensures Clean(p, a) <==> Clean(q, a[1..])
  {
    hide IsProper, IsKnown, IsFree;
    if Clean(p, a) {
      forall i | 0 <= i < |a[1..]|
        ensures IsProper(a[1..][i]) && (IsKnown(a[1..][i].key) ==> IsFree(q, a[1..][i].key))
      {
        assert a[1..][i] == a[i + 1];
      }
    }
    if Clean(q, a[1..]) {
      forall i | 0 <= i < |a| ensures IsProper(a[i]) && (IsKnown(a[i].key) ==> IsFree(p, a[i].key)) {
        if i > 0 { assert a[i] == a[1..][i - 1]; }
      }
      forall i, j | 0 <= i < j < |a| ensures IsKnown(a[i].key) ==> a[i].key != a[j].key {
        assert a[j] == a[1..][j - 1];
        if i > 0 { assert a[i] == a[1..][i - 1]; }
      }
    }
  }

  /** Reading succeeds exactly on clean assignments. */
  lemma {:induction false} FoldSucceedsIffClean(p: Pool, a: seq<Assignment>)
    ensures FoldAssignments(p, a).Ok? <==> Clean(p, a)
    ensures FoldAssignments(p, a).Ok? ==> FoldAssignments(p, a).value.name == p.name
    decreases |a|
  {
    if a != [] {
      hide SetChecked, IsProper, IsKnown, Holds;
      SetSets(p, a[0]);
      if SetChecked(p, a[0].key, a[0].value).Ok? {
        var q := SetChecked(p, a[0].key, a[0].value).value;
        FoldSucceedsIffClean(q, a[1..]);
        forall key | IsKnown(key) && key != a[0].key ensures IsFree(q, key) <==> IsFree(p, key) {
          SetKeepsOthers(p, a[0], key);
        }
        CleanTail(p, q, a);
      }
    }
  }

  /** And then every known key that was given a value holds it, and every other field is as before. */
  lemma {:induction false} FoldAssigns(p: Pool, a: seq<Assignment>, key: string)
    requires FoldAssignments(p, a).Ok? && IsKnown(key)
    ensures var q := FoldAssignments(p, a).value;
            && (forall i | 0 <= i < |a| && a[i].key == key :: Holds(q, a[i]))
            && ((forall i | 0 <= i < |a| :: a[i].key != key) ==> SameField(q, p, key))
    decreases |a|
  {
    if a != [] {
      hide SetChecked, IsProper, Clean;
      SetSets(p, a[0]);
      var q := SetChecked(p, a[0].key, a[0].value).value;
      FoldAssigns(q, a[1..], key);
      var r := FoldAssignments(p, a).value;
      forall i | 0 <= i < |a| && a[i].key == key ensures Holds(r, a[i]) {
        if i > 0 {
          assert a[i] == a[1..][i - 1];
        } else {
          NotAgain(q, a[1..], key);
        }
      }
      if forall i | 0 <= i < |a| :: a[i].key != key {
        SetKeepsOthers(p, a[0], key);
        assert forall i | 0 <= i < |a[1..]| :: a[1..][i] == a[i + 1];
      }
    }
  }

  /** Said of the fields of the pool: each of the seven commands sets its own. */
  lemma FieldsBecome(p: Pool, a: seq<Assignment>)
    requires FoldAssignments(p, a).Ok?
    ensures Becomes(p, a, FoldAssignments(p, a).value)
  {
    FoldSucceedsIffClean(p, a);
    NumberFieldBecomes(p, a, "port");
    NumberFieldBecomes(p, a, "timeout");
    NumberFieldBecomes(p, a, "workers");
    NumberFieldBecomes(p, a, "backlog");
    NumberFieldBecomes(p, a, "max_slots");
    StringFieldBecomes(p, a, "addr");
    StringFieldBecomes(p, a, "datadir");
  }

  lemma NumberFieldBecomes(p: Pool, a: seq<Assignment>, key: string)
    requires FoldAssignments(p, a).Ok? && IsNumKey(key)
    ensures NumberBecomes(a, key, NumField(p, key), NumField(FoldAssignments(p, a).value, key))
  {
    hide NumField, FoldAssignments;
    FoldAssigns(p, a, key);
  }

  lemma StringFieldBecomes(p: Pool, a: seq<Assignment>, key: string)
    requires FoldAssignments(p, a).Ok? && IsStringKey(key)
    ensures StringBecomes(a, key, StringField(p, key), StringField(FoldAssignments(p, a).value, key))
  {
    hide StringField, FoldAssignments;
    FoldAssigns(p, a, key);
  }

  /** A key whose field is set is not given a value by what can still be read. */
  lemma NotAgain(p: Pool, a: seq<Assignment>, key: string)
    requires FoldAssignments(p, a).Ok? && IsKnown(key) && !IsFree(p, key)
    ensures forall i | 0 <= i < |a| :: a[i].key != key
  {
    FoldSucceedsIffClean(p, a);
  }

  // ----- pools and documents -----

  lemma {:induction false} FoldAppend(p: Pool, a: seq<Assignment>, b: seq<Assignment>)
    ensures FoldAssignments(p, a + b) ==
            match FoldAssignments(p, a)
            case Ok(q) => FoldAssignments(q, b)
            case Err(r) => Err(r)
    decreases |a|
  {
    hide SetChecked;
    if a == [] {
      assert a + b == b;
    } else {
      assert (a + b)[1..] == a[1..] + b;
      match SetChecked(p, a[0].key, a[0].value)
      case Ok(q) => FoldAppend(q, a[1..], b);
      case Err(r) =>
    }
  }

  lemma {:induction false} FoldForKey(p: Pool, key: string, items: seq<Node>)
    requires Validator.AllScalars(items)
    ensures FoldItems(p, key, items) == FoldAssignments(p, ForKey(key, items))
    decreases |items|
  {
    hide SetChecked;
    if items != [] {
      assert ForKey(key, items)[1..] == ForKey(key, items[1..]);
      match SetChecked(p, key, items[0].value)
      case Ok(q) => FoldForKey(q, key, items[1..]);
      case Err(r) =>
    }
  }

  function KeyOf(p: Pair): string {
    if p.key.ScalarNode? then p.key.value else ""
  }

  predicate KeysNamed(pairs: seq<Pair>) {
    forall i | 0 <= i < |pairs| :: IsText(KeyOf(pairs[i]))
  }

  lemma FoldSettingIs(p: Pool, setting: Pair)
    requires Validator.IsSetting(setting)
    ensures FoldSetting(p, setting) ==
            if IsText(KeyOf(setting)) then FoldAssignments(p, AssignmentsOf(setting))
            else Err(Copied(KeyOf(setting)).reason)
  {
    hide SetChecked;
    match setting.value
    case ScalarNode(v) =>
      var a := AssignmentsOf(setting);
      assert a[1..] == [];
    case SequenceNode(items) => FoldForKey(p, setting.key.value, items);
  }

  /** The reading of a pool, pair by pair, is the reading of its assignments. */
  lemma {:induction false} FoldPoolIs(p: Pool, pairs: seq<Pair>)
    requires Validator.AllSettings(pairs)
    ensures FoldPool(p, pairs).Ok? <==> KeysNamed(pairs) && FoldAssignments(p, Assignments(pairs)).Ok?
    ensures FoldPool(p, pairs).Ok? ==> FoldPool(p, pairs) == FoldAssignments(p, Assignments(pairs))
    decreases |pairs|
  {
    hide FoldSetting, AssignmentsOf, Validator.IsSetting, KeyOf;
    if pairs != [] {
      assert Validator.IsSetting(pairs[0]);
      FoldSettingIs(p, pairs[0]);
      FoldAppend(p, AssignmentsOf(pairs[0]), Assignments(pairs[1..]));
      assert KeysNamed(pairs) <==> IsText(KeyOf(pairs[0])) && KeysNamed(pairs[1..]) by {
        assert forall i | 0 < i < |pairs| :: pairs[i] == pairs[1..][i - 1];
      }
      if FoldSetting(p, pairs[0]).Ok? {
        FoldPoolIs(FoldSetting(p, pairs[0]).value, pairs[1..]);
      }
    }
  }

  /** The condition on one pool of a document, given what its memory held before. Since max_slots is
      never initialised, it counts as set unless the memory happens to hold -1. */
  predicate PoolReads(memory: Pool, pair: Pair)
    requires IsTwoLevelPair(pair)
  {
    && IsText(pair.key.value)
    && KeysNamed(pair.value.pairs)
    && Clean(InitPool(memory, pair.key.value), Assignments(pair.value.pairs))
  }

  predicate PoolsRead(mem: Memory, pairs: seq<Pair>, base: nat) {
    forall i | 0 <= i < |pairs| :: IsTwoLevelPair(pairs[i]) && PoolReads(mem(base + i), pairs[i])
  }

  lemma PoolsReadStep(mem: Memory, pairs: seq<Pair>, base: nat)
    requires pairs != [] && IsTwoLevelPair(pairs[0])
    ensures PoolsRead(mem, pairs, base) <==> PoolReads(mem(base), pairs[0]) && PoolsRead(mem, pairs[1..], base + 1)
  {
    hide IsTwoLevelPair, PoolReads;
    var rest := pairs[1..];
    if PoolsRead(mem, pairs, base) {
      assert mem(base + 0) == mem(base);
      forall i | 0 <= i < |rest| ensures IsTwoLevelPair(rest[i]) && PoolReads(mem(base + 1 + i), rest[i]) {
        assert rest[i] == pairs[i + 1] && base + 1 + i == base + (i + 1);
      }
    }
    if PoolReads(mem(base), pairs[0]) && PoolsRead(mem, rest, base + 1) {
      forall i | 0 <= i < |pairs| ensures IsTwoLevelPair(pairs[i]) && PoolReads(mem(base + i), pairs[i]) {
        if i > 0 {
          assert pairs[i] == rest[i - 1] && base + 1 + (i - 1) == base + i;
        }
      }
    }
  }

  /** A document is read if and only if each of its pools is. */
  lemma {:induction false} FoldRootSucceedsIff(mem: Memory, pairs: seq<Pair>, pools: seq<Pool>)
    requires AllTwoLevel(pairs)
    ensures FoldRoot(mem, pairs, pools).Ok? <==> PoolsRead(mem, pairs, |pools|)
    decreases |pairs|
  {
    if pairs != [] {
      var pair, memory := pairs[0], mem(|pools|);
      assert IsTwoLevelPair(pair);
      hide PoolReads, PoolsRead, FoldPool, InitPool, IsTwoLevelPair;
      TwoLevelParts(pair);
      OnePool(memory, pair);
      PoolsReadStep(mem, pairs, |pools|);
      var r := FoldPool(InitPool(memory, pair.key.value), pair.value.pairs);
      if PoolReads(memory, pair) {
        FoldRootSucceedsIff(mem, pairs[1..], pools + [r.value]);
      }
    }
  }

  lemma OnePool(memory: Pool, pair: Pair)
    requires IsTwoLevelPair(pair)
    ensures PoolReads(memory, pair) <==>
            IsText(pair.key.value) && FoldPool(InitPool(memory, pair.key.value), pair.value.pairs).Ok?
  {
    hide Clean, FoldPool, KeysNamed, InitPool;
    var p := InitPool(memory, pair.key.value);
    FoldPoolIs(p, pair.value.pairs);
    FoldSucceedsIffClean(p, Assignments(pair.value.pairs));
  }

  /** The pool is what reading the pair's assignments makes of a pool of its name. */
  ghost predicate IsReadFrom(pool: Pool, memory: Pool, pair: Pair) {
    && IsTwoLevelPair(pair)
    && Ok(pool) == FoldAssignments(InitPool(memory, KeyOf(pair)), Assignments(pair.value.pairs))
    && Becomes(Pool(KeyOf(pair), -1, "", -1, -1, -1, memory.maxSlots, ""), Assignments(pair.value.pairs), pool)
  }

  lemma OnePoolReads(memory: Pool, pair: Pair)
    requires IsTwoLevelPair(pair) && FoldPool(InitPool(memory, pair.key.value), pair.value.pairs).Ok?
    ensures IsReadFrom(FoldPool(InitPool(memory, pair.key.value), pair.value.pairs).value, memory, pair)
  {
    hide FoldPool, InitPool, KeysNamed, Assignments;
    FoldPoolIs(InitPool(memory, pair.key.value), pair.value.pairs);
    FieldsBecome(InitPool(memory, pair.key.value), Assignments(pair.value.pairs));
    InitPoolIs(memory, pair.key.value);
  }

  lemma InitPoolIs(memory: Pool, name: string)
    ensures InitPool(memory, name) == Pool(name, -1, "", -1, -1, -1, memory.maxSlots, "")
  {
  }

  lemma OneAfter(all: seq<Pool>, pools: seq<Pool>, q: Pool)
    requires |all| > |pools| && all[..|pools| + 1] == pools + [q]
    ensures all[..|pools|] == pools && all[|pools|] == q
  {
    assert all[..|pools|] == all[..|pools| + 1][..|pools|];
    assert all[|pools|] == all[..|pools| + 1][|pools|];
  }

  lemma FoldRootFirst(mem: Memory, pairs: seq<Pair>, pools: seq<Pool>) returns (q: Pool)
    requires AllTwoLevel(pairs) && pairs != [] && FoldRoot(mem, pairs, pools).Ok?
    ensures AllTwoLevel(pairs[1..]) && FoldRoot(mem, pairs, pools) == FoldRoot(mem, pairs[1..], pools + [q])
    ensures IsReadFrom(q, mem(|pools|), pairs[0])
  {
    hide FoldPool, InitPool, IsReadFrom;
    var pair := pairs[0];
    assert IsTwoLevelPair(pair);
    q := FoldPool(InitPool(mem(|pools|), pair.key.value), pair.value.pairs).value;
    OnePoolReads(mem(|pools|), pair);
  }

  lemma FoldRootNothing(mem: Memory, pairs: seq<Pair>, pools: seq<Pool>)
    requires AllTwoLevel(pairs) && pairs == []
    ensures FoldRoot(mem, pairs, pools) == Ok(pools)
  {
  }

  /** And then it gives one pool for each root key, in order, each read from that key's mapping. */
  lemma {:induction false} FoldRootReads(mem: Memory, pairs: seq<Pair>, pools: seq<Pool>)
    requires AllTwoLevel(pairs) && FoldRoot(mem, pairs, pools).Ok?
    ensures var all := FoldRoot(mem, pairs, pools).value;
            && |all| == |pools| + |pairs| && all[..|pools|] == pools
            && forall i | 0 <= i < |pairs| :: IsReadFrom(all[|pools| + i], mem(|pools| + i), pairs[i])
    decreases |pairs|
  {
    hide FoldRoot, AllTwoLevel, IsReadFrom;
    var all := FoldRoot(mem, pairs, pools).value;
    if pairs == [] {
      FoldRootNothing(mem, pairs, pools);
    } else {
      var q := FoldRootFirst(mem, pairs, pools);
      FoldRootReads(mem, pairs[1..], pools + [q]);
      OneAfter(all, pools, q);
      forall i | 0 < i < |pairs| ensures IsReadFrom(all[|pools| + i], mem(|pools| + i), pairs[i]) {
        assert pairs[i] == pairs[1..][i - 1] && |pools| + i == |pools + [q]| + (i - 1);
      }
    }
  }

  /** A pool that has just been begun has every field free, except that max_slots is free only if the
      memory happened to hold -1 there. */
  lemma FreshPoolIsFree(memory: Pool, name: string, key: string)
    requires IsKnown(key)
    ensures IsFree(InitPool(memory, name), key) <==> key != "max_slots" || memory.maxSlots == UNSET
  {
  }
}
