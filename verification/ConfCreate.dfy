/** conf.c, from the events of a document to a configuration that is accepted or refused: the
    validator, the parser and the checks after parsing, one after the other. */
module ConfCreate {
  import opened ParserSpec
  import opened Parser
  import opened PostValidate
  import opened Settings
  import opened Text
  import opened Yaml
  import Validator

  /** No two root keys are equal. */
  ghost predicate KeysDiffer(pairs: seq<Pair>) {
    forall i, j | 0 <= i < j < |pairs| :: KeyOf(pairs[i]) != KeyOf(pairs[j])
  }

  /** The pools of a document that can be read, before their defaults. */
  ghost function PoolsOf(mem: Memory, pairs: seq<Pair>): seq<Pool>
    requires AllTwoLevel(pairs)
  {
    var r := FoldRoot(mem, pairs, []);
    if r.Ok? then r.value else []
  }

  /** The pool that a root key and its mapping stand for, once the defaults are filled in: every field
      holds the value given to its key, or what it holds without one. */
  ghost predicate IsConfigured(pool: Pool, memory: Pool, pair: Pair) {
    && IsTwoLevelPair(pair)
    && Becomes(Pool(KeyOf(pair), 5432, "", -1, -1, 512, memory.maxSlots, ""), Assignments(pair.value.pairs), pool)
  }

  /** One such pool for every root key, and no others. */
  ghost predicate Configures(pools: seq<Pool>, mem: Memory, pairs: seq<Pair>) {
    && |pools| == |pairs|
    && forall i | 0 <= i < |pairs| :: exists pool | pool in pools :: IsConfigured(pool, mem(i), pairs[i])
  }

  lemma DefaultsConfigure(pool: Pool, memory: Pool, pair: Pair)
    requires IsReadFrom(pool, memory, pair)
    ensures IsConfigured(Defaults(pool), memory, pair)
  {
    var a := Assignments(pair.value.pairs);
    FoldSucceedsIffClean(InitPool(memory, KeyOf(pair)), a);
    hide FoldAssignments, Assignments, InitPool, KeyOf;
    GivenNumber(a, "port", 5432, pool.port);
    GivenNumber(a, "timeout", -1, pool.timeout);
    GivenNumber(a, "backlog", 512, pool.backlog);
  }

  lemma GivenNumber(a: seq<Assignment>, key: string, default: int, after: int)
    requires NumberBecomes(a, key, -1, after) && IsNumKey(key) && forall i | 0 <= i < |a| :: IsProper(a[i])
    ensures NumberBecomes(a, key, default, if after == -1 then default else after)
  {
  }

  /** What all pools read and given their defaults are, in any order. */
  lemma AllConfigured(pools: seq<Pool>, outcome: seq<Pool>, mem: Memory, pairs: seq<Pair>)
    requires |pools| == |pairs| && forall i | 0 <= i < |pairs| :: IsReadFrom(pools[i], mem(i), pairs[i])
    requires multiset(outcome) == multiset(AllDefaults(pools))
    ensures Configures(outcome, mem, pairs)
  {
    hide IsReadFrom, IsConfigured, Defaults;
    var given := AllDefaults(pools);
    assert |outcome| == |multiset(outcome)| == |given|;
    forall i | 0 <= i < |pairs| ensures exists pool | pool in outcome :: IsConfigured(pool, mem(i), pairs[i]) {
      DefaultsConfigure(pools[i], mem(i), pairs[i]);
      assert given[i] in given;
      MemberOf(given[i], given, outcome);
    }
  }

  /** Every pool is named by its root key, which is not empty and has no NUL in it. */
  lemma PoolNames(mem: Memory, pairs: seq<Pair>)
    requires AllTwoLevel(pairs) && PoolsRead(mem, pairs, 0)
    ensures FoldRoot(mem, pairs, []).Ok?
    ensures var pools := PoolsOf(mem, pairs);
            |pools| == |pairs| &&
            forall i | 0 <= i < |pools| :: pools[i].name == KeyOf(pairs[i]) && IsText(KeyOf(pairs[i]))
  {
    hide FoldRoot, FoldAssignments, InitPool, Assignments, Becomes;
    var none: seq<Pool> := [];
    FoldRootSucceedsIff(mem, pairs, none);
    FoldRootReads(mem, pairs, none);
    var pools := PoolsOf(mem, pairs);
    forall i | 0 <= i < |pools| ensures pools[i].name == KeyOf(pairs[i]) && IsText(KeyOf(pairs[i])) {
      var p := InitPool(mem(i), KeyOf(pairs[i]));
      assert pools[|none| + i] == pools[i];
      FoldSucceedsIffClean(p, Assignments(pairs[i].value.pairs));
      InitNames(mem(i), KeyOf(pairs[i]));
    }
  }

  lemma InitNames(memory: Pool, name: string)
    ensures InitPool(memory, name).name == name
  {
  }

  /** So the check on names is a check on the root keys. */
  lemma NamesAreKeys(mem: Memory, pairs: seq<Pair>)
    requires AllTwoLevel(pairs) && PoolsRead(mem, pairs, 0)
    ensures Distinct(AllDefaults(PoolsOf(mem, pairs)), SameName) <==> KeysDiffer(pairs)
  {
    PoolNames(mem, pairs);
    hide PoolsOf, PoolsRead, StringCompare, KeyOf;
    var given := AllDefaults(PoolsOf(mem, pairs));
    forall i, j | 0 <= i < j < |given|
      ensures SameName(given[i], given[j]) <==> KeyOf(pairs[i]) == KeyOf(pairs[j])
    {
      CompareZero(KeyOf(pairs[i]), KeyOf(pairs[j]));
    }
  }

  /** There are such orders as `Create` asks for. */
  lemma OrdersExist()
    ensures forall s :: Sorts(Sorted(s, AddrCmp), s, AddrCmp)
    ensures forall s :: Sorts(Sorted(s, NameCmp), s, NameCmp)
  {
    BothAreOrders();
    forall s ensures Sorts(Sorted(s, AddrCmp), s, AddrCmp) && Sorts(Sorted(s, NameCmp), s, NameCmp) {
      SortedSorts(s, AddrCmp);
      SortedSorts(s, NameCmp);
    }
  }

  /** conf_create on a document of one stream, for any orders in which the sorts leave equal pools.
      It succeeds if and only if the document has the structure, every pool can be read, there is a
      pool, the root keys differ, and no two neighbours in the order of addresses share address and
      port; and then it holds the pools read from the tree, with their defaults, in order of names. */
  method Create(events: seq<Event>, ghost root: Node, mem: Memory,
                byAddr: seq<Pool> -> seq<Pool>, byName: seq<Pool> -> seq<Pool>)
    returns (cf: Conf?)
    requires events == Stream(root)
    requires forall s :: Sorts(byAddr(s), s, AddrCmp)
    requires forall s :: Sorts(byName(s), s, NameCmp)
    requires Validator.Conforms(root) ==> AllTwoLevel(root.pairs) && FoldRoot(mem, root.pairs, []) != Err(Undefined)
    ensures cf != null <==>
            && Validator.Conforms(root) && AllTwoLevel(root.pairs) && PoolsRead(mem, root.pairs, 0)
            && root.pairs != [] && KeysDiffer(root.pairs)
            && Apart(byAddr(AllDefaults(PoolsOf(mem, root.pairs))), SameListen)
    ensures cf != null ==>
              && cf.Valid() && cf.arg.nelem == 0
              && Sorts(cf.pool.Contents(), AllDefaults(PoolsOf(mem, root.pairs)), NameCmp)
              && Configures(cf.pool.Contents(), mem, root.pairs) && InOrderOfNames(cf.pool.Contents())
  {
    hide Validator.Conforms, AllTwoLevel, FoldRoot, PoolsRead, KeysDiffer, Apart, Distinct, Stream,
      AllDefaults, Ordered, Configures, InOrderOfNames, IsReadFrom, NoNul, KeyOf;
    var status := Validator.ValidateStructure(events, root);
    if status != 0 {
      return null;
    }
    Conforming(root);
    FoldRootSucceedsIff(mem, root.pairs, []);
    cf := new Conf(events, mem);
    status := cf.Parse(root);
    if status != 0 {
      return null;
    }
    NamesAreKeys(mem, root.pairs);
    PoolNames(mem, root.pairs);
    ghost var pools := cf.pool.Contents();
    var sorted := byAddr(AllDefaults(cf.pool.elem[..cf.pool.nelem]));
    status := PostValidate.PostValidate(cf.pool, sorted, byName(sorted));
    if status != 0 {
      return null;
    }
    AllConfigured(pools, cf.pool.Contents(), mem, root.pairs);
    NamesWithoutNul(pools, cf.pool.Contents());
  }

  lemma NamesWithoutNul(pools: seq<Pool>, outcome: seq<Pool>)
    requires multiset(outcome) == multiset(AllDefaults(pools)) && forall i | 0 <= i < |pools| :: NoNul(pools[i].name)
    ensures forall i | 0 <= i < |outcome| :: NoNul(outcome[i].name)
  {
    hide NoNul;
    forall i | 0 <= i < |outcome| ensures NoNul(outcome[i].name) {
      MemberOf(outcome[i], outcome, AllDefaults(pools));
    }
  }

  lemma Conforming(root: Node)
    requires Validator.Conforms(root)
    ensures root.MappingNode? && AllTwoLevel(root.pairs)
  {
    ConformingIsTwoLevel(root);
  }
}
